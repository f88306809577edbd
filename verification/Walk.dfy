/** Directory walks: which files the S3, Azure and GCS uploads hand to their stores, and what
    executor/dir_size.go adds up.  `filepath.Walk` visits a directory's entries in the order of its
    sorted listing, and reports a directory it cannot list to the callback. */
module Walk {
  import opened Options
  import opened Totals
  import opened Strings
  import opened Paths
  import opened KeyMapping
  import opened Decimal
  import opened Base64

  datatype Node = File(content: seq<Byte>) | Dir(listable: bool, entries: seq<Entry>)

  datatype Entry = Entry(name: string, node: Node)

  datatype Found = Found(rel: seq<string>, content: seq<Byte>)

  /** The files below a node in walk order; with `all`, also those below directories that cannot be listed. */
  function Files(node: Node, rel: seq<string>, all: bool): seq<Found>
    decreases node, 1
  {
    match node
    case File(content) => [Found(rel, content)]
    case Dir(listable, entries) => if listable || all then FilesBelow(entries, rel, all) else []
  }

  function FilesBelow(entries: seq<Entry>, rel: seq<string>, all: bool): seq<Found>
    decreases entries, 0
  {
    if entries == [] then [] else
    var last := entries[|entries| - 1];
    FilesBelow(entries[..|entries| - 1], rel, all) + Files(last.node, rel + [last.name], all)
  }

  predicate Listable(node: Node) {
    node.Dir? ==> node.listable && forall i :: 0 <= i < |node.entries| ==> Listable(node.entries[i].node)
  }

  /** Names in a listing are distinct file names. */
  ghost predicate WellFormed(node: Node)
    decreases node, 1
  {
    node.Dir? ==> WellFormedEntries(node.entries)
  }

  ghost predicate WellFormedEntries(entries: seq<Entry>)
    decreases entries, 0
  {
    && (forall i :: 0 <= i < |entries| ==> IsName(entries[i].name) && WellFormed(entries[i].node))
    && (forall i, j :: 0 <= i < j < |entries| ==> entries[i].name != entries[j].name)
  }

  /** On a tree that can be listed throughout, nothing is skipped. */
  lemma {:induction false} NothingSkipped(node: Node, rel: seq<string>)
    requires Listable(node)
    ensures Files(node, rel, false) == Files(node, rel, true)
    decreases node, 1
  {
    if node.Dir? {
      NothingSkippedBelow(node.entries, rel);
    }
  }

  lemma {:induction false} NothingSkippedBelow(entries: seq<Entry>, rel: seq<string>)
    requires forall i :: 0 <= i < |entries| ==> Listable(entries[i].node)
    ensures FilesBelow(entries, rel, false) == FilesBelow(entries, rel, true)
    decreases entries, 0
  {
    if entries != [] {
      var n := |entries| - 1;
      NothingSkippedBelow(entries[..n], rel);
      NothingSkipped(entries[n].node, rel + [entries[n].name]);
    }
  }

  // ------------------------------------------------------------------
  // What is listed
  // ------------------------------------------------------------------

  /** Following the names of `path` down from `node` leads to a file with this content; without `all`, only
      directories that can be listed are entered. */
  ghost predicate At(node: Node, path: seq<string>, content: seq<Byte>, all: bool)
    decreases node
  {
    if path == [] then node == File(content)
    else
      && node.Dir? && (node.listable || all)
      && exists i :: 0 <= i < |node.entries| && node.entries[i].name == path[0] && At(node.entries[i].node, path[1..], content, all)
  }

  /** The walk lists exactly the files of the tree, each with its path and its content. */
  lemma {:induction false} FilesExact(node: Node, rel: seq<string>, all: bool, f: Found)
    ensures f in Files(node, rel, all) <==> rel <= f.rel && At(node, f.rel[|rel|..], f.content, all)
    decreases node, 1
  {
    match node
    case File(content) =>
      assert f.rel == rel <==> rel <= f.rel && f.rel[|rel|..] == [];
    case Dir(listable, entries) =>
      if listable || all {
        EntriesExact(entries, rel, all, f);
        assert rel <= f.rel && f.rel[|rel|..] == [] ==> f.rel == rel;
      }
  }

  /** The file lies below this entry. */
  ghost predicate BelowEntry(entry: Entry, rel: seq<string>, all: bool, f: Found) {
    |rel| < |f.rel| && rel <= f.rel && entry.name == f.rel[|rel|] && At(entry.node, f.rel[|rel| + 1..], f.content, all)
  }

  lemma {:induction false} EntriesExact(entries: seq<Entry>, rel: seq<string>, all: bool, f: Found)
    ensures f in FilesBelow(entries, rel, all) <==> exists i :: 0 <= i < |entries| && BelowEntry(entries[i], rel, all, f)
    decreases entries, 0
  {
    if entries != [] {
      var n := |entries| - 1;
      var sub := rel + [entries[n].name];
      EntriesExact(entries[..n], rel, all, f);
      FilesExact(entries[n].node, sub, all, f);
      assert sub <= f.rel <==> |rel| < |f.rel| && rel <= f.rel && entries[n].name == f.rel[|rel|];
      assert f in Files(entries[n].node, sub, all) <==> BelowEntry(entries[n], rel, all, f);
      if i :| 0 <= i < n && BelowEntry(entries[..n][i], rel, all, f) {
        assert BelowEntry(entries[i], rel, all, f);
      }
      if i :| 0 <= i < |entries| && BelowEntry(entries[i], rel, all, f) {
        assert i < n ==> BelowEntry(entries[..n][i], rel, all, f);
      }
    }
  }

  // ------------------------------------------------------------------
  // Every file once
  // ------------------------------------------------------------------

  /** A file found below `rel` has a path of names that starts with `rel`. */
  ghost predicate Beneath(f: Found, rel: seq<string>) {
    rel <= f.rel && AllNames(f.rel)
  }

  lemma {:induction false} FilesBeneath(node: Node, rel: seq<string>, all: bool, f: Found)
    requires WellFormed(node) && AllNames(rel) && f in Files(node, rel, all)
    ensures Beneath(f, rel)
    decreases node, 1
  {
    if node.Dir? {
      var k := EntriesBeneath(node.entries, rel, all, f);
    }
  }

  /** ... and it lies below one of the entries. */
  lemma {:induction false} EntriesBeneath(entries: seq<Entry>, rel: seq<string>, all: bool, f: Found) returns (k: nat)
    requires WellFormedEntries(entries) && AllNames(rel) && f in FilesBelow(entries, rel, all)
    ensures k < |entries| && Beneath(f, rel + [entries[k].name])
    decreases entries, 0
  {
    var n := |entries| - 1;
    if f in FilesBelow(entries[..n], rel, all) {
      k := EntriesBeneath(entries[..n], rel, all, f);
    } else {
      FilesBeneath(entries[n].node, rel + [entries[n].name], all, f);
      k := n;
    }
  }

  ghost predicate Distinct(files: seq<Found>) {
    forall i, j :: 0 <= i < j < |files| ==> files[i].rel != files[j].rel
  }

  /** No file is listed twice. */
  lemma {:induction false} FilesDistinct(node: Node, rel: seq<string>, all: bool)
    requires WellFormed(node) && AllNames(rel)
    ensures Distinct(Files(node, rel, all))
    decreases node, 1
  {
    if node.Dir? && (node.listable || all) {
      EntriesDistinct(node.entries, rel, all);
    }
  }

  lemma {:induction false} EntriesDistinct(entries: seq<Entry>, rel: seq<string>, all: bool)
    requires WellFormedEntries(entries) && AllNames(rel)
    ensures Distinct(FilesBelow(entries, rel, all))
    decreases entries, 0
  {
    if entries != [] {
      var n := |entries| - 1;
      var sub := rel + [entries[n].name];
      EntriesDistinct(entries[..n], rel, all);
      FilesDistinct(entries[n].node, sub, all);
      var front, back := FilesBelow(entries[..n], rel, all), Files(entries[n].node, sub, all);
      forall i, j | 0 <= i < |front| && 0 <= j < |back|
        ensures front[i].rel != back[j].rel
      {
        var k := EntriesBeneath(entries[..n], rel, all, front[i]);
        FilesBeneath(entries[n].node, sub, all, back[j]);
        assert front[i].rel[|rel|] == entries[k].name && back[j].rel[|rel|] == entries[n].name;
      }
    }
  }

  /** Every listing is in byte-wise order of the names, as `filepath.Walk` sorts it. */
  ghost predicate Sorted(node: Node)
    decreases node, 1
  {
    node.Dir? ==> SortedEntries(node.entries)
  }

  ghost predicate SortedEntries(entries: seq<Entry>)
    decreases entries, 0
  {
    && (forall i :: 0 <= i < |entries| ==> Sorted(entries[i].node))
    && (forall i, j :: 0 <= i < j < |entries| ==> Less(entries[i].name, entries[j].name))
  }

  /** The paths part at some component, where the first has the smaller name. */
  ghost predicate PathBefore(a: seq<string>, b: seq<string>) {
    exists k :: 0 <= k < |a| && k < |b| && a[..k] == b[..k] && Less(a[k], b[k])
  }

  ghost predicate InWalkOrder(files: seq<Found>) {
    forall i, j :: 0 <= i < j < |files| ==> PathBefore(files[i].rel, files[j].rel)
  }

  /** The files come in the order of their paths, component by component. */
  lemma {:induction false} FilesInWalkOrder(node: Node, rel: seq<string>, all: bool)
    requires Sorted(node)
    ensures InWalkOrder(Files(node, rel, all))
    decreases node, 1
  {
    if node.Dir? && (node.listable || all) {
      EntriesInWalkOrder(node.entries, rel, all);
    }
  }

  lemma {:induction false} EntriesInWalkOrder(entries: seq<Entry>, rel: seq<string>, all: bool)
    requires SortedEntries(entries)
    ensures InWalkOrder(FilesBelow(entries, rel, all))
    decreases entries, 0
  {
    if entries != [] {
      var n := |entries| - 1;
      var sub := rel + [entries[n].name];
      EntriesInWalkOrder(entries[..n], rel, all);
      FilesInWalkOrder(entries[n].node, sub, all);
      var front, back := FilesBelow(entries[..n], rel, all), Files(entries[n].node, sub, all);
      forall i, j | 0 <= i < |front| && 0 <= j < |back|
        ensures PathBefore(front[i].rel, back[j].rel)
      {
        EntriesExact(entries[..n], rel, all, front[i]);
        FilesExact(entries[n].node, sub, all, back[j]);
        var k :| 0 <= k < n && BelowEntry(entries[..n][k], rel, all, front[i]);
        assert back[j].rel[|rel|] == sub[|rel|] == entries[n].name;
        assert front[i].rel[..|rel|] == rel == sub[..|rel|] == back[j].rel[..|rel|];
      }
    }
  }

  // ------------------------------------------------------------------
  // The walks
  // ------------------------------------------------------------------

  /** Which of the two key mappings a destination uses. */
  datatype Mapping = ReplaceAll | Relative

  /** A dated folder at a destination, for files below `localDir`. */
  datatype Target = Target(mapping: Mapping, remotePath: string, localDir: string) {

    /** The key of the file `rel` below the directory; `None` if no relative path exists. */
    function KeyOf(rel: seq<string>): Option<string> {
      var path := WalkPath(localDir, rel);
      match mapping
      case ReplaceAll => Some(ReplaceKey(remotePath, localDir, path))
      case Relative => RelKey(remotePath, localDir, path)
    }

    function Keys(): KeyFunction {
      rel => KeyOf(rel)
    }
  }

  /** A write to a store: what goes under which key, if there is one. */
  datatype Write = Write(key: Option<string>, content: seq<Byte>)

  /** How a destination names files. */
  type KeyFunction = seq<string> -> Option<string>

  function WriteOf(keyOf: KeyFunction, f: Found): Write {
    Write(keyOf(f.rel), f.content)
  }

  function Writes(keyOf: KeyFunction, files: seq<Found>): (ws: seq<Write>)
    ensures |ws| == |files|
    ensures forall i :: 0 <= i < |files| ==> ws[i] == WriteOf(keyOf, files[i])
  {
    seq(|files|, i requires 0 <= i < |files| => WriteOf(keyOf, files[i]))
  }

  /** The store after the writes in order; a later one overwrites an earlier one under the same key. */
  function Stored(objects: map<string, seq<Byte>>, ws: seq<Write>): map<string, seq<Byte>> {
    if ws == [] then objects else
    var rest := Stored(objects, ws[..|ws| - 1]);
    match ws[|ws| - 1].key
    case None => rest
    case Some(key) => rest[key := ws[|ws| - 1].content]
  }

  lemma {:induction false} StoredConcat(objects: map<string, seq<Byte>>, a: seq<Write>, b: seq<Write>)
    ensures Stored(objects, a + b) == Stored(Stored(objects, a), b)
  {
    if b == [] {
      assert a + b == a;
    } else {
      var n := |b| - 1;
      assert (a + b)[..|a| + n] == a + b[..n];
      StoredConcat(objects, a, b[..n]);
    }
  }

  lemma StoredOne(objects: map<string, seq<Byte>>, w: Write)
    requires w.key.Some?
    ensures Stored(objects, [w]) == objects[w.key.value := w.content]
  {
    assert [w][..0] == [];
  }

  /** An object store.  It records the files handed to it, may refuse one, and then notes the first it
      refused. */
  class Store {
    var objects: map<string, seq<Byte>>
    var handed: seq<Found>
    var refusedAt: Option<nat>

    constructor (objects: map<string, seq<Byte>>)
      ensures this.objects == objects && handed == [] && refusedAt == None
    {
      this.objects, handed, refusedAt := objects, [], None;
    }

    /** The upload of one file. */
    method Put(keyOf: KeyFunction, f: Found) returns (ok: bool)
      modifies this
      ensures handed == old(handed) + [f]
      ensures refusedAt == if ok || old(refusedAt).Some? then old(refusedAt) else Some(|old(handed)|)
      ensures ok ==> objects == Stored(old(objects), Writes(keyOf, [f]))
    {
      ok := *;
      handed := handed + [f];
      var key := keyOf(f.rel);
      if key.None? {
        ok := false;
      } else if ok {
        objects := objects[key.value := f.content];
        StoredOne(old(objects), WriteOf(keyOf, f));
        assert Writes(keyOf, [f]) == [WriteOf(keyOf, f)];
      }
      if !ok && refusedAt.None? {
        refusedAt := Some(|handed| - 1);
      }
    }
  }

  /** Exactly `files` were handed over, in order, and stored. */
  ghost predicate Done(keyOf: KeyFunction, handed: seq<Found>, handed': seq<Found>,
                       objects: map<string, seq<Byte>>, objects': map<string, seq<Byte>>, files: seq<Found>) {
    handed' == handed + files && objects' == Stored(objects, Writes(keyOf, files))
  }

  lemma DoneNext(keyOf: KeyFunction, h0: seq<Found>, h1: seq<Found>, h2: seq<Found>, o0: map<string, seq<Byte>>,
                 o1: map<string, seq<Byte>>, o2: map<string, seq<Byte>>, a: seq<Found>, b: seq<Found>)
    requires Done(keyOf, h0, h1, o0, o1, a) && Done(keyOf, h1, h2, o1, o2, b)
    ensures Done(keyOf, h0, h2, o0, o2, a + b)
  {
    assert h0 + a + b == h0 + (a + b);
    assert Writes(keyOf, a + b) == Writes(keyOf, a) + Writes(keyOf, b);
    StoredConcat(o0, Writes(keyOf, a), Writes(keyOf, b));
  }

  /** `handed'` is `handed` and then some of `files`, in order. */
  ghost predicate HandedSome(handed: seq<Found>, handed': seq<Found>, files: seq<Found>) {
    handed <= handed' <= handed + files
  }

  lemma HandedConcat(before: seq<Found>, mid: seq<Found>, now: seq<Found>, front: seq<Found>, next: seq<Found>, whole: seq<Found>)
    requires mid == before + front && HandedSome(mid, now, next)
    requires front + next <= whole
    ensures HandedSome(before, now, whole)
  {
    assert before + front + next == before + (front + next);
  }

  lemma FilesBelowNext(entries: seq<Entry>, i: nat, rel: seq<string>, all: bool)
    requires i < |entries|
    ensures FilesBelow(entries[..i + 1], rel, all)
         == FilesBelow(entries[..i], rel, all) + Files(entries[i].node, rel + [entries[i].name], all)
  {
    assert entries[..i + 1][..i] == entries[..i];
  }

  lemma {:induction false} FilesBelowPrefix(entries: seq<Entry>, i: nat, rel: seq<string>, all: bool)
    requires i <= |entries|
    ensures FilesBelow(entries[..i], rel, all) <= FilesBelow(entries, rel, all)
    decreases |entries| - i
  {
    if i == |entries| {
      assert entries[..i] == entries;
    } else {
      FilesBelowNext(entries, i, rel, all);
      FilesBelowPrefix(entries, i + 1, rel, all);
    }
  }

  /** The walk of S3 (s3.go) and Azure passes over a directory it cannot list in silence; the walk of GCS
      (`strict`) treats it as an error.  Nil means that every file, except below directories passed over,
      was handed over and stored exactly once, in order, and for GCS that there were no such directories;
      nothing is handed over after the first refusal. */
  method WalkTree(node: Node, rel: seq<string>, strict: bool, keyOf: KeyFunction, store: Store) returns (ok: bool)
    requires store.refusedAt.None?
    modifies store
    ensures ok <==> store.refusedAt.None? && (strict ==> Listable(node))
    ensures ok ==> Done(keyOf, old(store.handed), store.handed, old(store.objects), store.objects, Files(node, rel, strict))
    ensures HandedSome(old(store.handed), store.handed, Files(node, rel, strict))
    ensures store.refusedAt.Some? ==> store.refusedAt.value == |store.handed| - 1
    decreases node, 1
  {
    match node
    case File(content) =>
      ok := store.Put(keyOf, Found(rel, content));
    case Dir(listable, entries) =>
      if !listable {
        return !strict;
      }
      ok := WalkEntries(entries, rel, strict, keyOf, store);
  }

  /** The part of the walk that goes through one listing. */
  method WalkEntries(entries: seq<Entry>, rel: seq<string>, strict: bool, keyOf: KeyFunction, store: Store) returns (ok: bool)
    requires store.refusedAt.None?
    modifies store
    ensures ok <==> store.refusedAt.None? && (strict ==> forall k :: 0 <= k < |entries| ==> Listable(entries[k].node))
    ensures ok ==> Done(keyOf, old(store.handed), store.handed, old(store.objects), store.objects, FilesBelow(entries, rel, strict))
    ensures HandedSome(old(store.handed), store.handed, FilesBelow(entries, rel, strict))
    ensures store.refusedAt.Some? ==> store.refusedAt.value == |store.handed| - 1
    decreases entries, 0
  {
    var i := 0;
    ghost var handed, objects := store.handed, store.objects;
    while i < |entries|
      invariant 0 <= i <= |entries| && store.refusedAt.None?
      invariant strict ==> forall k :: 0 <= k < i ==> Listable(entries[k].node)
      invariant Done(keyOf, handed, store.handed, objects, store.objects, FilesBelow(entries[..i], rel, strict))
    {
      ghost var midHanded, midObjects := store.handed, store.objects;
      ok := WalkTree(entries[i].node, rel + [entries[i].name], strict, keyOf, store);
      ghost var front, next := FilesBelow(entries[..i], rel, strict), Files(entries[i].node, rel + [entries[i].name], strict);
      FilesBelowNext(entries, i, rel, strict);
      if !ok {
        FilesBelowPrefix(entries, i + 1, rel, strict);
        HandedConcat(handed, midHanded, store.handed, front, next, FilesBelow(entries, rel, strict));
        return;
      }
      DoneNext(keyOf, handed, midHanded, store.handed, objects, midObjects, store.objects, front, next);
      i := i + 1;
    }
    assert entries[..i] == entries;
    ok := true;
  }

  // ------------------------------------------------------------------
  // Directory size
  // ------------------------------------------------------------------

  const TWO_63: int := 0x8000_0000_0000_0000

  /** The range of `int64`. */
  predicate IsInt64(x: int) {
    -TWO_63 <= x < TWO_63
  }

  /** Wrap-around of `int64`. */
  function Wrap(x: int): (r: int)
    ensures IsInt64(r)
    ensures r == x - (x + TWO_63) / (2 * TWO_63) * (2 * TWO_63)
  {
    (x + TWO_63) % (2 * TWO_63) - TWO_63
  }

  /** `sum` is `size + total` as `int64` addition leaves it after `wraps` wrap-arounds. */
  predicate SumsTo(sum: int, size: int, total: nat, wraps: int) {
    IsInt64(sum) && sum == size + total - wraps * (2 * TWO_63)
  }

  lemma SumsNext(sum: int, next: int, size: int, t: nat, u: nat, v: int, w: int)
    requires SumsTo(sum, size, t, v) && SumsTo(next, sum, u, w)
    ensures SumsTo(next, size, t + u, v + w)
  {
    assert (v + w) * (2 * TWO_63) == v * (2 * TWO_63) + w * (2 * TWO_63);
  }

  function SizeOf(f: Found): nat {
    |f.content|
  }

  lemma {:induction false} TotalConcat(a: seq<Found>, b: seq<Found>)
    ensures Total(a + b, SizeOf) == Total(a, SizeOf) + Total(b, SizeOf)
  {
    if b == [] {
      assert a + b == a;
    } else {
      var n := |b| - 1;
      assert (a + b)[..|a| + n] == a + b[..n];
      TotalConcat(a, b[..n]);
    }
  }

  /** The bytes in all files below a node. */
  function Size(node: Node): nat
    decreases node, 1
  {
    match node
    case File(content) => |content|
    case Dir(_, entries) => SizeBelow(entries)
  }

  function SizeBelow(entries: seq<Entry>): nat
    decreases entries, 0
  {
    if entries == [] then 0 else SizeBelow(entries[..|entries| - 1]) + Size(entries[|entries| - 1].node)
  }

  /** They are the bytes of the files listed. */
  lemma {:induction false} SizeOfFiles(node: Node, rel: seq<string>)
    ensures Total(Files(node, rel, true), SizeOf) == Size(node)
    decreases node, 1
  {
    match node
    case File(content) => TotalAppend([], Found(rel, content), SizeOf);
    case Dir(_, entries) => SizeOfFilesBelow(entries, rel);
  }

  lemma {:induction false} SizeOfFilesBelow(entries: seq<Entry>, rel: seq<string>)
    ensures Total(FilesBelow(entries, rel, true), SizeOf) == SizeBelow(entries)
    decreases entries, 0
  {
    if entries != [] {
      var n := |entries| - 1;
      SizeOfFilesBelow(entries[..n], rel);
      SizeOfFiles(entries[n].node, rel + [entries[n].name]);
      TotalConcat(FilesBelow(entries[..n], rel, true), Files(entries[n].node, rel + [entries[n].name], true));
    }
  }

  /** The walk inside `calculateDirSize`: it fails exactly when some directory cannot be listed, and
      otherwise adds the sizes of all files to the captured variable, modulo 2^64. */
  method AddSizes(node: Node, size: int) returns (sum: int, ok: bool, ghost wraps: int)
    requires IsInt64(size)
    ensures ok == Listable(node)
    ensures IsInt64(sum)
    ensures ok ==> SumsTo(sum, size, Size(node), wraps)
    decreases node, 1
  {
    match node
    case File(content) =>
      sum, wraps := Wrap(size + |content|), (size + |content| + TWO_63) / (2 * TWO_63);
      ok := true;
    case Dir(listable, entries) =>
      if !listable {
        return size, false, 0;
      }
      sum, ok, wraps := AddEntrySizes(entries, size);
  }

  /** The part of the walk that goes through one listing. */
  method AddEntrySizes(entries: seq<Entry>, size: int) returns (sum: int, ok: bool, ghost wraps: int)
    requires IsInt64(size)
    ensures ok == forall k :: 0 <= k < |entries| ==> Listable(entries[k].node)
    ensures IsInt64(sum)
    ensures ok ==> SumsTo(sum, size, SizeBelow(entries), wraps)
    decreases entries, 0
  {
    sum, wraps := size, 0;
    var i := 0;
    while i < |entries|
      invariant 0 <= i <= |entries|
      invariant forall k :: 0 <= k < i ==> Listable(entries[k].node)
      invariant SumsTo(sum, size, SizeBelow(entries[..i]), wraps)
    {
      ghost var before, more := sum, 0;
      sum, ok, more := AddSizes(entries[i].node, sum);
      if !ok {
        return;
      }
      assert entries[..i + 1][..i] == entries[..i];
      SumsNext(before, sum, size, SizeBelow(entries[..i]), Size(entries[i].node), wraps, more);
      wraps := wraps + more;
      i := i + 1;
    }
    assert entries[..i] == entries;
    ok := true;
  }

  /** `calculateDirSize`: without the folder, an error; on a tree that can be listed throughout and holds
      less than 2^63 bytes, exactly the bytes in all its files, which are those the uploads hand over. */
  method CalculateDirSize(root: Option<Node>) returns (size: int, ok: bool)
    ensures ok <==> root.Some? && Listable(root.value)
    ensures root.None? ==> size == 0
    ensures ok && Size(root.value) < TWO_63 ==> size == Size(root.value) == Total(Files(root.value, [], false), SizeOf)
  {
    if root.None? {
      return 0, false;
    }
    ghost var wraps: int;
    size, ok, wraps := AddSizes(root.value, 0);
    SizeOfFiles(root.value, []);
    if ok {
      NothingSkipped(root.value, []);
    }
  }

  // ------------------------------------------------------------------
  // Walk and key mapping together
  // ------------------------------------------------------------------

  /** Replace-all keeps the relative path of every file that the walk reaches. */
  ghost predicate AllMirrored(remotePath: string, localDir: string, root: Node, all: bool) {
    forall path, content :: At(root, path, content, all) ==> Mirrors(remotePath, localDir, path)
  }

  /** The `Rel`-based mapping is faithful for every directory.  The replace-all mapping needs a remote path
      with a component, and its exact condition on every file. */
  ghost predicate Faithful(target: Target, root: Node, all: bool) {
    && target.localDir != ""
    && (target.mapping.ReplaceAll? ==> Usable(target.remotePath) && AllMirrored(target.remotePath, target.localDir, root, all))
  }

  /** Where a file belongs: S3 and Azure clean the remote path, GCS takes it as it is.  A source folder that is
      itself a file is put under that path, by GCS with the relative path ".". */
  function Place(target: Target, rel: seq<string>): string {
    match target.mapping
    case ReplaceAll => if rel == [] then Clean(target.remotePath) else Clean(target.remotePath) + "/" + Join(rel, "/")
    case Relative => target.remotePath + "/" + if rel == [] then "." else Join(rel, "/")
  }

  lemma {:induction false} KeyIsPlace(root: Node, all: bool, target: Target, f: Found)
    requires WellFormed(root) && f in Files(root, [], all) && Faithful(target, root, all)
    ensures target.KeyOf(f.rel) == Some(Place(target, f.rel)) && AllNames(f.rel) && (f.rel == [] <==> root.File?)
  {
    FilesExact(root, [], all, f);
    assert f.rel[0..] == f.rel;
    if root.File? {
      RootIsPlace(target);
    } else {
      var k := EntriesBeneath(root.entries, [], all, f);
      if target.mapping.ReplaceAll? {
        KeyMappingExact(target.remotePath, target.localDir, f.rel);
      } else {
        RelOfWalkPath(target.localDir, f.rel);
      }
    }
  }

  lemma RootIsPlace(target: Target)
    requires target.localDir != "" && (target.mapping.ReplaceAll? ==> target.remotePath != "")
    ensures target.KeyOf([]) == Some(Place(target, []))
  {
    RootFileKey(target.remotePath, target.localDir);
  }

  lemma {:induction false} PlacesDistinct(target: Target, rel1: seq<string>, rel2: seq<string>)
    requires rel1 != [] && AllNames(rel1) && rel2 != [] && AllNames(rel2)
    requires Place(target, rel1) == Place(target, rel2)
    ensures rel1 == rel2
  {
    var n := |if target.mapping.ReplaceAll? then Clean(target.remotePath) else target.remotePath| + 1;
    assert Place(target, rel1)[n..] == Join(rel1, "/") && Place(target, rel2)[n..] == Join(rel2, "/");
    SplitJoin(rel1);
    SplitJoin(rel2);
  }

  /** The object under `key` has this content. */
  predicate Holds(objects: map<string, seq<Byte>>, key: string, content: seq<Byte>) {
    key in objects && objects[key] == content
  }

  /** What is under `key`, or that nothing is, has not changed. */
  predicate SameAt(before: map<string, seq<Byte>>, after: map<string, seq<Byte>>, key: string) {
    (key in after <==> key in before) && (key in before ==> after[key] == before[key])
  }

  /** A key that nothing is written under is untouched. */
  lemma {:induction false} StoredElsewhere(objects: map<string, seq<Byte>>, ws: seq<Write>, key: string)
    requires forall i :: 0 <= i < |ws| ==> ws[i].key != Some(key)
    ensures SameAt(objects, Stored(objects, ws), key)
  {
    if ws != [] {
      StoredElsewhere(objects, ws[..|ws| - 1], key);
    }
  }

  /** What no later write overwrites is there at the end. */
  lemma {:induction false} StoredThere(objects: map<string, seq<Byte>>, ws: seq<Write>, i: nat)
    requires i < |ws| && ws[i].key.Some?
    requires forall j :: i < j < |ws| ==> ws[j].key != ws[i].key
    ensures Holds(Stored(objects, ws), ws[i].key.value, ws[i].content)
  {
    var n := |ws| - 1;
    if i < n {
      StoredThere(objects, ws[..n], i);
    }
  }

  /** End to end: when the walk of a well-formed tree has stored its files, every file's content is at its
      place below the cleaned remote path. */
  lemma {:induction false} TreeMirrored(root: Node, all: bool, target: Target, objects: map<string, seq<Byte>>, i: nat)
    requires WellFormed(root) && Faithful(target, root, all) && i < |Files(root, [], all)|
    ensures var f := Files(root, [], all)[i];
            var after := Stored(objects, Writes(target.Keys(), Files(root, [], all)));
            Holds(after, Place(target, f.rel), f.content)
  {
    var files := Files(root, [], all);
    FilesDistinct(root, [], all);
    KeyIsPlace(root, all, target, files[i]);
    var ws := Writes(target.Keys(), files);
    forall j | i < j < |ws| ensures ws[j].key != ws[i].key {
      KeyIsPlace(root, all, target, files[j]);
      if Place(target, files[i].rel) == Place(target, files[j].rel) {
        PlacesDistinct(target, files[i].rel, files[j].rel);
      }
    }
    StoredThere(objects, ws, i);
  }

  /** No other object has changed. */
  lemma {:induction false} NothingElseChanged(root: Node, all: bool, target: Target, objects: map<string, seq<Byte>>, key: string)
    requires WellFormed(root) && Faithful(target, root, all)
    requires forall i :: 0 <= i < |Files(root, [], all)| ==> Place(target, Files(root, [], all)[i].rel) != key
    ensures SameAt(objects, Stored(objects, Writes(target.Keys(), Files(root, [], all))), key)
  {
    var files := Files(root, [], all);
    var ws := Writes(target.Keys(), files);
    forall i | 0 <= i < |ws| ensures ws[i].key != Some(key) {
      KeyIsPlace(root, all, target, files[i]);
    }
    StoredElsewhere(objects, ws, key);
  }

  /** A whole upload, for each destination with its own walk and mapping (s3.go:229-245, azure.go:94-127,
      gcs.go:64-106): nil means that every file the walk reaches was handed over once and has its content at
      its place, and that no other object has changed; and for GCS that the walk reached every file. */
  method UploadDir(root: Node, target: Target, store: Store) returns (ok: bool)
    requires WellFormed(root) && store.refusedAt.None?
    modifies store
    ensures ok <==> store.refusedAt.None? && (target.mapping.Relative? ==> Listable(root))
    ensures store.refusedAt.Some? ==> store.refusedAt.value == |store.handed| - 1
    ensures ok ==> HandedOver(root, target.mapping.Relative?, old(store.handed), store.handed)
    ensures ok && Listable(root) ==> HandedOver(root, true, old(store.handed), store.handed)
    ensures ok && Faithful(target, root, target.mapping.Relative?) ==>
              Mirrored(root, target.mapping.Relative?, target, old(store.objects), store.objects)
  {
    ghost var all := target.mapping.Relative?;
    ghost var objects, files := store.objects, Files(root, [], all);
    ok := WalkTree(root, [], target.mapping.Relative?, target.Keys(), store);
    if ok {
      FilesHandedOver(root, all, old(store.handed));
      if Listable(root) {
        NothingSkipped(root, []);
        FilesHandedOver(root, true, old(store.handed));
      }
      if Faithful(target, root, all) {
        FilesMirrored(root, all, target, objects);
      }
    }
  }

  /** Each file that the walk reaches was handed over, and nothing else and no path twice. */
  ghost predicate HandedOver(root: Node, all: bool, before: seq<Found>, after: seq<Found>) {
    before <= after && Distinct(after[|before|..])
    && forall f :: f in after[|before|..] <==> At(root, f.rel, f.content, all)
  }

  lemma FilesHandedOver(root: Node, all: bool, before: seq<Found>)
    requires WellFormed(root)
    ensures HandedOver(root, all, before, before + Files(root, [], all))
  {
    var files := Files(root, [], all);
    FilesDistinct(root, [], all);
    assert (before + files)[|before|..] == files;
    forall f ensures f in files <==> At(root, f.rel, f.content, all) {
      FilesExact(root, [], all, f);
      assert f.rel[0..] == f.rel;
    }
  }

  /** Every file that the walk reaches has its content at its place, and no other object has changed. */
  ghost predicate Mirrored(root: Node, all: bool, target: Target, before: map<string, seq<Byte>>, after: map<string, seq<Byte>>) {
    && (forall path, content :: At(root, path, content, all) ==> Holds(after, Place(target, path), content))
    && (forall key :: (forall path, content :: At(root, path, content, all) ==> Place(target, path) != key) ==>
          SameAt(before, after, key))
  }

  lemma {:induction false} FilesMirrored(root: Node, all: bool, target: Target, objects: map<string, seq<Byte>>)
    requires WellFormed(root) && Faithful(target, root, all)
    ensures Mirrored(root, all, target, objects, Stored(objects, Writes(target.Keys(), Files(root, [], all))))
  {
    var files := Files(root, [], all);
    var after := Stored(objects, Writes(target.Keys(), files));
    forall path, content | At(root, path, content, all) ensures Holds(after, Place(target, path), content) {
      var i := Listed(root, all, path, content);
      TreeMirrored(root, all, target, objects, i);
    }
    forall key | forall path, content :: At(root, path, content, all) ==> Place(target, path) != key
      ensures SameAt(objects, after, key)
    {
      forall i | 0 <= i < |files| ensures Place(target, files[i].rel) != key {
        FilesExact(root, [], all, files[i]);
        assert files[i].rel[0..] == files[i].rel;
      }
      NothingElseChanged(root, all, target, objects, key);
    }
  }

  /** The two mappings make the same writes exactly when the source folder is a directory and replace-all keeps
      the relative path of every file in it. */
  lemma {:induction false} MappingsAgree(root: Node, all: bool, remotePath: string, localDir: string)
    requires WellFormed(root) && localDir != "" && Usable(remotePath)
    ensures var files := Files(root, [], all);
            var replaced := Writes(Target(ReplaceAll, remotePath, localDir).Keys(), files);
            var relative := Writes(Target(Relative, Clean(remotePath), localDir).Keys(), files);
            replaced == relative <==> root.Dir? && AllMirrored(remotePath, localDir, root, all)
  {
    var files := Files(root, [], all);
    var t, u := Target(ReplaceAll, remotePath, localDir), Target(Relative, Clean(remotePath), localDir);
    var a, b := Writes(t.Keys(), files), Writes(u.Keys(), files);
    forall i | 0 <= i < |files| ensures a[i] == b[i] <==> root.Dir? && Mirrors(remotePath, localDir, files[i].rel) {
      WritesAgree(root, all, remotePath, localDir, files[i]);
    }
    if a == b && root.Dir? {
      forall path, content | At(root, path, content, all) ensures Mirrors(remotePath, localDir, path) {
        var i := Listed(root, all, path, content);
        assert a[i] == b[i];
      }
    } else if root.Dir? && AllMirrored(remotePath, localDir, root, all) {
      forall i | 0 <= i < |files| ensures a[i] == b[i] {
        FilesExact(root, [], all, files[i]);
        assert files[i].rel[0..] == files[i].rel;
      }
    }
    assert root.File? ==> a[0] != b[0];
  }

  /** A file of the tree is in the list. */
  lemma Listed(root: Node, all: bool, path: seq<string>, content: seq<Byte>) returns (i: nat)
    requires At(root, path, content, all)
    ensures i < |Files(root, [], all)| && Files(root, [], all)[i] == Found(path, content)
  {
    FilesExact(root, [], all, Found(path, content));
    assert path[0..] == path;
    i :| 0 <= i < |Files(root, [], all)| && Files(root, [], all)[i] == Found(path, content);
  }

  lemma WritesAgree(root: Node, all: bool, remotePath: string, localDir: string, f: Found)
    requires WellFormed(root) && localDir != "" && Usable(remotePath) && f in Files(root, [], all)
    ensures var replaced := WriteOf(Target(ReplaceAll, remotePath, localDir).Keys(), f);
            var relative := WriteOf(Target(Relative, Clean(remotePath), localDir).Keys(), f);
            replaced == relative <==> root.Dir? && Mirrors(remotePath, localDir, f.rel)
  {
    if root.Dir? {
      var k := EntriesBeneath(root.entries, [], all, f);
      KeyMappingExact(remotePath, localDir, f.rel);
    } else {
      RootFileKey(remotePath, localDir);
      RootFileKey(Clean(remotePath), localDir);
    }
  }
}
