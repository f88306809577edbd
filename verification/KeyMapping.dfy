/** From local files to remote keys: the replace-all mapping of s3/s3.go and azure/azure.go against the
    `Rel`-based mapping of gcs/gcs.go, and the bucket/key split of S3. */
module KeyMapping {
  import opened Options
  import opened Strings
  import opened Paths

  /** The path `filepath.Walk` hands to its callback for the entry `rel` below `localDir`: the root
      verbatim, then one `filepath.Join` per name. */
  function WalkPath(localDir: string, rel: seq<string>): string {
    if rel == [] then localDir
    else JoinPath(WalkPath(localDir, rel[..|rel| - 1]), rel[|rel| - 1])
  }

  /** The remote path of a file in S3 and Azure (s3.go:235-236, azure.go:117-118). */
  function ReplaceKey(remotePath: string, localDir: string, filePath: string): string {
    JoinPath(remotePath, RemoveAll(filePath, localDir))
  }

  /** The object name of a file in GCS (gcs.go:84-88). */
  function RelKey(remotePath: string, baseDir: string, filePath: string): Option<string> {
    match Rel(baseDir, filePath)
    case None => None
    case Some(r) => Some(remotePath + "/" + r)
  }

  lemma NameSplit(c: string)
    requires IsName(c)
    ensures Split(c) == [c] && Contained([c]) && Reduce(false, [c]) == [c]
  {
    SplitAtom(c);
    assert [c][..0] == [];
  }

  /** `filepath.Join` of a path and one name. */
  lemma {:induction false} JoinName(s: string, c: string)
    requires s != "" && IsName(c)
    ensures JoinPath(s, c) == Render(Rooted(s), Parts(s) + [c])
  {
    NameSplit(c);
    PartsOfConcat(s, c);
  }

  lemma {:induction false} JoinRendered(rooted: bool, stack: seq<string>, c: string)
    requires stack != [] && Normal(rooted, stack) && IsName(c)
    ensures JoinPath(Render(rooted, stack), c) == Render(rooted, stack + [c])
  {
    PartsOfRender(rooted, stack);
    JoinFirst(stack);
    JoinName(Render(rooted, stack), c);
  }

  lemma {:induction false} WalkPathIs(localDir: string, rel: seq<string>)
    requires localDir != "" && rel != [] && AllNames(rel)
    ensures WalkPath(localDir, rel) == Render(Rooted(localDir), Parts(localDir) + rel)
  {
    var n := |rel| - 1;
    var p, front, c := Parts(localDir), rel[..n], rel[n];
    AppendLast(p, rel);
    if n == 0 {
      JoinName(localDir, c);
      assert p + front == p;
    } else {
      WalkPathIs(localDir, front);
      PartsNormal(localDir);
      NormalExtend(Rooted(localDir), p, front);
      JoinRendered(Rooted(localDir), p + front, c);
    }
  }

  lemma AppendLast(p: seq<string>, rel: seq<string>)
    requires rel != []
    ensures p + rel[..|rel| - 1] + [rel[|rel| - 1]] == p + rel
  {
  }

  /** What follows `localDir` in a walked path. */
  function Tail(localDir: string, rel: seq<string>): string {
    if localDir == "/" || localDir == "." then Join(rel, "/") else "/" + Join(rel, "/")
  }

  lemma {:induction false} CleanDirs(localDir: string)
    requires localDir != "" && Clean(localDir) == localDir
    ensures Parts(localDir) == [] <==> localDir == "/" || localDir == "."
    ensures localDir == "/" <==> Rooted(localDir) && Parts(localDir) == []
    ensures |localDir| == 1 && localDir != "/" ==> localDir[0] != '/'
  {
    PartsNormal(localDir);
    var p := Parts(localDir);
    if p == [] {
      assert Join(p, "/") == "";
    } else {
      JoinFirst(p);
    }
  }

  lemma {:induction false} WalkPathBelow(localDir: string, rel: seq<string>)
    requires localDir != "" && rel != [] && AllNames(rel)
    ensures WalkPath(localDir, rel) ==
            if Parts(localDir) != [] then Clean(localDir) + "/" + Join(rel, "/")
            else if Rooted(localDir) then "/" + Join(rel, "/")
            else Join(rel, "/")
  {
    WalkPathIs(localDir, rel);
    var p := Parts(localDir);
    if p != [] {
      RenderAppend(Rooted(localDir), p, rel);
    } else {
      assert p + rel == rel;
    }
  }

  lemma {:induction false} WalkPathTail(localDir: string, rel: seq<string>)
    requires localDir != "" && Clean(localDir) == localDir && rel != [] && AllNames(rel)
    ensures WalkPath(localDir, rel) == (if localDir == "." then "" else localDir) + Tail(localDir, rel)
  {
    WalkPathBelow(localDir, rel);
    CleanDirs(localDir);
    ConcatAssoc(localDir, "/", Join(rel, "/"));
    ConcatAssoc("", "", Join(rel, "/"));
  }

  lemma ConcatAssoc(a: string, b: string, c: string)
    ensures a + b + c == a + (b + c)
    ensures "" + c == c
  {
  }

  lemma RemovePrefix(pat: string, s: string)
    requires pat != ""
    ensures RemoveAll(pat + s, pat) == RemoveAll(s, pat)
  {
    assert (pat + s)[..|pat|] == pat && (pat + s)[|pat|..] == s;
  }

  /** After its leading `localDir` is gone, the replace-all works on the tail alone. */
  lemma {:induction false} RemoveFromWalkPath(localDir: string, rel: seq<string>)
    requires localDir != "" && Clean(localDir) == localDir && rel != [] && AllNames(rel)
    ensures RemoveAll(WalkPath(localDir, rel), localDir) == RemoveAll(Tail(localDir, rel), localDir)
  {
    WalkPathTail(localDir, rel);
    if localDir == "." {
      assert "" + Tail(localDir, rel) == Tail(localDir, rel);
    } else {
      RemovePrefix(localDir, Tail(localDir, rel));
    }
  }

  lemma {:induction false} RelOfWalkPath(localDir: string, rel: seq<string>)
    requires localDir != "" && rel != [] && AllNames(rel)
    ensures Rel(localDir, WalkPath(localDir, rel)) == Some(Join(rel, "/"))
  {
    WalkPathIs(localDir, rel);
    var p := Parts(localDir);
    PartsNormal(localDir);
    NormalExtend(Rooted(localDir), p, rel);
    PartsOfRender(Rooted(localDir), p + rel);
    CommonPrefixOf(p, rel);
    assert (p + rel)[|p|..] == rel;
  }

  lemma {:induction false} CommonPrefixOf(a: seq<string>, b: seq<string>)
    ensures CommonPrefix(a, a + b) == |a|
  {
    if a != [] {
      CommonPrefixOf(a[1..], b);
      assert (a + b)[1..] == a[1..] + b;
    }
  }

  lemma {:induction false} CleanFront(remotePath: string, x: string)
    requires remotePath != ""
    ensures Clean(remotePath) != "" && JoinPath(remotePath, x) == Clean(Clean(remotePath) + "/" + x)
  {
    var c := Clean(remotePath);
    CleanIdempotent(remotePath);
    SplitConcat(remotePath, x);
    SplitConcat(c, x);
    ReduceFront(Rooted(remotePath), Split(remotePath), Split(c), Split(x));
  }

  lemma ReduceInnerEmpty(rooted: bool, a: seq<string>, b: seq<string>)
    ensures Reduce(rooted, a + ([""] + b)) == Reduce(rooted, a + b)
  {
    ReduceTrailingEmpty(rooted, a);
    ReduceFront(rooted, a + [""], a, b);
    assert a + ([""] + b) == a + [""] + b;
  }

  lemma SplitLeadingSlash(x: string)
    ensures Split("/" + x) == [""] + Split(x)
  {
    assert ("/" + x)[1..] == x;
  }

  lemma RawParts(c: string, x: string)
    requires c != ""
    ensures Rooted(c + "/" + x) == Rooted(c)
    ensures Parts(c + "/" + x) == Reduce(Rooted(c), Split(c) + Split(x))
  {
    SplitConcat(c, x);
  }

  lemma {:induction false} DoubleSlash(c: string, x: string)
    requires c != ""
    ensures Clean(c + "/" + ("/" + x)) == Clean(c + "/" + x)
  {
    RawParts(c, "/" + x);
    RawParts(c, x);
    SplitLeadingSlash(x);
    ReduceInnerEmpty(Rooted(c), Split(c), Split(x));
  }

  // ------------------------------------------------------------------
  // When replace-all gives the relative path
  // ------------------------------------------------------------------

  /** A remote path that does not clean to the root or ".". */
  predicate Usable(remotePath: string) {
    remotePath != "" && Clean(remotePath) != "/" && Clean(remotePath) != "."
  }

  /** The walked path starts with `localDir` as it is written, and what follows are the names below it. */
  predicate InFront(localDir: string, rel: seq<string>) {
    var path := WalkPath(localDir, rel);
    && IsPrefix(localDir, path)
    && (path[|localDir|..] == Join(rel, "/") || path[|localDir|..] == "/" + Join(rel, "/"))
  }

  /** ... and `localDir` does not occur again in what follows. */
  predicate OnlyInFront(localDir: string, rel: seq<string>) {
    InFront(localDir, rel) && !Occurs(localDir, WalkPath(localDir, rel)[|localDir|..])
  }

  /** Where one gets from `remotePath` along `localDir` is `remotePath` itself. */
  predicate LeadsBack(remotePath: string, localDir: string) {
    Reduce(Rooted(remotePath), Parts(remotePath) + Parts(localDir)) == Parts(remotePath)
  }

  /** `localDir` occurs in the walked path once, in front; or not at all, where that does no harm. */
  predicate Mirrors(remotePath: string, localDir: string, rel: seq<string>) {
    || OnlyInFront(localDir, rel)
    || (!Occurs(localDir, WalkPath(localDir, rel)) && LeadsBack(remotePath, localDir))
  }

  lemma {:induction false} UsableParts(remotePath: string)
    requires Usable(remotePath)
    ensures Parts(remotePath) != []
  {
  }

  /** Joining the names to the remote path, with or without a slash in front of them. */
  lemma {:induction false} KeyOfNames(remotePath: string, x: string, rel: seq<string>)
    requires Usable(remotePath) && rel != [] && AllNames(rel)
    requires x == Join(rel, "/") || x == "/" + Join(rel, "/")
    ensures JoinPath(remotePath, x) == Clean(remotePath) + "/" + Join(rel, "/")
  {
    var j := Join(rel, "/");
    UsableParts(remotePath);
    SplitJoin(rel);
    NamesReduce(rel);
    if x != j {
      SplitLeadingSlash(j);
      ReduceLeadingEmpty(false, rel);
    }
    PartsOfConcat(remotePath, x);
    RenderAppend(Rooted(remotePath), Parts(remotePath), rel);
  }

  /** Less than the names gives a shorter key. */
  lemma {:induction false} KeyShrinks(remotePath: string, x: string, n: nat)
    requires remotePath != "" && |x| < n
    ensures |JoinPath(remotePath, x)| < |Clean(remotePath)| + 1 + n
    ensures |JoinPath(remotePath, "/" + x)| < |Clean(remotePath)| + 1 + n
  {
    var c := Clean(remotePath);
    CleanFront(remotePath, x);
    CleanFront(remotePath, "/" + x);
    DoubleSlash(c, x);
    CleanLength(c + "/" + x);
  }

  lemma {:induction false} WalkPathSlashes(localDir: string, rel: seq<string>)
    requires localDir != "" && rel != [] && AllNames(rel)
    ensures SingleSlashes(WalkPath(localDir, rel))
  {
    WalkPathIs(localDir, rel);
    PartsNormal(localDir);
    JoinSingleSlashes(Parts(localDir) + rel);
  }

  lemma OccursSlashes(pat: string, s: string)
    requires Occurs(pat, s) && SingleSlashes(s)
    ensures SingleSlashes(pat)
  {
    var i :| 0 <= i <= |s| && IsPrefix(pat, s[i..]);
    forall k | 0 < k < |pat| && pat[k] == '/' ensures pat[k - 1] != '/' {
      assert pat[k] == s[i..][..|pat|][k] == s[i + k] && pat[k - 1] == s[i..][..|pat|][k - 1] == s[i + k - 1];
    }
  }

  lemma InFrontOf(front: string, back: string, localDir: string, rel: seq<string>)
    requires WalkPath(localDir, rel) == front + back && front == localDir
    requires back == Join(rel, "/") || back == "/" + Join(rel, "/")
    ensures InFront(localDir, rel)
  {
    assert (front + back)[..|front|] == front && (front + back)[|front|..] == back;
  }

  /** A folder that occurs in a walked path other than right in front of the names is too long to leave
      them whole. */
  lemma {:induction false} OccursElsewhere(localDir: string, rel: seq<string>)
    requires localDir != "" && rel != [] && AllNames(rel)
    requires Occurs(localDir, WalkPath(localDir, rel)) && !InFront(localDir, rel)
    ensures |WalkPath(localDir, rel)| < |localDir| + |Join(rel, "/")|
  {
    var j, c := Join(rel, "/"), Clean(localDir);
    WalkPathBelow(localDir, rel);
    if Parts(localDir) == [] {
      if Rooted(localDir) && |localDir| == 1 {
        InFrontOf("/", j, localDir, rel);
      }
    } else {
      WalkPathSlashes(localDir, rel);
      OccursSlashes(localDir, WalkPath(localDir, rel));
      LongerThanClean(localDir);
      ConcatAssoc(c, "/", j);
      if localDir == c {
        InFrontOf(c, "/" + j, localDir, rel);
      } else if localDir == c + "/" {
        InFrontOf(c + "/", j, localDir, rel);
      }
    }
  }

  /** An occurrence among the names shortens the key. */
  lemma {:induction false} OccursAgain(remotePath: string, localDir: string, rel: seq<string>)
    requires remotePath != "" && localDir != "" && rel != [] && AllNames(rel)
    requires InFront(localDir, rel) && Occurs(localDir, WalkPath(localDir, rel)[|localDir|..])
    ensures |ReplaceKey(remotePath, localDir, WalkPath(localDir, rel))| < |Clean(remotePath)| + 1 + |Join(rel, "/")|
  {
    var j, path := Join(rel, "/"), WalkPath(localDir, rel);
    var rest := path[|localDir|..];
    RemoveLength(rest, localDir);
    if rest == j || |localDir| > 1 {
      KeyShrinks(remotePath, RemoveAll(rest, localDir), |j|);
    } else {
      assert localDir != "/" by { NoDoubleFront(localDir, rel); }
      assert !IsPrefix(localDir, rest);
      OccursStep(localDir, rest);
      assert rest[1..] == j;
      RemoveLength(j, localDir);
      KeyShrinks(remotePath, RemoveAll(j, localDir), |j|);
    }
  }

  lemma NoDoubleFront(localDir: string, rel: seq<string>)
    requires localDir != "" && rel != [] && AllNames(rel) && InFront(localDir, rel)
    requires WalkPath(localDir, rel)[|localDir|..] == "/" + Join(rel, "/")
    ensures localDir != "/"
  {
    WalkPathSlashes(localDir, rel);
    assert WalkPath(localDir, rel)[|localDir|..][0] == '/';
  }

  /** Components that reduce to `b`, then clean ones, then names. */
  lemma {:induction false} ReduceThrough(rooted: bool, a: seq<string>, b: seq<string>, p: seq<string>, rel: seq<string>)
    requires AllNames(rel) && Reduce(rooted, a) == Reduce(rooted, b)
    ensures Reduce(rooted, a + (p + rel)) == Reduce(rooted, b + p) + rel
  {
    NamesReduce(rel);
    ReduceContained(rooted, a + p, rel);
    assert a + (p + rel) == a + p + rel;
    ReduceFront(rooted, a, b, p);
  }

  /** The key when nothing was removed. */
  lemma {:induction false} KeyOfWholePath(remotePath: string, localDir: string, rel: seq<string>)
    requires Usable(remotePath) && localDir != "" && rel != [] && AllNames(rel)
    ensures JoinPath(remotePath, WalkPath(localDir, rel))
         == Render(Rooted(remotePath), Reduce(Rooted(remotePath), Parts(remotePath) + Parts(localDir)) + rel)
  {
    var r, a, p := Rooted(remotePath), Split(remotePath), Parts(localDir);
    RawParts(remotePath, WalkPath(localDir, rel));
    WholePathSplit(localDir, rel);
    if Rooted(localDir) {
      ReduceInnerEmpty(r, a, p + rel);
    } else {
      assert [] + (p + rel) == p + rel;
    }
    PartsNormal(remotePath);
    NormalReduces(r, Parts(remotePath));
    ReduceThrough(r, a, Parts(remotePath), p, rel);
  }

  lemma {:induction false} WholePathSplit(localDir: string, rel: seq<string>)
    requires localDir != "" && rel != [] && AllNames(rel)
    ensures Split(WalkPath(localDir, rel)) == (if Rooted(localDir) then [""] else []) + (Parts(localDir) + rel)
  {
    WalkPathIs(localDir, rel);
    PartsNormal(localDir);
    SplitJoin(Parts(localDir) + rel);
    SplitLeadingSlash(Join(Parts(localDir) + rel, "/"));
  }

  lemma {:induction false} LeadsBackExactly(remotePath: string, localDir: string, rel: seq<string>)
    requires Usable(remotePath) && localDir != "" && rel != [] && AllNames(rel)
    ensures JoinPath(remotePath, WalkPath(localDir, rel)) == Clean(remotePath) + "/" + Join(rel, "/")
            <==> LeadsBack(remotePath, localDir)
  {
    var r, p := Rooted(remotePath), Parts(remotePath);
    var s := Reduce(r, p + Parts(localDir));
    KeyOfWholePath(remotePath, localDir, rel);
    UsableParts(remotePath);
    RenderAppend(r, p, rel);
    PartsNormal(remotePath);
    PartsNormal(localDir);
    ReduceIsNormal(r, p + Parts(localDir));
    NormalExtend(r, p, rel);
    NormalExtend(r, s, rel);
    PartsOfRender(r, p + rel);
    PartsOfRender(r, s + rel);
    if s + rel == p + rel {
      assert (s + rel)[..|s|] == s && (p + rel)[..|s|] == p;
    }
  }

  lemma {:induction false} ReplacedWhenMirrored(remotePath: string, localDir: string, rel: seq<string>)
    requires Usable(remotePath) && localDir != "" && rel != [] && AllNames(rel)
    ensures ReplaceKey(remotePath, localDir, WalkPath(localDir, rel)) == Clean(remotePath) + "/" + Join(rel, "/")
            <==> Mirrors(remotePath, localDir, rel)
  {
    var path := WalkPath(localDir, rel);
    RemoveLength(path, localDir);
    if !Occurs(localDir, path) {
      LeadsBackExactly(remotePath, localDir, rel);
      assert path[0..] == path;
    } else if InFront(localDir, rel) {
      var rest := path[|localDir|..];
      assert path == localDir + rest;
      RemovePrefix(localDir, rest);
      if Occurs(localDir, rest) {
        OccursAgain(remotePath, localDir, rel);
      } else {
        RemoveLength(rest, localDir);
        KeyOfNames(remotePath, rest, rel);
      }
    } else {
      OccursElsewhere(localDir, rel);
      KeyShrinks(remotePath, RemoveAll(path, localDir), |Join(rel, "/")|);
    }
  }

  /** For every folder however written, every remote path that does not clean to the root or ".", and every
      file below the folder: the replace-all mapping gives the `Rel`-based key of the cleaned remote path
      exactly when the folder's text occurs in the file's path once, right in front of the names, or does
      not occur and leads from the remote path back to it. */
  lemma {:induction false} KeyMappingExact(remotePath: string, localDir: string, rel: seq<string>)
    requires Usable(remotePath) && localDir != "" && rel != [] && AllNames(rel)
    ensures var path := WalkPath(localDir, rel);
            && RelKey(Clean(remotePath), localDir, path) == Some(Clean(remotePath) + "/" + Join(rel, "/"))
            && (Some(ReplaceKey(remotePath, localDir, path)) == RelKey(Clean(remotePath), localDir, path)
                <==> Mirrors(remotePath, localDir, rel))
  {
    RelOfWalkPath(localDir, rel);
    ReplacedWhenMirrored(remotePath, localDir, rel);
  }

  /** For a clean folder the condition is that its path does not occur again behind its place in front. */
  lemma {:induction false} MirrorsCleanFolder(remotePath: string, localDir: string, rel: seq<string>)
    requires Usable(remotePath) && localDir != "" && rel != [] && AllNames(rel) && Clean(localDir) == localDir
    ensures Mirrors(remotePath, localDir, rel) <==> !Occurs(localDir, Tail(localDir, rel))
  {
    var path, tail := WalkPath(localDir, rel), Tail(localDir, rel);
    WalkPathTail(localDir, rel);
    if localDir == "." {
      assert path == tail;
      CleanDirs(localDir);
      PartsNormal(remotePath);
      NormalReduces(Rooted(remotePath), Parts(remotePath));
      assert Parts(remotePath) + [] == Parts(remotePath);
      assert InFront(localDir, rel) ==> Occurs(localDir, path) by { assert path[0..] == path; }
      assert !InFront(localDir, rel);
    } else {
      InFrontOf(localDir, tail, localDir, rel);
      assert path[|localDir|..] == tail && path[0..] == path;
    }
  }

  /** For one written with a slash at its end, that this does not occur in the names. */
  lemma {:induction false} MirrorsTrailingSlash(remotePath: string, localDir: string, rel: seq<string>)
    requires Usable(remotePath) && localDir != "" && rel != [] && AllNames(rel)
    requires localDir == Clean(localDir) + "/" && Parts(localDir) != []
    ensures Mirrors(remotePath, localDir, rel) <==> !Occurs(localDir, Join(rel, "/"))
  {
    var path, j := WalkPath(localDir, rel), Join(rel, "/");
    WalkPathBelow(localDir, rel);
    InFrontOf(localDir, j, localDir, rel);
    assert path[|localDir|..] == j && path[0..] == path;
  }

  /** Then no two files share a key. */
  lemma {:induction false} KeysInjective(remotePath: string, localDir: string, rel1: seq<string>, rel2: seq<string>)
    requires Usable(remotePath) && localDir != ""
    requires rel1 != [] && AllNames(rel1) && Mirrors(remotePath, localDir, rel1)
    requires rel2 != [] && AllNames(rel2) && Mirrors(remotePath, localDir, rel2)
    requires ReplaceKey(remotePath, localDir, WalkPath(localDir, rel1))
          == ReplaceKey(remotePath, localDir, WalkPath(localDir, rel2))
    ensures rel1 == rel2
  {
    ReplacedWhenMirrored(remotePath, localDir, rel1);
    ReplacedWhenMirrored(remotePath, localDir, rel2);
    var c, j1, j2 := Clean(remotePath), Join(rel1, "/"), Join(rel2, "/");
    assert (c + "/" + j1)[|c| + 1..] == j1 && (c + "/" + j2)[|c| + 1..] == j2;
    SplitJoin(rel1);
    SplitJoin(rel2);
  }

  lemma RemoveSkip(c: char, s: string, pat: string)
    requires pat != "" && !IsPrefix(pat, [c] + s)
    ensures RemoveAll([c] + s, pat) == [c] + RemoveAll(s, pat)
  {
    assert ([c] + s)[1..] == s;
  }

  /** The condition is needed: backing up `/a`, the files `/a/x/a/b` and `/a/x/b` get one key. */
  lemma KeyCollision(remotePath: string) returns (localDir: string, rel1: seq<string>, rel2: seq<string>)
    ensures localDir == "/a" && Clean(localDir) == localDir && rel1 == ["x", "a", "b"] && rel2 == ["x", "b"]
    ensures ReplaceKey(remotePath, localDir, WalkPath(localDir, rel1)) == ReplaceKey(remotePath, localDir, WalkPath(localDir, rel2))
  {
    localDir, rel1, rel2 := "/a", ["x", "a", "b"], ["x", "b"];
    CleanOfA();
    RemoveFromWalkPath(localDir, rel1);
    RemoveFromWalkPath(localDir, rel2);
    RemoveBoth(localDir, "/b", rel1, rel2);
  }

  lemma RemoveBoth(a: string, b: string, rel1: seq<string>, rel2: seq<string>)
    requires a == "/a" && b == "/b" && rel1 == ["x", "a", "b"] && rel2 == ["x", "b"]
    ensures RemoveAll(Tail(a, rel1), a) == RemoveAll(Tail(a, rel2), a)
  {
    assert Tail(a, rel1) == "/x" + (a + b) by {
      assert rel1[1..] == ["a", "b"] && rel1[1..][1..] == ["b"];
      assert Join(rel1[1..], "/") == "a/b";
    }
    assert Tail(a, rel2) == "/x" + b by {
      assert rel2[1..] == ["b"];
      assert Join(rel2, "/") == "x/b";
    }
    RemoveAfterX(a, a + b);
    RemoveAfterX(a, b);
    RemovePrefix(a, b);
  }

  lemma RemoveAfterX(a: string, s: string)
    requires a == "/a"
    ensures RemoveAll("/x" + s, a) == "/x" + RemoveAll(s, a)
  {
    assert "/x" + s == ['/'] + (['x'] + s);
    assert (['/'] + (['x'] + s))[..2][1] == 'x';
    RemoveSkip('/', ['x'] + s, a);
    RemoveSkip('x', s, a);
  }

  lemma CleanOfA()
    ensures Clean("/a") == "/a"
  {
    NameSplit("a");
    assert Normal(true, ["a"]);
    PartsOfRender(true, ["a"]);
    assert Render(true, ["a"]) == "/a";
  }

  /** If the source folder is itself a file, the two mappings never agree. */
  lemma {:induction false} RootFileKey(remotePath: string, localDir: string)
    requires localDir != ""
    ensures remotePath != "" ==> ReplaceKey(remotePath, localDir, WalkPath(localDir, [])) == Clean(remotePath)
    ensures RelKey(remotePath, localDir, WalkPath(localDir, [])) == Some(remotePath + "/" + ".")
  {
    RemovePrefix(localDir, "");
    assert localDir + "" == localDir;
    assert Reduce(false, [""]) == [] by { assert [""][..0] == []; }
    if remotePath != "" {
      PartsOfConcat(remotePath, "");
      assert Parts(remotePath) + [] == Parts(remotePath);
    }
    var p := Parts(localDir);
    CommonPrefixOf(p, []);
    assert p + [] == p;
  }

  // ------------------------------------------------------------------
  // What is left of a path
  // ------------------------------------------------------------------

  /** What replace-all leaves of a walked path. */
  function Remainder(localDir: string, rel: seq<string>): string {
    RemoveAll(WalkPath(localDir, rel), localDir)
  }

  /** When the folder occurs only in front, or not at all without climbing itself, what is left has no ".."
      and does not climb. */
  lemma {:induction false} RemainderStays(localDir: string, rel: seq<string>)
    requires localDir != "" && rel != [] && AllNames(rel)
    requires OnlyInFront(localDir, rel) || (!Occurs(localDir, WalkPath(localDir, rel)) && ".." !in Parts(localDir))
    ensures ".." !in Split(Remainder(localDir, rel)) && Contained(Split(Remainder(localDir, rel)))
  {
    var path := WalkPath(localDir, rel);
    RemoveLength(path, localDir);
    if OnlyInFront(localDir, rel) {
      var rest := path[|localDir|..];
      assert path == localDir + rest;
      RemovePrefix(localDir, rest);
      RemoveLength(rest, localDir);
      SplitJoin(rel);
      SplitLeadingSlash(Join(rel, "/"));
    } else {
      WholePathSplit(localDir, rel);
    }
    NoClimb(Split(Remainder(localDir, rel)));
  }

  /** For a clean folder: when its path does not occur again behind its place in front. */
  lemma {:induction false} RemainderOfCleanFolder(localDir: string, rel: seq<string>)
    requires localDir != "" && rel != [] && AllNames(rel) && Clean(localDir) == localDir
    requires !Occurs(localDir, Tail(localDir, rel))
    ensures ".." !in Split(Remainder(localDir, rel)) && Contained(Split(Remainder(localDir, rel)))
  {
    var tail := Tail(localDir, rel);
    WalkPathTail(localDir, rel);
    if localDir == "." {
      CleanDirs(localDir);
      assert WalkPath(localDir, rel) == tail;
    } else {
      InFrontOf(localDir, tail, localDir, rel);
      assert WalkPath(localDir, rel)[|localDir|..] == tail;
    }
    RemainderStays(localDir, rel);
  }

  /** Two files that do not climb share a key, whatever the usable remote path, exactly when the same names
      are left of both. */
  lemma {:induction false} CollideExactly(remotePath: string, localDir: string, rel1: seq<string>, rel2: seq<string>)
    requires Usable(remotePath)
    requires Contained(Split(Remainder(localDir, rel1))) && Contained(Split(Remainder(localDir, rel2)))
    ensures ReplaceKey(remotePath, localDir, WalkPath(localDir, rel1)) == ReplaceKey(remotePath, localDir, WalkPath(localDir, rel2))
            <==> Reduce(false, Split(Remainder(localDir, rel1))) == Reduce(false, Split(Remainder(localDir, rel2)))
  {
    var p, x, y := Parts(remotePath), Remainder(localDir, rel1), Remainder(localDir, rel2);
    PartsOfConcat(remotePath, x);
    PartsOfConcat(remotePath, y);
    CleanIdempotent(remotePath + "/" + x);
    CleanIdempotent(remotePath + "/" + y);
    assert (p + Reduce(false, Split(x)))[|p|..] == Reduce(false, Split(x));
    assert (p + Reduce(false, Split(y)))[|p|..] == Reduce(false, Split(y));
  }

  // ------------------------------------------------------------------
  // Bucket and key
  // ------------------------------------------------------------------

  /** The bucket that is checked, created (s3.go:100-101, 127) and written to (s3.go:205-206). */
  function Bucket(remotePath: string): string {
    Split(remotePath)[0]
  }

  /** The object key (s3.go:207). */
  function Key(remotePath: string): string {
    Join(Split(remotePath)[1..], "/")
  }

  /** A bucket name stays at the bottom of the cleaned path as long as nothing climbs over it; the first
      climb over it takes it away instead of going up. */
  lemma {:induction false} BucketAtBottom(bucket: string, cs: seq<string>)
    requires IsName(bucket) && AllNoSlash(cs)
    ensures var up := Reduce(false, cs);
            Reduce(false, [bucket] + cs) == if Contained(cs) then [bucket] + up else up[1..]
  {
    NameSplit(bucket);
    if Contained(cs) {
      ReduceContained(false, [bucket], cs);
    } else {
      var n := |cs| - 1;
      FrontOfConcat([bucket], cs);
      BucketAtBottom(bucket, cs[..n]);
      ReduceIsNormal(false, cs[..n]);
      if Contained(cs[..n]) {
        assert [bucket] + [] == [bucket];
      } else {
        PushOverBucket(Reduce(false, cs[..n]), cs[n]);
      }
    }
  }

  lemma PushOverBucket(up: seq<string>, c: string)
    requires Normal(false, up) && up != [] && up[0] == ".."
    ensures Push(false, up[1..], c) == Push(false, up, c)[1..]
  {
  }

  lemma {:induction false} PutParts(bucket: string, rest: string, relative: string)
    requires IsName(bucket)
    ensures var path := bucket + "/" + rest + "/" + relative;
            !Rooted(path) && Parts(path) == Reduce(false, [bucket] + (Split(rest) + Split(relative)))
  {
    var remotePath := bucket + "/" + rest;
    NameSplit(bucket);
    SplitConcat(bucket, rest);
    assert remotePath[0] == bucket[0];
    RawParts(remotePath, relative);
    assert [bucket] + Split(rest) + Split(relative) == [bucket] + (Split(rest) + Split(relative));
  }

  lemma {:induction false} RenderSplit(stack: seq<string>)
    requires Normal(false, stack)
    ensures Split(Render(false, stack)) == if stack == [] then ["."] else stack
  {
    if stack == [] {
      SplitAtom(".");
    } else {
      SplitJoin(stack);
    }
  }

  /** How the path of an object in a bucket splits. */
  lemma {:induction false} PutSplit(bucket: string, rest: string, relative: string)
    requires IsName(bucket)
    ensures var stack := Reduce(false, [bucket] + (Split(rest) + Split(relative)));
            Split(JoinPath(bucket + "/" + rest, relative)) == if stack == [] then ["."] else stack
  {
    PutParts(bucket, rest, relative);
    PartsNormal(bucket + "/" + rest + "/" + relative);
    RenderSplit(Parts(bucket + "/" + rest + "/" + relative));
  }

  /** The bucket that `CreateBucketIfNeeded` checks and creates is the bucket a file is put into exactly when
      the rest of the path does not climb above the bucket, or comes back down into a folder of its name;
      and exactly when there is a component below it, bucket and key rebuild the cleaned path. */
  lemma {:induction false} BucketStable(bucket: string, rest: string, relative: string)
    requires IsName(bucket)
    ensures var remotePath := bucket + "/" + rest;
            var put := JoinPath(remotePath, relative);
            var cs := Split(rest) + Split(relative);
            var up := Reduce(false, cs);
            && Bucket(remotePath) == bucket
            && (Bucket(put) == bucket <==> Contained(cs) || (|up| > 1 && up[1] == bucket))
            && (Bucket(put) + "/" + Key(put) == put <==> if Contained(cs) then up != [] else |up| > 2)
  {
    var put := JoinPath(bucket + "/" + rest, relative);
    var cs := Split(rest) + Split(relative);
    NameSplit(bucket);
    SplitConcat(bucket, rest);
    PutSplit(bucket, rest, relative);
    SplitNoSlash(rest);
    SplitNoSlash(relative);
    BucketAtBottom(bucket, cs);
    BucketAndKey(put);
  }

  lemma BucketAndKey(put: string)
    ensures Bucket(put) + "/" + Key(put) == put <==> |Split(put)| > 1
  {
    JoinSplit(put);
  }

  /** A climbing path shows why: the bucket checked is not the bucket written to. */
  lemma BucketMoves()
    ensures Bucket("b" + "/" + "../c") == "b" && Bucket(JoinPath("b" + "/" + "../c", "f")) != "b"
  {
    assert Split("../c") == ["..", "c"] by {
      SplitJoin(["..", "c"]);
      assert Join(["..", "c"], "/") == "../c";
    }
    assert Split("f") == ["f"] by { SplitAtom("f"); }
    var cs := Split("../c") + Split("f");
    assert cs == ["..", "c", "f"];
    assert Reduce(false, cs) == cs by { NormalReduces(false, cs); }
    assert cs[1] != "b";
    BucketStable("b", "../c", "f");
  }
}
