/** Lexical path handling of Go's `path/filepath` on slash-separated systems: `Clean`, `Join` and
    `Rel`, defined on the list of components between the slashes. */
module Paths {
  import opened Options
  import opened Strings

  /** A file name as a directory listing gives it. */
  predicate IsName(c: string) {
    c != "" && c != "." && c != ".." && NoSlash(c)
  }

  predicate AllNames(cs: seq<string>) {
    forall i :: 0 <= i < |cs| ==> IsName(cs[i])
  }

  /** One more component on the stack `Clean` builds. */
  function Push(rooted: bool, stack: seq<string>, c: string): seq<string> {
    if c == "" || c == "." then stack
    else if c != ".." then stack + [c]
    else if stack != [] && stack[|stack| - 1] != ".." then stack[..|stack| - 1]
    else if rooted then stack
    else stack + [".."]
  }

  function Reduce(rooted: bool, cs: seq<string>): seq<string> {
    if cs == [] then [] else Push(rooted, Reduce(rooted, cs[..|cs| - 1]), cs[|cs| - 1])
  }

  function Render(rooted: bool, stack: seq<string>): string {
    if rooted then "/" + Join(stack, "/")
    else if stack == [] then "." else Join(stack, "/")
  }

  predicate Rooted(s: string) {
    s != "" && s[0] == '/'
  }

  /** The cleaned components of a path. */
  function Parts(s: string): seq<string> {
    Reduce(Rooted(s), Split(s))
  }

  /** `filepath.Clean`. */
  function Clean(s: string): string {
    Render(Rooted(s), Parts(s))
  }

  /** `filepath.Join` of two elements. */
  function JoinPath(a: string, b: string): string {
    if a == "" && b == "" then ""
    else if a == "" then Clean(b)
    else Clean(a + "/" + b)
  }

  function CommonPrefix(a: seq<string>, b: seq<string>): (k: nat)
    ensures k <= |a| && k <= |b|
  {
    if a == [] || b == [] || a[0] != b[0] then 0 else 1 + CommonPrefix(a[1..], b[1..])
  }

  /** `filepath.Rel`, for targets that do not clean to "."; `None` stands for its error. */
  function Rel(base: string, target: string): Option<string> {
    var b, t := Parts(base), Parts(target);
    var k := CommonPrefix(b, t);
    if Rooted(base) != Rooted(target) then None
    else if k == |b| && k == |t| then Some(".")
    else if k == |b| then Some(Join(t[k..], "/"))
    else if b[k] == ".." then None
    else Some(Join(seq(|b| - k, _ => "..") + t[k..], "/"))
  }

  // ------------------------------------------------------------------
  // Stacks that are already clean
  // ------------------------------------------------------------------

  /** What `Reduce` produces: names, preceded by climbs only in a relative path. */
  ghost predicate Normal(rooted: bool, stack: seq<string>) {
    && (forall i :: 0 <= i < |stack| ==> stack[i] != "" && stack[i] != "." && NoSlash(stack[i]))
    && (forall i :: 0 <= i < |stack| && stack[i] == ".." ==> !rooted && forall j :: 0 <= j < i ==> stack[j] == "..")
  }

  lemma {:induction false} ReduceIsNormal(rooted: bool, cs: seq<string>)
    requires AllNoSlash(cs)
    ensures Normal(rooted, Reduce(rooted, cs))
  {
    if cs != [] {
      ReduceIsNormal(rooted, cs[..|cs| - 1]);
    }
  }

  lemma {:induction false} NormalReduces(rooted: bool, stack: seq<string>)
    requires Normal(rooted, stack)
    ensures Reduce(rooted, stack) == stack
  {
    if stack != [] {
      var n := |stack| - 1;
      NormalReduces(rooted, stack[..n]);
      assert stack == stack[..n] + [stack[n]];
    }
  }

  lemma PartsNormal(s: string)
    ensures Normal(Rooted(s), Parts(s))
  {
    SplitNoSlash(s);
    ReduceIsNormal(Rooted(s), Split(s));
  }

  lemma NormalExtend(rooted: bool, stack: seq<string>, names: seq<string>)
    requires Normal(rooted, stack) && AllNames(names)
    ensures Normal(rooted, stack + names)
  {
  }

  /** An empty first component, which a leading slash gives, does not count. */
  lemma {:induction false} ReduceLeadingEmpty(rooted: bool, cs: seq<string>)
    ensures Reduce(rooted, [""] + cs) == Reduce(rooted, cs)
  {
    if cs == [] {
      assert [""] + cs == [""];
    } else {
      var n := |cs| - 1;
      assert ([""] + cs)[..n + 1] == [""] + cs[..n];
      ReduceLeadingEmpty(rooted, cs[..n]);
    }
  }

  lemma ReduceTrailingEmpty(rooted: bool, a: seq<string>)
    ensures Reduce(rooted, a + [""]) == Reduce(rooted, a)
  {
    assert (a + [""])[..|a|] == a;
  }

  lemma {:induction false} PartsOfRooted(stack: seq<string>)
    requires stack != [] && Normal(true, stack)
    ensures Parts("/" + Join(stack, "/")) == stack
  {
    var j := Join(stack, "/");
    NormalReduces(true, stack);
    SplitJoin(stack);
    assert ("/" + j)[1..] == j;
    ReduceLeadingEmpty(true, stack);
  }

  lemma PartsOfNothing(root: string, here: string)
    requires root == "/" && here == "."
    ensures Parts(root) == [] && Parts(here) == []
  {
    SplitAtom(here);
    assert ["."][..0] == [];
    assert root[1..] == "" && Split(root) == [""] + [""];
    ReduceLeadingEmpty(true, [""]);
    assert [""][..0] == [];
  }

  /** The components of a rendered clean stack are that stack. */
  lemma {:induction false} PartsOfRender(rooted: bool, stack: seq<string>)
    requires Normal(rooted, stack)
    ensures Rooted(Render(rooted, stack)) == rooted
    ensures Parts(Render(rooted, stack)) == stack
  {
    if stack == [] {
      PartsOfNothing("/", ".");
      assert "/" + Join(stack, "/") == "/";
    } else if rooted {
      PartsOfRooted(stack);
    } else {
      NormalReduces(rooted, stack);
      SplitJoin(stack);
      JoinFirst(stack);
    }
  }

  lemma JoinFirst(stack: seq<string>)
    requires stack != [] && stack[0] != ""
    ensures Join(stack, "/") != "" && Join(stack, "/")[0] == stack[0][0]
  {
  }

  lemma {:induction false} CleanIdempotent(s: string)
    ensures Clean(Clean(s)) == Clean(s)
    ensures Parts(Clean(s)) == Parts(s) && Rooted(Clean(s)) == Rooted(s)
  {
    PartsNormal(s);
    PartsOfRender(Rooted(s), Parts(s));
  }

  // ------------------------------------------------------------------
  // Appending components
  // ------------------------------------------------------------------

  /** Only the cleaned form of the front of a path matters. */
  lemma {:induction false} ReduceFront(rooted: bool, a: seq<string>, b: seq<string>, cs: seq<string>)
    requires Reduce(rooted, a) == Reduce(rooted, b)
    ensures Reduce(rooted, a + cs) == Reduce(rooted, b + cs)
    decreases |cs|
  {
    if cs == [] {
      assert a + cs == a && b + cs == b;
    } else {
      var n := |cs| - 1;
      ReduceFront(rooted, a, b, cs[..n]);
      FrontOfConcat(a, cs);
      FrontOfConcat(b, cs);
    }
  }

  lemma FrontOfConcat(a: seq<string>, cs: seq<string>)
    requires cs != []
    ensures (a + cs)[..|a + cs| - 1] == a + cs[..|cs| - 1]
    ensures (a + cs)[|a + cs| - 1] == cs[|cs| - 1]
  {
  }

  /** The components never climb above where they start. */
  predicate Contained(cs: seq<string>) {
    Reduce(false, cs) == [] || Reduce(false, cs)[0] != ".."
  }

  lemma {:induction false} ContainedPrefix(cs: seq<string>)
    requires cs != [] && AllNoSlash(cs) && Contained(cs)
    ensures Contained(cs[..|cs| - 1])
  {
    ReduceIsNormal(false, cs[..|cs| - 1]);
  }

  lemma PushAbove(rooted: bool, left: seq<string>, right: seq<string>, c: string)
    requires Normal(false, right) && (right == [] || right[0] != "..")
    requires var up := Push(false, right, c); up == [] || up[0] != ".."
    ensures Push(rooted, left + right, c) == left + Push(false, right, c)
  {
    if c == "" || c == "." {
    } else if c != ".." {
      assert (left + right) + [c] == left + (right + [c]);
    } else {
      assert right != [] && right[|right| - 1] != "..";
      assert (left + right)[..|left + right| - 1] == left + right[..|right| - 1];
    }
  }

  /** Components that do not climb are cleaned on their own, whatever stands before them. */
  lemma {:induction false} ReduceContained(rooted: bool, a: seq<string>, cs: seq<string>)
    requires AllNoSlash(cs) && Contained(cs)
    ensures Reduce(rooted, a + cs) == Reduce(rooted, a) + Reduce(false, cs)
    decreases |cs|
  {
    if cs == [] {
      assert a + cs == a;
    } else {
      var n := |cs| - 1;
      ContainedPrefix(cs);
      ReduceContained(rooted, a, cs[..n]);
      assert (a + cs)[..|a| + n] == a + cs[..n];
      ReduceIsNormal(false, cs[..n]);
      PushAbove(rooted, Reduce(rooted, a), Reduce(false, cs[..n]), cs[n]);
    }
  }

  /** Components without ".." do not climb. */
  lemma {:induction false} NoClimb(cs: seq<string>)
    requires ".." !in cs
    ensures ".." !in Reduce(false, cs) && Contained(cs)
  {
    if cs != [] {
      NoClimb(cs[..|cs| - 1]);
    }
  }

  /** What climbs out of a folder forgets the folder's name. */
  lemma {:induction false} ClimbForgets(rooted: bool, a: seq<string>, c: string, d: string, cs: seq<string>)
    requires IsName(c) && IsName(d) && AllNoSlash(cs) && !Contained(cs)
    ensures Reduce(rooted, a + [c] + cs) == Reduce(rooted, a + [d] + cs)
    decreases |cs|
  {
    var n := |cs| - 1;
    FrontOfConcat(a + [c], cs);
    FrontOfConcat(a + [d], cs);
    if Contained(cs[..n]) {
      FirstClimb(cs);
      BackToName(rooted, a, c, cs[..n]);
      BackToName(rooted, a, d, cs[..n]);
      PopName(rooted, Reduce(rooted, a), c);
      PopName(rooted, Reduce(rooted, a), d);
    } else {
      ClimbForgets(rooted, a, c, d, cs[..n]);
    }
  }

  lemma FirstClimb(cs: seq<string>)
    requires cs != [] && AllNoSlash(cs) && !Contained(cs) && Contained(cs[..|cs| - 1])
    ensures cs[|cs| - 1] == ".." && Reduce(false, cs[..|cs| - 1]) == []
  {
    ReduceIsNormal(false, cs[..|cs| - 1]);
  }

  lemma PopName(rooted: bool, stack: seq<string>, c: string)
    requires IsName(c)
    ensures Push(rooted, stack + [c], "..") == stack
  {
  }

  lemma {:induction false} BackToName(rooted: bool, a: seq<string>, c: string, cs: seq<string>)
    requires IsName(c) && AllNoSlash(cs) && Reduce(false, cs) == []
    ensures Reduce(rooted, a + [c] + cs) == Reduce(rooted, a) + [c]
  {
    ReduceContained(rooted, a + [c], cs);
    FrontOfConcat(a, [c]);
    assert [c][..0] == [] && a + [] == a;
    assert Reduce(rooted, a) + [c] + [] == Reduce(rooted, a) + [c];
  }

  lemma {:induction false} NamesReduce(cs: seq<string>)
    requires AllNames(cs)
    ensures Reduce(false, cs) == cs && Contained(cs)
  {
    NormalReduces(false, cs);
  }

  /** The components of `a/b`. */
  lemma {:induction false} PartsOfConcat(a: string, b: string)
    requires a != "" && Contained(Split(b))
    ensures Rooted(a + "/" + b) == Rooted(a)
    ensures Parts(a + "/" + b) == Parts(a) + Reduce(false, Split(b))
  {
    SplitConcat(a, b);
    SplitNoSlash(a);
    SplitNoSlash(b);
    ReduceContained(Rooted(a), Split(a), Split(b));
  }

  /** Appending names to a clean path that is neither the root nor "." just appends them. */
  lemma {:induction false} RenderAppend(rooted: bool, stack: seq<string>, names: seq<string>)
    requires stack != [] && names != []
    ensures Render(rooted, stack + names) == Render(rooted, stack) + "/" + Join(names, "/")
  {
    JoinConcat(stack, names);
  }

  // ------------------------------------------------------------------
  // Cleaning never lengthens
  // ------------------------------------------------------------------

  function Weight(cs: seq<string>): nat {
    if cs == [] then 0 else Weight(cs[..|cs| - 1]) + |cs[|cs| - 1]| + 1
  }

  lemma {:induction false} WeightConcat(a: seq<string>, b: seq<string>)
    ensures Weight(a + b) == Weight(a) + Weight(b)
  {
    if b == [] {
      assert a + b == a;
    } else {
      var n := |b| - 1;
      assert (a + b)[..|a| + n] == a + b[..n];
      WeightConcat(a, b[..n]);
    }
  }

  lemma {:induction false} JoinLength(cs: seq<string>)
    requires cs != []
    ensures |Join(cs, "/")| == Weight(cs) - 1
  {
    assert cs == [cs[0]] + cs[1..];
    WeightConcat([cs[0]], cs[1..]);
    assert Weight([cs[0]]) == |cs[0]| + 1 by { assert [cs[0]][..0] == []; }
    if |cs| > 1 {
      JoinLength(cs[1..]);
    }
  }

  lemma {:induction false} ReduceWeight(rooted: bool, cs: seq<string>)
    ensures Weight(Reduce(rooted, cs)) <= Weight(cs)
  {
    if cs != [] {
      var n := |cs| - 1;
      ReduceWeight(rooted, cs[..n]);
      var stack := Reduce(rooted, cs[..n]);
      assert (stack + [cs[n]])[..|stack|] == stack;
    }
  }

  lemma {:induction false} CleanLength(s: string)
    requires s != ""
    ensures |Clean(s)| <= |s|
  {
    JoinSplit(s);
    JoinLength(Split(s));
    if Parts(s) != [] {
      JoinLength(Parts(s));
    }
    if Rooted(s) {
      assert Split(s) == [""] + Split(s[1..]);
      ReduceLeadingEmpty(true, Split(s[1..]));
      ReduceWeight(true, Split(s[1..]));
      WeightConcat([""], Split(s[1..]));
      assert Weight([""]) == 1 by { assert [""][..0] == []; }
    } else {
      ReduceWeight(false, Split(s));
    }
  }

  // ------------------------------------------------------------------
  // How much shorter the cleaned path is
  // ------------------------------------------------------------------

  /** No two slashes stand side by side. */
  ghost predicate SingleSlashes(s: string) {
    forall i :: 0 < i < |s| && s[i] == '/' ==> s[i - 1] != '/'
  }

  ghost predicate NonEmpty(cs: seq<string>) {
    forall i :: 0 <= i < |cs| ==> cs[i] != ""
  }

  lemma {:induction false} JoinSingleSlashes(cs: seq<string>)
    requires cs != [] && AllNoSlash(cs) && NonEmpty(cs)
    ensures SingleSlashes(Join(cs, "/")) && Join(cs, "/")[0] != '/'
  {
    JoinFirst(cs);
    if |cs| > 1 {
      JoinSingleSlashes(cs[1..]);
    }
  }

  lemma {:induction false} SplitNonEmpty(s: string)
    requires s != "" && SingleSlashes(s) && s[|s| - 1] != '/'
    ensures NonEmpty(Split(s)[1..]) && (s[0] != '/' ==> Split(s)[0] != "")
  {
    if |s| > 1 {
      SplitNonEmpty(s[1..]);
    } else {
      SplitAtom(s);
    }
  }

  lemma PushLoses(rooted: bool, stack: seq<string>, c: string)
    requires c != ""
    ensures Push(rooted, stack, c) == stack + [c] || Weight(Push(rooted, stack, c)) + 2 <= Weight(stack) + |c| + 1
    ensures Weight(Push(rooted, stack, c)) <= Weight(stack) + |c| + 1
  {
    assert (stack + [c])[..|stack|] == stack;
  }

  /** All components are kept, or the path gets shorter by two characters. */
  ghost predicate KeepsOrLoses(rooted: bool, cs: seq<string>) {
    Reduce(rooted, cs) == cs || Weight(Reduce(rooted, cs)) + 2 <= Weight(cs)
  }

  lemma LosesNext(rooted: bool, front: seq<string>, c: string)
    requires c != "" && KeepsOrLoses(rooted, front)
    ensures KeepsOrLoses(rooted, front + [c])
  {
    var cs := front + [c];
    assert cs[..|front|] == front;
    assert Reduce(rooted, cs) == Push(rooted, Reduce(rooted, front), c);
    assert Weight(cs) == Weight(front) + |c| + 1;
    PushLoses(rooted, Reduce(rooted, front), c);
  }

  /** Cleaning non-empty components keeps them all, or makes the path shorter by two characters. */
  lemma {:induction false} ReduceLoses(rooted: bool, cs: seq<string>)
    requires NonEmpty(cs)
    ensures KeepsOrLoses(rooted, cs)
  {
    if cs != [] {
      var front, c := cs[..|cs| - 1], cs[|cs| - 1];
      ReduceLoses(rooted, front);
      LosesNext(rooted, front, c);
      assert cs == front + [c];
    }
  }

  /** A path without double slashes that is not clean, even without a slash at its end, is longer than its
      cleaned form by two characters. */
  lemma {:induction false} LongerThanClean(s: string)
    requires s != "" && SingleSlashes(s) && Parts(s) != []
    ensures s == Clean(s) || s == Clean(s) + "/" || |s| >= |Clean(s)| + 2
  {
    if s[|s| - 1] == '/' {
      var t := s[..|s| - 1];
      assert s == t + "/" + "";
      SplitConcat(t, "");
      ReduceTrailingEmpty(Rooted(s), Split(t));
      assert [""][..0] == [];
      assert t != "";
      assert s[|t|] == '/' && t[|t| - 1] != '/';
      LongerWithoutTrailing(t);
    } else {
      LongerWithoutTrailing(s);
    }
  }

  lemma SplitAllNonEmpty(s: string)
    requires s != "" && SingleSlashes(s) && s[|s| - 1] != '/' && s[0] != '/'
    ensures NonEmpty(Split(s))
  {
    SplitNonEmpty(s);
    var cs := Split(s);
    forall i | 0 <= i < |cs| ensures cs[i] != "" {
      assert i > 0 ==> cs[i] == cs[1..][i - 1];
    }
  }

  lemma RootedParts(t: string)
    ensures Parts("/" + t) == Reduce(true, Split(t))
  {
    assert ("/" + t)[1..] == t;
    ReduceLeadingEmpty(true, Split(t));
  }

  /** A leading slash, if there is one, and the components behind it. */
  lemma {:induction false} BehindRoot(s: string) returns (cs: seq<string>)
    requires s != "" && SingleSlashes(s) && s[|s| - 1] != '/'
    ensures cs != [] && NonEmpty(cs) && Parts(s) == Reduce(Rooted(s), cs)
    ensures s == (if Rooted(s) then "/" else "") + Join(cs, "/")
  {
    if Rooted(s) {
      var t := s[1..];
      assert s == "/" + t;
      assert t[0] == s[1];
      RootedParts(t);
      SplitAllNonEmpty(t);
      JoinSplit(t);
      cs := Split(t);
    } else {
      SplitAllNonEmpty(s);
      JoinSplit(s);
      cs := Split(s);
    }
  }

  lemma {:induction false} LongerComponents(rooted: bool, cs: seq<string>)
    requires NonEmpty(cs) && cs != [] && Reduce(rooted, cs) != []
    ensures var s, t := (if rooted then "/" else "") + Join(cs, "/"), Render(rooted, Reduce(rooted, cs));
            s == t || |s| >= |t| + 2
  {
    ReduceLoses(rooted, cs);
    JoinLength(cs);
    JoinLength(Reduce(rooted, cs));
  }

  lemma {:induction false} LongerWithoutTrailing(s: string)
    requires s != "" && SingleSlashes(s) && s[|s| - 1] != '/' && Parts(s) != []
    ensures s == Clean(s) || |s| >= |Clean(s)| + 2
  {
    var cs := BehindRoot(s);
    LongerComponents(Rooted(s), cs);
  }
}
