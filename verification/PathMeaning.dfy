/** What paths mean: the directory one reaches by following their components.  `Clean`, `Join` and `Rel` of
    `Paths` are measured against it. */
module PathMeaning {
  import opened Options
  import opened Strings
  import opened Paths

  /** One component, from a directory given by its names below the root; the root is its own parent. */
  function Follow(at: seq<string>, c: string): seq<string> {
    if c == "" || c == "." then at
    else if c == ".." then (if at == [] then [] else at[..|at| - 1])
    else at + [c]
  }

  function Resolve(at: seq<string>, cs: seq<string>): seq<string> {
    if cs == [] then at else Follow(Resolve(at, cs[..|cs| - 1]), cs[|cs| - 1])
  }

  /** What the path `s` names in the working directory `at`. */
  function Locate(at: seq<string>, s: string): seq<string> {
    Resolve(if Rooted(s) then [] else at, Split(s))
  }

  lemma {:induction false} ResolveConcat(at: seq<string>, a: seq<string>, b: seq<string>)
    ensures Resolve(at, a + b) == Resolve(Resolve(at, a), b)
    decreases |b|
  {
    if b == [] {
      assert a + b == a;
    } else {
      FrontOfConcat(a, b);
      ResolveConcat(at, a, b[..|b| - 1]);
    }
  }

  lemma ResolvePush(rooted: bool, at: seq<string>, stack: seq<string>, c: string)
    requires Normal(rooted, stack) && (rooted ==> at == [])
    requires rooted ==> Resolve(at, stack) == stack
    ensures Resolve(at, Push(rooted, stack, c)) == Follow(Resolve(at, stack), c)
  {
    if stack != [] {
      assert Resolve(at, stack) == Follow(Resolve(at, stack[..|stack| - 1]), stack[|stack| - 1]);
    }
    assert (stack + [c])[..|stack|] == stack;
  }

  /** Reducing the components changes nothing about where they lead, and from the root the reduced stack is
      that place. */
  lemma {:induction false} ReduceResolves(rooted: bool, at: seq<string>, cs: seq<string>)
    requires AllNoSlash(cs) && (rooted ==> at == [])
    ensures Resolve(at, Reduce(rooted, cs)) == Resolve(at, cs)
    ensures rooted ==> Reduce(rooted, cs) == Resolve(at, cs)
    decreases |cs|
  {
    if cs != [] {
      var front := cs[..|cs| - 1];
      ReduceResolves(rooted, at, front);
      ReduceIsNormal(rooted, front);
      ResolvePush(rooted, at, Reduce(rooted, front), cs[|cs| - 1]);
    }
  }

  /** A path names what its cleaned components name. */
  lemma {:induction false} LocateParts(at: seq<string>, s: string)
    ensures Locate(at, s) == Resolve(if Rooted(s) then [] else at, Parts(s))
  {
    SplitNoSlash(s);
    ReduceResolves(Rooted(s), if Rooted(s) then [] else at, Split(s));
  }

  /** `Clean` keeps what a path means, from every working directory. */
  lemma {:induction false} CleanMeans(at: seq<string>, s: string)
    ensures Locate(at, Clean(s)) == Locate(at, s)
  {
    LocateParts(at, s);
    LocateParts(at, Clean(s));
    CleanIdempotent(s);
  }

  /** `Join` means following the second path from where the first leads; without a first path it is the second
      alone. */
  lemma {:induction false} JoinMeans(at: seq<string>, a: string, b: string)
    ensures Locate(at, JoinPath(a, b)) == if a == "" then Locate(at, b) else Resolve(Locate(at, a), Split(b))
  {
    if a == "" {
      CleanMeans(at, b);
    } else {
      CleanMeans(at, a + "/" + b);
      SplitConcat(a, b);
      ResolveConcat(if Rooted(a) then [] else at, Split(a), Split(b));
    }
  }

  /** Not empty, no double slashes, a slash at the end only of the root, no "." except alone. */
  ghost predicate Tidy(s: string) {
    && s != "" && SingleSlashes(s) && (s[|s| - 1] == '/' ==> s == "/")
    && ("." in Split(s) ==> s == ".")
  }

  lemma {:induction false} JoinTidy(stack: seq<string>, j: string)
    requires stack != [] && NonEmpty(stack) && AllNoSlash(stack) && "." !in stack && j == Join(stack, "/")
    ensures Tidy(j) && Tidy("/" + j)
  {
    JoinSingleSlashes(stack);
    JoinLast(stack);
    SplitJoin(stack);
    assert ("/" + j)[1..] == j;
  }

  lemma TidyAlone(root: string, here: string)
    requires root == "/" && here == "."
    ensures Tidy(root) && Tidy(here)
  {
    SplitConcat("", "");
    assert root == "" + "/" + "";
  }

  /** What a cleaned path looks like. */
  lemma {:induction false} CleanForm(s: string)
    ensures Tidy(Clean(s))
  {
    var stack := Parts(s);
    PartsNormal(s);
    if stack == [] {
      TidyAlone("/", ".");
      assert "/" + Join(stack, "/") == "/";
    } else {
      JoinTidy(stack, Join(stack, "/"));
    }
  }

  lemma {:induction false} JoinLast(stack: seq<string>)
    requires stack != [] && NonEmpty(stack) && AllNoSlash(stack)
    ensures var s := Join(stack, "/"); s != "" && s[|s| - 1] != '/'
  {
    if |stack| > 1 {
      JoinLast(stack[1..]);
    }
  }

  // ------------------------------------------------------------------
  // Clean is canonical
  // ------------------------------------------------------------------

  /** How often a clean stack climbs. */
  function Climbs(stack: seq<string>): (k: nat)
    ensures k <= |stack| && forall i :: 0 <= i < k ==> stack[i] == ".."
    ensures k < |stack| ==> stack[k] != ".."
  {
    if stack != [] && stack[0] == ".." then 1 + Climbs(stack[1..]) else 0
  }

  lemma {:induction false} ResolveClimbs(at: seq<string>, stack: seq<string>)
    requires |stack| <= |at| && forall i :: 0 <= i < |stack| ==> stack[i] == ".."
    ensures Resolve(at, stack) == at[..|at| - |stack|]
  {
    if stack == [] {
      assert at[..|at|] == at;
    } else {
      ResolveClimbs(at, stack[..|stack| - 1]);
      assert at[..|at| - |stack| + 1][..|at| - |stack|] == at[..|at| - |stack|];
    }
  }

  lemma {:induction false} ResolveNames(at: seq<string>, names: seq<string>)
    requires AllNames(names)
    ensures Resolve(at, names) == at + names
  {
    if names == [] {
      assert at + names == at;
    } else {
      var n := |names| - 1;
      ResolveNames(at, names[..n]);
      assert at + names[..n] + [names[n]] == at + names;
    }
  }

  lemma NamesBehindClimbs(stack: seq<string>)
    requires Normal(false, stack)
    ensures AllNames(stack[Climbs(stack)..])
  {
    var k := Climbs(stack);
    forall i | k <= i < |stack| ensures IsName(stack[i]) {
      assert k < |stack| && stack[k] != "..";
    }
  }

  lemma {:induction false} ResolveNormal(at: seq<string>, stack: seq<string>)
    requires Normal(false, stack) && Climbs(stack) <= |at|
    ensures Resolve(at, stack) == at[..|at| - Climbs(stack)] + stack[Climbs(stack)..]
  {
    var k := Climbs(stack);
    NamesBehindClimbs(stack);
    assert stack == stack[..k] + stack[k..];
    ResolveConcat(at, stack[..k], stack[k..]);
    ResolveClimbs(at, stack[..k]);
    ResolveNames(at[..|at| - k], stack[k..]);
  }

  /** A directory `n` levels deep, all called `c`. */
  function Deep(n: nat, c: string): (at: seq<string>)
    ensures |at| == n && forall i :: 0 <= i < n ==> at[i] == c
  {
    seq(n, _ => c)
  }

  /** Climbing differently far leads to different places, from one of two directories. */
  lemma ClimbsAgree(p: seq<string>, q: seq<string>, n: nat, c: string, d: string)
    requires Normal(false, p) && Normal(false, q) && Climbs(p) < Climbs(q) <= n && c != d
    requires Resolve(Deep(n, c), p) == Resolve(Deep(n, c), q)
    ensures Resolve(Deep(n, d), p) != Resolve(Deep(n, d), q)
  {
    ResolveNormal(Deep(n, c), p);
    ResolveNormal(Deep(n, c), q);
    ResolveNormal(Deep(n, d), p);
    ResolveNormal(Deep(n, d), q);
    var at := n - Climbs(q);
    assert Resolve(Deep(n, c), p)[at] == c && Resolve(Deep(n, d), p)[at] == d;
    assert Resolve(Deep(n, c), q)[at] == q[Climbs(q)];
    assert |Resolve(Deep(n, d), q)| > at ==> Resolve(Deep(n, d), q)[at] == q[Climbs(q)];
  }

  lemma SameBack(front: seq<string>, p: seq<string>, q: seq<string>)
    requires front + p == front + q
    ensures p == q
  {
    assert (front + p)[|front|..] == p && (front + q)[|front|..] == q;
  }

  lemma SameFront(p: seq<string>, q: seq<string>, k: nat)
    requires k <= |p| && k <= |q| && p[..k] == q[..k] && p[k..] == q[k..]
    ensures p == q
  {
    assert p == p[..k] + p[k..] && q == q[..k] + q[k..];
  }

  lemma SameClimbsFront(p: seq<string>, q: seq<string>)
    requires Climbs(p) == Climbs(q)
    ensures p[..Climbs(p)] == q[..Climbs(p)]
  {
  }

  lemma SameResolved(at: seq<string>, p: seq<string>, q: seq<string>) returns (front: seq<string>)
    requires Normal(false, p) && Normal(false, q) && Climbs(p) == Climbs(q) <= |at| && Resolve(at, p) == Resolve(at, q)
    ensures front + p[Climbs(p)..] == front + q[Climbs(q)..]
  {
    ResolveNormal(at, p);
    ResolveNormal(at, q);
    front := at[..|at| - Climbs(p)];
  }

  lemma SameClimbs(p: seq<string>, q: seq<string>, front: seq<string>)
    requires Climbs(p) == Climbs(q) && front + p[Climbs(p)..] == front + q[Climbs(q)..]
    ensures p == q
  {
    SameBack(front, p[Climbs(p)..], q[Climbs(q)..]);
    SameClimbsFront(p, q);
    SameFront(p, q, Climbs(p));
  }

  /** Clean stacks that lead to the same place from two different, deep enough directories are the same. */
  lemma {:induction false} NormalCanonical(p: seq<string>, q: seq<string>, n: nat, c: string, d: string)
    requires Normal(false, p) && Normal(false, q) && c != d && Climbs(p) <= n && Climbs(q) <= n
    requires Resolve(Deep(n, c), p) == Resolve(Deep(n, c), q)
    requires Resolve(Deep(n, d), p) == Resolve(Deep(n, d), q)
    ensures p == q
  {
    if Climbs(p) < Climbs(q) {
      ClimbsAgree(p, q, n, c, d);
    } else if Climbs(q) < Climbs(p) {
      ClimbsAgree(q, p, n, c, d);
    } else {
      var front := SameResolved(Deep(n, c), p, q);
      SameClimbs(p, q, front);
    }
  }

  /** Both paths name the same directory, from every working directory. */
  ghost predicate SameMeaning(s: string, t: string) {
    Rooted(s) == Rooted(t) && forall at :: AllNames(at) ==> Locate(at, s) == Locate(at, t)
  }

  /** Two paths clean to the same path exactly when they mean the same. */
  lemma {:induction false} CleanExactly(s: string, t: string)
    ensures Clean(s) == Clean(t) <==> SameMeaning(s, t)
  {
    if Clean(s) == Clean(t) {
      CleanIdempotent(s);
      CleanIdempotent(t);
      forall at | AllNames(at) ensures Locate(at, s) == Locate(at, t) {
        CleanMeans(at, s);
        CleanMeans(at, t);
      }
    }
    if SameMeaning(s, t) {
      PartsAgree(s, t);
    }
  }

  lemma {:induction false} PartsAgree(s: string, t: string)
    requires SameMeaning(s, t)
    ensures Parts(s) == Parts(t)
  {
    PartsNormal(s);
    PartsNormal(t);
    if Rooted(s) {
      SplitNoSlash(s);
      SplitNoSlash(t);
      ReduceResolves(true, [], Split(s));
      ReduceResolves(true, [], Split(t));
      assert AllNames([]) && Locate([], s) == Locate([], t);
    } else {
      var c, d := ['c'], ['d'];
      assert c[0] == 'c' && d[0] == 'd';
      var n := |Parts(s)| + |Parts(t)|;
      DeepAgree(s, t, n, c);
      DeepAgree(s, t, n, d);
      NormalCanonical(Parts(s), Parts(t), n, c, d);
    }
  }

  lemma DeepAgree(s: string, t: string, n: nat, c: string)
    requires SameMeaning(s, t) && !Rooted(s) && IsName(c)
    ensures Resolve(Deep(n, c), Parts(s)) == Resolve(Deep(n, c), Parts(t))
  {
    assert AllNames(Deep(n, c));
    LocateParts(Deep(n, c), s);
    LocateParts(Deep(n, c), t);
  }

  // ------------------------------------------------------------------
  // Rel
  // ------------------------------------------------------------------

  lemma {:induction false} CommonPrefixAgrees(a: seq<string>, b: seq<string>)
    ensures var k := CommonPrefix(a, b); a[..k] == b[..k]
  {
    var k := CommonPrefix(a, b);
    if k > 0 {
      CommonPrefixAgrees(a[1..], b[1..]);
      assert a[..k] == [a[0]] + a[1..][..k - 1] && b[..k] == [b[0]] + b[1..][..k - 1];
    }
  }

  /** Climbing as often as there are names, and down again. */
  lemma {:induction false} UpAndDown(at: seq<string>, names: seq<string>, cs: seq<string>)
    requires AllNames(names)
    ensures Resolve(Resolve(at, names), Deep(|names|, "..") + cs) == Resolve(at, cs)
  {
    ResolveNames(at, names);
    ResolveConcat(at + names, Deep(|names|, ".."), cs);
    ResolveClimbs(at + names, Deep(|names|, ".."));
    assert (at + names)[..|at|] == at;
  }

  lemma NamesFrom(rooted: bool, stack: seq<string>, k: nat)
    requires Normal(rooted, stack) && k < |stack| && stack[k] != ".."
    ensures AllNames(stack[k..])
  {
  }

  /** From `names` to `cs`, both below one directory. */
  lemma {:induction false} RelFrom(at: seq<string>, names: seq<string>, cs: seq<string>, r: string)
    requires AllNames(names) && AllNoSlash(cs)
    requires r == if names == [] && cs == [] then "." else Join(Deep(|names|, "..") + cs, "/")
    ensures Resolve(Resolve(at, names), Split(r)) == Resolve(at, cs)
  {
    if names == [] && cs == [] {
      SplitAtom(r);
      assert ["."][..0] == [];
    } else {
      SplitJoin(Deep(|names|, "..") + cs);
      UpAndDown(at, names, cs);
    }
  }

  lemma {:induction false} RelComponents(at: seq<string>, b: seq<string>, t: seq<string>, k: nat, r: string)
    requires Normal(false, b) && Normal(false, t) && k <= |b| && k <= |t| && b[..k] == t[..k]
    requires k < |b| ==> b[k] != ".."
    requires r == if k == |b| == |t| then "." else Join(Deep(|b| - k, "..") + t[k..], "/")
    ensures Resolve(Resolve(at, b), Split(r)) == Resolve(at, t)
  {
    assert b == b[..k] + b[k..] && t == b[..k] + t[k..];
    ResolveConcat(at, b[..k], b[k..]);
    ResolveConcat(at, b[..k], t[k..]);
    if k < |b| {
      NamesFrom(false, b, k);
    }
    RelFrom(Resolve(at, b[..k]), b[k..], t[k..], r);
  }

  lemma NormalAnyway(rooted: bool, stack: seq<string>)
    requires Normal(rooted, stack)
    ensures Normal(false, stack)
  {
  }

  /** Following `Rel` of base and target from the base leads to the target, from every working directory. */
  lemma {:induction false} RelMeans(at: seq<string>, base: string, target: string)
    requires Rel(base, target).Some?
    ensures Resolve(Locate(at, base), Split(Rel(base, target).value)) == Locate(at, target)
  {
    var b, t, r := Parts(base), Parts(target), Rel(base, target).value;
    LocateParts(at, base);
    LocateParts(at, target);
    PartsNormal(base);
    PartsNormal(target);
    NormalAnyway(Rooted(base), b);
    NormalAnyway(Rooted(target), t);
    var k := CommonPrefix(b, t);
    CommonPrefixAgrees(b, t);
    assert seq(|b| - k, _ => "..") == Deep(|b| - k, "..");
    assert k == |b| ==> Deep(|b| - k, "..") + t[k..] == t[k..];
    RelComponents(if Rooted(base) then [] else at, b, t, k, r);
  }
}
