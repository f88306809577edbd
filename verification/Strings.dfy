/** The functions of Go's `strings` package that the uploaders use. */
module Strings {

  /** `strings.Join`. */
  function Join(parts: seq<string>, sep: string): string {
    if parts == [] then "" else
    if |parts| == 1 then parts[0] else parts[0] + sep + Join(parts[1..], sep)
  }

  /** `strings.Split(s, "/")`. */
  function Split(s: string): (parts: seq<string>)
    ensures |parts| >= 1
  {
    if s == "" then [""]
    else if s[0] == '/' then [""] + Split(s[1..])
    else
      var rest := Split(s[1..]);
      [[s[0]] + rest[0]] + rest[1..]
  }

  predicate NoSlash(c: string) {
    forall i :: 0 <= i < |c| ==> c[i] != '/'
  }

  predicate AllNoSlash(cs: seq<string>) {
    forall i :: 0 <= i < |cs| ==> NoSlash(cs[i])
  }

  lemma {:induction false} SplitNoSlash(s: string)
    ensures AllNoSlash(Split(s))
  {
    if s != "" {
      SplitNoSlash(s[1..]);
    }
  }

  lemma {:induction false} SplitAtom(s: string)
    requires NoSlash(s)
    ensures Split(s) == [s]
  {
    if s != "" {
      SplitAtom(s[1..]);
      assert s == [s[0]] + s[1..];
    }
  }

  lemma {:induction false} SplitConcat(a: string, b: string)
    ensures Split(a + "/" + b) == Split(a) + Split(b)
  {
    var s := a + "/" + b;
    if a == "" {
      assert s[1..] == b;
    } else {
      assert s[1..] == a[1..] + "/" + b;
      SplitConcat(a[1..], b);
    }
  }

  /** Splitting undoes joining. */
  lemma {:induction false} SplitJoin(cs: seq<string>)
    requires cs != [] && AllNoSlash(cs)
    ensures Split(Join(cs, "/")) == cs
  {
    SplitAtom(cs[0]);
    if |cs| > 1 {
      SplitJoin(cs[1..]);
      SplitConcat(cs[0], Join(cs[1..], "/"));
      assert cs == [cs[0]] + cs[1..];
    } else {
      assert cs == [cs[0]];
    }
  }

  lemma JoinHead(c: string, parts: seq<string>, sep: string)
    requires parts != []
    ensures Join([c + parts[0]] + parts[1..], sep) == c + Join(parts, sep)
  {
    var longer := [c + parts[0]] + parts[1..];
    assert longer[1..] == parts[1..];
    if |parts| > 1 {
      assert c + parts[0] + sep + Join(parts[1..], sep) == c + (parts[0] + sep + Join(parts[1..], sep));
    }
  }

  lemma JoinCons(c: string, parts: seq<string>)
    requires parts != []
    ensures Join([c] + parts, "/") == c + "/" + Join(parts, "/")
  {
    assert ([c] + parts)[1..] == parts;
  }

  /** Joining undoes splitting. */
  lemma {:induction false} JoinSplit(s: string)
    ensures Join(Split(s), "/") == s
  {
    if s != "" {
      JoinSplit(s[1..]);
      assert s == [s[0]] + s[1..];
      if s[0] == '/' {
        JoinCons("", Split(s[1..]));
      } else {
        JoinHead([s[0]], Split(s[1..]), "/");
      }
    }
  }

  lemma {:induction false} JoinConcat(a: seq<string>, b: seq<string>)
    requires a != [] && b != []
    ensures Join(a + b, "/") == Join(a, "/") + "/" + Join(b, "/")
  {
    assert (a + b)[1..] == a[1..] + b;
    if |a| > 1 {
      JoinConcat(a[1..], b);
    } else {
      assert a[1..] + b == b;
    }
  }

  lemma {:induction false} JoinAppend(parts: seq<string>, part: string, sep: string)
    requires parts != []
    ensures Join(parts + [part], sep) == Join(parts, sep) + sep + part
  {
    assert (parts + [part])[1..] == parts[1..] + [part];
    if |parts| > 1 {
      JoinAppend(parts[1..], part, sep);
    } else {
      assert parts[1..] + [part] == [part];
    }
  }

  predicate IsPrefix(pat: string, s: string) {
    |pat| <= |s| && s[..|pat|] == pat
  }

  /** `pat` occurs somewhere in `s`. */
  predicate Occurs(pat: string, s: string) {
    exists i :: 0 <= i <= |s| && IsPrefix(pat, s[i..])
  }

  /** `strings.Replace(s, pat, "", -1)`: removes the occurrences found from left to right. */
  function RemoveAll(s: string, pat: string): string {
    if pat == "" || s == "" then s
    else if IsPrefix(pat, s) then RemoveAll(s[|pat|..], pat)
    else [s[0]] + RemoveAll(s[1..], pat)
  }

  lemma OccursStep(pat: string, s: string)
    requires s != ""
    ensures Occurs(pat, s) <==> IsPrefix(pat, s) || Occurs(pat, s[1..])
  {
    assert s[0..] == s;
    if Occurs(pat, s) && !IsPrefix(pat, s) {
      var i :| 0 <= i <= |s| && IsPrefix(pat, s[i..]);
      assert s[1..][i - 1..] == s[i..];
    }
    if Occurs(pat, s[1..]) {
      var i :| 0 <= i <= |s[1..]| && IsPrefix(pat, s[1..][i..]);
      assert s[1..][i..] == s[i + 1..];
    }
  }

  lemma OccursContains(pat: string, s: string, k: nat)
    requires k < |pat|
    ensures Occurs(pat, s) ==> pat[k] in s
  {
    if Occurs(pat, s) {
      var i :| 0 <= i <= |s| && IsPrefix(pat, s[i..]);
      assert s[i + k] == s[i..][..|pat|][k];
    }
  }

  lemma OccursBehind(pat: string, front: string, s: string)
    requires Occurs(pat, s)
    ensures Occurs(pat, front + s)
  {
    var i :| 0 <= i <= |s| && IsPrefix(pat, s[i..]);
    assert (front + s)[|front| + i..] == s[i..];
  }

  /** What is joined occurs in the result. */
  lemma {:induction false} JoinOccurs(parts: seq<string>, sep: string, i: nat)
    requires i < |parts|
    ensures Occurs(parts[i], Join(parts, sep))
  {
    var s := Join(parts, sep);
    if i == 0 {
      assert s[0..] == s && s[..|parts[0]|] == parts[0];
    } else {
      JoinOccurs(parts[1..], sep, i - 1);
      OccursBehind(parts[i], parts[0] + sep, Join(parts[1..], sep));
    }
  }

  /** Removing changes nothing exactly when there is no occurrence, and otherwise shortens by at least
      the length of the pattern. */
  lemma {:induction false} RemoveLength(s: string, pat: string)
    requires pat != ""
    ensures !Occurs(pat, s) ==> RemoveAll(s, pat) == s
    ensures Occurs(pat, s) ==> |RemoveAll(s, pat)| + |pat| <= |s|
    decreases |s|
  {
    if s != "" {
      OccursStep(pat, s);
      if IsPrefix(pat, s) {
        RemoveLength(s[|pat|..], pat);
      } else {
        RemoveLength(s[1..], pat);
        assert s == [s[0]] + s[1..];
      }
    }
  }

  /** `pat` does not start anywhere in `piece`, even if it follows: the first occurrence in `piece + pat` is
      the one behind `piece`. */
  ghost predicate FoundFirst(piece: string, pat: string) {
    forall i :: 0 <= i < |piece| ==> !IsPrefix(pat, (piece + pat)[i..])
  }

  lemma FoundFirstLonger(c: char, piece: string, pat: string, s: string)
    requires pat != "" && FoundFirst(piece, pat) && IsPrefix(piece + pat, s) && !IsPrefix(pat, [c] + s)
    ensures FoundFirst([c] + piece, pat)
  {
    var longer := [c] + piece;
    forall i | 0 <= i < |longer| ensures !IsPrefix(pat, (longer + pat)[i..]) {
      if i > 0 {
        assert (longer + pat)[i..] == (piece + pat)[i - 1..];
      } else {
        assert longer + pat == [c] + (piece + pat) && (longer + pat)[0..] == longer + pat;
        assert ([c] + s)[..|pat|] == (longer + pat)[..|pat|];
      }
    }
  }

  /** `s` cut at the occurrences of `pat` found from left to right. */
  ghost predicate Cut(s: string, pat: string, pieces: seq<string>) {
    && pieces != [] && s == Join(pieces, pat)
    && (forall k :: 0 <= k < |pieces| - 1 ==> FoundFirst(pieces[k], pat))
    && !Occurs(pat, pieces[|pieces| - 1])
  }

  lemma LongerPieces(s: string, pat: string, rest: seq<string>) returns (pieces: seq<string>)
    requires pat != "" && s != "" && !IsPrefix(pat, s) && Cut(s[1..], pat, rest) && RemoveAll(s[1..], pat) == Join(rest, "")
    ensures Cut(s, pat, pieces) && RemoveAll(s, pat) == Join(pieces, "")
  {
    pieces := [[s[0]] + rest[0]] + rest[1..];
    JoinHead([s[0]], rest, pat);
    JoinHead([s[0]], rest, "");
    assert s == [s[0]] + s[1..];
    if |rest| > 1 {
      FoundFirstLonger(s[0], rest[0], pat, s[1..]);
    } else {
      OccursStep(pat, s);
      assert pieces == [s];
    }
  }

  /** What removing does: `s` is cut at the occurrences of `pat` found from left to right, and the pieces are
      put together without them. */
  lemma {:induction false} RemovedPieces(s: string, pat: string) returns (pieces: seq<string>)
    requires pat != ""
    ensures Cut(s, pat, pieces) && RemoveAll(s, pat) == Join(pieces, "")
    decreases |s|
  {
    if s == "" {
      pieces := [""];
    } else if IsPrefix(pat, s) {
      var rest := RemovedPieces(s[|pat|..], pat);
      pieces := [""] + rest;
      assert pieces[1..] == rest;
      assert s == "" + pat + s[|pat|..];
    } else {
      var rest := RemovedPieces(s[1..], pat);
      pieces := LongerPieces(s, pat, rest);
    }
  }
}
