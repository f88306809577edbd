/** The dated remote path of upload/remote_path.go. */
module RemotePath {
  import opened Options
  import opened Strings
  import opened Decimal
  import opened Paths
  import opened KeyMapping

  datatype Date = Date(year: nat, month: nat, day: nat) {
    predicate Valid() {
      1 <= month <= 12 && 1 <= day <= 31
    }

    predicate Before(other: Date) {
      || year < other.year
      || (year == other.year && (month < other.month || (month == other.month && day < other.day)))
    }
  }

  /** The three components of a date folder. */
  function DateParts(d: Date): (cs: seq<string>)
    ensures |cs| == 3
  {
    [Print(d.year), Padded(d.month, 2), Padded(d.day, 2)]
  }

  /** `%d/%02d/%02d`. */
  function DatePath(d: Date): string {
    Print(d.year) + "/" + Padded(d.month, 2) + "/" + Padded(d.day, 2)
  }

  /** What stands in front of the date. */
  function Folder(basePath: string, deploymentName: string): string {
    (if basePath != "" then basePath + "/" else "") + (if deploymentName != "" then deploymentName + "/" else "")
  }

  /** What the closure made by `RemotePathFunc` returns on day `d`. */
  function RemotePath(basePath: string, deploymentName: string, d: Date): string {
    Folder(basePath, deploymentName) + DatePath(d)
  }

  /** Reading a date folder back. */
  function ParseDate(s: string): Option<Date> {
    var cs := Split(s);
    if |cs| == 3 && AllDigits(cs[0]) && AllDigits(cs[1]) && AllDigits(cs[2])
    then Some(Date(Value(cs[0]), Value(cs[1]), Value(cs[2])))
    else None
  }

  lemma DigitsAreName(s: string)
    requires s != "" && AllDigits(s)
    ensures IsName(s)
  {
    assert IsDigit(s[0]);
  }

  lemma {:induction false} DateSplit(d: Date)
    ensures Split(DatePath(d)) == DateParts(d) && AllNames(DateParts(d))
  {
    var cs := DateParts(d);
    forall i | 0 <= i < 3 ensures IsName(cs[i]) {
      DigitsAreName(cs[i]);
    }
    assert Join(cs, "/") == DatePath(d) by {
      assert cs[1..] == [cs[1], cs[2]] && cs[1..][1..] == [cs[2]];
      assert Join(cs[1..], "/") == cs[1] + "/" + cs[2];
      assert cs[0] + "/" + (cs[1] + "/" + cs[2]) == DatePath(d);
    }
    SplitJoin(cs);
  }

  lemma {:induction false} DatePartsInjective(a: Date, b: Date)
    requires DateParts(a) == DateParts(b)
    ensures a == b
  {
    assert DateParts(a)[0] == DateParts(b)[0] && DateParts(a)[1] == DateParts(b)[1] && DateParts(a)[2] == DateParts(b)[2];
    PrintValue(a.year);
    PrintValue(b.year);
    PaddedValue(a.month, 2);
    PaddedValue(b.month, 2);
    PaddedValue(a.day, 2);
    PaddedValue(b.day, 2);
  }

  /** The date can be read back from its folder. */
  lemma {:induction false} DateRoundTrip(d: Date)
    ensures ParseDate(DatePath(d)) == Some(d)
  {
    DateSplit(d);
    PrintValue(d.year);
    PaddedValue(d.month, 2);
    PaddedValue(d.day, 2);
  }

  /** GCS object names of two different days never coincide, whatever the file names. */
  lemma {:induction false} DaysSeparateNames(basePath: string, deploymentName: string, a: Date, b: Date, x: string, y: string)
    requires RemotePath(basePath, deploymentName, a) + "/" + x == RemotePath(basePath, deploymentName, b) + "/" + y
    ensures a == b
  {
    var f := Folder(basePath, deploymentName);
    var p, q := DatePath(a) + "/" + x, DatePath(b) + "/" + y;
    FolderInFront(basePath, deploymentName, a, x);
    FolderInFront(basePath, deploymentName, b, y);
    DateInFront(a, x);
    DateInFront(b, y);
    DatePartsInjective(a, b);
  }

  /** GCS asks for the date again at every file (gcs.go:88), so one upload may use two days: still no two files
      share a name, and a name tells both day and file. */
  lemma {:induction false} NamesSeparateFiles(basePath: string, deploymentName: string, a: Date, b: Date, localDir: string,
                                              rel1: seq<string>, rel2: seq<string>)
    requires localDir != "" && rel1 != [] && AllNames(rel1) && rel2 != [] && AllNames(rel2)
    requires RelKey(RemotePath(basePath, deploymentName, a), localDir, WalkPath(localDir, rel1))
          == RelKey(RemotePath(basePath, deploymentName, b), localDir, WalkPath(localDir, rel2))
    ensures a == b && rel1 == rel2
  {
    RelOfWalkPath(localDir, rel1);
    RelOfWalkPath(localDir, rel2);
    var j1, j2, c := Join(rel1, "/"), Join(rel2, "/"), RemotePath(basePath, deploymentName, a);
    DaysSeparateNames(basePath, deploymentName, a, b, j1, j2);
    assert (c + "/" + j1)[|c| + 1..] == j1 && (c + "/" + j2)[|c| + 1..] == j2;
    SplitJoin(rel1);
    SplitJoin(rel2);
  }

  /** The components a configured path contributes: none when it is not given. */
  function Given(s: string): seq<string> {
    if s == "" then [] else Split(s)
  }

  lemma FolderSplit(front: string, rest: string)
    ensures Split((if front != "" then front + "/" else "") + rest) == Given(front) + Split(rest)
  {
    if front != "" {
      SplitConcat(front, rest);
    } else {
      assert "" + rest == rest;
    }
  }

  /** The remote path is the base path, the deployment name and the date, in this order; what is not given
      leaves no trace. */
  lemma {:induction false} RemoteSplit(basePath: string, deploymentName: string, d: Date)
    ensures Split(RemotePath(basePath, deploymentName, d)) == Given(basePath) + Given(deploymentName) + DateParts(d)
  {
    var base, dep := if basePath != "" then basePath + "/" else "", if deploymentName != "" then deploymentName + "/" else "";
    ConcatAssoc(base, dep, DatePath(d));
    FolderSplit(basePath, dep + DatePath(d));
    FolderSplit(deploymentName, DatePath(d));
    DateSplit(d);
    assert Given(basePath) + (Given(deploymentName) + DateParts(d)) == Given(basePath) + Given(deploymentName) + DateParts(d);
  }

  lemma PartsEqual(front: seq<string>, p: seq<string>, q: seq<string>, s: seq<string>, t: seq<string>)
    requires front + p + s == front + q + t && |s| == |t|
    ensures p == q && s == t
  {
    assert |p| == |q|;
    assert (front + p + s)[|front|..|front| + |p|] == p && (front + q + t)[|front|..|front| + |p|] == q;
    assert (front + p + s)[|front| + |p|..] == s && (front + q + t)[|front| + |p|..] == t;
  }

  /** Under one base path, different deployments or different days never share a remote path, whatever the
      deployments are called. */
  lemma {:induction false} RemotePathsDistinct(basePath: string, dep1: string, dep2: string, a: Date, b: Date)
    requires RemotePath(basePath, dep1, a) == RemotePath(basePath, dep2, b)
    ensures dep1 == dep2 && a == b
  {
    RemoteSplit(basePath, dep1, a);
    RemoteSplit(basePath, dep2, b);
    PartsEqual(Given(basePath), Given(dep1), Given(dep2), DateParts(a), DateParts(b));
    DatePartsInjective(a, b);
    JoinSplit(dep1);
    JoinSplit(dep2);
  }

  /** Nor do their GCS object names, whatever the files, if the deployment names are names. */
  lemma {:induction false} DeploymentsSeparateNames(basePath: string, dep1: string, dep2: string, a: Date, b: Date, x: string, y: string)
    requires IsName(dep1) && IsName(dep2)
    requires RemotePath(basePath, dep1, a) + "/" + x == RemotePath(basePath, dep2, b) + "/" + y
    ensures dep1 == dep2 && a == b
  {
    DeploymentInFront(basePath, dep1, a, x);
    DeploymentInFront(basePath, dep2, b, y);
    assert ([dep1] + DateParts(a))[0] == ([dep2] + DateParts(b))[0];
    DaysSeparateNames(basePath, dep1, a, b, x, y);
  }

  lemma DeploymentInFront(basePath: string, dep: string, d: Date, x: string)
    requires IsName(dep)
    ensures var cs := Split(RemotePath(basePath, dep, d) + "/" + x);
            var n := |Given(basePath)|;
            |cs| >= n + 4 && cs[n..n + 4] == [dep] + DateParts(d)
  {
    RemoteSplit(basePath, dep, d);
    NameSplit(dep);
    SplitConcat(RemotePath(basePath, dep, d), x);
    var front := Given(basePath);
    assert front + [dep] + DateParts(d) + Split(x) == front + ([dep] + DateParts(d)) + Split(x);
  }

  lemma FolderInFront(basePath: string, deploymentName: string, d: Date, x: string)
    ensures var s := RemotePath(basePath, deploymentName, d) + "/" + x;
            var n := |Folder(basePath, deploymentName)|;
            n <= |s| && s[n..] == DatePath(d) + "/" + x
  {
  }

  lemma DateInFront(d: Date, x: string)
    ensures |Split(DatePath(d) + "/" + x)| >= 3 && Split(DatePath(d) + "/" + x)[..3] == DateParts(d)
  {
    SplitConcat(DatePath(d), x);
    DateSplit(d);
  }

  /** The cleaned remote path is the cleaned folder followed by the date. */
  lemma {:induction false} RemoteParts(basePath: string, deploymentName: string, d: Date)
    ensures var r := RemotePath(basePath, deploymentName, d);
            var f := Folder(basePath, deploymentName);
            && r != "" && Rooted(r) == Rooted(f) && Parts(r) == Parts(f) + DateParts(d)
  {
    var f := Folder(basePath, deploymentName);
    DateSplit(d);
    NamesReduce(DateParts(d));
    if f == "" {
      assert f + DatePath(d) == DatePath(d);
      assert Parts("") == [] by { assert [""][..0] == []; }
      assert IsDigit(DatePath(d)[0]);
      assert Parts(f) + DateParts(d) == DateParts(d);
    } else {
      var g := f[..|f| - 1];
      assert f == g + "/" + "" && f + DatePath(d) == g + "/" + DatePath(d);
      SplitConcat(g, "");
      SplitConcat(g, DatePath(d));
      SplitNoSlash(g);
      ReduceTrailingEmpty(Rooted(f), Split(g));
      ReduceContained(Rooted(f), Split(g), DateParts(d));
    }
  }

  /** So it never cleans to the root or ".", as the key mapping asks. */
  lemma {:induction false} RemotePathUsable(basePath: string, deploymentName: string, d: Date)
    ensures Usable(RemotePath(basePath, deploymentName, d))
  {
    var r := RemotePath(basePath, deploymentName, d);
    RemoteParts(basePath, deploymentName, d);
    PartsNormal(r);
    JoinFirst(Parts(r));
    PartsOfRender(Rooted(r), Parts(r));
    assert Parts("/") == [] by {
      assert Split("/") == ["", ""];
      assert ["", ""][..1] == [""] && [""][..0] == [];
    }
    assert Parts(".") == [] by {
      SplitAtom(".");
      assert ["."][..0] == [];
    }
  }

  /** S3 and Azure keys of two different days never coincide either, for all relative paths that do not
      climb out of the day's folder. */
  lemma {:induction false} DaysSeparateKeys(basePath: string, deploymentName: string, a: Date, b: Date, x: string, y: string)
    requires Contained(Split(x)) && Contained(Split(y))
    requires JoinPath(RemotePath(basePath, deploymentName, a), x) == JoinPath(RemotePath(basePath, deploymentName, b), y)
    ensures a == b
  {
    var f := Folder(basePath, deploymentName);
    KeyParts(basePath, deploymentName, a, x);
    KeyParts(basePath, deploymentName, b, y);
    var n := |Parts(f)|;
    var p := Parts(f) + DateParts(a) + Reduce(false, Split(x));
    var q := Parts(f) + DateParts(b) + Reduce(false, Split(y));
    assert p == q;
    assert p[n..n + 3] == DateParts(a) && q[n..n + 3] == DateParts(b);
    DatePartsInjective(a, b);
  }

  lemma {:induction false} KeyParts(basePath: string, deploymentName: string, d: Date, x: string)
    requires Contained(Split(x))
    ensures Parts(JoinPath(RemotePath(basePath, deploymentName, d), x))
         == Parts(Folder(basePath, deploymentName)) + DateParts(d) + Reduce(false, Split(x))
  {
    var r := RemotePath(basePath, deploymentName, d);
    RemoteParts(basePath, deploymentName, d);
    PartsOfConcat(r, x);
    CleanIdempotent(r + "/" + x);
  }

  /** The S3 or Azure key on day `d` of the file `rel` below `localDir`. */
  function DayKey(basePath: string, deploymentName: string, localDir: string, rel: seq<string>, d: Date): string {
    ReplaceKey(RemotePath(basePath, deploymentName, d), localDir, WalkPath(localDir, rel))
  }

  /** No key of a file in the list on one day is a key of a file in the list on another. */
  ghost predicate DaysApart(basePath: string, deploymentName: string, localDir: string, rels: seq<seq<string>>) {
    forall a: Date, b: Date, i, j ::
      && a.Valid() && b.Valid() && 0 <= i < |rels| && 0 <= j < |rels|
      && DayKey(basePath, deploymentName, localDir, rels[i], a) == DayKey(basePath, deploymentName, localDir, rels[j], b)
      ==> a == b
  }

  /** Whatever the folder, its files, the base path and the deployment name, S3 and Azure keys of different
      days never coincide exactly when what replace-all leaves of each file's path does not climb. */
  lemma {:induction false} DaysSeparateExactly(basePath: string, deploymentName: string, localDir: string, rels: seq<seq<string>>)
    ensures DaysApart(basePath, deploymentName, localDir, rels)
            <==> forall i :: 0 <= i < |rels| ==> Contained(Split(Remainder(localDir, rels[i])))
  {
    if forall i :: 0 <= i < |rels| ==> Contained(Split(Remainder(localDir, rels[i]))) {
      forall a: Date, b: Date, i, j |
        && a.Valid() && b.Valid() && 0 <= i < |rels| && 0 <= j < |rels|
        && DayKey(basePath, deploymentName, localDir, rels[i], a) == DayKey(basePath, deploymentName, localDir, rels[j], b)
        ensures a == b
      {
        DaysSeparateKeys(basePath, deploymentName, a, b, Remainder(localDir, rels[i]), Remainder(localDir, rels[j]));
      }
    } else {
      var i :| 0 <= i < |rels| && !Contained(Split(Remainder(localDir, rels[i])));
      var a, b := Date(2000, 1, 1), Date(2000, 1, 2);
      ClimbingKey(basePath, deploymentName, a, b, Remainder(localDir, rels[i]));
      assert DayKey(basePath, deploymentName, localDir, rels[i], a) == DayKey(basePath, deploymentName, localDir, rels[i], b);
      assert a.Valid() && b.Valid() && a != b;
    }
  }

  /** A path that climbs has one key for all days of a month. */
  lemma {:induction false} ClimbingKey(basePath: string, deploymentName: string, a: Date, b: Date, x: string)
    requires a.year == b.year && a.month == b.month && !Contained(Split(x))
    ensures JoinPath(RemotePath(basePath, deploymentName, a), x) == JoinPath(RemotePath(basePath, deploymentName, b), x)
  {
    var f := Folder(basePath, deploymentName);
    var front := Parts(f) + [Print(a.year), Padded(a.month, 2)];
    RawKeyParts(basePath, deploymentName, a, x);
    RawKeyParts(basePath, deploymentName, b, x);
    SplitNoSlash(x);
    DigitsAreName(Padded(a.day, 2));
    DigitsAreName(Padded(b.day, 2));
    ClimbForgets(Rooted(f), front, Padded(a.day, 2), Padded(b.day, 2), Split(x));
  }

  lemma {:induction false} RawKeyParts(basePath: string, deploymentName: string, d: Date, x: string)
    ensures var f := Folder(basePath, deploymentName);
            var front := Parts(f) + [Print(d.year), Padded(d.month, 2)];
            JoinPath(RemotePath(basePath, deploymentName, d), x)
            == Render(Rooted(f), Reduce(Rooted(f), front + [Padded(d.day, 2)] + Split(x)))
  {
    var r, f := RemotePath(basePath, deploymentName, d), Folder(basePath, deploymentName);
    RemoteParts(basePath, deploymentName, d);
    RawParts(r, x);
    PartsNormal(r);
    NormalReduces(Rooted(r), Parts(r));
    ReduceFront(Rooted(r), Split(r), Parts(r), Split(x));
    assert Parts(f) + DateParts(d) == Parts(f) + [Print(d.year), Padded(d.month, 2)] + [Padded(d.day, 2)];
  }

  lemma {:induction false} FolderParts(basePath: string, deploymentName: string)
    requires IsName(deploymentName)
    ensures var f := Folder(basePath, deploymentName);
            Rooted(f) == Rooted(basePath) && Parts(f) == Parts(basePath) + [deploymentName]
  {
    var f, tail := Folder(basePath, deploymentName), deploymentName + "/" + "";
    NameSplit(deploymentName);
    SplitConcat(deploymentName, "");
    ReduceTrailingEmpty(false, [deploymentName]);
    if basePath == "" {
      assert f == tail;
      assert Parts("") == [] by { assert [""][..0] == []; }
      assert f[0] == deploymentName[0];
      assert [] + [deploymentName] == [deploymentName];
    } else {
      assert f == basePath + "/" + tail;
      PartsOfConcat(basePath, tail);
    }
  }

  /** No key of a file in the list in a backup of one deployment on one day is a key in another's or another
      day's. */
  ghost predicate BackupsApart(basePath: string, localDir: string, rels: seq<seq<string>>) {
    forall dep1, dep2, a: Date, b: Date, i, j ::
      && IsName(dep1) && IsName(dep2) && a.Valid() && b.Valid() && 0 <= i < |rels| && 0 <= j < |rels|
      && DayKey(basePath, dep1, localDir, rels[i], a) == DayKey(basePath, dep2, localDir, rels[j], b)
      ==> dep1 == dep2 && a == b
  }

  lemma ApartByDay(basePath: string, dep: string, localDir: string, rels: seq<seq<string>>)
    requires IsName(dep) && BackupsApart(basePath, localDir, rels)
    ensures DaysApart(basePath, dep, localDir, rels)
  {
  }

  lemma NameOf(c: char) returns (name: string)
    requires c != '/' && c != '.'
    ensures IsName(name)
  {
    name := [c];
    assert name[0] == c;
  }

  /** For deployment names that are names the exact condition is the same: then neither days nor deployments
      overwrite one another under one base path. */
  lemma {:induction false} DeploymentsSeparateExactly(basePath: string, localDir: string, rels: seq<seq<string>>)
    ensures BackupsApart(basePath, localDir, rels)
            <==> forall i :: 0 <= i < |rels| ==> Contained(Split(Remainder(localDir, rels[i])))
  {
    if forall i :: 0 <= i < |rels| ==> Contained(Split(Remainder(localDir, rels[i]))) {
      forall dep1, dep2, a: Date, b: Date, i, j |
        && IsName(dep1) && IsName(dep2) && a.Valid() && b.Valid() && 0 <= i < |rels| && 0 <= j < |rels|
        && DayKey(basePath, dep1, localDir, rels[i], a) == DayKey(basePath, dep2, localDir, rels[j], b)
        ensures dep1 == dep2 && a == b
      {
        DeploymentsSeparateKeys(basePath, dep1, dep2, a, b, Remainder(localDir, rels[i]), Remainder(localDir, rels[j]));
      }
    } else {
      var dep := NameOf('d');
      DaysSeparateExactly(basePath, dep, localDir, rels);
      if BackupsApart(basePath, localDir, rels) {
        ApartByDay(basePath, dep, localDir, rels);
      }
    }
  }

  lemma {:induction false} DeploymentsSeparateKeys(basePath: string, dep1: string, dep2: string, a: Date, b: Date, x: string, y: string)
    requires IsName(dep1) && IsName(dep2) && Contained(Split(x)) && Contained(Split(y))
    requires JoinPath(RemotePath(basePath, dep1, a), x) == JoinPath(RemotePath(basePath, dep2, b), y)
    ensures dep1 == dep2 && a == b
  {
    DeploymentKeyParts(basePath, dep1, a, x);
    DeploymentKeyParts(basePath, dep2, b, y);
    var n := |Parts(basePath)|;
    var p := Parts(basePath) + ([dep1] + DateParts(a)) + Reduce(false, Split(x));
    var q := Parts(basePath) + ([dep2] + DateParts(b)) + Reduce(false, Split(y));
    assert p == q;
    assert p[n] == dep1 && q[n] == dep2;
    DaysSeparateKeys(basePath, dep1, a, b, x, y);
  }

  lemma {:induction false} DeploymentKeyParts(basePath: string, dep: string, d: Date, x: string)
    requires IsName(dep) && Contained(Split(x))
    ensures Parts(JoinPath(RemotePath(basePath, dep, d), x))
         == Parts(basePath) + ([dep] + DateParts(d)) + Reduce(false, Split(x))
  {
    KeyParts(basePath, dep, d, x);
    FolderParts(basePath, dep);
  }

  /** So days are kept apart for every list of files in whose paths the folder occurs only in front. */
  lemma {:induction false} DaysSeparateFiles(basePath: string, deploymentName: string, localDir: string, rels: seq<seq<string>>)
    requires localDir != "" && forall i :: 0 <= i < |rels| ==> rels[i] != [] && AllNames(rels[i]) && OnlyInFront(localDir, rels[i])
    ensures DaysApart(basePath, deploymentName, localDir, rels)
  {
    forall i | 0 <= i < |rels| ensures Contained(Split(Remainder(localDir, rels[i]))) {
      RemainderStays(localDir, rels[i]);
    }
    DaysSeparateExactly(basePath, deploymentName, localDir, rels);
  }

  /** File names alone can break it: backing up `/a`, the file `/a/a../f` has one key for all days of a
      month. */
  lemma DaysCollide(basePath: string, deploymentName: string, year: nat, month: nat, day1: nat, day2: nat)
    returns (localDir: string, rel: seq<string>)
    ensures localDir == "/a" && Clean(localDir) == localDir && rel == ["a..", "f"] && AllNames(rel)
    ensures DayKey(basePath, deploymentName, localDir, rel, Date(year, month, day1))
         == DayKey(basePath, deploymentName, localDir, rel, Date(year, month, day2))
  {
    localDir, rel := "/a", ["a..", "f"];
    CleanOfA();
    ClimbingRemainder(localDir, rel, "../f");
    ClimbingKey(basePath, deploymentName, Date(year, month, day1), Date(year, month, day2), Remainder(localDir, rel));
  }

  lemma ClimbingRemainder(localDir: string, rel: seq<string>, x: string)
    requires localDir == "/a" && Clean(localDir) == localDir && rel == ["a..", "f"] && x == "../f"
    ensures AllNames(rel) && Remainder(localDir, rel) == x && !Contained(Split(x))
  {
    assert Tail(localDir, rel) == localDir + x by {
      assert rel[1..] == ["f"];
      assert Join(rel, "/") == "a../f";
    }
    RemoveFromWalkPath(localDir, rel);
    RemovePrefix(localDir, x);
    OccursContains(localDir, x, 1);
    RemoveLength(x, localDir);
    UpOne(x, "f");
  }

  lemma UpOne(x: string, c: string)
    requires IsName(c) && x == "../" + c
    ensures !Contained(Split(x))
  {
    var cs := ["..", c];
    SplitJoin(cs);
    assert Join(cs, "/") == x;
    NormalReduces(false, cs);
  }

  lemma TwoDigits(n: nat)
    requires n < 100
    ensures |Padded(n, 2)| == 2 && Value(Padded(n, 2)) == n
  {
    assert Pow10(2) == 100 by { assert Pow10(1) == 10; }
    PaddedLength(n, 2);
    PaddedValue(n, 2);
  }

  /** The date folder is three numbers: the year without leading zeros, month and day in two digits each. */
  lemma {:induction false} DateFormat(d: Date)
    requires d.Valid()
    ensures var cs := Split(DatePath(d));
            && |cs| == 3 && AllDigits(cs[0]) && AllDigits(cs[1]) && AllDigits(cs[2])
            && Value(cs[0]) == d.year && (cs[0][0] == '0' ==> cs[0] == "0")
            && |cs[1]| == 2 && Value(cs[1]) == d.month && |cs[2]| == 2 && Value(cs[2]) == d.day
  {
    DateSplit(d);
    PrintValue(d.year);
    NoLeadingZero(d.year);
    TwoDigits(d.month);
    TwoDigits(d.day);
  }

  /** `%02d/%02d`. */
  function DayPath(d: Date): string {
    Padded(d.month, 2) + ("/" + Padded(d.day, 2))
  }

  lemma {:induction false} DayOrder(a: Date, b: Date)
    requires a.Valid() && b.Valid()
    ensures Less(DayPath(a), DayPath(b)) <==> a.month < b.month || (a.month == b.month && a.day < b.day)
  {
    TwoDigits(a.month);
    TwoDigits(b.month);
    TwoDigits(a.day);
    TwoDigits(b.day);
    var da, db := Padded(a.day, 2), Padded(b.day, 2);
    NumberOrder(Padded(a.month, 2), Padded(b.month, 2), "/" + da, "/" + db);
    SlashOrder(da, db);
    LessIsNumeric(da, db);
  }

  lemma {:induction false} SameWidthOrder(a: Date, b: Date)
    requires a.Valid() && b.Valid() && |Print(a.year)| == |Print(b.year)|
    ensures Less(DatePath(a), DatePath(b)) <==> a.Before(b)
  {
    DatePathForm(a);
    DatePathForm(b);
    PrintValue(a.year);
    PrintValue(b.year);
    NumberOrder(Print(a.year), Print(b.year), "/" + DayPath(a), "/" + DayPath(b));
    SlashOrder(DayPath(a), DayPath(b));
    DayOrder(a, b);
  }

  /** A number with fewer digits is compared with as many leading digits of the other, and comes first if
      they are equal, because a slash sorts before every digit. */
  lemma {:induction false} ShorterNumberOrder(y: string, z: string, s: string, t: string)
    requires AllDigits(y) && AllDigits(z) && |y| < |z|
    ensures Less(y + ("/" + s), z + ("/" + t)) <==> Value(y) <= Value(z[..|y|])
    ensures Less(z + ("/" + t), y + ("/" + s)) <==> Value(z[..|y|]) < Value(y)
  {
    var front, back := z[..|y|], z[|y|..] + ("/" + t);
    assert z + ("/" + t) == front + back;
    NumberOrder(y, front, "/" + s, back);
    NumberOrder(front, y, back, "/" + s);
    assert IsDigit(back[0]) by { assert back[0] == z[|y|]; }
  }

  lemma DatePathForm(d: Date)
    ensures DatePath(d) == Print(d.year) + ("/" + DayPath(d))
  {
  }

  lemma {:induction false} NarrowNumberOrder(y: nat, z: nat, s: string, t: string)
    requires |Print(y)| < |Print(z)|
    ensures y < z
    ensures var lead := Leading(z, |Print(z)| - |Print(y)|);
            && (Less(Print(y) + ("/" + s), Print(z) + ("/" + t)) <==> y <= lead)
            && (Less(Print(z) + ("/" + t), Print(y) + ("/" + s)) <==> lead < y)
  {
    var k := |Print(z)| - |Print(y)|;
    ShorterNumberOrder(Print(y), Print(z), s, t);
    PrintPrefix(z, k);
    PrintValue(y);
    PrintValue(Leading(z, k));
    PrintLength(y, |Print(y)|);
    PrintLength(z, |Print(y)|);
  }

  lemma {:induction false} NarrowYearOrder(a: Date, b: Date)
    requires |Print(a.year)| < |Print(b.year)|
    ensures a.year < b.year
    ensures var lead := Leading(b.year, |Print(b.year)| - |Print(a.year)|);
            && (Less(DatePath(a), DatePath(b)) <==> a.year <= lead)
            && (Less(DatePath(b), DatePath(a)) <==> lead < a.year)
  {
    DatePathForm(a);
    DatePathForm(b);
    NarrowNumberOrder(a.year, b.year, DayPath(a), DayPath(b));
  }

  /** String order puts these two years in order. */
  predicate YearsSort(y: nat, z: nat) {
    var v, w := |Print(y)|, |Print(z)|;
    if v == w then true
    else if v < w then y <= z / Pow10(w - v)
    else z <= y / Pow10(v - w)
  }

  /** The order of two folder names as strings is the order of the dates exactly when the years have the
      same number of digits or the shorter one is at most the leading digits of the longer. */
  lemma {:induction false} DateOrder(a: Date, b: Date)
    requires a.Valid() && b.Valid()
    ensures (Less(DatePath(a), DatePath(b)) <==> a.Before(b)) <==> YearsSort(a.year, b.year)
  {
    var v, w := |Print(a.year)|, |Print(b.year)|;
    if v == w {
      SameWidthOrder(a, b);
    } else if v < w {
      NarrowYearOrder(a, b);
      LeadingDivides(b.year, w - v);
    } else {
      NarrowYearOrder(b, a);
      LeadingDivides(a.year, v - w);
    }
  }

  lemma NumberOrder(a: string, b: string, x: string, y: string)
    requires AllDigits(a) && AllDigits(b) && |a| == |b|
    ensures Less(a + x, b + y) <==> Value(a) < Value(b) || (Value(a) == Value(b) && Less(x, y))
  {
    LessAppend(a, b, x, y);
    LessIsNumeric(a, b);
  }

  lemma SlashOrder(x: string, y: string)
    ensures Less("/" + x, "/" + y) <==> Less(x, y)
  {
    LessAppend("/", "/", x, y);
    assert !Less("/", "/") by { assert "/"[1..] == ""; }
  }

  /** Otherwise it is not: the year 10000 sorts before the year 9999. */
  lemma YearTenThousandSortsFirst()
    ensures var a, b := Date(9999, 1, 1), Date(10000, 1, 1);
            a.Before(b) && Less(DatePath(b), DatePath(a))
  {
    assert Print(10000)[0] == '1' by {
      assert Print(1) == ['1'];
      assert Print(100)[0] == '1';
      assert Print(1000)[0] == '1';
    }
    assert Print(9999)[0] == '9' by {
      assert Print(9) == ['9'];
      assert Print(999)[0] == '9';
    }
    assert DatePath(Date(10000, 1, 1))[0] == '1' && DatePath(Date(9999, 1, 1))[0] == '9';
  }
}
