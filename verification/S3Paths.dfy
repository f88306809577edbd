/** The paths of an S3 destination (upload/factory.go) and the bucket its files go into. */
module S3Paths {
  import opened Strings
  import opened Decimal
  import opened Paths
  import opened KeyMapping
  import opened RemotePath

  /** The remote path of an S3 destination (upload/factory.go:25-39). */
  function S3RemotePath(bucketName: string, bucketPath: string, deploymentName: string, d: Date): string {
    RemotePath.RemotePath(bucketName + "/" + bucketPath, deploymentName, d)
  }

  /** It is the bucket, the bucket path, the deployment name if there is one, and the date. */
  lemma {:induction false} S3Split(bucketName: string, bucketPath: string, deploymentName: string, d: Date)
    ensures Split(S3RemotePath(bucketName, bucketPath, deploymentName, d))
         == Split(bucketName) + Split(bucketPath) + Given(deploymentName) + DateParts(d)
  {
    RemoteSplit(bucketName + "/" + bucketPath, deploymentName, d);
    SplitConcat(bucketName, bucketPath);
  }

  /** What follows the bucket name in it. */
  function S3Rest(bucketPath: string, deploymentName: string, d: Date): string {
    bucketPath + "/" + Folder("", deploymentName) + DatePath(d)
  }

  /** The remote path of the file `rel` below `localDir` at an S3 destination. */
  function S3Put(bucketName: string, bucketPath: string, deploymentName: string, d: Date, localDir: string, rel: seq<string>): string {
    ReplaceKey(S3RemotePath(bucketName, bucketPath, deploymentName, d), localDir, WalkPath(localDir, rel))
  }

  /** For every S3 destination and every walked file: the bucket checked and created is the bucket the file is
      put into exactly when the path behind the bucket, with what replace-all leaves of the file's path,
      does not climb out of it, or comes back down into it. */
  lemma {:induction false} S3BucketExact(bucketName: string, bucketPath: string, deploymentName: string, d: Date,
                                         localDir: string, rel: seq<string>)
    requires IsName(bucketName)
    ensures var put := S3Put(bucketName, bucketPath, deploymentName, d, localDir, rel);
            var cs := Split(S3Rest(bucketPath, deploymentName, d)) + Split(Remainder(localDir, rel));
            var up := Reduce(false, cs);
            && Bucket(S3RemotePath(bucketName, bucketPath, deploymentName, d)) == bucketName
            && (Bucket(put) == bucketName <==> Contained(cs) || (|up| > 1 && up[1] == bucketName))
            && (Bucket(put) + "/" + Key(put) == put <==> if Contained(cs) then up != [] else |up| > 2)
  {
    S3PathForm(bucketName, bucketPath, deploymentName, d);
    BucketStable(bucketName, S3Rest(bucketPath, deploymentName, d), Remainder(localDir, rel));
  }

  /** In particular, when neither bucket path nor deployment name has a ".." component and the folder occurs
      in the file's path only in front, the file goes into that bucket, and bucket and key rebuild its
      cleaned path. */
  lemma {:induction false} S3BucketStable(bucketName: string, bucketPath: string, deploymentName: string, d: Date,
                                          localDir: string, rel: seq<string>)
    requires IsName(bucketName)
    requires ".." !in Split(bucketPath) && ".." !in Split(deploymentName)
    requires localDir != "" && rel != [] && AllNames(rel)
    requires OnlyInFront(localDir, rel) || (!Occurs(localDir, WalkPath(localDir, rel)) && ".." !in Parts(localDir))
    ensures var put := S3Put(bucketName, bucketPath, deploymentName, d, localDir, rel);
            && Bucket(S3RemotePath(bucketName, bucketPath, deploymentName, d)) == bucketName && Bucket(put) == bucketName
            && Bucket(put) + "/" + Key(put) == put
  {
    RemainderStays(localDir, rel);
    S3RestKept(bucketPath, deploymentName, d, Remainder(localDir, rel));
    S3BucketExact(bucketName, bucketPath, deploymentName, d, localDir, rel);
  }

  lemma S3PathForm(bucketName: string, bucketPath: string, deploymentName: string, d: Date)
    ensures S3RemotePath(bucketName, bucketPath, deploymentName, d) == bucketName + "/" + S3Rest(bucketPath, deploymentName, d)
  {
  }

  lemma {:induction false} S3RestKept(bucketPath: string, deploymentName: string, d: Date, relative: string)
    requires ".." !in Split(bucketPath) && ".." !in Split(deploymentName) && ".." !in Split(relative)
    ensures var cs := Split(S3Rest(bucketPath, deploymentName, d)) + Split(relative);
            Contained(cs) && Reduce(false, cs) != []
  {
    var cs := Split(S3Rest(bucketPath, deploymentName, d)) + Split(relative);
    S3RestSplit(bucketPath, deploymentName, d);
    NoClimb(cs);
    DigitsAreName(Print(d.year));
    NameKept(cs, Print(d.year));
  }

  lemma {:induction false} S3RestSplit(bucketPath: string, deploymentName: string, d: Date)
    requires ".." !in Split(bucketPath) && ".." !in Split(deploymentName)
    ensures var cs := Split(S3Rest(bucketPath, deploymentName, d));
            ".." !in cs && Print(d.year) in cs
  {
    var tail := Folder("", deploymentName) + DatePath(d);
    assert S3Rest(bucketPath, deploymentName, d) == bucketPath + "/" + tail;
    SplitConcat(bucketPath, tail);
    DatedSplit(deploymentName, d);
  }

  lemma {:induction false} DatedSplit(deploymentName: string, d: Date)
    requires ".." !in Split(deploymentName)
    ensures var cs := Split(Folder("", deploymentName) + DatePath(d));
            ".." !in cs && Print(d.year) in cs
  {
    var tail := Folder("", deploymentName) + DatePath(d);
    DateSplit(d);
    assert DateParts(d)[0] == Print(d.year);
    if deploymentName != "" {
      assert tail == deploymentName + "/" + DatePath(d);
      SplitConcat(deploymentName, DatePath(d));
    } else {
      assert tail == DatePath(d);
    }
  }

  /** A name among them is kept. */
  lemma {:induction false} NameKept(cs: seq<string>, c: string)
    requires ".." !in cs && c in cs && IsName(c)
    ensures c in Reduce(false, cs)
  {
    var n := |cs| - 1;
    if cs[n] != c {
      NameKept(cs[..n], c);
    }
  }

  /** Directories named ".a." below the folder "a", and a file at the bottom. */
  function Dotted(k: nat): (rel: seq<string>)
    ensures |rel| == k + 1
  {
    if k == 0 then ["f"] else [".a."] + Dotted(k - 1)
  }

  /** What replace-all makes of them: ".." as often, and the file. */
  function Climbing(k: nat): (cs: seq<string>)
    ensures |cs| == k + 1
  {
    if k == 0 then ["f"] else [".."] + Climbing(k - 1)
  }

  lemma {:induction false} DottedNames(k: nat)
    ensures AllNames(Dotted(k)) && AllNoSlash(Climbing(k))
  {
    if k > 0 {
      DottedNames(k - 1);
    }
  }

  lemma {:induction false} DottedRemoved(k: nat, a: string)
    requires a == "a"
    ensures RemoveAll(Join(Dotted(k), "/"), a) == Join(Climbing(k), "/")
  {
    if k == 0 {
      OccursContains(a, "f", 0);
      RemoveLength("f", a);
    } else {
      DottedRemoved(k - 1, a);
      var s := Join(Dotted(k - 1), "/");
      JoinCons(".a.", Dotted(k - 1));
      JoinCons("..", Climbing(k - 1));
      DotARemoved(a, s);
    }
  }

  lemma DotARemoved(a: string, s: string)
    requires a == "a"
    ensures RemoveAll(".a." + "/" + s, a) == ".." + "/" + RemoveAll(s, a)
  {
    var t := ['.'] + (['/'] + s);
    assert ".a." + "/" + s == ['.'] + (a + t);
    RemoveSkip('.', a + t, a);
    RemovePrefix(a, t);
    RemoveSkip('.', ['/'] + s, a);
    RemoveSkip('/', s, a);
  }

  lemma {:induction false} DottedRemainder(k: nat, a: string)
    requires a == "a"
    ensures Split(Remainder(a, Dotted(k))) == [""] + Climbing(k)
  {
    var j := Join(Dotted(k), "/");
    DottedNames(k);
    CleanOfName(a);
    RemoveFromWalkPath(a, Dotted(k));
    RemoveSkip('/', j, a);
    DottedRemoved(k, a);
    SplitJoin(Climbing(k));
    SplitLeadingSlash(Join(Climbing(k), "/"));
  }

  lemma CleanOfName(a: string)
    requires IsName(a)
    ensures Clean(a) == a
  {
    NameSplit(a);
    assert Join([a], "/") == a;
  }

  /** Climbing once more than there are names leaves one climb. */
  lemma {:induction false} ClimbOut(cs: seq<string>, k: nat)
    requires AllNoSlash(cs) && ".." !in Reduce(false, cs) && k == |Reduce(false, cs)| + 1
    ensures Reduce(false, cs + ([""] + Climbing(k))) == ["..", "f"]
  {
    ReduceInnerEmpty(false, cs, Climbing(k));
    ClimbOutNames(cs, k);
  }

  lemma {:induction false} ClimbOutNames(cs: seq<string>, k: nat)
    requires AllNoSlash(cs) && ".." !in Reduce(false, cs) && k == |Reduce(false, cs)| + 1
    ensures Reduce(false, cs + Climbing(k)) == ["..", "f"]
    decreases k
  {
    var up := cs + [".."];
    assert up[..|cs|] == cs;
    assert cs + Climbing(k) == up + Climbing(k - 1);
    if k == 1 {
      assert (up + ["f"])[..|up|] == up;
    } else {
      ClimbOutNames(up, k - 1);
    }
  }

  /** File names alone can break it: from every S3 destination without ".." components, files below the folder
      "a" get out into the bucket "f". */
  lemma {:induction false} FileNamesMoveBucket(bucketName: string, bucketPath: string, deploymentName: string, d: Date)
    returns (localDir: string, rel: seq<string>)
    requires IsName(bucketName) && bucketName != "f" && ".." !in Split(bucketPath) && ".." !in Split(deploymentName)
    ensures Clean(localDir) == localDir == "a" && rel != [] && AllNames(rel)
    ensures Bucket(S3Put(bucketName, bucketPath, deploymentName, d, localDir, rel)) != bucketName
  {
    var cs := Split(S3Rest(bucketPath, deploymentName, d));
    var k := |Reduce(false, cs)| + 1;
    localDir, rel := "a", Dotted(k);
    DottedNames(k);
    CleanOfName(localDir);
    DottedRemainder(k, localDir);
    S3RestSplit(bucketPath, deploymentName, d);
    NoClimb(cs);
    SplitNoSlash(S3Rest(bucketPath, deploymentName, d));
    ClimbOut(cs, k);
    S3BucketExact(bucketName, bucketPath, deploymentName, d, localDir, rel);
  }
}
