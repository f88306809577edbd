/** The fan-out of upload/multi_uploader.go: every destination is tried, in order, and the
    errors of those that failed are joined into one. */
module MultiUploader {
  import opened Options
  import opened Strings

  datatype Error = Error(message: string)

  /** One call of a destination's `Upload`. */
  datatype Attempt = Attempt(destination: string, localPath: string, outcome: Option<Error>)

  function Messages(errors: seq<Error>): (r: seq<string>)
    ensures |r| == |errors|
  {
    seq(|errors|, i requires 0 <= i < |errors| => errors[i].message)
  }

  /** What `formattedError` returns. */
  function FormattedError(errors: seq<Error>): Option<string> {
    if errors == [] then None else Some(Join(Messages(errors), "; "))
  }

  /** The text: a single error's own message, and each further message behind "; ". */
  lemma FormattedErrorText(errors: seq<Error>, e: Error)
    ensures FormattedError([e]) == Some(e.message)
    ensures errors != [] ==>
              FormattedError(errors).Some? && FormattedError(errors + [e]) == Some(FormattedError(errors).value + "; " + e.message)
  {
    if errors != [] {
      assert Messages(errors + [e]) == Messages(errors) + [e.message];
      JoinAppend(Messages(errors), e.message, "; ");
    }
  }

  /** The errors of the failed outcomes, in order. */
  function Failures(outcomes: seq<Option<Error>>): seq<Error> {
    if outcomes == [] then [] else
    var rest := Failures(outcomes[..|outcomes| - 1]);
    match outcomes[|outcomes| - 1]
    case None => rest
    case Some(e) => rest + [e]
  }

  lemma FailuresAppend(outcomes: seq<Option<Error>>, o: Option<Error>)
    ensures Failures(outcomes + [o]) == Failures(outcomes) + (if o.Some? then [o.value] else [])
  {
    assert (outcomes + [o])[..|outcomes|] == outcomes;
  }

  /** Every failed outcome is listed, and it stands after exactly the failures before it. */
  lemma {:induction false} FailuresInOrder(outcomes: seq<Option<Error>>, i: nat)
    requires i < |outcomes| && outcomes[i].Some?
    ensures var at := |Failures(outcomes[..i])|;
            at < |Failures(outcomes)| && Failures(outcomes)[at] == outcomes[i].value
  {
    var last := |outcomes| - 1;
    if i < last {
      FailuresInOrder(outcomes[..last], i);
      assert outcomes[..last][..i] == outcomes[..i];
    }
  }

  /** Nothing else is listed. */
  lemma {:induction false} FailuresOnly(outcomes: seq<Option<Error>>, at: nat) returns (i: nat)
    requires at < |Failures(outcomes)|
    ensures i < |outcomes| && outcomes[i] == Some(Failures(outcomes)[at]) && |Failures(outcomes[..i])| == at
  {
    var last := |outcomes| - 1;
    var rest := Failures(outcomes[..last]);
    if at < |rest| {
      i := FailuresOnly(outcomes[..last], at);
      assert outcomes[..last][..i] == outcomes[..i];
    } else {
      i := last;
    }
  }

  /** The fan-out succeeds exactly when every destination did. */
  lemma {:induction false} NilIffAllNil(outcomes: seq<Option<Error>>)
    ensures FormattedError(Failures(outcomes)).None? <==>
              forall i :: 0 <= i < |outcomes| ==> outcomes[i].None?
  {
    if forall i :: 0 <= i < |outcomes| ==> outcomes[i].None? {
      if Failures(outcomes) != [] {
        var i := FailuresOnly(outcomes, 0);
      }
    } else {
      var i :| 0 <= i < |outcomes| && outcomes[i].Some?;
      FailuresInOrder(outcomes, i);
    }
  }

  /** Every failure's message is part of the joined text. */
  lemma {:induction false} FailureNamed(outcomes: seq<Option<Error>>, i: nat)
    requires i < |outcomes| && outcomes[i].Some?
    ensures FormattedError(Failures(outcomes)).Some?
    ensures Occurs(outcomes[i].value.message, FormattedError(Failures(outcomes)).value)
  {
    var errors := Failures(outcomes);
    FailuresInOrder(outcomes, i);
    JoinOccurs(Messages(errors), "; ", |Failures(outcomes[..i])|);
  }

  function Outcomes(attempts: seq<Attempt>): (r: seq<Option<Error>>)
    ensures |r| == |attempts|
  {
    seq(|attempts|, i requires 0 <= i < |attempts| => attempts[i].outcome)
  }

  /** The destinations' side: it records each upload and decides its outcome freely. */
  class Destinations {
    var attempts: seq<Attempt>

    constructor ()
      ensures attempts == []
    {
      attempts := [];
    }

    method Upload(destination: string, localPath: string) returns (err: Option<Error>)
      modifies this
      ensures attempts == old(attempts) + [Attempt(destination, localPath, err)]
    {
      var fails: bool := *;
      var message: string := *;
      err := if fails then Some(Error(message)) else None;
      attempts := attempts + [Attempt(destination, localPath, err)];
    }
  }

  method FormatErrors(errors: seq<Error>) returns (err: Option<string>)
    ensures err == FormattedError(errors)
  {
    if |errors| == 0 {
      return None;
    }
    var errorMessages: seq<string> := [];
    for i := 0 to |errors|
      invariant errorMessages == Messages(errors[..i])
    {
      errorMessages := errorMessages + [errors[i].message];
    }
    assert errors[..|errors|] == errors;
    err := Some(Join(errorMessages, "; "));
  }

  /** One attempt per uploader, in the uploaders' order, each with the given path. */
  ghost predicate InOrder(tried: seq<Attempt>, uploaders: seq<string>, localPath: string) {
    && |tried| == |uploaders|
    && forall i :: 0 <= i < |tried| ==> tried[i].destination == uploaders[i] && tried[i].localPath == localPath
  }

  lemma TriedAppend(tried: seq<Attempt>, uploaders: seq<string>, i: nat, localPath: string, e: Option<Error>)
    requires i < |uploaders| && InOrder(tried, uploaders[..i], localPath)
    ensures var a := Attempt(uploaders[i], localPath, e);
            && InOrder(tried + [a], uploaders[..i + 1], localPath)
            && Outcomes(tried + [a]) == Outcomes(tried) + [e]
  {
  }

  /** Every destination is called exactly once, in order, whatever the earlier ones returned;
      the result is nil exactly when all returned nil, and otherwise joins their errors, each
      one's message being part of it. */
  method Upload(uploaders: seq<string>, localPath: string, store: Destinations)
    returns (err: Option<string>, ghost tried: seq<Attempt>)
    modifies store
    ensures store.attempts == old(store.attempts) + tried
    ensures InOrder(tried, uploaders, localPath)
    ensures err == FormattedError(Failures(Outcomes(tried)))
    ensures err.None? <==> forall i :: 0 <= i < |tried| ==> tried[i].outcome.None?
    ensures forall i :: 0 <= i < |tried| && tried[i].outcome.Some? ==>
              err.Some? && Occurs(tried[i].outcome.value.message, err.value)
  {
    var errors: seq<Error> := [];
    tried := [];
    for i := 0 to |uploaders|
      invariant store.attempts == old(store.attempts) + tried
      invariant InOrder(tried, uploaders[..i], localPath)
      invariant errors == Failures(Outcomes(tried))
    {
      var e := store.Upload(uploaders[i], localPath);
      FailuresAppend(Outcomes(tried), e);
      TriedAppend(tried, uploaders, i, localPath, e);
      tried := tried + [Attempt(uploaders[i], localPath, e)];
      if e.Some? {
        errors := errors + [e.value];
      }
    }
    assert uploaders[..|uploaders|] == uploaders;
    err := FormatErrors(errors);
    NilIffAllNil(Outcomes(tried));
    assert forall i :: 0 <= i < |tried| ==> tried[i].outcome == Outcomes(tried)[i];
    forall i | 0 <= i < |tried| && tried[i].outcome.Some?
      ensures err.Some? && Occurs(tried[i].outcome.value.message, err.value)
    {
      FailureNamed(Outcomes(tried), i);
    }
  }
}
