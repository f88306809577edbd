/** What the record of a `Start` call says about the steps that were taken: the record of
    `ProcessManager` is bookkeeping, the steps are what the children did. */
module ProcessTraces {
  import opened Options
  import opened ProcessManager

  /** The steps of call `c`, of its child and of its reaper, in order. */
  function StepsOf(acts: seq<Action>, c: nat): seq<Op> {
    if acts == [] then [] else
    var rest, last := StepsOf(acts[..|acts| - 1], c), acts[|acts| - 1];
    if last.OfCall? && last.c == c then rest + [last.op] else rest
  }

  /** The exits the child took. */
  function Exits(ops: seq<Op>): seq<Exit> {
    if ops == [] then [] else
    var rest := Exits(ops[..|ops| - 1]);
    match ops[|ops| - 1]
    case Exit(e) => rest + [e]
    case _ => rest
  }

  /** All bytes the child wrote. */
  function Written(ops: seq<Op>): string {
    if ops == [] then "" else
    var rest := Written(ops[..|ops| - 1]);
    match ops[|ops| - 1]
    case Write(bytes) => rest + bytes
    case _ => rest
  }

  /** The errors with which a launch failed. */
  function LaunchErrors(ops: seq<Op>): seq<string> {
    if ops == [] then [] else
    var rest := LaunchErrors(ops[..|ops| - 1]);
    match ops[|ops| - 1]
    case LaunchErr(e) => rest + [e]
    case _ => rest
  }

  /** How often a step was taken. */
  function Count(ops: seq<Op>, op: Op): nat {
    if ops == [] then 0 else Count(ops[..|ops| - 1], op) + (if ops[|ops| - 1] == op then 1 else 0)
  }

  lemma StepsAppend(acts: seq<Action>, a: Action, c: nat)
    ensures StepsOf(acts + [a], c) == StepsOf(acts, c) + (if a.OfCall? && a.c == c then [a.op] else [])
  {
    assert (acts + [a])[..|acts|] == acts;
  }

  /** The call's record tells exactly this about its steps. */
  ghost predicate Tells(k: Call, ops: seq<Op>) {
    && k.output == Written(ops)
    && Exits(ops) == (match k.child
                      case Exited(e) => [e]
                      case Reaped(e) => [e]
                      case _ => [])
    && Count(ops, LaunchOk) == (if k.child.NoChild? then 0 else 1)
    && Count(ops, Signal) == (if k.signalled then 1 else 0)
    && LaunchErrors(ops) == (match k.pc
                             case LaunchFailed(e) => [e]
                             case Returned(LaunchError(e)) => [e]
                             case _ => [])
  }

  lemma {:induction false} TellsStep(s: State, c: nat, op: Op, ops: seq<Op>)
    requires OpEnabled(s, c, op) && CallInv(s.calls[c]) && Tells(s.calls[c], ops)
    ensures Tells(CallNext(s.calls[c], op, s.killAll), ops + [op])
  {
    assert (ops + [op])[..|ops|] == ops;
  }

  /** In every execution, every call's record tells the steps taken, and a call not yet made took none. */
  lemma {:induction false} RecordsTell(run: seq<State>, acts: seq<Action>, i: nat, c: nat)
    requires IsExecution(run, acts) && i < |run|
    ensures c < |run[i].calls| ==> Tells(run[i].calls[c], StepsOf(acts[..i], c))
    ensures c >= |run[i].calls| ==> StepsOf(acts[..i], c) == []
    decreases i
  {
    if i > 0 {
      RecordsTell(run, acts, i - 1, c);
      InvExecution(run, acts, i - 1);
      assert acts[..i] == acts[..i - 1] + [acts[i - 1]];
      StepsAppend(acts[..i - 1], acts[i - 1], c);
      TellsNext(run[i - 1], acts[i - 1], c, StepsOf(acts[..i - 1], c));
    }
  }

  lemma TellsNext(s: State, a: Action, c: nat, ops: seq<Op>)
    requires Inv(s) && Enabled(s, a)
    requires if c < |s.calls| then Tells(s.calls[c], ops) else ops == []
    ensures var more := ops + (if a.OfCall? && a.c == c then [a.op] else []);
            if c < |Next(s, a).calls| then Tells(Next(s, a).calls[c], more) else more == []
  {
    if a.OfCall? && a.c == c {
      TellsStep(s, c, a.op, ops);
    } else {
      assert ops + [] == ops;
    }
  }
}
