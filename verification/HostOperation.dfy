/**
  One HostOperation object over its life: each reconcile reads it fresh, may operate the host,
  and tries to store the outcome.
 */
module HostOperation {
  import opened Text
  import opened Power

  datatype Status = Empty | Pending | Success | Failure

  datatype Call = Call(action: string, ok: bool)

  /** The stored object, and the history of what was done for it. */
  datatype State = State(
    present: bool,
    action: string,
    status: Status,
    calls: seq<Call>,
    failedWrites: nat)

  /** How the outside answers during one reconcile. */
  datatype Answers = Answers(
    readOk: bool,
    redfishStatusOk: bool,
    cached: bool,
    connectOk: bool,
    powerOk: bool,
    writeOk: bool)

  /** A new object; the spec cannot be edited afterwards. */
  function Created(action: string): State
  {
    State(true, action, Empty, [], 0)
  }

  predicate Open(st: State)
  {
    st.status == Empty || st.status == Pending
  }

  /** Whether a reconcile gets as far as operating the host. */
  predicate Operates(st: State, a: Answers)
  {
    st.present && a.readOk && a.redfishStatusOk && Open(st) && a.cached
  }

  function Reconciled(st: State, a: Answers): State
  {
    if !Operates(st, a) then st
    else
      var powered := a.connectOk && CommandOf(st.action) != Unknown;
      var calls := if powered then st.calls + [Call(st.action, a.powerOk)] else st.calls;
      if a.writeOk then st.(calls := calls, status := if powered && a.powerOk then Success else Failure)
      else st.(calls := calls, failedWrites := st.failedWrites + 1)
  }

  /** What a reconcile of a state under these answers must lead to, read off the outside of the controller: which call is made, and what is stored. */
  predicate Handled(was: State, a: Answers, now: State)
  {
    && now.present == was.present && now.action == was.action
    && (if was.present && (was.status == Empty || was.status == Pending) && a.readOk && a.redfishStatusOk && a.cached then
          && now.calls == (if a.connectOk && was.action in ACTIONS then was.calls + [Call(was.action, a.powerOk)] else was.calls)
          && now.status == (if !a.writeOk then was.status
                            else if a.connectOk && was.action in ACTIONS && a.powerOk then Success
                            else Failure)
          && now.failedWrites == (if a.writeOk then was.failedWrites else was.failedWrites + 1)
        else now == was)
  }

  class HostOperationController {
    var hostOp: State

    constructor (action: string)
      ensures hostOp == Created(action)
    {
      hostOp := Created(action);
    }

    /** Reconcile works on a copy of the stored object; only a successful write makes it the stored one. */
    method Reconcile(a: Answers)
      modifies this
      ensures hostOp == Reconciled(old(hostOp), a)
      ensures Handled(old(hostOp), a, hostOp)
    {
      CommandsAre(hostOp.action);
      if !hostOp.present || !a.readOk {
        return;
      }
      if !a.redfishStatusOk {
        return;
      }
      var copy := hostOp;
      if copy.status == Empty || copy.status == Pending {
        copy := copy.(status := Pending);
        if !a.cached {
          return;
        }
        var ok;
        if !a.connectOk {
          ok := false;
          copy := copy.(status := Failure);
        } else if CommandOf(copy.action) != Unknown {
          ok := a.powerOk;
          copy := copy.(calls := copy.calls + [Call(copy.action, ok)]);
        } else {
          ok := false;
        }
        copy := copy.(status := if ok then Success else Failure);
        if a.writeOk {
          hostOp := copy;
        } else {
          hostOp := hostOp.(calls := copy.calls, failedWrites := hostOp.failedWrites + 1);
        }
      }
    }
  }

  // ---- runs ----

  datatype Step = Reconcile(answers: Answers) | Delete

  function Next(st: State, step: Step): State
  {
    match step
    case Reconcile(a) => Reconciled(st, a)
    case Delete => st.(present := false)
  }

  predicate IsRun(states: seq<State>, steps: seq<Step>, action: string)
  {
    && |states| == |steps| + 1
    && states[0] == Created(action)
    && forall i :: 0 <= i < |steps| ==> states[i + 1] == Next(states[i], steps[i])
  }

  /** Over every run each reconcile makes exactly the call it should and stores exactly its outcome. */
  lemma EveryStepIsHandled(states: seq<State>, steps: seq<Step>, action: string, k: nat)
    requires IsRun(states, steps, action) && k < |steps| && steps[k].Reconcile?
    ensures Handled(states[k], steps[k].answers, states[k + 1])
  {
    CommandsAre(states[k].action);
    assert states[k + 1] == Next(states[k], steps[k]);
  }

  /** Liveness for one object: a reconcile in which everything answers settles an open operation, to success exactly when the power call succeeds. */
  lemma AnsweredIsSettled(states: seq<State>, steps: seq<Step>, action: string, k: nat)
    requires IsRun(states, steps, action) && k < |steps| && action in ACTIONS
    requires states[k].present && (states[k].status == Empty || states[k].status == Pending)
    requires steps[k].Reconcile?
    requires var a := steps[k].answers; a.readOk && a.redfishStatusOk && a.cached && a.connectOk && a.writeOk
    ensures states[k + 1].calls == states[k].calls + [Call(action, steps[k].answers.powerOk)]
    ensures states[k + 1].status == if steps[k].answers.powerOk then Success else Failure
  {
    EveryStepIsHandled(states, steps, action, k);
    EveryStateIsSound(states, steps, action, k);
  }

  predicate Sound(st: State, action: string)
  {
    && st.action == action
    && (forall i :: 0 <= i < |st.calls| ==> st.calls[i].action == action)
    && (st.status == Success ==> st.calls != [] && st.calls[|st.calls| - 1].ok)
    && |st.calls| <= st.failedWrites + (if Open(st) then 0 else 1)
  }

  /** Over every run: each power call carries the spec's action, a stored success means that the last call returned nil, and there is at most one call more than there were failed status writes. */
  lemma {:induction false} EveryStateIsSound(states: seq<State>, steps: seq<Step>, action: string, k: nat)
    requires IsRun(states, steps, action) && k < |states|
    ensures Sound(states[k], action)
    ensures |states[k].calls| <= 1 + states[k].failedWrites
    ensures states[k].status == Success ==> Call(action, true) in states[k].calls
  {
    if k > 0 {
      EveryStateIsSound(states, steps, action, k - 1);
      assert states[k] == Next(states[k - 1], steps[k - 1]);
    }
  }

  /** A stored success or failure is never left and triggers no further power call. */
  lemma {:induction false} OutcomeIsFinal(states: seq<State>, steps: seq<Step>, action: string, j: nat, k: nat)
    requires IsRun(states, steps, action) && j <= k < |states|
    requires !Open(states[j])
    ensures states[k].status == states[j].status && states[k].calls == states[j].calls
  {
    if j < k {
      OutcomeIsFinal(states, steps, action, j, k - 1);
      assert states[k] == Next(states[k - 1], steps[k - 1]);
    }
  }
}
