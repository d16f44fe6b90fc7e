/** Short runs in which the writer does not do what its comments promise, one for each way. */
module StreamWriterWitness {
  import opened Common
  import opened StreamWriter
  import opened StreamWriterTheorems
  import opened StreamWriterExact

  /** The state a step leads to, which is reachable. */
  lemma Then(submitters: nat, s: System, step: Step) returns (s': System)
    requires Reachable(submitters, s) && Enabled(s, step)
    ensures s' == Apply(s, step) && Reachable(submitters, s')
  {
    var steps :| IsRun(Init(submitters), steps) && Exec(Init(submitters), steps) == s;
    ExecAppend(Init(submitters), steps, step);
    s' := Apply(s, step);
  }

  /** Thread 1 submits an operation while nobody else moves, the stream being ready and the queue empty. */
  lemma SubmitAndPerform(submitters: nat, s: System, op: Op) returns (s': System, a: Action)
    requires Reachable(submitters, s) && s.Running? && |s.threads| > 1 && s.threads[1].Idle?
    requires s.actionsOwner.None? && s.stateOwner.None? && s.sh.state == Ready && s.sh.queue == []
    ensures Reachable(submitters, s') && a == Action(|s.created|, op)
    ensures s' == s.(created := s.created + [a],
                     sh := s.sh.(state := Processing, outstanding := s.sh.outstanding + multiset{a},
                                 pushed := s.sh.pushed + [a], popped := s.sh.popped + [a], wire := s.sh.wire + [a]))
  {
    a := Action(|s.created|, op);
    s' := Push1(submitters, s, op);
    s' := Then(submitters, s', Advance(1));
    assert s'.threads[1] == Popped(a) && s'.sh.queue == [];
    s' := Then(submitters, s', Advance(1));
    assert s'.threads[1] == Performing(a, Return);
    s' := Then(submitters, s', Advance(1));
    assert s'.threads == s.threads;
  }

  /** Thread 1 creates an action and pushes it. */
  lemma Push1(submitters: nat, s: System, op: Op) returns (s': System)
    requires Reachable(submitters, s) && s.Running? && |s.threads| > 1 && s.threads[1].Idle?
    requires s.actionsOwner.None?
    ensures Reachable(submitters, s')
    ensures var a := Action(|s.created|, op);
      s' == s.(created := s.created + [a], sh := Push(s.sh, a), threads := s.threads[1 := WantTry])
  {
    s' := Then(submitters, s, Begin(1, op));
    s' := Then(submitters, s', Advance(1));
  }

  /** The completion thread gets an outstanding operation and sets its promise. */
  lemma DeliverAndSet(submitters: nat, s: System, a: Action, ok: bool) returns (s': System)
    requires Reachable(submitters, s) && s.Running? && |s.threads| > 1 && s.threads[0].Idle?
    requires s.stateOwner.None? && s.sh.state == Processing && s.sh.outstanding == multiset{a} && a !in s.sh.promises
    ensures Reachable(submitters, s')
    ensures s' == s.(sh := s.sh.(outstanding := multiset{}, promises := s.sh.promises[a := Value(ok)]),
                     stateOwner := Some(0), threads := s.threads[0 := ResultSet(a, ok)])
  {
    s' := Then(submitters, s, Deliver(a, ok));
    assert s'.threads[0] == WantFinalize(a, ok);
    s' := Then(submitters, s', Advance(0));
  }

  /** Waiting for the future of a write is not enough: the promise is set before the state is reset,
      and an action submitted in between is lost for good. */
  lemma AwaitingTheFutureIsTooWeak() returns (before: System, after: seq<Step>, first: Action, second: Action)
    ensures Reachable(1, before) && before.Running? && before.created == [first]
    ensures first in before.sh.promises && before.sh.promises[first] == Value(true)
    ensures Quiet(after) && IsRun(before, [Begin(1, second.op)] + after)
    ensures var s := Exec(before, [Begin(1, second.op)] + after);
      s.Running? && s.created == [first, second] && second in s.sh.stranded
  {
    var s := Init(1);
    assert IsRun(s, []) && Exec(s, []) == s;
    s, first := SubmitAndPerform(1, s, Write("a", false));
    before := DeliverAndSet(1, s, first, true);
    second := Action(1, Write("b", false));
    after := SubmitAtOnce(before, 1, second.op);
  }

  /** Waiting for the reset is not enough either when the write failed: the next write is handed to
      the stream, and the Finish that the completion thread submits for the failure is lost. */
  lemma WaitingForTheResetIsTooWeak() returns (before: System, after: seq<Step>, first: Action, second: Action)
    ensures Reachable(1, before) && before.Running? && before.created == [first] && before.sh.state == Ready
    ensures first in before.sh.promises && before.sh.promises[first] == Value(false)
    ensures Quiet(after) && IsRun(before, [Begin(1, second.op)] + after)
    ensures var s := Exec(before, [Begin(1, second.op)] + after);
      && s.Running? && s.created == [first, second, Action(2, Finish)]
      && s.sh.wire == [first, second] && Action(2, Finish) in s.sh.stranded
  {
    var s := Init(1);
    assert IsRun(s, []) && Exec(s, []) == s;
    s, first := SubmitAndPerform(1, s, Write("a", false));
    s := DeliverAndSet(1, s, first, false);
    before := Then(1, s, Advance(0));
    assert before.threads[0] == AfterReset(first, false);
    second := Action(1, Write("b", false));
    after := FailureLosesItsFinish(before, 1, second.op);
  }

  /** One submitter that does not wait can make the drain loop fail the assert in perform(). */
  lemma WritingWithoutWaitingCanAbort() returns (s: System)
    ensures Reachable(1, s) && s.Aborted? && s.why == PerformNotReady(true)
  {
    s := Init(1);
    assert IsRun(s, []) && Exec(s, []) == s;
    var a, b;
    s, a := SubmitAndPerform(1, s, Write("a", false));
    s := DeliverAndSet(1, s, a, true);
    s := Then(1, s, Advance(0));
    assert s.threads[0] == AfterReset(a, true) && s.sh.state == Ready;
    s, b := SubmitAndPerform(1, s, Write("b", false));
    s := Push1(1, s, Write("c", false));
    s := DrainOne(s, Action(2, Write("c", false)));
  }

  /** The loop of finalizeWrite finds one write in the queue, and another operation under way. */
  lemma DrainOne(s: System, a: Action) returns (s': System)
    requires Reachable(1, s) && s.Running? && |s.threads| > 1 && s.actionsOwner.None? && s.stateOwner.None?
    requires s.threads[0].AfterReset? && s.threads[0].ok && s.threads[0].a.op.Write? && !s.threads[0].a.op.last
    requires s.sh.state == Processing && s.sh.queue == [a] && a.op.Write?
    ensures Reachable(1, s') && s'.Aborted? && s'.why == PerformNotReady(true)
  {
    s' := Then(1, s, Advance(0));
    assert s'.threads[0] == Draining(false, false);
    s' := Then(1, s', Advance(0));
    assert s'.threads[0] == Performing(a, Loop(false, false));
    s' := Then(1, s', Advance(0));
  }

  /** A Finish goes through onFinished. */
  lemma CompleteFinish(s: System, a: Action, ok: bool) returns (s': System)
    requires Reachable(1, s) && s.Running? && |s.threads| > 1 && s.threads[0].Idle? && a.op.Finish?
    requires s.actionsOwner.None? && s.stateOwner.None?
    requires s.sh.state == Processing && s.sh.outstanding == multiset{a} && a !in s.sh.promises
    ensures Reachable(1, s')
    ensures var sh := s.sh.(state := Ready, outstanding := multiset{}, promises := s.sh.promises[a := Value(ok)]);
      s' == if !ok then Aborted(sh, FinishNotOk)
            else if s.sh.responseSet then Aborted(sh, ResponseTwice)
            else s.(sh := sh.(responseSet := true))
  {
    s' := DeliverAndSet(1, s, a, ok);
    s' := Then(1, s', Advance(0));
    assert s'.threads[0] == AfterReset(a, ok);
    s' := Then(1, s', Advance(0));
    if s'.Running? { assert s'.threads == s.threads; }
  }

  /** Two calls of finish(), one after the other, complete the response promise twice. */
  lemma FinishingTwiceAborts() returns (s: System)
    ensures Reachable(1, s) && s.Aborted? && s.why == ResponseTwice
  {
    s := Init(1);
    assert IsRun(s, []) && Exec(s, []) == s;
    var a, b;
    s, a := SubmitAndPerform(1, s, Finish);
    s := CompleteFinish(s, a, true);
    s, b := SubmitAndPerform(1, s, Finish);
    s := CompleteFinish(s, b, true);
  }

  /** The assert in finalizeFinish relies on gRPC returning every Finish with ok. */
  lemma FailedFinishAborts() returns (s: System)
    ensures Reachable(1, s) && s.Aborted? && s.why == FinishNotOk
  {
    s := Init(1);
    assert IsRun(s, []) && Exec(s, []) == s;
    var a;
    s, a := SubmitAndPerform(1, s, Finish);
    s := CompleteFinish(s, a, false);
  }
}
