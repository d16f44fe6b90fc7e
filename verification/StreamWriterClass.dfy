/** AsyncClientStreamWriter as the object it is, one call at a time: every method is proved against
    a function of the shared state, and an uninterrupted call is a run of the transition system. */
module StreamWriterClass {
  import opened Common
  import opened StreamWriter
  import opened StreamWriterTheorems
  import opened StreamWriterDrain

  // ---- Whole calls as functions of the shared state ----

  function TryPerform(sh: Shared): CallResult {
    if sh.queue == [] then Done(sh)
    else
      var a := sh.queue[0];
      match sh.state
      case Ready => Done(Perform(Pop(sh), a))
      case Processing => Done(Strand(Pop(sh), a))
      case Finished =>
        if a in sh.promises then Died(Pop(sh), PromiseTwice)
        else Done(Complete(Pop(sh), a, Rejected(StreamFinished)))
  }

  /** write() or finish(), from the push of the new action to the return. */
  function Submit(sh: Shared, a: Action): CallResult { TryPerform(Push(sh, a)) }

  /** finalizeResult() on a returned tag; next is the number of actions created so far. */
  function Finalize(sh: Shared, a: Action, ok: bool, next: nat): CallResult {
    if sh.state != Processing then Died(sh, ResultNotProcessing)
    else if a in sh.promises then Died(sh, PromiseTwice)
    else FinalizeReset(Complete(sh, a, Value(ok)).(state := Ready), a, ok, next)
  }

  function FinalizeReset(sh: Shared, a: Action, ok: bool, next: nat): CallResult {
    match a.op
    case Write(_, last) => if ok then DrainFrom(sh, last, false) else Submit(sh, Action(next, Finish))
    case Finish =>
      if !ok then Died(sh, FinishNotOk)
      else if sh.responseSet then Died(sh, ResponseTwice)
      else Done(sh.(responseSet := true))
  }

  // ---- The object ----

  class AsyncClientStreamWriter {
    var state: WriterState
    var actions: seq<Action>
    /** How many actions this writer has created. */
    var created: nat
    /** The completed promises of the actions. */
    var promises: map<Action, Outcome>
    /** Whether the promise of the call's response has been completed by onFinished. */
    var responseSet: bool
    /** The stream and the completion queue: what they were given, and what has not come back. */
    var stream: seq<Action>
    var outstanding: multiset<Action>
    ghost var pushed: seq<Action>
    ghost var popped: seq<Action>
    ghost var stranded: set<Action>

    ghost function View(): Shared
      reads this
    {
      Shared(state, actions, outstanding, promises, responseSet, pushed, popped, stream, stranded)
    }

    /** What a method that ended with this failure, or none, amounts to. */
    ghost function Result(died: Option<Failure>): CallResult
      reads this
    {
      if died.None? then Done(View()) else Died(View(), died.value)
    }

    /** The loop of finalizeWrite, started in before, has ended: it died in perform(), or has tried what
        it had to and refused the rest. */
    ghost predicate Drained(before: Shared, last: bool, died: Option<Failure>)
      reads this
    {
      if DrainFails(before, last, false) then died == Some(PerformNotReady(true))
      else died.None? && View() == Emptied(before, Attempts(before.queue, last, false), last)
    }

    /** The first of the actions queued was taken out and, on a ready stream, sent; on a busy one it is lost. */
    ghost predicate Tried(before: Shared, queued: seq<Action>)
      requires queued != []
      reads this
    {
      && actions == queued[1..] && popped == before.popped + [queued[0]]
      && (before.state == Ready ==>
            stream == before.wire + [queued[0]] && state == Processing && stranded == before.stranded)
      && (before.state == Processing ==>
            stream == before.wire && state == Processing && stranded == before.stranded + {queued[0]})
    }

    constructor ()
      ensures View() == Fresh && created == 0
    {
      state, actions, created := Ready, [], 0;
      promises, responseSet := map[], false;
      stream, outstanding := [], multiset{};
      pushed, popped, stranded := [], [], {};
    }

    method NewAction(op: Op) returns (a: Action)
      modifies this
      ensures a == Action(old(created), op) && created == old(created) + 1
      ensures View() == Push(old(View()), a)
    {
      a := Action(created, op);
      created := created + 1;
      actions := actions + [a];
      pushed := pushed + [a];
    }

    method PopAction() returns (a: Action)
      requires actions != []
      modifies this
      ensures a == old(actions)[0] && created == old(created)
      ensures View() == Pop(old(View()))
    {
      a := actions[0];
      actions := actions[1..];
      popped := popped + [a];
    }

    method SetPromise(a: Action, outcome: Outcome) returns (died: Option<Failure>)
      modifies this
      ensures created == old(created)
      ensures if a in old(promises) then died == Some(PromiseTwice) && View() == old(View())
              else died.None? && View() == Complete(old(View()), a, outcome)
    {
      if a in promises { return Some(PromiseTwice); }
      promises := promises[a := outcome];
      died := None;
    }

    method PerformAction(a: Action, inDrain: bool) returns (died: Option<Failure>)
      modifies this
      ensures created == old(created)
      ensures if old(state) == Ready then died.None? && View() == StreamWriter.Perform(old(View()), a)
              else died == Some(PerformNotReady(inDrain)) && View() == old(View())
    {
      if state != Ready { return Some(PerformNotReady(inDrain)); }
      state := Processing;
      stream := stream + [a];
      outstanding := outstanding + multiset{a};
      died := None;
    }

    method TryPerformAction() returns (performed: bool, died: Option<Failure>)
      modifies this
      ensures created == old(created)
      ensures Result(died) == TryPerform(old(View()))
      ensures performed <==> old(actions) != [] && old(state) == Ready
      ensures old(actions) == [] ==> died.None? && View() == old(View())
      ensures old(actions) != [] && old(state) == Ready ==>
        died.None? && View() == StreamWriter.Perform(Pop(old(View())), old(actions)[0])
      ensures old(actions) != [] && old(state) == Processing ==>
        died.None? && View() == Strand(Pop(old(View())), old(actions)[0])
      ensures old(actions) != [] && old(state) == Finished && old(actions)[0] !in old(promises) ==>
        died.None? && View() == Complete(Pop(old(View())), old(actions)[0], Rejected(StreamFinished))
    {
      if actions == [] { return false, None; }
      var a := PopAction();
      match state
      case Ready =>
        died := PerformAction(a, false);
        performed := true;
      case Finished =>
        died := SetPromise(a, Rejected(StreamFinished));
        performed := false;
      case Processing =>
        stranded := stranded + {a};
        performed, died := false, None;
    }

    /** The future of the returned action is ready once its promise is in promises. */
    method Write(message: string, last: bool) returns (a: Action, died: Option<Failure>)
      modifies this
      ensures a == Action(old(created), Op.Write(message, last)) && created == old(created) + 1
      ensures Result(died) == Submit(old(View()), a)
      ensures Tried(old(View()), old(actions) + [a])
    {
      a := NewAction(Op.Write(message, last));
      var performed;
      performed, died := TryPerformAction();
    }

    method Finish() returns (a: Action, died: Option<Failure>)
      modifies this
      ensures a == Action(old(created), Op.Finish) && created == old(created) + 1
      ensures Result(died) == Submit(old(View()), a)
      ensures Tried(old(View()), old(actions) + [a])
    {
      a := NewAction(Op.Finish);
      var performed;
      performed, died := TryPerformAction();
    }

    /** The loop of finalizeWrite after a successful write. */
    method DrainQueue(last: bool) returns (died: Option<Failure>)
      modifies this
      ensures created == old(created)
      ensures Result(died) == DrainFrom(old(View()), last, false)
      ensures Untouched(old(View())) ==> Drained(old(View()), last, died)
    {
      if Untouched(View()) { ClosedForm(View(), last, false); }
      var finishPerformed := false;
      while actions != []
        invariant created == old(created)
        invariant DrainFrom(View(), last, finishPerformed) == DrainFrom(old(View()), last, false)
        decreases |actions|
      {
        var next := PopAction();
        match next.op {
          case Write(_, _) =>
            if last {
              died := SetPromise(next, Rejected(LastAlreadyWritten));
            } else if finishPerformed {
              died := SetPromise(next, Rejected(WriteAfterFinish));
            } else {
              died := PerformAction(next, true);
            }
          case Finish =>
            if finishPerformed {
              died := SetPromise(next, Rejected(DuplicateFinish));
            } else {
              died := PerformAction(next, true);
              finishPerformed := true;
            }
        }
        if died.Some? { return; }
      }
      died := None;
    }

    method FinalizeWrite(a: Action, ok: bool) returns (died: Option<Failure>)
      requires a.op.Write?
      modifies this
      ensures Result(died) == FinalizeReset(old(View()), a, ok, old(created))
      ensures created == old(created) + if ok then 0 else 1
      ensures ok && Untouched(old(View())) ==> Drained(old(View()), a.op.last, died)
      ensures !ok ==> Result(died) == Submit(old(View()), Action(old(created), Op.Finish))
    {
      if ok {
        died := DrainQueue(a.op.last);
      } else {
        var finish;
        finish, died := Finish();
      }
    }

    method FinalizeFinish(a: Action, ok: bool) returns (died: Option<Failure>)
      requires a.op.Finish?
      modifies this
      ensures Result(died) == FinalizeReset(old(View()), a, ok, old(created))
      ensures created == old(created)
    {
      if !ok { return Some(FinishNotOk); }
      if responseSet { return Some(ResponseTwice); }
      responseSet := true;
      died := None;
    }

    method FinalizeResult(a: Action, ok: bool) returns (died: Option<Failure>)
      modifies this
      ensures Result(died) == Finalize(old(View()), a, ok, old(created))
      ensures old(state) != Processing ==> died == Some(ResultNotProcessing) && View() == old(View())
      ensures old(state) == Processing && a in old(promises) ==> died == Some(PromiseTwice) && View() == old(View())
      ensures var reset := old(View()).(promises := old(promises)[a := Value(ok)], state := Ready);
        old(state) == Processing && a !in old(promises) ==>
          && (a.op.Write? && ok && Untouched(reset) ==> Drained(reset, a.op.last, died))
          && (a.op.Write? && !ok ==> Result(died) == Submit(reset, Action(old(created), Op.Finish)))
          && (a.op.Finish? && ok && !old(responseSet) ==> died.None? && View() == reset.(responseSet := true))
          && (a.op.Finish? && ok && old(responseSet) ==> died == Some(ResponseTwice) && View() == reset)
          && (a.op.Finish? && !ok ==> died == Some(FinishNotOk) && View() == reset)
    {
      if state != Processing { return Some(ResultNotProcessing); }
      died := SetPromise(a, Value(ok));
      if died.Some? { return; }
      state := Ready;
      if a.op.Write? {
        died := FinalizeWrite(a, ok);
      } else {
        died := FinalizeFinish(a, ok);
      }
    }
  }

  // ---- An uninterrupted call is a run ----

  /** No thread is inside a mutex. */
  predicate Unlocked(s: System) { s.Running? && s.actionsOwner.None? && s.stateOwner.None? }

  /** s' is where the call of thread t that started in s ends. */
  predicate EndsAs(s: System, t: nat, created: seq<Action>, result: CallResult, s': System)
    requires s.Running? && t < |s.threads|
  {
    s' == match result
          case Done(sh) => Running(created, sh, s.threads[t := Idle], None, None)
          case Died(at, why) => Aborted(at, why)
  }

  /** After its push a submission that nobody interrupts does what TryPerform says. */
  lemma TryAlone(s: System, t: nat) returns (steps: seq<Step>)
    requires Unlocked(s) && t < |s.threads| && s.threads[t].WantTry?
    ensures IsRun(s, steps) && EndsAs(s, t, s.created, TryPerform(s.sh), Exec(s, steps))
  {
    var s1 := Apply(s, Advance(t));
    OneStep(s, Advance(t));
    steps := [Advance(t)];
    if s.sh.queue != [] {
      var s2 := Apply(s1, Advance(t));
      ExecAppend(s, steps, Advance(t));
      steps := steps + [Advance(t)];
      if s.sh.state == Ready {
        assert s2.threads[t] == Performing(s.sh.queue[0], Return);
        ExecAppend(s, steps, Advance(t));
        steps := steps + [Advance(t)];
      }
    }
  }

  lemma SubmitAlone(s: System, t: nat, op: Op) returns (steps: seq<Step>)
    requires Unlocked(s) && 0 < t < |s.threads| && s.threads[t].Idle?
    ensures var a := Action(|s.created|, op);
      IsRun(s, steps) && EndsAs(s, t, s.created + [a], Submit(s.sh, a), Exec(s, steps))
  {
    var a := Action(|s.created|, op);
    OneStep(s, Begin(t, op));
    ExecAppend(s, [Begin(t, op)], Advance(t));
    var s2 := Apply(Apply(s, Begin(t, op)), Advance(t));
    assert s2 == s.(created := s.created + [a], sh := Push(s.sh, a), threads := s.threads[t := WantTry]);
    var rest := TryAlone(s2, t);
    ExecJoin(s, [Begin(t, op)] + [Advance(t)], rest);
    steps := [Begin(t, op)] + [Advance(t)] + rest;
    assert s2.threads[t := Idle] == s.threads[t := Idle];
  }

  /** The loop of finalizeWrite that nobody interrupts does what DrainFrom says. */
  lemma {:induction false} DrainAlone(s: System) returns (steps: seq<Step>)
    requires s.Running? && |s.threads| > 0 && s.threads[0].Draining?
    requires s.actionsOwner == Some(0) && s.stateOwner.None?
    ensures IsRun(s, steps)
    ensures EndsAs(s, 0, s.created, DrainFrom(s.sh, s.threads[0].last, s.threads[0].finishPerformed), Exec(s, steps))
    decreases |s.sh.queue|
  {
    OneStep(s, Advance(0));
    steps := [Advance(0)];
    if s.sh.queue != [] {
      var a, last, fin := s.sh.queue[0], s.threads[0].last, s.threads[0].finishPerformed;
      var s1 := Apply(s, Advance(0));
      if LoopVerdict(a.op, last, fin).None? {
        assert s1 == Goto(s.(sh := Pop(s.sh)), 0, Performing(a, Loop(last, fin)));
        ExecAppend(s, steps, Advance(0));
        steps := steps + [Advance(0)];
        s1 := Apply(s1, Advance(0));
      }
      if s1.Running? {
        var rest := DrainAlone(s1);
        ExecJoin(s, steps, rest);
        steps := steps + rest;
        assert s1.threads[0 := Idle] == s.threads[0 := Idle];
      }
    }
  }

  /** A completion that nobody interrupts does what Finalize says. */
  lemma FinalizeAlone(s: System, a: Action, ok: bool) returns (steps: seq<Step>)
    requires Unlocked(s) && |s.threads| > 0 && s.threads[0].Idle? && a in s.sh.outstanding
    ensures IsRun(s, steps)
    ensures var sh := s.sh.(outstanding := s.sh.outstanding - multiset{a});
      var created := s.created + if Fails(sh, a, ok) then [Action(|s.created|, Op.Finish)] else [];
      EndsAs(s, 0, created, Finalize(sh, a, ok, |s.created|), Exec(s, steps))
  {
    var sh := s.sh.(outstanding := s.sh.outstanding - multiset{a});
    OneStep(s, Deliver(a, ok));
    ExecAppend(s, [Deliver(a, ok)], Advance(0));
    steps := [Deliver(a, ok)] + [Advance(0)];
    var s2 := Exec(s, steps);
    assert s2 == AdvanceThread(Goto(s.(sh := sh), 0, WantFinalize(a, ok)), 0);
    if s2.Running? {
      assert s2.threads[0] == ResultSet(a, ok);
      ExecAppend(s, steps, Advance(0));
      steps := steps + [Advance(0)];
      var s3 := Exec(s, steps);
      var reset := Complete(sh, a, Value(ok)).(state := Ready);
      assert s3 == Running(s.created, reset, s.threads[0 := AfterReset(a, ok)], None, None);
      var rest := FinishAlone(s3);
      ExecJoin(s, steps, rest);
      steps := steps + rest;
    }
  }

  /** The completion is a failed write, whose handling submits a Finish. */
  predicate Fails(sh: Shared, a: Action, ok: bool) {
    sh.state == Processing && a !in sh.promises && a.op.Write? && !ok
  }

  lemma FinishAlone(s: System) returns (steps: seq<Step>)
    requires Unlocked(s) && |s.threads| > 0 && s.threads[0].AfterReset?
    ensures IsRun(s, steps)
    ensures var a, ok := s.threads[0].a, s.threads[0].ok;
      var created := s.created + if a.op.Write? && !ok then [Action(|s.created|, Op.Finish)] else [];
      EndsAs(s, 0, created, FinalizeReset(s.sh, a, ok, |s.created|), Exec(s, steps))
  {
    var a, ok := s.threads[0].a, s.threads[0].ok;
    var s1 := Apply(s, Advance(0));
    OneStep(s, Advance(0));
    steps := [Advance(0)];
    if a.op.Write? && ok {
      assert s1 == s.(actionsOwner := Some(0), threads := s.threads[0 := Draining(a.op.last, false)]);
      var rest := DrainAlone(s1);
      ExecJoin(s, steps, rest);
      steps := steps + rest;
      assert s1.threads[0 := Idle] == s.threads[0 := Idle];
    } else if a.op.Write? {
      var f := Action(|s.created|, Op.Finish);
      assert s1 == NewAction(s, 0, Op.Finish);
      ExecAppend(s, steps, Advance(0));
      steps := steps + [Advance(0)];
      var s2 := Apply(s1, Advance(0));
      assert s2 == s.(created := s.created + [f], sh := Push(s.sh, f), threads := s.threads[0 := WantTry]);
      var rest := TryAlone(s2, 0);
      ExecJoin(s, steps, rest);
      steps := steps + rest;
      assert s2.threads[0 := Idle] == s.threads[0 := Idle];
    }
  }
}
