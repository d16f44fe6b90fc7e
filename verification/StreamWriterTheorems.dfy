/** What the invariant means for the users of the writer: where an action can be, which promises
    are never completed, who can trip the assert in perform(), how long the queue can get, and
    that the two mutexes neither deadlock nor let a run go on for ever. */
module StreamWriterTheorems {
  import opened Common
  import opened StreamWriter
  import opened StreamWriterInvariant

  /** A run can be continued by one more step. */
  lemma {:induction false} ExecAppend(s: System, steps: seq<Step>, step: Step)
    requires IsRun(s, steps) && Enabled(Exec(s, steps), step)
    ensures IsRun(s, steps + [step]) && Exec(s, steps + [step]) == Apply(Exec(s, steps), step)
    decreases |steps|
  {
    if steps == [] {
      assert ([] + [step])[1..] == [];
    } else {
      assert (steps + [step])[1..] == steps[1..] + [step];
      ExecAppend(Apply(s, steps[0]), steps[1..], step);
    }
  }

  lemma {:induction false} ExecJoin(s: System, first: seq<Step>, second: seq<Step>)
    requires IsRun(s, first) && IsRun(Exec(s, first), second)
    ensures IsRun(s, first + second) && Exec(s, first + second) == Exec(Exec(s, first), second)
    decreases |first|
  {
    if first == [] {
      assert first + second == second;
    } else {
      assert (first + second)[1..] == first[1..] + second;
      ExecJoin(Apply(s, first[0]), first[1..], second);
    }
  }

  lemma OneStep(s: System, step: Step)
    requires Enabled(s, step)
    ensures IsRun(s, [step]) && Exec(s, [step]) == Apply(s, step)
  {
    assert [step][1..] == [];
    assert IsRun(Apply(s, step), []);
  }

  // ---- Conservation ----

  datatype Place = Submitting | Queued | Trying | UnderWay | DoneOk | DoneRejected | Lost

  ghost predicate IsAt(s: System, a: Action, p: Place)
    requires s.Running?
  {
    match p
    case Submitting => exists t :: 0 <= t < |s.threads| && s.threads[t].WantPush? && s.threads[t].a == a
    case Queued => a in s.sh.queue
    case Trying =>
      exists t :: 0 <= t < |s.threads| && (s.threads[t].Popped? || s.threads[t].Performing?) && s.threads[t].a == a
    case UnderWay =>
      a in s.sh.outstanding || exists t :: 0 <= t < |s.threads| && s.threads[t].WantFinalize? && s.threads[t].a == a
    case DoneOk => a in s.sh.promises && s.sh.promises[a].Value?
    case DoneRejected => a in s.sh.promises && s.sh.promises[a].Rejected?
    case Lost => a in s.sh.stranded
  }

  /** Every created action is in exactly one place; what was never created is nowhere. */
  lemma ExactlyOnePlace(submitters: nat, s: System, a: Action)
    requires Reachable(submitters, s) && s.Running?
    ensures Created(s, a) ==> exists p :: IsAt(s, a, p) && forall q :: IsAt(s, a, q) ==> q == p
    ensures !Created(s, a) ==> forall q :: !IsAt(s, a, q)
  {
    ReachableInv(submitters, s);
    assert Places(s, a) == Tally(Created(s, a));
    var w := Carrying(a);
    if t :| 0 <= t < |s.threads| && w(s.threads[t]) == 1 {
      SumAtLeast(s.threads, t, w);
      forall u | 0 <= u < |s.threads| && u != t ensures w(s.threads[u]) == 0 {
        if u < t { SumAtLeastTwo(s.threads, u, t, w); } else { SumAtLeastTwo(s.threads, t, u, w); }
      }
      var pc := s.threads[t];
      var p := if pc.WantPush? then Submitting else if pc.WantFinalize? then UnderWay else Trying;
      assert IsAt(s, a, p);
      forall q | IsAt(s, a, q) ensures q == p { OnlyCarried(s, a, t, q); }
    } else {
      SumZero(s.threads, w);
      SettledInOne(s, a);
    }
  }

  lemma OnlyCarried(s: System, a: Action, t: nat, q: Place)
    requires s.Running? && t < |s.threads| && Carries(s.threads[t]) && s.threads[t].a == a
    requires forall u :: 0 <= u < |s.threads| && u != t ==> Carrying(a)(s.threads[u]) == 0
    requires Settled(s.sh, a) == 0 && IsAt(s, a, q)
    ensures var pc := s.threads[t];
      q == if pc.WantPush? then Submitting else if pc.WantFinalize? then UnderWay else Trying
  {
    assert forall u :: 0 <= u < |s.threads| && Carries(s.threads[u]) && s.threads[u].a == a ==>
      Carrying(a)(s.threads[u]) == 1;
  }

  lemma SettledInOne(s: System, a: Action)
    requires s.Running? && Settled(s.sh, a) == Tally(Created(s, a))
    requires forall u :: 0 <= u < |s.threads| ==> Carrying(a)(s.threads[u]) == 0
    ensures Created(s, a) ==> exists p :: IsAt(s, a, p) && forall q :: IsAt(s, a, q) ==> q == p
    ensures !Created(s, a) ==> forall q :: !IsAt(s, a, q)
  {
    assert forall u :: 0 <= u < |s.threads| && Carries(s.threads[u]) && s.threads[u].a == a ==>
      Carrying(a)(s.threads[u]) == 1;
    if Created(s, a) {
      var p := if a in s.sh.queue then Queued else if a in s.sh.outstanding then UnderWay
               else if a in s.sh.stranded then Lost else if s.sh.promises[a].Value? then DoneOk else DoneRejected;
      assert IsAt(s, a, p);
    }
  }

  /** No call in progress and nothing left for the completion queue to return. */
  predicate Quiescent(s: System) {
    s.Running? && s.sh.outstanding == multiset{} && forall t :: 0 <= t < |s.threads| ==> s.threads[t].Idle?
  }

  /** At quiescence the futures that will never be ready are exactly the stranded ones. */
  lemma UnresolvedAreStranded(submitters: nat, s: System, a: Action)
    requires Reachable(submitters, s) && Quiescent(s) && Created(s, a)
    ensures a !in s.sh.promises <==> a in s.sh.stranded
  {
    ReachableInv(submitters, s);
    SumZero(s.threads, Carrying(a));
    SumZero(s.threads, HalfSubmitted);
    assert Places(s, a) == 1;
  }

  /** At quiescence an action was handed to the stream, and then once, unless it was dropped or refused. */
  lemma SentOnceUnlessLostOrRefused(submitters: nat, s: System, a: Action)
    requires Reachable(submitters, s) && Quiescent(s) && Created(s, a)
    ensures multiset(s.sh.wire)[a] ==
      if a in s.sh.stranded || (a in s.sh.promises && s.sh.promises[a].Rejected?) then 0 else 1
  {
    ReachableInv(submitters, s);
    UnresolvedAreStranded(submitters, s, a);
    assert Places(s, a) <= 1;
  }

  /** The step is the unlocked read of _state by the thread that popped a, and it sees Processing. */
  predicate DropsAction(s: System, step: Step, a: Action) {
    Enabled(s, step) && step.Advance? && s.threads[step.t] == Popped(a) && s.sh.state == Processing
  }

  predicate SomeStepDrops(s: System, steps: seq<Step>, a: Action)
    requires IsRun(s, steps)
    decreases |steps|
  {
    steps != [] && (DropsAction(s, steps[0], a) || SomeStepDrops(Apply(s, steps[0]), steps[1..], a))
  }

  lemma StrandedStep(s: System, step: Step, a: Action)
    requires Enabled(s, step) && Apply(s, step).Running?
    ensures a in Apply(s, step).sh.stranded <==> a in s.sh.stranded || DropsAction(s, step, a)
  {
  }

  lemma AbortedStays(s: System, steps: seq<Step>)
    requires IsRun(s, steps)
    ensures s.Aborted? ==> steps == []
  {
  }

  /** The actions that never resolve are those popped by a submission while the state was Processing. */
  lemma {:induction false} StrandedIffDropped(s: System, steps: seq<Step>, a: Action)
    requires s.Running? && IsRun(s, steps) && Exec(s, steps).Running?
    ensures a in Exec(s, steps).sh.stranded <==> a in s.sh.stranded || SomeStepDrops(s, steps, a)
    decreases |steps|
  {
    if steps != [] {
      var s' := Apply(s, steps[0]);
      AbortedStays(s', steps[1..]);
      StrandedStep(s, steps[0], a);
      StrandedIffDropped(s', steps[1..], a);
    }
  }

  /** A completed promise keeps its outcome for the rest of the run. */
  lemma {:induction false} PromiseKept(s: System, steps: seq<Step>, a: Action)
    requires s.Running? && IsRun(s, steps) && Exec(s, steps).Running? && a in s.sh.promises
    ensures var s' := Exec(s, steps); a in s'.sh.promises && s'.sh.promises[a] == s.sh.promises[a]
    decreases |steps|
  {
    if steps != [] {
      var s' := Apply(s, steps[0]);
      AbortedStays(s', steps[1..]);
      PromisesGrow(s, steps[0]);
      PromiseKept(s', steps[1..], a);
    }
  }

  /** The completion of an action, with this ok, has been received. */
  predicate HasResult(s: System, a: Action, ok: bool) {
    s.Running? && |s.threads| > 0 &&
    ((a in s.sh.promises && s.sh.promises[a] == Value(ok)) || s.threads[0] == WantFinalize(a, ok))
  }

  lemma ResultStep(s: System, step: Step, a: Action, ok: bool)
    requires s.Running? && |s.threads| > 0 && Roles(s) && Enabled(s, step) && Apply(s, step).Running?
    ensures HasResult(Apply(s, step), a, ok) <==> HasResult(s, a, ok) || step == Deliver(a, ok)
  {
    StepShape(s, step);
    ResolvedShape(s, step, a);
    PromisesGrow(s, step);
    if step.Advance? && step.t > 0 { assert SubmitterPc(s.threads[step.t]); }
  }

  lemma {:induction false} ResultsDelivered(s: System, steps: seq<Step>, a: Action, ok: bool)
    requires s.Running? && RunInv(s) && IsRun(s, steps) && Exec(s, steps).Running?
    ensures HasResult(Exec(s, steps), a, ok) <==> HasResult(s, a, ok) || Deliver(a, ok) in steps
    decreases |steps|
  {
    if steps != [] {
      var s' := Apply(s, steps[0]);
      AbortedStays(s', steps[1..]);
      StepKeepsInv(s, steps[0]);
      ResultStep(s, steps[0], a, ok);
      ResultsDelivered(s', steps[1..], a, ok);
    }
  }

  /** In every run the future of an action holds exactly what the completion queue returned for it, as
      soon as the completion thread has set it. */
  lemma FutureIsWhatCameBack(submitters: nat, steps: seq<Step>, a: Action, ok: bool)
    requires IsRun(Init(submitters), steps) && Exec(Init(submitters), steps).Running?
    ensures HasResult(Exec(Init(submitters), steps), a, ok) <==> Deliver(a, ok) in steps
  {
    InitInv(submitters);
    ResultsDelivered(Init(submitters), steps, a, ok);
  }

  /** Whatever happens after an action was dropped, its future is never ready. */
  lemma StrandedForever(submitters: nat, s: System, steps: seq<Step>, a: Action)
    requires Reachable(submitters, s) && s.Running? && a in s.sh.stranded
    requires IsRun(s, steps) && Exec(s, steps).Running?
    ensures a in Exec(s, steps).sh.stranded && a !in Exec(s, steps).sh.promises
  {
    ReachableInv(submitters, s);
    RunKeepsInv(s, steps);
    StrandedIffDropped(s, steps, a);
    assert Places(Exec(s, steps), a) <= 1;
  }

  // ---- The asserts ----

  /** The state is Processing exactly while one operation is between perform() and the reset, Ready
      exactly while none is, never Finished; there never is a second operation. */
  lemma ProcessingIffOneUnderWay(submitters: nat, s: System)
    requires Reachable(submitters, s) && s.Running?
    ensures |s.threads| > 0
    ensures s.sh.state != Finished && InFlight(s) <= 1
    ensures s.sh.state == Processing <==> InFlight(s) == 1
    ensures s.sh.state == Ready <==> InFlight(s) == 0
  {
    ReachableInv(submitters, s);
  }

  /** A perform() that follows the unlocked read never fails; neither does the assert in finalizeResult. */
  lemma ReadThenPerformIsSafe(submitters: nat, s: System, t: nat)
    requires Reachable(submitters, s) && Enabled(s, Advance(t))
    requires (s.threads[t].Performing? && s.threads[t].resume.Return?) || s.threads[t].WantFinalize?
    ensures Apply(s, Advance(t)).Running?
  {
    ReachableInv(submitters, s);
    StepKeepsInv(s, Advance(t));
  }

  /** Thread t was told Ready by the unlocked read and has not performed its action yet. */
  predicate ReadReady(s: System, t: nat) {
    s.Running? && t < |s.threads| && s.threads[t].Performing? && s.threads[t].resume.Return?
  }

  lemma ReadReadyStep(s: System, step: Step, t: nat)
    requires ReadReady(s, t) && Enabled(s, step) && step != Advance(t) && Apply(s, step).Running?
    ensures ReadReady(Apply(s, step), t) && Apply(s, step).threads[t] == s.threads[t]
  {
    StepShape(s, step);
  }

  /** From the unlocked read of Ready until perform() locks _stateMutex, no step of any other thread
      makes the state leave Ready. */
  lemma {:induction false} ReadyUntilPerform(s: System, steps: seq<Step>, t: nat)
    requires Inv(s) && ReadReady(s, t)
    requires IsRun(s, steps) && Advance(t) !in steps && Exec(s, steps).Running?
    ensures var s' := Exec(s, steps);
      t < |s'.threads| && s'.threads[t] == s.threads[t] && s'.sh.state == Ready
    decreases |steps|
  {
    if steps != [] {
      var s' := Apply(s, steps[0]);
      AbortedStays(s', steps[1..]);
      ReadReadyStep(s, steps[0], t);
      StepKeepsInv(s, steps[0]);
      ReadyUntilPerform(s', steps[1..], t);
    }
  }

  /** A run can only die in the drain loop, on a failed Finish, or on a second completed Finish. */
  lemma OnlyThreeFailures(submitters: nat, s: System)
    requires Reachable(submitters, s) && s.Aborted?
    ensures s.why == PerformNotReady(true) || s.why == FinishNotOk || s.why == ResponseTwice
  {
    ReachableInv(submitters, s);
  }

  // ---- Order and the length of the queue ----

  /** Popped then queued is what was pushed, and the wire keeps that order. */
  lemma WireOrder(submitters: nat, s: System)
    requires Reachable(submitters, s) && s.Running?
    ensures s.sh.popped + s.sh.queue == s.sh.pushed
    ensures IsSubseq(s.sh.wire, s.sh.pushed)
  {
    ReachableInv(submitters, s);
    var tried := Tried(s);
    if tried != [] {
      assert tried == [tried[0]];
      SubseqDrop(s.sh.wire, tried[0], s.sh.popped);
    } else {
      assert s.sh.wire + tried == s.sh.wire;
    }
    SubseqGrow(s.sh.wire, s.sh.popped, s.sh.queue);
  }

  lemma {:induction false} SubseqGrow<T>(xs: seq<T>, ys: seq<T>, zs: seq<T>)
    requires IsSubseq(xs, ys)
    ensures IsSubseq(xs, ys + zs)
  {
    if zs == [] {
      assert ys + zs == ys;
    } else {
      var n := |zs| - 1;
      SubseqGrow(xs, ys, zs[..n]);
      SubseqSkip(xs, ys + zs[..n], zs[n]);
      assert ys + zs == (ys + zs[..n]) + [zs[n]];
    }
  }

  /** The queue is never longer than the number of submissions between push and try. */
  lemma QueueIsBounded(submitters: nat, s: System)
    requires Reachable(submitters, s) && s.Running?
    ensures |s.sh.queue| <= SumOf(s.threads, HalfSubmitted) <= |s.threads|
    ensures (forall t :: 0 <= t < |s.threads| ==> !s.threads[t].WantTry?) ==> s.sh.queue == []
  {
    ReachableInv(submitters, s);
    SumAtMost(s.threads);
    SumZero(s.threads, HalfSubmitted);
  }

  lemma {:induction false} SumAtMost(threads: seq<Pc>)
    ensures SumOf(threads, HalfSubmitted) <= |threads|
  {
    if threads != [] { SumAtMost(threads[..|threads| - 1]); }
  }

  lemma {:induction false} SameSubmitters(s: System, steps: seq<Step>)
    requires s.Running? && IsRun(s, steps) && Exec(s, steps).Running?
    ensures |Exec(s, steps).threads| == |s.threads|
    decreases |steps|
  {
    if steps != [] {
      var s' := Apply(s, steps[0]);
      AbortedStays(s', steps[1..]);
      StepShape(s, steps[0]);
      SameSubmitters(s', steps[1..]);
    }
  }

  /** With one submitter the drain loop never finds more than one action. */
  lemma OneSubmitterOneToDrain(s: System)
    requires Reachable(1, s) && s.Running? && |s.threads| > 0 && s.threads[0].Draining?
    ensures |s.sh.queue| <= 1
  {
    ReachableInv(1, s);
    var steps :| IsRun(Init(1), steps) && Exec(Init(1), steps) == s;
    SameSubmitters(Init(1), steps);
    SumOfTwo(s.threads);
  }

  lemma SumOfTwo(threads: seq<Pc>)
    requires |threads| == 2
    ensures SumOf(threads, HalfSubmitted) == HalfSubmitted(threads[0]) + HalfSubmitted(threads[1])
  {
    SumAppend([threads[0]], threads[1], HalfSubmitted);
    SumAppend([], threads[0], HalfSubmitted);
    assert threads == [threads[0]] + [threads[1]] && [] + [threads[0]] == [threads[0]];
  }
}
