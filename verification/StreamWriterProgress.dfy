/** The two-mutex protocol of the writer never deadlocks and never runs on for ever. */
module StreamWriterProgress {
  import opened Common
  import opened StreamWriter
  import opened StreamWriterInvariant
  import opened StreamWriterTheorems

  /** _stateMutex is only ever taken last: nobody asks for a mutex while holding _stateMutex, and
      nobody asks for a mutex it already holds. */
  lemma LockOrder(submitters: nat, s: System, t: nat)
    requires Reachable(submitters, s) && s.Running? && t < |s.threads|
    ensures s.stateOwner == Some(t) ==> !WantsActions(s.threads[t]) && !WantsState(s.threads[t])
    ensures s.actionsOwner == Some(t) ==> !WantsActions(s.threads[t])
  {
    ReachableInv(submitters, s);
  }

  /** Unless every thread is idle or the run has died, some thread can take a step. */
  lemma DeadlockFree(submitters: nat, s: System) returns (t: nat)
    requires Reachable(submitters, s) && s.Running?
    requires exists u :: 0 <= u < |s.threads| && !s.threads[u].Idle?
    ensures Enabled(s, Advance(t))
  {
    ReachableInv(submitters, s);
    t := SomeoneMoves(s);
  }

  /** The owner of _stateMutex is never blocked, nor then is the owner of _actionsMutex, nor else anybody. */
  lemma SomeoneMoves(s: System) returns (t: nat)
    requires s.Running? && RunInv(s) && exists u :: 0 <= u < |s.threads| && !s.threads[u].Idle?
    ensures Enabled(s, Advance(t))
  {
    if s.stateOwner.Some? {
      t := s.stateOwner.value;
    } else if s.actionsOwner.Some? {
      t := s.actionsOwner.value;
    } else {
      t :| 0 <= t < |s.threads| && !s.threads[t].Idle?;
    }
  }

  // ---- How much is left to do ----

  /** The most steps an action can still cause once it is outstanding: a write that fails makes
      the completion thread submit a Finish of its own. */
  function OutstandingCost(op: Op): nat { if op.Write? then 12 else 4 }

  function QueuedCost(a: Action): nat { OutstandingCost(a.op) + 2 }

  function Cost(pc: Pc): nat {
    match pc
    case Idle => 0
    case WantPush(a) => OutstandingCost(a.op) + 4
    case WantTry => 1
    case Popped(a) => OutstandingCost(a.op) + 2
    case Performing(a, resume) => OutstandingCost(a.op) + if resume.Loop? then 2 else 1
    case WantFinalize(a, _) => OutstandingCost(a.op) - 1
    case ResultSet(a, _) => OutstandingCost(a.op) - 2
    case AfterReset(a, _) => OutstandingCost(a.op) - 3
    case Draining(_, _) => 1
  }

  ghost predicate WriteIn(m: multiset<Action>) { exists a :: a in m && a.op.Write? }

  /** The cost of what is outstanding, which is at most one operation. */
  ghost function UnderWayCost(m: multiset<Action>): nat {
    if m == multiset{} then 0 else if WriteIn(m) then 12 else 4
  }

  ghost function Left(sh: Shared): nat {
    SumOf(sh.queue, QueuedCost) + UnderWayCost(sh.outstanding)
  }

  ghost function Work(s: System): nat
    requires s.Running?
  {
    SumOf(s.threads, Cost) + Left(s.sh)
  }

  lemma UnderWayOne(a: Action)
    ensures UnderWayCost(multiset{a}) == OutstandingCost(a.op)
  {
    assert a in multiset{a};
  }

  lemma OnlyOne(m: multiset<Action>, a: Action)
    requires |m| == 1 && a in m
    ensures m == multiset{a}
  {
    assert |m - multiset{a}| == 0;
  }

  lemma EmptyMultiset(m: multiset<Action>)
    requires |m| == 0
    ensures m == multiset{}
  {
  }

  ghost predicate CostFalls(s: System, s': System, t: nat)
    requires s.Running? && t < |s.threads|
  {
    s'.Running? ==> t < |s'.threads| && Left(s'.sh) + Cost(s'.threads[t]) < Left(s.sh) + Cost(s.threads[t])
  }

  /** A step other than a new call uses up work. */
  lemma CostShape(s: System, step: Step)
    requires Enabled(s, step) && Roles(s) && SingleFlight(s) && !step.Begin? && Actor(step) < |s.threads|
    ensures CostFalls(s, Apply(s, step), Actor(step))
  {
    match step
    case Deliver(a, ok) =>
      OnlyOne(s.sh.outstanding, a);
      UnderWayOne(a);
    case Advance(t) =>
      match s.threads[t]
      case WantPush(a) => SumAppend(s.sh.queue, a, QueuedCost);
      case WantTry => TryCost(s, t);
      case Popped(a) => QuietCost(s, t);
      case Performing(a, resume) => PerformCost(s, t);
      case WantFinalize(a, ok) => QuietCost(s, t);
      case ResultSet(a, ok) => QuietCost(s, t);
      case AfterReset(a, ok) => QuietCost(s, t);
      case Draining(last, fin) => DrainCost(s, t);
  }

  lemma QuietCost(s: System, t: nat)
    requires Enabled(s, Advance(t))
    requires var pc := s.threads[t]; pc.Popped? || pc.WantFinalize? || pc.ResultSet? || pc.AfterReset?
    ensures CostFalls(s, AdvanceThread(s, t), t)
  {
    match s.threads[t]
    case Popped(_) =>
    case WantFinalize(a, _) => assert a.op.Write? || a.op.Finish?;
    case ResultSet(a, _) => assert a.op.Write? || a.op.Finish?;
    case AfterReset(a, _) => assert a.op.Write? || a.op.Finish?;
  }

  lemma TryCost(s: System, t: nat)
    requires Enabled(s, Advance(t)) && s.threads[t].WantTry?
    ensures CostFalls(s, AdvanceThread(s, t), t)
  {
    if s.sh.queue != [] { SumOfTail(s.sh.queue, QueuedCost); }
  }

  lemma PerformCost(s: System, t: nat)
    requires Enabled(s, Advance(t)) && Roles(s) && SingleFlight(s) && s.threads[t].Performing?
    ensures CostFalls(s, AdvanceThread(s, t), t)
  {
    if s.sh.state == Ready {
      var a := s.threads[t].a;
      EmptyMultiset(s.sh.outstanding);
      UnderWayOne(a);
      assert s.sh.outstanding + multiset{a} == multiset{a};
    }
  }

  lemma DrainCost(s: System, t: nat)
    requires Enabled(s, Advance(t)) && s.threads[t].Draining?
    ensures CostFalls(s, AdvanceThread(s, t), t)
  {
    if s.sh.queue != [] {
      SumOfTail(s.sh.queue, QueuedCost);
      assert QueuedCost(s.sh.queue[0]) >= 2;
    }
  }

  /** write() brings 16 units of work and finish() 8; every other step uses some up. */
  lemma WorkStep(s: System, step: Step)
    requires Enabled(s, step) && RunInv(s) && Apply(s, step).Running?
    ensures Work(Apply(s, step)) + 1 <= Work(s) + Charge(step)
  {
    var s', t := Apply(s, step), Actor(step);
    StepShape(s, step);
    SumUpdate(s.threads, t, s'.threads[t], Cost);
    if !step.Begin? { CostShape(s, step); }
  }

  function Charge(step: Step): nat {
    if step.Begin? then (if step.op.Write? then 17 else 9) else 0
  }

  /** Whoever can take a step has work left, even if it dies of it. */
  lemma SomeWork(s: System, t: nat)
    requires s.Running? && t < |s.threads| && !s.threads[t].Idle?
    ensures Work(s) > 0
  {
    SumAtLeast(s.threads, t, Cost);
  }

  /** A run, whether it dies or not, is never longer than 17 steps for each call of write() plus 9 for
      each call of finish(), and what was left to do at its start. */
  lemma {:induction false} RunsAreShort(s: System, steps: seq<Step>)
    requires Inv(s) && s.Running? && IsRun(s, steps)
    ensures |steps| <= Work(s) + SumOf(steps, Charge)
    ensures Exec(s, steps).Running? ==> |steps| + Work(Exec(s, steps)) <= Work(s) + SumOf(steps, Charge)
    decreases |steps|
  {
    if steps != [] {
      var s' := Apply(s, steps[0]);
      SumOfTail(steps, Charge);
      StepKeepsInv(s, steps[0]);
      if s'.Aborted? {
        AbortedStays(s', steps[1..]);
        SomeWork(s, steps[0].t);
      } else {
        WorkStep(s, steps[0]);
        RunsAreShort(s', steps[1..]);
      }
    }
  }

  lemma Terminates(submitters: nat, steps: seq<Step>)
    requires IsRun(Init(submitters), steps)
    ensures |steps| <= SumOf(steps, Charge)
  {
    var s := Init(submitters);
    InitInv(submitters);
    SumZero(s.threads, Cost);
    RunsAreShort(s, steps);
  }

  // ---- Where runs end ----

  /** Short of quiescence the system can always move on without a new call. */
  lemma MovesUntilQuiescent(submitters: nat, s: System) returns (step: Step)
    requires Reachable(submitters, s) && s.Running? && !Quiescent(s)
    ensures Enabled(s, step) && !step.Begin?
  {
    ReachableInv(submitters, s);
    step := NextStep(s);
  }

  lemma NextStep(s: System) returns (step: Step)
    requires s.Running? && RunInv(s) && !Quiescent(s)
    ensures Enabled(s, step) && !step.Begin?
  {
    if exists u :: 0 <= u < |s.threads| && !s.threads[u].Idle? {
      var t := SomeoneMoves(s);
      step := Advance(t);
    } else {
      var a :| a in s.sh.outstanding;
      step := Deliver(a, true);
    }
  }

  predicate NoSubmission(steps: seq<Step>) { forall step :: step in steps ==> !step.Begin? }

  predicate Ended(s: System) { s.Aborted? || Quiescent(s) }

  /** Nothing but a new call could make the run longer. */
  ghost predicate Maximal(s: System) {
    forall step :: Enabled(s, step) ==> step.Begin?
  }

  /** The runs without a new call that cannot be made longer are exactly those that have died or
      reached quiescence; by RunsAreShort there is none that avoids both. */
  lemma MaximalRunsEnd(submitters: nat, s: System, steps: seq<Step>)
    requires Reachable(submitters, s) && s.Running? && IsRun(s, steps) && NoSubmission(steps)
    ensures Maximal(Exec(s, steps)) <==> Ended(Exec(s, steps))
    ensures |steps| <= Work(s)
  {
    ReachableInv(submitters, s);
    RunKeepsInv(s, steps);
    RunsAreShort(s, steps);
    SumZero(steps, Charge);
    MaximalIffEnded(Exec(s, steps));
  }

  lemma MaximalIffEnded(s: System)
    requires Inv(s)
    ensures Maximal(s) <==> Ended(s)
  {
    if !Ended(s) { var step := NextStep(s); }
  }

  /** From every reachable state there is a run without a new call to quiescence or a failure. */
  lemma RunsToTheEnd(submitters: nat, s: System) returns (steps: seq<Step>)
    requires Reachable(submitters, s) && s.Running?
    ensures IsRun(s, steps) && NoSubmission(steps) && Ended(Exec(s, steps))
  {
    ReachableInv(submitters, s);
    steps := RunOn(s);
  }

  lemma {:induction false} RunOn(s: System) returns (steps: seq<Step>)
    requires s.Running? && RunInv(s)
    ensures IsRun(s, steps) && NoSubmission(steps) && Ended(Exec(s, steps))
    decreases Work(s)
  {
    if Quiescent(s) {
      steps := [];
    } else {
      var step := NextStep(s);
      StepKeepsInv(s, step);
      OneStep(s, step);
      steps := [step];
      if Apply(s, step).Running? {
        WorkStep(s, step);
        var rest := RunOn(Apply(s, step));
        ExecJoin(s, steps, rest);
        steps := steps + rest;
      }
    }
  }
}
