/** What every reachable state of the writer satisfies, for any number of submitters and any
    interleaving: mutual exclusion, single flight, conservation of actions, wire order, the
    bound on the queue, and which failures can happen at all. */
module StreamWriterInvariant {
  import opened Common
  import opened StreamWriter

  // ---- The pieces of the invariant ----

  predicate SubmitterPc(pc: Pc) {
    pc.Idle? || pc.WantPush? || pc.WantTry? || pc.Popped? || (pc.Performing? && pc.resume.Return?)
  }

  /** Only thread 0 handles completions. */
  ghost predicate Roles(s: System)
    requires s.Running?
  {
    |s.threads| > 0 && forall t :: 0 < t < |s.threads| ==> SubmitterPc(s.threads[t])
  }

  /** Each mutex is owned exactly by the thread that is inside its section. */
  ghost predicate Locks(s: System)
    requires s.Running?
  {
    && (forall t :: 0 <= t < |s.threads| ==> (HoldsActions(s.threads[t]) <==> s.actionsOwner == Some(t)))
    && (forall t :: 0 <= t < |s.threads| ==> (HoldsState(s.threads[t]) <==> s.stateOwner == Some(t)))
    && (s.actionsOwner.Some? ==> s.actionsOwner.value < |s.threads|)
    && (s.stateOwner.Some? ==> s.stateOwner.value < |s.threads|)
  }

  /** Performed, returned by the completion queue, and not past the reset to Ready. */
  predicate Completing(pc: Pc) { pc.WantFinalize? || pc.ResultSet? }

  function InFlight(s: System): nat
    requires s.Running? && |s.threads| > 0
  {
    |s.sh.outstanding| + if Completing(s.threads[0]) then 1 else 0
  }

  ghost predicate SingleFlight(s: System)
    requires s.Running? && |s.threads| > 0
  {
    && s.sh.state != Finished
    && InFlight(s) == if s.sh.state == Processing then 1 else 0
  }

  /** Whoever was told Ready by the unlocked read still finds Ready. */
  ghost predicate ReadIsSound(s: System)
    requires s.Running?
  {
    forall t :: 0 <= t < |s.threads| && s.threads[t].Performing? && s.threads[t].resume.Return? ==>
      s.sh.state == Ready
  }

  predicate Carries(pc: Pc) {
    pc.WantPush? || pc.Popped? || pc.Performing? || pc.WantFinalize?
  }

  /** 1 for a thread that carries action a, which then is nowhere else. */
  function Carrying(a: Action): Pc -> nat {
    pc => if Carries(pc) && pc.a == a then 1 else 0
  }

  /** In how many places outside the threads an action is: queued, outstanding, done, stranded. */
  function Settled(sh: Shared, a: Action): nat {
    multiset(sh.queue)[a] + sh.outstanding[a] + Tally(a in sh.promises) + Tally(a in sh.stranded)
  }

  function Places(s: System, a: Action): nat
    requires s.Running?
  {
    SumOf(s.threads, Carrying(a)) + Settled(s.sh, a)
  }

  predicate Created(s: System, a: Action)
    requires s.Running?
  {
    a.id < |s.created| && s.created[a.id] == a
  }

  /** Every created action is in exactly one place, and nothing else is anywhere. */
  ghost predicate Conserved(s: System)
    requires s.Running?
  {
    forall a :: Places(s, a) == Tally(Created(s, a))
  }

  ghost predicate Numbered(s: System)
    requires s.Running?
  {
    forall i :: 0 <= i < |s.created| ==> s.created[i].id == i
  }

  /** The action being tried by the owner of _actionsMutex. */
  function Tried(s: System): seq<Action>
    requires s.Running?
  {
    if s.actionsOwner.Some? && s.actionsOwner.value < |s.threads| then TriedBy(s.threads[s.actionsOwner.value]) else []
  }

  function TriedBy(pc: Pc): seq<Action> {
    if pc.Popped? || pc.Performing? then [pc.a] else []
  }

  ghost predicate Ordered(s: System)
    requires s.Running?
  {
    && s.sh.popped + s.sh.queue == s.sh.pushed
    && IsSubseq(s.sh.wire + Tried(s), s.sh.popped)
  }

  /** 1 for a thread between its push and its try. */
  function HalfSubmitted(pc: Pc): nat { if pc.WantTry? then 1 else 0 }

  ghost predicate Bounded(s: System)
    requires s.Running?
  {
    |s.sh.queue| <= SumOf(s.threads, HalfSubmitted)
  }

  predicate Resolved(sh: Shared, a: Action) {
    a in sh.promises && sh.promises[a].Value?
  }

  /** Every operation handed to the stream is outstanding, being finalized or resolved, once each. */
  ghost predicate Accounted(s: System)
    requires s.Running? && |s.threads| > 0
  {
    forall a :: multiset(s.sh.wire)[a] ==
      s.sh.outstanding[a] + Tally(s.threads[0].WantFinalize? && s.threads[0].a == a) + Tally(Resolved(s.sh, a))
  }

  /** The promise of an action in finalizeResult, from line 95 on, holds the completion's ok. */
  ghost predicate ResultKnown(s: System)
    requires s.Running?
  {
    forall t :: 0 <= t < |s.threads| && (s.threads[t].ResultSet? || s.threads[t].AfterReset?) ==>
      s.threads[t].a in s.sh.promises && s.sh.promises[s.threads[t].a] == Value(s.threads[t].ok)
  }

  /** The completion thread is between setting the promise of an action and its finalizer. */
  predicate AtResult(s: System, a: Action)
    requires s.Running? && |s.threads| > 0
  {
    (s.threads[0].ResultSet? || s.threads[0].AfterReset?) && s.threads[0].a == a
  }

  ghost predicate RunInv(s: System)
    requires s.Running?
  {
    && Roles(s) && Locks(s) && SingleFlight(s) && ReadIsSound(s)
    && Numbered(s) && Conserved(s) && Ordered(s) && Bounded(s) && Accounted(s) && ResultKnown(s)
  }

  /** The failures the code can run into: the assert in perform() from the drain loop, a Finish
      that comes back not ok, and a second completed Finish. */
  predicate Possible(why: Failure) {
    why == PerformNotReady(true) || why == FinishNotOk || why == ResponseTwice
  }

  ghost predicate Inv(s: System) {
    if s.Running? then RunInv(s) else Possible(s.why)
  }

  // ---- Helpers ----

  predicate Pending(s: System, t: nat, a: Action)
    requires s.Running? && t < |s.threads|
  {
    (Carries(s.threads[t]) && s.threads[t].a == a) || a in s.sh.queue
  }

  /** What a thread carries or the queue holds has no result yet and is not stranded. */
  lemma Unresolved(s: System, t: nat, a: Action)
    requires s.Running? && Conserved(s) && t < |s.threads| && Pending(s, t, a)
    ensures a !in s.sh.promises && a !in s.sh.stranded
  {
    assert Places(s, a) <= 1;
    if Carries(s.threads[t]) && s.threads[t].a == a {
      SumAtLeast(s.threads, t, Carrying(a));
    }
  }

  lemma QueuePop(q: seq<Action>)
    requires q != []
    ensures multiset(q) == multiset{q[0]} + multiset(q[1..])
  {
    assert q == [q[0]] + q[1..];
  }

  // ---- The shape of a step ----

  /** The thread that takes a step. */
  function Actor(step: Step): nat {
    match step
    case Begin(t, _) => t
    case Deliver(_, _) => 0
    case Advance(t) => t
  }

  /** How a mutex changes owner when thread t goes from holding it or not to holding it or not. */
  predicate MutexMoved(before: Option<nat>, after: Option<nat>, t: nat, held: bool, holds: bool) {
    if held == holds then after == before
    else if holds then before.None? && after == Some(t)
    else after.None?
  }

  /** A step moves one thread and passes the mutexes on accordingly. */
  lemma StepShape(s: System, step: Step)
    requires Enabled(s, step)
    ensures var s' := Apply(s, step); var t := Actor(step);
      s'.Running? ==>
        && t < |s.threads| && |s'.threads| == |s.threads|
        && s'.threads == s.threads[t := s'.threads[t]]
        && (t > 0 && SubmitterPc(s.threads[t]) ==> SubmitterPc(s'.threads[t]))
        && MutexMoved(s.actionsOwner, s'.actionsOwner, t, HoldsActions(s.threads[t]), HoldsActions(s'.threads[t]))
        && MutexMoved(s.stateOwner, s'.stateOwner, t, HoldsState(s.threads[t]), HoldsState(s'.threads[t]))
  {
    if step.Advance? {
      match s.threads[step.t]
      case Popped(_) =>
      case AfterReset(_, _) =>
      case Draining(_, _) =>
      case _ =>
    }
  }

  /** _state changes only in perform() and at the reset, and only the unlocked read leads to
      a perform() outside the drain loop. */
  lemma StateShape(s: System, step: Step)
    requires Enabled(s, step)
    ensures var s' := Apply(s, step); var t := Actor(step);
      s'.Running? ==>
        && s'.sh.state == (if step.Advance? && s.threads[t].Performing? then Processing
                           else if step.Advance? && s.threads[t].ResultSet? then Ready else s.sh.state)
        && (step.Advance? && s.threads[t].Performing? ==> s.sh.state == Ready)
        && (s'.threads[t].Performing? && s'.threads[t].resume.Return? ==> s.sh.state == Ready && s.threads[t].Popped?)
  {
    if step.Advance? {
      match s.threads[step.t]
      case Popped(_) =>
      case AfterReset(_, _) =>
      case Draining(_, _) =>
      case _ =>
    }
  }

  lemma CompleterOnly(s: System, t: nat)
    requires s.Running? && Roles(s) && t < |s.threads| && !SubmitterPc(s.threads[t])
    ensures t == 0
  {
  }

  // ---- Every step keeps each piece ----

  lemma RolesStep(s: System, step: Step)
    requires Enabled(s, step) && Roles(s)
    ensures var s' := Apply(s, step); s'.Running? ==> Roles(s')
  {
    StepShape(s, step);
    if step.Advance? && step.t > 0 { assert SubmitterPc(s.threads[step.t]); }
  }

  lemma LocksStep(s: System, step: Step)
    requires Enabled(s, step) && Locks(s)
    ensures var s' := Apply(s, step); s'.Running? ==> Locks(s')
  {
    StepShape(s, step);
  }

  lemma ReadIsSoundStep(s: System, step: Step)
    requires Enabled(s, step) && Roles(s) && Locks(s) && ReadIsSound(s)
    ensures var s' := Apply(s, step); s'.Running? ==> ReadIsSound(s')
  {
    StepShape(s, step);
    StateShape(s, step);
  }

  /** Operations start in perform() and leave when the completion queue returns them. */
  lemma OperationShape(s: System, step: Step)
    requires Enabled(s, step)
    ensures var s' := Apply(s, step); var t := Actor(step);
      s'.Running? ==>
        && t < |s.threads|
        && s'.sh.outstanding == (if step.Deliver? then s.sh.outstanding - multiset{step.a}
                                 else if s.threads[t].Performing? then s.sh.outstanding + multiset{s.threads[t].a}
                                 else s.sh.outstanding)
        && s'.sh.wire == (if step.Advance? && s.threads[t].Performing? then s.sh.wire + [s.threads[t].a] else s.sh.wire)
  {
    if step.Advance? {
      match s.threads[step.t]
      case Popped(_) =>
      case AfterReset(_, _) =>
      case Draining(_, _) =>
      case _ =>
    }
  }

  /** A returned operation goes through WantFinalize and ResultSet. */
  lemma ReturnShape(s: System, step: Step)
    requires Enabled(s, step)
    ensures var s' := Apply(s, step); var t := Actor(step);
      s'.Running? ==>
        && t < |s.threads| && t < |s'.threads|
        && (s'.threads[t].WantFinalize? <==> step.Deliver?)
        && (s'.threads[t].WantFinalize? && step.Deliver? ==> s'.threads[t].a == step.a)
        && (s'.threads[t].ResultSet? <==> step.Advance? && s.threads[t].WantFinalize?)
  {
  }

  lemma SingleFlightStep(s: System, step: Step)
    requires Enabled(s, step) && Roles(s) && SingleFlight(s)
    ensures var s' := Apply(s, step); s'.Running? ==> SingleFlight(s')
  {
    StepShape(s, step);
    OperationShape(s, step);
    ReturnShape(s, step);
    StateShape(s, step);
    if step.Advance? && step.t > 0 { assert SubmitterPc(s.threads[step.t]); }
  }

  lemma NumberedStep(s: System, step: Step)
    requires Enabled(s, step) && Numbered(s)
    ensures var s' := Apply(s, step); s'.Running? ==> Numbered(s')
  {
  }

  lemma ResultKnownStep(s: System, step: Step)
    requires Enabled(s, step) && ResultKnown(s)
    ensures var s' := Apply(s, step); s'.Running? ==> ResultKnown(s')
  {
    StepShape(s, step);
    var s', t := Apply(s, step), Actor(step);
    if s'.Running? {
      PromisesGrow(s, step);
    }
  }

  /** A completed promise keeps its outcome. */
  lemma PromisesGrow(s: System, step: Step)
    requires Enabled(s, step)
    ensures var s' := Apply(s, step); s'.Running? ==>
      forall a :: a in s.sh.promises ==> a in s'.sh.promises && s'.sh.promises[a] == s.sh.promises[a]
  {
    if step.Advance? {
      match s.threads[step.t]
      case Popped(_) =>
      case AfterReset(_, _) =>
      case Draining(_, _) =>
      case _ =>
    }
  }

  /** The queue grows only when its pusher turns into a half-done submission, and a submitter that
      is no longer one has taken an element or found none. */
  lemma QueueShape(s: System, step: Step)
    requires Enabled(s, step)
    ensures var s' := Apply(s, step); var t := Actor(step);
      s'.Running? ==>
        && t < |s.threads| && t < |s'.threads|
        && (|s'.sh.queue| == 0 ||
            |s'.sh.queue| + HalfSubmitted(s.threads[t]) <= |s.sh.queue| + HalfSubmitted(s'.threads[t]))
  {
    if step.Advance? {
      match s.threads[step.t]
      case Popped(_) =>
      case AfterReset(_, _) =>
      case Draining(_, _) =>
      case _ =>
    }
  }

  lemma BoundedStep(s: System, step: Step)
    requires Enabled(s, step) && Bounded(s)
    ensures var s' := Apply(s, step); s'.Running? ==> Bounded(s')
  {
    StepShape(s, step);
    QueueShape(s, step);
    var s', t := Apply(s, step), Actor(step);
    if s'.Running? {
      SumUpdate(s.threads, t, s'.threads[t], HalfSubmitted);
    }
  }

  /** A step of thread t moves action a from one place to another; only newAction makes one. */
  predicate PlaceKept(s: System, s': System, t: nat, a: Action)
    requires s.Running? && t < |s.threads|
  {
    s'.Running? ==>
      && t < |s'.threads|
      && Settled(s'.sh, a) + Carrying(a)(s'.threads[t]) + Tally(Created(s, a)) ==
         Settled(s.sh, a) + Carrying(a)(s.threads[t]) + Tally(Created(s', a))
  }

  predicate NotDone(sh: Shared, a: Action) { a !in sh.promises && a !in sh.stranded }

  lemma PlaceOfNew(s: System, t: nat, op: Op, a: Action)
    requires s.Running? && t < |s.threads| && !Carries(s.threads[t])
    ensures PlaceKept(s, NewAction(s, t, op), t, a)
  {
  }

  lemma SettledByPop(sh: Shared, a: Action)
    requires sh.queue != []
    ensures Settled(Pop(sh), a) + Tally(a == sh.queue[0]) == Settled(sh, a)
  {
    QueuePop(sh.queue);
  }

  lemma PlaceOfPush(s: System, t: nat, a: Action)
    requires Enabled(s, Advance(t)) && (s.threads[t].WantPush? || s.threads[t].WantTry?)
    ensures PlaceKept(s, AdvanceThread(s, t), t, a)
  {
    if s.threads[t].WantTry? && s.sh.queue != [] { SettledByPop(s.sh, a); }
  }

  lemma SettledByDone(sh: Shared, b: Action, a: Action, outcome: Outcome)
    requires a == b ==> NotDone(sh, a)
    ensures Settled(Strand(sh, b), a) == Settled(sh, a) + Tally(a == b)
    ensures b !in sh.promises ==> Settled(Complete(sh, b, outcome), a) == Settled(sh, a) + Tally(a == b)
  {
  }

  lemma PlaceOfRead(s: System, t: nat, a: Action)
    requires Enabled(s, Advance(t)) && s.threads[t].Popped? && (a == s.threads[t].a ==> NotDone(s.sh, a))
    ensures PlaceKept(s, AdvanceThread(s, t), t, a)
  {
    SettledByDone(s.sh, s.threads[t].a, a, Rejected(StreamFinished));
    match s.sh.state
    case Ready =>
    case Processing =>
    case Finished =>
  }

  lemma PlaceOfPerform(s: System, t: nat, a: Action)
    requires Enabled(s, Advance(t)) && s.threads[t].Performing?
    ensures PlaceKept(s, AdvanceThread(s, t), t, a)
  {
    if s.sh.state == Ready {
      var sh := Perform(s.sh, s.threads[t].a);
      assert Settled(sh, a) == Settled(s.sh, a) + Tally(a == s.threads[t].a);
      match s.threads[t].resume
      case Return =>
      case Loop(_, _) =>
    }
  }

  lemma PlaceOfFinalize(s: System, t: nat, a: Action)
    requires Enabled(s, Advance(t)) && (s.threads[t].WantFinalize? || s.threads[t].ResultSet?)
    ensures PlaceKept(s, AdvanceThread(s, t), t, a)
  {
  }

  lemma SettledByReject(sh: Shared, a: Action, reason: Reason)
    requires sh.queue != [] && sh.queue[0] !in sh.promises
    ensures Settled(Complete(Pop(sh), sh.queue[0], Rejected(reason)), a) == Settled(sh, a)
  {
    QueuePop(sh.queue);
  }

  lemma PlaceOfDrain(s: System, t: nat, a: Action)
    requires Enabled(s, Advance(t)) && s.threads[t].Draining? && (a in s.sh.queue ==> NotDone(s.sh, a))
    ensures PlaceKept(s, DrainIteration(s, t, s.threads[t].last, s.threads[t].finishPerformed), t, a)
  {
    if s.sh.queue != [] {
      var last, fin := s.threads[t].last, s.threads[t].finishPerformed;
      var b := s.sh.queue[0];
      match LoopVerdict(b.op, last, fin)
      case None => SettledByPop(s.sh, a);
      case Some(reason) => if b !in s.sh.promises { SettledByReject(s.sh, a, reason); }
    }
  }

  lemma PlaceAdvance(s: System, t: nat, a: Action)
    requires Enabled(s, Advance(t))
    requires Pending(s, t, a) ==> NotDone(s.sh, a)
    ensures PlaceKept(s, AdvanceThread(s, t), t, a)
  {
    match s.threads[t]
    case WantPush(b) => PlaceOfPush(s, t, a);
    case WantTry => PlaceOfPush(s, t, a);
    case Popped(b) => PlaceOfRead(s, t, a);
    case Performing(b, _) => PlaceOfPerform(s, t, a);
    case WantFinalize(b, ok) => PlaceOfFinalize(s, t, a);
    case ResultSet(b, ok) => PlaceOfFinalize(s, t, a);
    case AfterReset(b, ok) => PlaceOfNew(s, t, Finish, a);
    case Draining(last, fin) => PlaceOfDrain(s, t, a);
  }

  lemma PlaceStep(s: System, step: Step, a: Action)
    requires Enabled(s, step) && Actor(step) < |s.threads|
    requires Pending(s, Actor(step), a) ==> NotDone(s.sh, a)
    ensures PlaceKept(s, Apply(s, step), Actor(step), a)
  {
    match step
    case Begin(t, op) => PlaceOfNew(s, t, op, a);
    case Deliver(b, ok) =>
    case Advance(t) => PlaceAdvance(s, t, a);
  }

  lemma PlacesStep(s: System, step: Step, a: Action)
    requires Enabled(s, step) && Conserved(s)
    ensures var s' := Apply(s, step); s'.Running? ==> Places(s', a) == Tally(Created(s', a))
  {
    StepShape(s, step);
    var s', t := Apply(s, step), Actor(step);
    if s'.Running? {
      assert Places(s, a) == Tally(Created(s, a));
      if Pending(s, t, a) { Unresolved(s, t, a); }
      PlaceStep(s, step, a);
      SumUpdate(s.threads, t, s'.threads[t], Carrying(a));
    }
  }

  lemma ConservedStep(s: System, step: Step)
    requires Enabled(s, step) && Conserved(s)
    ensures var s' := Apply(s, step); s'.Running? ==> Conserved(s')
  {
    var s' := Apply(s, step);
    if s'.Running? {
      forall a ensures Places(s', a) == Tally(Created(s', a)) { PlacesStep(s, step, a); }
    }
  }

  /** Only finalizeResult resolves an action. */
  lemma ResolvedShape(s: System, step: Step, a: Action)
    requires Enabled(s, step)
    ensures var s' := Apply(s, step);
      s'.Running? ==> (Resolved(s'.sh, a) <==>
        Resolved(s.sh, a) || (step.Advance? && s.threads[step.t].WantFinalize? && s.threads[step.t].a == a))
    ensures step.Advance? && s.threads[step.t].WantFinalize? && Apply(s, step).Running? ==>
      s.threads[step.t].a !in s.sh.promises
  {
    if step.Advance? {
      match s.threads[step.t]
      case Popped(_) =>
      case AfterReset(_, _) =>
      case Draining(_, _) =>
      case _ =>
    }
  }

  lemma AccountedFor(s: System, step: Step, a: Action)
    requires Enabled(s, step) && Roles(s) && Accounted(s) && Apply(s, step).Running?
    ensures var s' := Apply(s, step);
      && |s'.threads| > 0
      && multiset(s'.sh.wire)[a] ==
         s'.sh.outstanding[a] + Tally(s'.threads[0].WantFinalize? && s'.threads[0].a == a) + Tally(Resolved(s'.sh, a))
  {
    StepShape(s, step);
    OperationShape(s, step);
    ReturnShape(s, step);
    ResolvedShape(s, step, a);
    if step.Advance? && step.t > 0 { assert SubmitterPc(s.threads[step.t]); }
  }

  lemma AccountedStep(s: System, step: Step)
    requires Enabled(s, step) && Roles(s) && Accounted(s)
    ensures var s' := Apply(s, step); s'.Running? ==> |s'.threads| > 0 && Accounted(s')
  {
    var s' := Apply(s, step);
    if s'.Running? {
      StepShape(s, step);
      forall a ensures multiset(s'.sh.wire)[a] ==
        s'.sh.outstanding[a] + Tally(s'.threads[0].WantFinalize? && s'.threads[0].a == a) + Tally(Resolved(s'.sh, a))
      {
        AccountedFor(s, step, a);
      }
    }
  }

  /** Whether thread t is about to take an action out of the queue. */
  predicate Pops(s: System, step: Step)
    requires Enabled(s, step) && Actor(step) < |s.threads|
  {
    step.Advance? && s.sh.queue != [] && (s.threads[step.t].WantTry? || s.threads[step.t].Draining?)
  }

  /** What a step does to the queue and its history, and to the action its thread is trying. */
  lemma SequenceShape(s: System, step: Step)
    requires Enabled(s, step) && Actor(step) < |s.threads|
    ensures var s' := Apply(s, step); var pc := s.threads[Actor(step)];
      s'.Running? ==>
        && Actor(step) < |s'.threads|
        && s'.sh.pushed == (if pc.WantPush? then s.sh.pushed + [pc.a] else s.sh.pushed)
        && s'.sh.popped == (if Pops(s, step) then s.sh.popped + [s.sh.queue[0]] else s.sh.popped)
        && s'.sh.queue == (if pc.WantPush? then s.sh.queue + [pc.a]
                           else if Pops(s, step) then s.sh.queue[1..] else s.sh.queue)
  {
    if step.Advance? {
      match s.threads[step.t]
      case Popped(_) =>
      case AfterReset(_, _) =>
      case Draining(_, _) =>
      case _ =>
    }
  }

  lemma TriedAfter(s: System, step: Step)
    requires Enabled(s, step) && Actor(step) < |s.threads|
    ensures var s' := Apply(s, step); var pc := s.threads[Actor(step)];
      s'.Running? ==>
        && Actor(step) < |s'.threads|
        && var tried := TriedBy(s'.threads[Actor(step)]);
           tried == [] || (Pops(s, step) && tried == [s.sh.queue[0]]) || (pc.Popped? && tried == TriedBy(pc))
  {
    if step.Advance? {
      match s.threads[step.t]
      case Popped(_) =>
      case AfterReset(_, _) =>
      case Draining(_, _) =>
      case _ =>
    }
  }

  /** Only the owner of _actionsMutex tries an action. */
  lemma TriedShape(s: System, step: Step)
    requires Enabled(s, step) && Locks(s) && Apply(s, step).Running?
    ensures var s' := Apply(s, step); var t := Actor(step);
      && t < |s.threads| && t < |s'.threads|
      && if HoldsActions(s.threads[t]) || HoldsActions(s'.threads[t])
         then Tried(s) == TriedBy(s.threads[t]) && Tried(s') == TriedBy(s'.threads[t])
         else Tried(s') == Tried(s)
  {
    StepShape(s, step);
  }

  lemma HistoryStep(s: System, step: Step)
    requires Enabled(s, step) && Apply(s, step).Running? && Actor(step) < |s.threads|
    requires s.sh.popped + s.sh.queue == s.sh.pushed
    ensures var sh' := Apply(s, step).sh; sh'.popped + sh'.queue == sh'.pushed
  {
    SequenceShape(s, step);
  }

  lemma OrderedStep(s: System, step: Step)
    requires Enabled(s, step) && Locks(s) && Ordered(s)
    ensures var s' := Apply(s, step); s'.Running? ==> Ordered(s')
  {
    var s', t := Apply(s, step), Actor(step);
    if s'.Running? {
      TriedShape(s, step);
      HistoryStep(s, step);
      OperationShape(s, step);
      SequenceShape(s, step);
      TriedAfter(s, step);
      OrderKept(s.sh, Tried(s), s'.sh, Tried(s'));
    }
  }

  /** Taking an action out to try it, dropping it and performing it keep the wire in popping order. */
  lemma OrderKept(sh: Shared, tried: seq<Action>, sh': Shared, tried': seq<Action>)
    requires IsSubseq(sh.wire + tried, sh.popped) && |tried| <= 1
    requires
      || (sh'.wire == sh.wire && sh'.popped == sh.popped && (tried' == tried || tried' == []))
      || (sh'.wire == sh.wire + tried && sh'.popped == sh.popped && tried' == [])
      || (sh'.wire == sh.wire && sh.queue != [] && sh'.popped == sh.popped + [sh.queue[0]] && tried == [] &&
          (tried' == [] || tried' == [sh.queue[0]]))
    ensures IsSubseq(sh'.wire + tried', sh'.popped)
  {
    assert sh.wire + [] == sh.wire && sh'.wire + [] == sh'.wire;
    if tried != [] {
      assert tried == [tried[0]];
      SubseqDrop(sh.wire, tried[0], sh.popped);
    } else if sh'.popped != sh.popped {
      SubseqExtend(sh.wire, sh.popped, sh.queue[0]);
      SubseqSkip(sh.wire, sh.popped, sh.queue[0]);
    }
  }

  // ---- Every reachable state ----

  lemma StepKeepsInv(s: System, step: Step)
    requires Inv(s) && Enabled(s, step)
    ensures Inv(Apply(s, step))
  {
    RolesStep(s, step);
    LocksStep(s, step);
    ReadIsSoundStep(s, step);
    SingleFlightStep(s, step);
    ResultKnownStep(s, step);
    BoundedStep(s, step);
    NumberedStep(s, step);
    ConservedStep(s, step);
    AccountedStep(s, step);
    OrderedStep(s, step);
    if Apply(s, step).Aborted? { FailureStep(s, step); }
  }

  lemma FailureStep(s: System, step: Step)
    requires Inv(s) && Enabled(s, step) && Apply(s, step).Aborted?
    ensures Possible(Apply(s, step).why)
  {
    var t := Actor(step);
    match s.threads[t]
    case Popped(a) => Unresolved(s, t, a);
    case WantFinalize(a, ok) => Unresolved(s, t, a);
    case Draining(last, fin) => if s.sh.queue != [] { Unresolved(s, t, s.sh.queue[0]); }
    case _ =>
  }

  lemma InitInv(submitters: nat)
    ensures Inv(Init(submitters))
  {
    var s := Init(submitters);
    forall a ensures SumOf(s.threads, Carrying(a)) == 0 { SumZero(s.threads, Carrying(a)); }
  }

  lemma {:induction false} RunKeepsInv(s: System, steps: seq<Step>)
    requires Inv(s) && IsRun(s, steps)
    ensures Inv(Exec(s, steps))
    decreases |steps|
  {
    if steps != [] {
      StepKeepsInv(s, steps[0]);
      RunKeepsInv(Apply(s, steps[0]), steps[1..]);
    }
  }

  lemma ReachableInv(submitters: nat, s: System)
    requires Reachable(submitters, s)
    ensures Inv(s)
  {
    var steps :| IsRun(Init(submitters), steps) && Exec(Init(submitters), steps) == s;
    InitInv(submitters);
    RunKeepsInv(Init(submitters), steps);
  }
}
