/** When the writer does what its comments promise: if every action is submitted only after the
    previous one went through the reset to Ready with ok, nothing fails, nothing is stranded and
    the stream gets exactly the submitted operations, whatever the interleaving. */
module StreamWriterDiscipline {
  import opened Common
  import opened StreamWriter
  import opened StreamWriterInvariant
  import opened StreamWriterTheorems

  /** Nothing follows a Finish, and only a Finish follows a last message. */
  predicate MayFollow(previous: Op, op: Op) {
    previous.Write? && (previous.last ==> op.Finish?)
  }

  /** What a caller checks before submitting: the last action is a write that has been reset with
      ok, and after a last message only finish() may follow. */
  predicate MaySubmit(s: System, op: Op)
    requires s.Running?
  {
    s.created == [] ||
    var previous := s.created[|s.created| - 1];
    && previous in s.sh.promises && s.sh.promises[previous] == Value(true) && s.sh.state == Ready
    && MayFollow(previous.op, op)
  }

  /** Submissions follow MaySubmit, and gRPC keeps its promise that a Finish comes back ok. */
  predicate Disciplined(s: System, step: Step)
    requires s.Running?
  {
    match step
    case Begin(_, op) => MaySubmit(s, op)
    case Deliver(a, ok) => a.op.Finish? ==> ok
    case Advance(_) => true
  }

  predicate DisciplinedRun(s: System, steps: seq<Step>)
    decreases |steps|
  {
    steps == [] ||
    (Enabled(s, steps[0]) && Disciplined(s, steps[0]) && DisciplinedRun(Apply(s, steps[0]), steps[1..]))
  }

  // ---- What a disciplined run keeps ----

  /** All actions but the latest are done; the latest is on the wire or nothing is under way. */
  ghost predicate Sequential(s: System)
    requires s.Running?
  {
    var n, m := |s.created|, |s.sh.wire|;
    && m <= n <= m + 1
    && s.sh.wire == s.created[..m]
    && (m < n || n == 0 ==> s.sh.state == Ready)
    && forall i :: 0 <= i < n - 1 ==> Followed(s, i)
  }

  /** Action i is a write that was completed, and the action after it may follow it. */
  predicate Followed(s: System, i: nat)
    requires s.Running? && i + 1 < |s.created|
  {
    var a, next := s.created[i], s.created[i + 1];
    && a.op.Write? && a in s.sh.promises && s.sh.promises[a].Value?
    && (!s.sh.promises[a].ok ==> next.op.Finish? && i + 2 == |s.created|)
    && (a.op.last ==> next.op.Finish?)
  }

  ghost predicate Clean(s: System)
    requires s.Running?
  {
    s.sh.stranded == {} && forall a :: a in s.sh.promises ==> s.sh.promises[a].Value?
  }

  predicate IsLatest(s: System, a: Action)
    requires s.Running?
  {
    |s.created| > 0 && a == s.created[|s.created| - 1]
  }

  /** The write whose completion is being handled: the latest, or the one before it when the
      latest is not on the wire yet. While an operation is under way it does not matter. */
  predicate Handled(s: System, last: bool)
    requires s.Running?
  {
    var n, m := |s.created|, |s.sh.wire|;
    s.sh.state == Ready ==> 0 < m <= n && s.created[m - 1].op.Write? && s.created[m - 1].op.last == last
  }

  ghost predicate CompleterInStep(s: System)
    requires s.Running? && |s.threads| > 0
  {
    match s.threads[0]
    case WantFinalize(a, ok) => a.op.Finish? ==> ok
    case ResultSet(a, ok) => IsLatest(s, a) && s.sh.wire == s.created && (a.op.Finish? ==> ok)
    case AfterReset(a, ok) =>
      if a.op.Write? && ok then Handled(s, a.op.last)
      else IsLatest(s, a) && s.sh.wire == s.created && s.sh.state == Ready && (a.op.Finish? ==> ok)
    case Draining(last, fin) => Handled(s, last) && (s.sh.state == Ready ==> !fin)
    case Performing(a, resume) =>
      resume.Loop? ==> Handled(s, resume.last) && (s.sh.state == Ready ==> !resume.finishPerformed)
    case _ => true
  }

  /** The response is set exactly when the Finish has gone through onFinished. */
  ghost predicate ResponseInStep(s: System)
    requires s.Running? && |s.threads| > 0
  {
    s.sh.responseSet <==>
      && |s.created| > 0
      && var a := s.created[|s.created| - 1];
      && a.op.Finish? && a in s.sh.promises
      && !AtResult(s, a)
  }

  /** A failed write is the latest action only until the completion thread has submitted its Finish. */
  ghost predicate FailureInStep(s: System)
    requires s.Running? && |s.threads| > 0
  {
    |s.created| > 0 ==>
      var a := s.created[|s.created| - 1];
      a.op.Write? && a in s.sh.promises && s.sh.promises[a] == Value(false) ==> AtResult(s, a)
  }

  ghost predicate InStep(s: System) {
    && s.Running? && RunInv(s)
    && Sequential(s) && Clean(s) && CompleterInStep(s) && ResponseInStep(s) && FailureInStep(s)
  }

  // ---- Where the latest action is ----

  lemma EarlierDone(s: System, i: nat)
    requires s.Running? && Sequential(s) && i < |s.created|
    ensures i < |s.created| - 1 ==> s.created[i] in s.sh.promises
  {
    assert i < |s.created| - 1 ==> Followed(s, i);
  }

  /** What waits to be performed is the latest action, and it is not on the wire. */
  lemma PendingIsLatest(s: System, t: nat, a: Action)
    requires InStep(s) && t < |s.threads|
    requires (Carries(s.threads[t]) && !s.threads[t].WantFinalize? && s.threads[t].a == a) || a in s.sh.queue
    ensures IsLatest(s, a) && |s.sh.wire| == |s.created| - 1
  {
    assert Places(s, a) == Tally(Created(s, a));
    assert Pending(s, t, a);
    Unresolved(s, t, a);
    if Carries(s.threads[t]) && s.threads[t].a == a { SumAtLeast(s.threads, t, Carrying(a)); }
    assert a == s.created[a.id];
    EarlierDone(s, a.id);
    if |s.sh.wire| == |s.created| {
      assert a in s.sh.wire;
      assert multiset(s.sh.wire)[a] > 0;
      if s.threads[0].WantFinalize? && s.threads[0].a == a {
        SumAtLeast(s.threads, 0, Carrying(a));
        if t > 0 && Carries(s.threads[t]) && s.threads[t].a == a { SumAtLeastTwo(s.threads, 0, t, Carrying(a)); }
      }
    }
  }

  /** What is under way is the latest action, and it is the last on the wire. */
  lemma UnderWayIsLatest(s: System, a: Action)
    requires InStep(s)
    requires a in s.sh.outstanding || (s.threads[0].WantFinalize? && s.threads[0].a == a)
    ensures IsLatest(s, a) && s.sh.wire == s.created && s.sh.state == Processing
  {
    assert Places(s, a) == Tally(Created(s, a));
    if s.threads[0].WantFinalize? && s.threads[0].a == a { SumAtLeast(s.threads, 0, Carrying(a)); }
    assert a == s.created[a.id];
    if a in s.sh.outstanding { assert |s.sh.outstanding| > 0; }
    EarlierDone(s, a.id);
  }

  /** A resolved action is on the wire. */
  lemma ResolvedOnWire(s: System)
    requires InStep(s) && |s.created| > 0 && s.created[|s.created| - 1] in s.sh.promises
    ensures s.sh.wire == s.created
  {
    var a := s.created[|s.created| - 1];
    assert Resolved(s.sh, a);
    assert multiset(s.sh.wire)[a] > 0;
    assert a in s.sh.wire;
  }

  // ---- Every disciplined step keeps it ----

  /** Performing the latest action and completing promises keep the order. */
  lemma SequentialKept(s: System, s': System)
    requires s.Running? && s'.Running? && Sequential(s) && s'.created == s.created
    requires s'.sh.wire == s.sh.wire || s'.sh.wire == s.created
    requires |s'.sh.wire| < |s.created| || s.created == [] ==> s'.sh.state == Ready
    requires forall a :: a in s.sh.promises ==> a in s'.sh.promises && s'.sh.promises[a] == s.sh.promises[a]
    ensures Sequential(s')
  {
    assert s.created[..|s.created|] == s.created;
    assert forall i :: 0 <= i < |s.created| - 1 && Followed(s, i) ==> Followed(s', i);
  }

  ghost predicate StillInStep(s: System) {
    s.Running? && |s.threads| > 0 && Sequential(s) && Clean(s) && CompleterInStep(s) && ResponseInStep(s)
  }

  /** An action that has not been created has no result. */
  lemma NotYetResolved(s: System, a: Action)
    requires s.Running? && Conserved(s) && a.id >= |s.created|
    ensures a !in s.sh.promises
  {
    assert Places(s, a) == Tally(Created(s, a));
  }

  lemma NewActionInStep(s: System, t: nat, op: Op)
    requires StillInStep(s) && SingleFlight(s) && Conserved(s) && ResultKnown(s)
    requires t < |s.threads| && s.sh.wire == s.created && s.sh.state == Ready
    requires s.threads[t].Idle? || (t == 0 && s.threads[t].AfterReset? && !s.threads[t].ok)
    requires |s.created| > 0 ==>
      var a := s.created[|s.created| - 1];
      && a.op.Write? && a in s.sh.promises && (a.op.last ==> op.Finish?)
      && (!s.sh.promises[a].ok ==> op.Finish? && t == 0)
    ensures StillInStep(NewAction(s, t, op))
  {
    var s' := NewAction(s, t, op);
    forall i | 0 <= i < |s'.created| - 1 ensures Followed(s', i) {
      if i < |s.created| - 1 { assert Followed(s, i); }
    }
    NotYetResolved(s, Action(|s.created|, op));
  }

  lemma BeginInStep(s: System, t: nat, op: Op)
    requires InStep(s) && Enabled(s, Begin(t, op)) && MaySubmit(s, op)
    ensures StillInStep(Apply(s, Begin(t, op)))
  {
    if s.created != [] { ResolvedOnWire(s); }
    NewActionInStep(s, t, op);
  }

  lemma DeliverInStep(s: System, a: Action, ok: bool)
    requires InStep(s) && Enabled(s, Deliver(a, ok)) && (a.op.Finish? ==> ok)
    ensures StillInStep(Apply(s, Deliver(a, ok)))
  {
    var s' := Apply(s, Deliver(a, ok));
    SequentialKept(s, s');
  }

  /** Thread t moved, and at most the queue, the wire, the state and the mutexes changed with it. */
  ghost predicate OneMoved(s: System, s': System, t: nat) {
    && s.Running? && s'.Running? && t < |s.threads| == |s'.threads| && s'.threads == s.threads[t := s'.threads[t]]
    && s'.created == s.created && s'.sh.promises == s.sh.promises
    && s'.sh.stranded == s.sh.stranded && s'.sh.responseSet == s.sh.responseSet
  }

  lemma SubmissionInStep(s: System, s': System, t: nat)
    requires StillInStep(s) && OneMoved(s, s', t) && s'.sh.wire == s.sh.wire && s'.sh.state == s.sh.state
    requires SubmitterPc(s.threads[t]) && SubmitterPc(s'.threads[t])
    ensures StillInStep(s')
  {
    SequentialKept(s, s');
  }

  lemma PerformanceInStep(s: System, s': System, t: nat)
    requires StillInStep(s) && OneMoved(s, s', t) && s.threads[t].Performing?
    requires |s.sh.wire| < |s.created| && s'.sh.wire == s.created && s'.sh.state == Processing
    requires s'.threads[t].Idle? || s'.threads[t].Draining?
    ensures StillInStep(s')
  {
    SequentialKept(s, s');
  }

  lemma PushInStep(s: System, t: nat)
    requires StillInStep(s) && Enabled(s, Advance(t)) && s.threads[t].WantPush?
    ensures StillInStep(Apply(s, Advance(t)))
  {
    SubmissionInStep(s, Apply(s, Advance(t)), t);
  }

  lemma TryInStep(s: System, t: nat)
    requires StillInStep(s) && Enabled(s, Advance(t)) && s.threads[t].WantTry?
    ensures StillInStep(Apply(s, Advance(t)))
  {
    SubmissionInStep(s, Apply(s, Advance(t)), t);
  }

  lemma ReadInStep(s: System, t: nat)
    requires InStep(s) && Enabled(s, Advance(t)) && s.threads[t].Popped?
    ensures StillInStep(Apply(s, Advance(t)))
  {
    PendingIsLatest(s, t, s.threads[t].a);
    SubmissionInStep(s, Apply(s, Advance(t)), t);
  }

  lemma PerformInStep(s: System, t: nat)
    requires InStep(s) && Enabled(s, Advance(t)) && s.threads[t].Performing?
    ensures StillInStep(Apply(s, Advance(t)))
  {
    PendingIsLatest(s, t, s.threads[t].a);
    PerformanceInStep(s, Apply(s, Advance(t)), t);
  }

  lemma SetResultInStep(s: System, t: nat)
    requires InStep(s) && Enabled(s, Advance(t)) && s.threads[t].WantFinalize?
    ensures StillInStep(Apply(s, Advance(t)))
  {
    CompleterOnly(s, t);
    var s', a := Apply(s, Advance(t)), s.threads[t].a;
    UnderWayIsLatest(s, a);
    Unresolved(s, t, a);
    SequentialKept(s, s');
  }

  lemma ResetInStep(s: System, t: nat)
    requires InStep(s) && Enabled(s, Advance(t)) && s.threads[t].ResultSet?
    ensures StillInStep(Apply(s, Advance(t)))
  {
    CompleterOnly(s, t);
    var s' := Apply(s, Advance(t));
    SequentialKept(s, s');
  }

  lemma FinalizeInStep(s: System, t: nat)
    requires InStep(s) && Enabled(s, Advance(t)) && s.threads[t].AfterReset?
    ensures StillInStep(Apply(s, Advance(t)))
  {
    CompleterOnly(s, t);
    var pc := s.threads[t];
    if pc.a.op.Write? && !pc.ok {
      NewActionInStep(s, t, Finish);
    } else {
      var s' := Apply(s, Advance(t));
      SequentialKept(s, s');
    }
  }

  /** Whatever the loop finds, it performs. */
  lemma LoopTakesLatest(s: System)
    requires InStep(s) && s.threads[0].Draining? && s.sh.queue != []
    ensures LoopVerdict(s.sh.queue[0].op, s.threads[0].last, s.threads[0].finishPerformed).None?
  {
    PendingIsLatest(s, 0, s.sh.queue[0]);
    assert Followed(s, |s.created| - 2);
  }

  lemma DrainInStep(s: System, t: nat)
    requires InStep(s) && Enabled(s, Advance(t)) && s.threads[t].Draining?
    ensures StillInStep(Apply(s, Advance(t)))
  {
    CompleterOnly(s, t);
    var s' := Apply(s, Advance(t));
    if s.sh.queue != [] {
      var a, last, fin := s.sh.queue[0], s.threads[t].last, s.threads[t].finishPerformed;
      LoopTakesLatest(s);
      assert s' == Goto(s.(sh := Pop(s.sh)), t, Performing(a, Loop(last, fin)));
    } else {
      assert s' == Goto(s.(actionsOwner := None), t, Idle);
    }
    SequentialKept(s, s');
  }

  /** The step in which the completion thread submits a Finish after a failed write. */
  predicate MakesFinish(s: System, step: Step) {
    Enabled(s, step) && step.Advance? && s.threads[step.t].AfterReset? &&
    s.threads[step.t].a.op.Write? && !s.threads[step.t].ok
  }

  lemma CreatedShape(s: System, step: Step)
    requires Enabled(s, step) && Apply(s, step).Running?
    ensures Apply(s, step).created == s.created +
      if step.Begin? then [Action(|s.created|, step.op)]
      else if MakesFinish(s, step) then [Action(|s.created|, Finish)] else []
  {
  }

  lemma NewIsUnresolved(s: System, step: Step)
    requires Enabled(s, step) && Apply(s, step).Running? && Conserved(s) && (step.Begin? || MakesFinish(s, step))
    ensures |Apply(s, step).created| == |s.created| + 1
    ensures Apply(s, step).created[|s.created|] !in Apply(s, step).sh.promises
  {
    NotYetResolved(s, Action(|s.created|, if step.Begin? then step.op else Finish));
  }

  lemma FailureStaysInStep(s: System, step: Step)
    requires s.Running? && |s.threads| > 0 && Roles(s) && ResultKnown(s) && Conserved(s) && FailureInStep(s)
    requires Enabled(s, step) && Apply(s, step).Running?
    ensures |Apply(s, step).threads| > 0 && FailureInStep(Apply(s, step))
  {
    StepShape(s, step);
    CreatedShape(s, step);
    if step.Begin? || MakesFinish(s, step) {
      NewIsUnresolved(s, step);
    } else if s.created != [] && s.created[|s.created| - 1].op.Write? {
      AtResultStep(s, step, s.created[|s.created| - 1]);
    }
  }

  /** Only the completion thread itself leaves the finalizer of a write that failed, and then it
      creates a Finish. */
  lemma AtResultStep(s: System, step: Step, a: Action)
    requires s.Running? && |s.threads| > 0 && Roles(s) && ResultKnown(s) && a.op.Write?
    requires Enabled(s, step) && Apply(s, step).Running? && !step.Begin? && !MakesFinish(s, step)
    requires a in s.sh.promises && s.sh.promises[a] == Value(false) ==> AtResult(s, a)
    ensures var s' := Apply(s, step);
      |s'.threads| > 0 && (a in s'.sh.promises && s'.sh.promises[a] == Value(false) ==> AtResult(s', a))
  {
    StepShape(s, step);
    PromisesGrow(s, step);
    ResolvedShape(s, step, a);
    if step.Advance? && step.t > 0 { assert SubmitterPc(s.threads[step.t]); }
  }

  lemma DisciplinedStep(s: System, step: Step)
    requires InStep(s) && Enabled(s, step) && Disciplined(s, step)
    ensures InStep(Apply(s, step))
  {
    StepKeepsInv(s, step);
    StepInStep(s, step);
    FailureStaysInStep(s, step);
  }

  lemma StepInStep(s: System, step: Step)
    requires InStep(s) && Enabled(s, step) && Disciplined(s, step)
    ensures StillInStep(Apply(s, step))
  {
    match step
    case Begin(t, op) => BeginInStep(s, t, op);
    case Deliver(a, ok) => DeliverInStep(s, a, ok);
    case Advance(t) =>
      match s.threads[t]
      case WantPush(a) => PushInStep(s, t);
      case WantTry => TryInStep(s, t);
      case Popped(a) => ReadInStep(s, t);
      case Performing(a, resume) => PerformInStep(s, t);
      case WantFinalize(a, ok) => SetResultInStep(s, t);
      case ResultSet(a, ok) => ResetInStep(s, t);
      case AfterReset(a, ok) => FinalizeInStep(s, t);
      case Draining(last, fin) => DrainInStep(s, t);
  }

  lemma {:induction false} DisciplinedRunInStep(s: System, steps: seq<Step>)
    requires InStep(s) && DisciplinedRun(s, steps)
    ensures IsRun(s, steps) && InStep(Exec(s, steps))
    decreases |steps|
  {
    if steps != [] {
      DisciplinedStep(s, steps[0]);
      DisciplinedRunInStep(Apply(s, steps[0]), steps[1..]);
    }
  }

  lemma InitInStep(submitters: nat)
    ensures InStep(Init(submitters))
  {
    InitInv(submitters);
  }

  // ---- What the caller gets ----

  /** The operations submitted by the callers, in order. */
  function Submitted(steps: seq<Step>): seq<Op>
    decreases |steps|
  {
    if steps == [] then []
    else (if steps[0].Begin? then [steps[0].op] else []) + Submitted(steps[1..])
  }

  function Ops(actions: seq<Action>): seq<Op> {
    seq(|actions|, i requires 0 <= i < |actions| => actions[i].op)
  }

  /** The latest action is the Finish that the completion thread submitted after a failed write. */
  predicate AutoFinished(s: System)
    requires s.Running?
  {
    var n := |s.created|;
    n >= 2 && s.created[n - 2] in s.sh.promises && s.sh.promises[s.created[n - 2]] == Value(false)
  }

  /** The Finish a failed write causes, and nothing else, is added to what was submitted. */
  function AutoFinish(s: System): seq<Op>
    requires s.Running?
  {
    if AutoFinished(s) then [Finish] else []
  }

  lemma FinishIsMadeOnce(s: System, step: Step)
    requires s.Running? && |s.threads| > 0 && Roles(s) && Sequential(s) && CompleterInStep(s) && ResultKnown(s)
    requires MakesFinish(s, step)
    ensures !AutoFinished(s) && |s.created| > 0
    ensures var a := s.created[|s.created| - 1]; a in s.sh.promises && s.sh.promises[a] == Value(false)
  {
    var n := |s.created|;
    if n >= 2 { assert Followed(s, n - 2); }
  }

  lemma NoSubmitAfterFailure(s: System, op: Op)
    requires s.Running? && Sequential(s) && MaySubmit(s, op)
    ensures !AutoFinished(s)
  {
    var n := |s.created|;
    if n >= 2 { assert Followed(s, n - 2); }
  }

  lemma AutoFinishedStep(s: System, step: Step)
    requires s.Running? && |s.threads| > 0 && Roles(s) && Sequential(s) && CompleterInStep(s) && ResultKnown(s)
    requires Enabled(s, step) && Disciplined(s, step) && Apply(s, step).Running?
    ensures AutoFinished(Apply(s, step)) <==> AutoFinished(s) || MakesFinish(s, step)
    ensures AutoFinished(s) ==> !step.Begin? && !MakesFinish(s, step)
  {
    var n, s' := |s.created|, Apply(s, step);
    CreatedShape(s, step);
    if step.Begin? {
      NoSubmitAfterFailure(s, step.op);
      if n >= 1 { PromisesGrow(s, step); }
    } else if MakesFinish(s, step) {
      FinishIsMadeOnce(s, step);
      PromisesGrow(s, step);
    } else if n >= 2 {
      assert Followed(s, n - 2);
      PromisesGrow(s, step);
    }
  }

  /** What a run adds to the created operations: the submitted ones, and the automatic Finish if
      the run is the one that makes it. */
  predicate Adds(before: seq<Op>, autoBefore: bool, submitted: seq<Op>, after: seq<Op>, autoAfter: bool) {
    if autoBefore then after == before && submitted == [] && autoAfter
    else after == before + submitted + if autoAfter then [Finish] else []
  }

  lemma AddsCons(before: seq<Op>, autoBefore: bool, step: Step, makes: bool, middle: seq<Op>,
                 submitted: seq<Op>, after: seq<Op>, autoAfter: bool)
    requires autoBefore ==> !step.Begin? && !makes
    requires middle == before + if step.Begin? then [step.op] else if makes then [Finish] else []
    requires step.Begin? ==> !makes
    requires Adds(middle, autoBefore || makes, submitted, after, autoAfter)
    ensures Adds(before, autoBefore, (if step.Begin? then [step.op] else []) + submitted, after, autoAfter)
  {
  }

  lemma {:induction false} CreatedIsSubmitted(s: System, steps: seq<Step>)
    requires InStep(s) && DisciplinedRun(s, steps) && IsRun(s, steps) && Exec(s, steps).Running?
    ensures var s' := Exec(s, steps);
      Adds(Ops(s.created), AutoFinished(s), Submitted(steps), Ops(s'.created), AutoFinished(s'))
    decreases |steps|
  {
    if steps != [] {
      var s1, s' := Apply(s, steps[0]), Exec(s, steps);
      DisciplinedStep(s, steps[0]);
      AutoFinishedStep(s, steps[0]);
      CreatedIsSubmitted(s1, steps[1..]);
      OneStepCreated(s, steps[0]);
      AddsCons(Ops(s.created), AutoFinished(s), steps[0], MakesFinish(s, steps[0]), Ops(s1.created),
               Submitted(steps[1..]), Ops(s'.created), AutoFinished(s'));
    }
  }

  lemma OneStepCreated(s: System, step: Step)
    requires Enabled(s, step) && Apply(s, step).Running?
    ensures Ops(Apply(s, step).created) == Ops(s.created) +
      if step.Begin? then [step.op] else if MakesFinish(s, step) then [Finish] else []
  {
    CreatedShape(s, step);
  }

  predicate FailedWrite(s: System, a: Action)
    requires s.Running?
  {
    a.op.Write? && a in s.sh.promises && s.sh.promises[a] == Value(false)
  }

  /** A failed write has caused its Finish, or the completion thread is about to create it. */
  lemma FailureIsAnswered(s: System, a: Action)
    requires InStep(s) && FailedWrite(s, a)
    ensures AutoFinished(s) || AtResult(s, a)
  {
    assert Places(s, a) == Tally(Created(s, a));
    if a.id < |s.created| - 1 { assert Followed(s, a.id); }
  }

  /** Everything was sent and answered in order, except for the latest action, which may be on its way,
      and the Finish after a failure, which may be about to be created. */
  ghost predicate Delivers(s: System) {
    && s.Running? && |s.threads| > 0 && Clean(s)
    && s.sh.wire <= s.created && |s.created| <= |s.sh.wire| + 1
    && (forall a :: FailedWrite(s, a) ==> AutoFinished(s) || AtResult(s, a))
    && (AutoFinished(s) ==> FailedWrite(s, s.created[|s.created| - 2]))
  }

  lemma InStepDelivers(s: System)
    requires InStep(s)
    ensures Delivers(s)
  {
    forall a | FailedWrite(s, a) ensures AutoFinished(s) || AtResult(s, a) { FailureIsAnswered(s, a); }
    if AutoFinished(s) { assert Followed(s, |s.created| - 2); }
  }

  lemma RunDelivers(submitters: nat, steps: seq<Step>)
    requires DisciplinedRun(Init(submitters), steps)
    ensures IsRun(Init(submitters), steps) && Delivers(Exec(Init(submitters), steps))
  {
    InitInStep(submitters);
    DisciplinedRunInStep(Init(submitters), steps);
    InStepDelivers(Exec(Init(submitters), steps));
  }

  lemma CreatedAlone(submitters: nat, steps: seq<Step>)
    requires DisciplinedRun(Init(submitters), steps)
    requires IsRun(Init(submitters), steps) && Exec(Init(submitters), steps).Running?
    ensures var s := Exec(Init(submitters), steps); Ops(s.created) == Submitted(steps) + AutoFinish(s)
  {
    InitInStep(submitters);
    CreatedIsSubmitted(Init(submitters), steps);
    assert Ops(Init(submitters).created) == [];
  }

  /** For any number of submitters and any interleaving of a disciplined run: nothing fails, nothing
      is stranded or refused, and the stream receives what the callers submitted, in that order and
      once each, followed by one Finish of the writer's own if and only if a write failed; while
      that Finish is missing the completion thread is between the failure and creating it. */
  lemma DisciplinedRunsDeliver(submitters: nat, steps: seq<Step>)
    requires DisciplinedRun(Init(submitters), steps)
    ensures IsRun(Init(submitters), steps)
    ensures var s := Exec(Init(submitters), steps);
      && s.Running?
      && s.sh.stranded == {}
      && (forall a :: a in s.sh.promises ==> s.sh.promises[a].Value?)
      && Ops(s.created) == Submitted(steps) + AutoFinish(s)
      && s.sh.wire <= s.created && |s.created| <= |s.sh.wire| + 1
      && |s.threads| > 0
      && (forall a :: FailedWrite(s, a) ==> AutoFinished(s) || AtResult(s, a))
      && (AutoFinished(s) ==> FailedWrite(s, s.created[|s.created| - 2]))
  {
    RunDelivers(submitters, steps);
    CreatedAlone(submitters, steps);
  }

  /** Once a disciplined run is quiescent everything submitted was sent and answered, the writer has
      added its own Finish exactly if a write failed, and the response is there exactly if the last
      operation is a Finish. */
  lemma DisciplinedRunsComplete(submitters: nat, steps: seq<Step>)
    requires DisciplinedRun(Init(submitters), steps)
    requires IsRun(Init(submitters), steps) && Quiescent(Exec(Init(submitters), steps))
    ensures var s := Exec(Init(submitters), steps);
      && Ops(s.sh.wire) == Submitted(steps) + AutoFinish(s)
      && (AutoFinished(s) <==> exists a :: FailedWrite(s, a))
      && (forall a :: a in s.sh.wire ==> a in s.sh.promises)
      && (s.sh.responseSet <==> |s.created| > 0 && s.created[|s.created| - 1].op.Finish?)
      && (forall i :: 0 <= i < |s.created| - 1 ==> s.created[i].op.Write?)
  {
    DisciplinedRunsDeliver(submitters, steps);
    AllDone(submitters, steps);
  }

  lemma AllDone(submitters: nat, steps: seq<Step>)
    requires DisciplinedRun(Init(submitters), steps)
    requires IsRun(Init(submitters), steps) && Quiescent(Exec(Init(submitters), steps))
    ensures var s := Exec(Init(submitters), steps);
      && s.sh.wire == s.created
      && (forall a :: a in s.created ==> a in s.sh.promises)
      && (s.sh.responseSet <==> |s.created| > 0 && s.created[|s.created| - 1].op.Finish?)
      && (forall i :: 0 <= i < |s.created| - 1 ==> s.created[i].op.Write?)
  {
    InitInStep(submitters);
    DisciplinedRunInStep(Init(submitters), steps);
    QuiescentInStep(Exec(Init(submitters), steps));
  }

  lemma QuiescentInStep(s: System)
    requires InStep(s) && Quiescent(s)
    ensures s.sh.wire == s.created
    ensures forall a :: a in s.created ==> a in s.sh.promises
    ensures s.sh.responseSet <==> |s.created| > 0 && s.created[|s.created| - 1].op.Finish?
    ensures forall i :: 0 <= i < |s.created| - 1 ==> s.created[i].op.Write?
  {
    forall a | a in s.created ensures a in s.sh.promises { QuiescentDone(s, a); }
    if s.created != [] { ResolvedOnWire(s); }
    forall i | 0 <= i < |s.created| - 1 ensures s.created[i].op.Write? { assert Followed(s, i); }
  }

  lemma QuiescentDone(s: System, a: Action)
    requires Quiescent(s) && Numbered(s) && Conserved(s) && Bounded(s) && a in s.created && s.sh.stranded == {}
    ensures a in s.sh.promises
  {
    SumZero(s.threads, Carrying(a));
    SumZero(s.threads, HalfSubmitted);
    assert Created(s, a);
    assert Places(s, a) == 1;
  }
}
