/** The discipline is exact: a submission that MaySubmit allows does no harm in any interleaving, and
    one that it forbids does harm in some interleaving. */
module StreamWriterExact {
  import opened Common
  import opened StreamWriter
  import opened StreamWriterInvariant
  import opened StreamWriterTheorems
  import opened StreamWriterProgress
  import opened StreamWriterDiscipline

  /** Nobody submits, and gRPC returns every Finish with ok. */
  predicate Quiet(steps: seq<Step>) {
    forall step :: step in steps ==> !step.Begin? && (step.Deliver? && step.a.op.Finish? ==> step.ok)
  }

  predicate WireOk(wire: seq<Action>) {
    forall i :: 0 <= i < |wire| - 1 ==> MayFollow(wire[i].op, wire[i + 1].op)
  }

  /** The run has not died, nothing was stranded or refused, and no operation was handed to a stream
      that gRPC does not allow there. */
  ghost predicate Fine(s: System) {
    && s.Running? && s.sh.stranded == {} && (forall a :: a in s.sh.promises ==> s.sh.promises[a].Value?)
    && WireOk(s.sh.wire)
  }

  /** However the run goes on until thread t submits the operation and after that, all is well. */
  ghost predicate SafeToSubmit(s: System, t: nat, op: Op) {
    forall before, after ::
      Quiet(before) && Quiet(after) && IsRun(s, before + [Begin(t, op)] + after) ==>
        Fine(Exec(s, before + [Begin(t, op)] + after))
  }

  // ---- A permitted submission ----

  lemma InStepIsFine(s: System)
    requires InStep(s)
    ensures Fine(s)
  {
    var wire := s.sh.wire;
    forall i | 0 <= i < |wire| - 1 ensures MayFollow(wire[i].op, wire[i + 1].op) { assert Followed(s, i); }
  }

  lemma {:induction false} QuietIsDisciplined(s: System, steps: seq<Step>)
    requires s.Running? && InStep(s) && Quiet(steps) && IsRun(s, steps)
    ensures DisciplinedRun(s, steps)
    decreases |steps|
  {
    if steps != [] {
      DisciplinedStep(s, steps[0]);
      QuietIsDisciplined(Apply(s, steps[0]), steps[1..]);
    }
  }

  /** While the latest action is resolved nobody performs anything or makes the writer's own Finish. */
  lemma StaysResolved(s: System, step: Step)
    requires InStep(s) && s.created != [] && Enabled(s, step) && !step.Begin? && Apply(s, step).Running?
    requires var a := s.created[|s.created| - 1]; a in s.sh.promises && s.sh.promises[a] == Value(true)
    ensures Apply(s, step).created == s.created
    ensures s.sh.state == Ready ==> Apply(s, step).sh.state == Ready
  {
    ResolvedOnWire(s);
    CreatedShape(s, step);
    StateShape(s, step);
    if step.Advance? && s.threads[step.t].Performing? { PendingIsLatest(s, step.t, s.threads[step.t].a); }
  }

  /** Nothing but a submission changes whether one is permitted, once it is. */
  lemma MaySubmitKept(s: System, step: Step, op: Op)
    requires InStep(s) && MaySubmit(s, op) && Enabled(s, step) && !step.Begin? && Disciplined(s, step)
    ensures InStep(Apply(s, step)) && MaySubmit(Apply(s, step), op)
  {
    DisciplinedStep(s, step);
    PromisesGrow(s, step);
    if s.created != [] { StaysResolved(s, step); } else { CreatedShape(s, step); }
  }

  lemma {:induction false} PermittedIsFine(s: System, t: nat, op: Op, before: seq<Step>, after: seq<Step>)
    requires InStep(s) && MaySubmit(s, op) && Quiet(before) && Quiet(after)
    requires IsRun(s, before + [Begin(t, op)] + after)
    ensures Fine(Exec(s, before + [Begin(t, op)] + after))
    decreases |before|
  {
    var steps := before + [Begin(t, op)] + after;
    var s1 := Apply(s, steps[0]);
    if before == [] {
      assert steps[1..] == after;
      DisciplinedStep(s, steps[0]);
      QuietIsDisciplined(s1, after);
      DisciplinedRunInStep(s1, after);
      InStepIsFine(Exec(s1, after));
    } else {
      assert steps[1..] == before[1..] + [Begin(t, op)] + after;
      MaySubmitKept(s, before[0], op);
      PermittedIsFine(s1, t, op, before[1..], after);
    }
  }

  // ---- A forbidden submission ----

  /** The latest action is on the wire: nothing waits to be performed, and only an ending drain loop
      can hold _actionsMutex. */
  lemma NothingPending(s: System)
    requires InStep(s) && s.sh.wire == s.created
    ensures s.sh.queue == []
    ensures s.actionsOwner.Some? ==> s.actionsOwner == Some(0) && s.threads[0].Draining?
    ensures s.sh.state == Ready ==> s.stateOwner.None?
  {
    if s.stateOwner.Some? && s.stateOwner.value > 0 { assert SubmitterPc(s.threads[s.stateOwner.value]); }
    if s.sh.queue != [] { PendingIsLatest(s, 0, s.sh.queue[0]); }
    if s.actionsOwner.Some? {
      var t := s.actionsOwner.value;
      if Carries(s.threads[t]) && !s.threads[t].WantFinalize? { PendingIsLatest(s, t, s.threads[t].a); }
    }
  }

  /** As long as the latest action is not on the wire somebody is inside a call. */
  lemma SomebodyIsBusy(s: System)
    requires InStep(s) && |s.sh.wire| < |s.created|
    ensures exists u :: 0 <= u < |s.threads| && !s.threads[u].Idle?
  {
    var a := s.created[|s.created| - 1];
    if a in s.sh.promises { ResolvedOnWire(s); }
    if a in s.sh.outstanding { UnderWayIsLatest(s, a); }
    assert Created(s, a) && Places(s, a) == 1;
    SumZero(s.threads, Carrying(a));
    SumZero(s.threads, HalfSubmitted);
  }

  /** One step of thread u towards performing the latest action. */
  lemma TowardsTheWire(s: System, u: nat)
    requires InStep(s) && |s.sh.wire| < |s.created| && Enabled(s, Advance(u))
    ensures var s' := Apply(s, Advance(u));
      InStep(s') && Work(s') < Work(s) && (s'.sh.state == Processing || |s'.sh.wire| < |s'.created|)
  {
    DisciplinedStep(s, Advance(u));
    WorkStep(s, Advance(u));
    CreatedShape(s, Advance(u));
    StateShape(s, Advance(u));
    OperationShape(s, Advance(u));
  }

  /** An action that waits to be performed is performed sooner or later. */
  lemma {:induction false} UntilBusy(s: System, t: nat) returns (steps: seq<Step>)
    requires InStep(s) && |s.sh.wire| < |s.created| && t < |s.threads| && s.threads[t].Idle?
    ensures Quiet(steps) && IsRun(s, steps)
    ensures var s' := Exec(s, steps);
      InStep(s') && s'.sh.state == Processing && t < |s'.threads| && s'.threads[t].Idle?
    decreases Work(s)
  {
    SomebodyIsBusy(s);
    var u := SomeoneMoves(s);
    TowardsTheWire(s, u);
    StepShape(s, Advance(u));
    OneStep(s, Advance(u));
    steps := [Advance(u)];
    var s' := Apply(s, Advance(u));
    if s'.sh.state != Processing {
      var rest := UntilBusy(s', t);
      ExecJoin(s, steps, rest);
      steps := steps + rest;
    }
  }

  /** A forbidden submission comes while the stream is busy, or cannot follow what is on the wire. */
  predicate Forbidden(s: System, op: Op)
    requires s.Running?
  {
    s.sh.state == Processing || (s.created != [] && !MayFollow(s.created[|s.created| - 1].op, op))
  }

  /** The completion thread has a failed write in hand and creates its Finish. */
  lemma MakeFinish(s: System, a: Action) returns (step: Step)
    requires InStep(s) && s.sh.state == Ready && FailedWrite(s, a) && AtResult(s, a) && s.sh.wire == s.created
    ensures step == Advance(0) && Enabled(s, step)
    ensures var s' := Apply(s, step);
      InStep(s') && |s'.sh.wire| < |s'.created| && s'.threads == s.threads[0 := s'.threads[0]]
  {
    step := Advance(0);
    assert s.threads[0].AfterReset?;
    DisciplinedStep(s, step);
    StepShape(s, step);
    CreatedShape(s, step);
    OperationShape(s, step);
  }

  /** If everything is on the wire and the next operation could follow, only a failure forbids it. */
  lemma LatestFailed(s: System, op: Op)
    requires InStep(s) && !MaySubmit(s, op) && !Forbidden(s, op) && s.sh.wire == s.created
    ensures s.created != [] && s.sh.state == Ready
    ensures var a := s.created[|s.created| - 1]; FailedWrite(s, a) && AtResult(s, a)
  {
    var a := s.created[|s.created| - 1];
    assert multiset(s.sh.wire)[a] > 0;
    assert Resolved(s.sh, a);
  }

  lemma UntilForbidden(s: System, t: nat, op: Op) returns (steps: seq<Step>)
    requires InStep(s) && t < |s.threads| && s.threads[t].Idle? && !MaySubmit(s, op)
    ensures Quiet(steps) && IsRun(s, steps)
    ensures var s' := Exec(s, steps);
      InStep(s') && t < |s'.threads| && s'.threads[t].Idle? && s'.sh.wire == s'.created && Forbidden(s', op)
  {
    if |s.sh.wire| < |s.created| {
      steps := UntilBusy(s, t);
    } else if Forbidden(s, op) {
      steps := [];
    } else {
      LatestFailed(s, op);
      var step := MakeFinish(s, s.created[|s.created| - 1]);
      OneStep(s, step);
      var rest := UntilBusy(Apply(s, step), t);
      ExecJoin(s, [step], rest);
      steps := [step] + rest;
    }
  }

  /** The drain loop, which finds nothing, releases _actionsMutex. */
  lemma ReleaseMutex(s: System) returns (steps: seq<Step>)
    requires InStep(s) && s.sh.wire == s.created
    ensures Quiet(steps) && |steps| <= 1 && IsRun(s, steps)
    ensures var s' := Exec(s, steps);
      s'.Running? && s'.sh == s.sh && s'.created == s.created && s'.actionsOwner.None? &&
      (s.sh.state == Ready ==> s'.stateOwner.None?) &&
      |s'.threads| == |s.threads| && forall t :: 0 < t < |s.threads| ==> s'.threads[t] == s.threads[t]
  {
    NothingPending(s);
    if s.actionsOwner.Some? {
      steps := [Advance(0)];
      OneStep(s, Advance(0));
    } else {
      steps := [];
    }
  }

  /** What an action that is pushed, popped and tried while nobody else moves comes to: it is handed
      to a stream that is ready, and dropped when the stream is busy. */
  ghost predicate TriedAtOnce(s: System, t: nat, a: Action, s': System)
    requires s.Running? && t < |s.threads|
  {
    && s'.Running? && s'.created == s.created && s'.threads == s.threads[t := Idle]
    && s'.actionsOwner.None? && s'.stateOwner == s.stateOwner && s'.sh.queue == [] && s'.sh.state == Processing
    && if s.sh.state == Processing
       then s'.sh.stranded == s.sh.stranded + {a} && s'.sh.wire == s.sh.wire
       else s'.sh.stranded == s.sh.stranded && s'.sh.wire == s.sh.wire + [a]
  }

  predicate Undisturbed(s: System) {
    && s.Running? && s.actionsOwner.None? && s.sh.queue == []
    && (s.sh.state == Processing || (s.sh.state == Ready && s.stateOwner.None?))
  }

  lemma TryAtOnce(s: System, t: nat, a: Action) returns (steps: seq<Step>)
    requires Undisturbed(s) && t < |s.threads| && s.threads[t] == WantPush(a)
    ensures Quiet(steps) && |steps| == (if s.sh.state == Processing then 3 else 4)
    ensures IsRun(s, steps) && TriedAtOnce(s, t, a, Exec(s, steps))
  {
    var step := Advance(t);
    var s1 := Apply(s, step);
    OneStep(s, step);
    assert s1.sh.queue == [a] && s1.threads[t] == WantTry;
    var s2 := Apply(s1, step);
    ExecAppend(s, [step], step);
    assert s2.threads[t] == Popped(a);
    ExecAppend(s, [step] + [step], step);
    steps := [step] + [step] + [step];
    if s.sh.state == Ready {
      assert Exec(s, steps).threads[t] == Performing(a, Return);
      ExecAppend(s, steps, step);
      steps := steps + [step];
    }
  }

  lemma SubmitAtOnce(s: System, t: nat, op: Op) returns (after: seq<Step>)
    requires Undisturbed(s) && Enabled(s, Begin(t, op))
    ensures Quiet(after) && |after| == (if s.sh.state == Processing then 3 else 4)
    ensures IsRun(s, [Begin(t, op)] + after)
    ensures var a := Action(|s.created|, op);
      TriedAtOnce(s.(created := s.created + [a]), t, a, Exec(s, [Begin(t, op)] + after))
  {
    var a, s1 := Action(|s.created|, op), Apply(s, Begin(t, op));
    OneStep(s, Begin(t, op));
    after := TryAtOnce(s1, t, a);
    ExecJoin(s, [Begin(t, op)], after);
    assert s1.threads[t := Idle] == s.threads[t := Idle];
  }

  lemma BadFollower(wire: seq<Action>, a: Action)
    requires wire != [] && !MayFollow(wire[|wire| - 1].op, a.op)
    ensures !WireOk(wire + [a])
  {
    var longer, i := wire + [a], |wire| - 1;
    assert !MayFollow(longer[i].op, longer[i + 1].op);
  }

  /** In whatever state of a disciplined run the stream is busy, the next submission is lost if its
      thread is quick enough. */
  lemma BusySubmissionIsLost(s: System, t: nat, op: Op) returns (before: seq<Step>, after: seq<Step>)
    requires InStep(s) && s.sh.state == Processing && 0 < t < |s.threads| && s.threads[t].Idle?
    ensures |before| <= 1 && |after| == 3 && Quiet(before) && Quiet(after)
    ensures IsRun(s, before + ([Begin(t, op)] + after))
    ensures var s' := Exec(s, before + ([Begin(t, op)] + after));
      s'.Running? && Action(|s.created|, op) in s'.sh.stranded
  {
    before := ReleaseMutex(s);
    NothingPending(s);
    after := SubmitAtOnce(Exec(s, before), t, op);
    ExecJoin(s, before, [Begin(t, op)] + after);
  }

  /** A caller that waited for the reset of a write that failed, and submits before the completion
      thread has submitted its Finish, makes the stream busy again: that Finish is lost. */
  lemma FailureLosesItsFinish(s: System, t: nat, op: Op) returns (after: seq<Step>)
    requires Undisturbed(s) && s.sh.state == Ready && 0 < t < |s.threads| && s.threads[t].Idle?
    requires s.threads[0].AfterReset? && s.threads[0].a.op.Write? && !s.threads[0].ok
    ensures Quiet(after) && IsRun(s, [Begin(t, op)] + after)
    ensures var s', n := Exec(s, [Begin(t, op)] + after), |s.created|;
      && s'.Running? && s'.created == s.created + [Action(n, op), Action(n + 1, Finish)]
      && s'.sh.wire == s.sh.wire + [Action(n, op)] && Action(n + 1, Finish) in s'.sh.stranded
  {
    var first := SubmitAtOnce(s, t, op);
    var s1 := Exec(s, [Begin(t, op)] + first);
    OneStep(s1, Advance(0));
    var second := TryAtOnce(Apply(s1, Advance(0)), 0, Action(|s1.created|, Finish));
    ExecJoin(s1, [Advance(0)], second);
    ExecJoin(s, [Begin(t, op)] + first, [Advance(0)] + second);
    after := first + ([Advance(0)] + second);
    assert [Begin(t, op)] + first + ([Advance(0)] + second) == [Begin(t, op)] + after;
  }

  lemma HarmAtOnce(s: System, t: nat, op: Op) returns (before: seq<Step>, after: seq<Step>)
    requires InStep(s) && Enabled(s, Begin(t, op)) && s.sh.wire == s.created && Forbidden(s, op)
    ensures Quiet(before) && Quiet(after) && IsRun(s, before + ([Begin(t, op)] + after))
    ensures !Fine(Exec(s, before + ([Begin(t, op)] + after)))
  {
    before := ReleaseMutex(s);
    NothingPending(s);
    after := SubmitAtOnce(Exec(s, before), t, op);
    ExecJoin(s, before, [Begin(t, op)] + after);
    if s.sh.state == Ready { BadFollower(s.sh.wire, Action(|s.created|, op)); }
  }

  lemma HarmAfter(s: System, settle: seq<Step>, t: nat, op: Op) returns (release: seq<Step>, after: seq<Step>)
    requires IsRun(s, settle) && InStep(Exec(s, settle)) && Enabled(Exec(s, settle), Begin(t, op))
    requires Exec(s, settle).sh.wire == Exec(s, settle).created && Forbidden(Exec(s, settle), op)
    ensures Quiet(release) && Quiet(after)
    ensures IsRun(s, settle + (release + ([Begin(t, op)] + after)))
    ensures !Fine(Exec(s, settle + (release + ([Begin(t, op)] + after))))
  {
    release, after := HarmAtOnce(Exec(s, settle), t, op);
    ExecJoin(s, settle, release + ([Begin(t, op)] + after));
  }

  /** A run in which a forbidden submission does harm. */
  lemma ForbiddenDoesHarm(s: System, t: nat, op: Op) returns (before: seq<Step>, after: seq<Step>)
    requires InStep(s) && Enabled(s, Begin(t, op)) && !MaySubmit(s, op)
    ensures Quiet(before) && Quiet(after) && IsRun(s, before + [Begin(t, op)] + after)
    ensures !Fine(Exec(s, before + [Begin(t, op)] + after))
  {
    var settle := UntilForbidden(s, t, op);
    var release;
    release, after := HarmAfter(s, settle, t, op);
    before := settle + release;
    assert before + [Begin(t, op)] + after == settle + (release + ([Begin(t, op)] + after));
  }

  /** After any disciplined run: submitting the operation does no harm, whatever the interleaving
      before and after, if and only if MaySubmit holds. */
  lemma MaySubmitIsExact(submitters: nat, steps: seq<Step>, t: nat, op: Op)
    requires DisciplinedRun(Init(submitters), steps)
    requires IsRun(Init(submitters), steps) && Exec(Init(submitters), steps).Running?
    requires 0 < t < |Exec(Init(submitters), steps).threads| && Exec(Init(submitters), steps).threads[t].Idle?
    ensures var s := Exec(Init(submitters), steps); MaySubmit(s, op) <==> SafeToSubmit(s, t, op)
  {
    var s := Exec(Init(submitters), steps);
    InitInStep(submitters);
    DisciplinedRunInStep(Init(submitters), steps);
    if MaySubmit(s, op) {
      forall before, after | Quiet(before) && Quiet(after) && IsRun(s, before + [Begin(t, op)] + after)
        ensures Fine(Exec(s, before + [Begin(t, op)] + after))
      {
        PermittedIsFine(s, t, op, before, after);
      }
    } else {
      var before, after := ForbiddenDoesHarm(s, t, op);
    }
  }
}
