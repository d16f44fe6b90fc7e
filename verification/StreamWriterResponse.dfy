/** The response promise of the call: which Finish completes it, and exactly when a run dies. */
module StreamWriterResponse {
  import opened StreamWriter
  import opened StreamWriterInvariant

  /** A Finish that came back from the stream and has been through finalizeFinish. */
  predicate BeenThrough(s: System, a: Action)
    requires s.Running? && |s.threads| > 0
  {
    a.op.Finish? && Resolved(s.sh, a) && !AtResult(s, a)
  }

  /** The response is set by the one Finish that has been through, and by nothing else. */
  ghost predicate ResponseKnown(s: System)
    requires s.Running? && |s.threads| > 0
  {
    && (s.sh.responseSet <==> exists a :: BeenThrough(s, a))
    && (forall a :: BeenThrough(s, a) ==> s.sh.promises[a].ok)
    && (forall a, b :: BeenThrough(s, a) && BeenThrough(s, b) ==> a == b)
  }

  /** Two different Finishes came back ok. */
  ghost predicate TwoFinished(sh: Shared) {
    exists a, b :: a != b && FinishedOk(sh, a) && FinishedOk(sh, b)
  }

  predicate FinishedOk(sh: Shared, a: Action) {
    a.op.Finish? && a in sh.promises && sh.promises[a] == Value(true)
  }

  ghost predicate ResponseInv(s: System) {
    if s.Running? then |s.threads| > 0 && ResponseKnown(s) else (s.why == ResponseTwice <==> TwoFinished(s.last))
  }

  /** The step in which the completion thread runs finalizeFinish. */
  predicate FinalizesFinish(s: System, step: Step) {
    Enabled(s, step) && step.Advance? && s.threads[step.t].AfterReset? && s.threads[step.t].a.op.Finish?
  }

  lemma ThroughStep(s: System, step: Step, a: Action)
    requires s.Running? && |s.threads| > 0 && Roles(s) && ResultKnown(s)
    requires Enabled(s, step) && Apply(s, step).Running?
    ensures var s' := Apply(s, step);
      |s'.threads| > 0 &&
      (BeenThrough(s', a) <==> BeenThrough(s, a) || (FinalizesFinish(s, step) && s.threads[step.t].a == a))
  {
    StepShape(s, step);
    ResolvedShape(s, step, a);
    if step.Advance? && step.t > 0 { assert SubmitterPc(s.threads[step.t]); }
  }

  lemma ResponseShape(s: System, step: Step)
    requires Enabled(s, step) && Apply(s, step).Running?
    ensures Apply(s, step).sh.responseSet <==> s.sh.responseSet || FinalizesFinish(s, step)
    ensures FinalizesFinish(s, step) ==> !s.sh.responseSet && s.threads[step.t].ok
  {
  }

  lemma ResponseKnownStep(s: System, step: Step)
    requires s.Running? && |s.threads| > 0 && Roles(s) && ResultKnown(s) && ResponseKnown(s)
    requires Enabled(s, step) && Apply(s, step).Running?
    ensures |Apply(s, step).threads| > 0 && ResponseKnown(Apply(s, step))
  {
    var s' := Apply(s, step);
    ResponseShape(s, step);
    PromisesGrow(s, step);
    StepShape(s, step);
    forall a
      ensures BeenThrough(s', a) <==> BeenThrough(s, a) || (FinalizesFinish(s, step) && s.threads[step.t].a == a)
    {
      ThroughStep(s, step, a);
    }
    if FinalizesFinish(s, step) { assert BeenThrough(s', s.threads[step.t].a); }
  }

  // ---- Exactly when a step dies ----

  predicate DiesOf(s: System, step: Step, why: Failure)
    requires Enabled(s, step)
  {
    Apply(s, step).Aborted? && Apply(s, step).why == why
  }

  /** From a reachable state a step dies exactly if it performs from the drain loop on a stream that is
      not ready, or finalizes a Finish that came back not ok, or finalizes one after another one. */
  lemma FailsExactly(submitters: nat, s: System, step: Step)
    requires Reachable(submitters, s) && Enabled(s, step)
    ensures |s.threads| > 0
    ensures DiesOf(s, step, PerformNotReady(true)) <==>
      step == Advance(0) && s.threads[0].Performing? && s.threads[0].resume.Loop? && s.sh.state != Ready
    ensures DiesOf(s, step, FinishNotOk) <==> FinalizesFinish(s, step) && !s.threads[step.t].ok
    ensures DiesOf(s, step, ResponseTwice) <==>
      FinalizesFinish(s, step) && s.threads[step.t].ok && exists a :: a != s.threads[step.t].a && BeenThrough(s, a)
    ensures Apply(s, step).Running? <==>
      !DiesOf(s, step, PerformNotReady(true)) && !DiesOf(s, step, FinishNotOk) && !DiesOf(s, step, ResponseTwice)
  {
    ReachableInv(submitters, s);
    ReachableResponse(submitters, s);
    if Apply(s, step).Aborted? { FailureStep(s, step); }
    if step.Advance? && step.t > 0 { assert SubmitterPc(s.threads[step.t]); }
  }

  lemma SecondResponse(s: System, step: Step)
    requires s.Running? && |s.threads| > 0 && Roles(s) && ResultKnown(s) && ResponseKnown(s)
    requires Enabled(s, step) && DiesOf(s, step, ResponseTwice)
    ensures TwoFinished(Apply(s, step).last)
  {
    var a :| BeenThrough(s, a);
    var b := s.threads[0].a;
    assert FinishedOk(s.sh, a) && FinishedOk(s.sh, b) && a != b;
  }

  lemma OtherDeath(s: System, step: Step)
    requires s.Running? && |s.threads| > 0 && Roles(s) && ResultKnown(s) && ResponseKnown(s)
    requires Enabled(s, step)
    requires DiesOf(s, step, PerformNotReady(true)) || DiesOf(s, step, FinishNotOk)
    ensures !TwoFinished(Apply(s, step).last)
  {
    assert Apply(s, step).last == s.sh;
    assert forall a :: FinishedOk(s.sh, a) ==> BeenThrough(s, a);
  }

  lemma ResponseStep(s: System, step: Step)
    requires Inv(s) && ResponseInv(s) && Enabled(s, step)
    ensures ResponseInv(Apply(s, step))
  {
    if Apply(s, step).Running? {
      ResponseKnownStep(s, step);
    } else {
      FailureStep(s, step);
      if DiesOf(s, step, ResponseTwice) { SecondResponse(s, step); } else { OtherDeath(s, step); }
    }
  }

  lemma {:induction false} ResponseRun(s: System, steps: seq<Step>)
    requires Inv(s) && ResponseInv(s) && IsRun(s, steps)
    ensures ResponseInv(Exec(s, steps))
    decreases |steps|
  {
    if steps != [] {
      StepKeepsInv(s, steps[0]);
      ResponseStep(s, steps[0]);
      ResponseRun(Apply(s, steps[0]), steps[1..]);
    }
  }

  lemma ReachableResponse(submitters: nat, s: System)
    requires Reachable(submitters, s)
    ensures ResponseInv(s)
  {
    var steps :| IsRun(Init(submitters), steps) && Exec(Init(submitters), steps) == s;
    InitInv(submitters);
    ResponseRun(Init(submitters), steps);
  }

  /** In every reachable running state the response is set if and only if some Finish has been through
      finalizeFinish; that Finish is the only one and came back ok. */
  lemma ResponseSetIffFinished(submitters: nat, s: System)
    requires Reachable(submitters, s) && s.Running?
    ensures |s.threads| > 0
    ensures s.sh.responseSet <==> exists a :: BeenThrough(s, a)
    ensures forall a :: BeenThrough(s, a) ==> s.sh.promises[a] == Value(true)
    ensures forall a, b :: BeenThrough(s, a) && BeenThrough(s, b) ==> a == b
  {
    ReachableResponse(submitters, s);
  }

  /** A run that died did so by completing the response twice if and only if two Finishes came back ok. */
  lemma ResponseTwiceIff(submitters: nat, s: System)
    requires Reachable(submitters, s) && s.Aborted?
    ensures s.why == ResponseTwice <==> TwoFinished(s.last)
  {
    ReachableResponse(submitters, s);
  }
}
