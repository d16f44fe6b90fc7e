/** What the completion queue returned for a call decides what becomes of it: every request that was
    accepted is handled as it came, every alarm that rang is answered, and a call is deleted
    unfinished only if gRPC gave it up. */
module UnaryCallHistory {
  import opened Common
  import opened UnaryCallHandler
  import opened UnaryCallTheorems

  // ---- What gRPC returns ----

  predicate Accepts(step: Step, c: nat, request: Request) {
    step == Deliver(Tag(ServiceRequest, c), true, request)
  }

  predicate Rings(step: Step, c: nat) {
    step.Deliver? && step.tag == Tag(Handling, c) && step.ok
  }

  /** The request or the alarm of the call comes back not ok. */
  predicate GivesUp(step: Step, c: nat) {
    step.Deliver? && step.tag.call == c && !step.tag.kind.FinishCall? && !step.ok
  }

  predicate Concludes(step: Step, c: nat) {
    step.Deliver? && step.tag == Tag(FinishCall, c)
  }

  // ---- What has become of the call, counting the completion in hand ----

  predicate InHand(s: System, tag: Tag, ok: bool) {
    s.pc.Finalizing? && s.pc.tag == tag && s.pc.ok == ok
  }

  predicate AcceptedWith(s: System, c: nat, request: Request) {
    || (c < |s.h.calls| && s.h.calls[c].request == Some(request))
    || s.pc == Finalizing(Tag(ServiceRequest, c), true, request)
  }

  predicate Answered(s: System, c: nat) {
    (c < |s.h.calls| && s.h.calls[c].finished != []) || InHand(s, Tag(Handling, c), true)
  }

  predicate GivenUp(s: System, c: nat) {
    || (c < |s.h.calls| && s.h.calls[c].stage.Freed? && s.h.calls[c].finished == [])
    || InHand(s, Tag(ServiceRequest, c), false) || InHand(s, Tag(Handling, c), false)
  }

  predicate Concluded(s: System, c: nat) {
    || (c < |s.h.calls| && s.h.calls[c].stage.Freed? && s.h.calls[c].finished != [])
    || InHand(s, Tag(FinishCall, c), true) || InHand(s, Tag(FinishCall, c), false)
  }

  lemma FinalizerHistory(f: Request -> Response, s: System, step: Step, c: nat, request: Request)
    requires Inv(f, s) && Enabled(s, step) && step.Advance? && s.pc.Finalizing?
    ensures var s' := Apply(f, s, step);
      && (AcceptedWith(s', c, request) <==> AcceptedWith(s, c, request))
      && (Answered(s', c) <==> Answered(s, c))
      && (GivenUp(s', c) <==> GivenUp(s, c))
      && (Concluded(s', c) <==> Concluded(s, c))
  {
    var tag := s.pc.tag;
    assert CallOk(f, s.h.calls[tag.call]);
    match tag.kind
    case ServiceRequest =>
    case Handling =>
    case FinishCall =>
  }

  lemma DeliverHistory(f: Request -> Response, s: System, step: Step, c: nat, request: Request)
    requires Inv(f, s) && Enabled(s, step) && step.Deliver?
    ensures var s' := Apply(f, s, step);
      && (AcceptedWith(s', c, request) <==> AcceptedWith(s, c, request) || Accepts(step, c, request))
      && (Answered(s', c) <==> Answered(s, c) || Rings(step, c))
      && (GivenUp(s', c) <==> GivenUp(s, c) || GivesUp(step, c))
      && (Concluded(s', c) <==> Concluded(s, c) || Concludes(step, c))
  {
  }

  lemma OtherHistory(f: Request -> Response, s: System, step: Step, c: nat, request: Request)
    requires Inv(f, s) && Enabled(s, step) && !step.Deliver? && !(step.Advance? && s.pc.Finalizing?)
    ensures var s' := Apply(f, s, step);
      && (AcceptedWith(s', c, request) <==> AcceptedWith(s, c, request))
      && (Answered(s', c) <==> Answered(s, c))
      && (GivenUp(s', c) <==> GivenUp(s, c))
      && (Concluded(s', c) <==> Concluded(s, c))
  {
    if Touched(s, step).Some? {
      CallsShape(f, s, step, Touched(s, step).value);
      assert CallOk(f, s.h.calls[Touched(s, step).value]);
    }
  }

  predicate SomeAccepts(steps: seq<Step>, c: nat, request: Request) {
    Deliver(Tag(ServiceRequest, c), true, request) in steps
  }

  predicate SomeRings(steps: seq<Step>, c: nat) { exists step :: step in steps && Rings(step, c) }

  predicate SomeGivesUp(steps: seq<Step>, c: nat) { exists step :: step in steps && GivesUp(step, c) }

  predicate SomeConcludes(steps: seq<Step>, c: nat) { exists step :: step in steps && Concludes(step, c) }

  lemma {:induction false} RunHistory(f: Request -> Response, s: System, steps: seq<Step>, c: nat, request: Request)
    requires Inv(f, s) && IsRun(f, s, steps)
    ensures var s' := Exec(f, s, steps);
      && (AcceptedWith(s', c, request) <==> AcceptedWith(s, c, request) || SomeAccepts(steps, c, request))
      && (Answered(s', c) <==> Answered(s, c) || SomeRings(steps, c))
      && (GivenUp(s', c) <==> GivenUp(s, c) || SomeGivesUp(steps, c))
      && (Concluded(s', c) <==> Concluded(s, c) || SomeConcludes(steps, c))
    decreases |steps|
  {
    if steps != [] {
      var step := steps[0];
      StepKeepsInv(f, s, step);
      if step.Deliver? {
        DeliverHistory(f, s, step, c, request);
      } else if step.Advance? && s.pc.Finalizing? {
        FinalizerHistory(f, s, step, c, request);
      } else {
        OtherHistory(f, s, step, c, request);
      }
      RunHistory(f, Apply(f, s, step), steps[1..], c, request);
      assert forall other :: other in steps <==> other == step || other in steps[1..];
    }
  }

  // ---- What becomes of every call ----

  /** At all times a call holds the request that gRPC accepted it with, once its finalizer has run. */
  lemma RequestIsTheAccepted(f: Request -> Response, steps: seq<Step>, c: nat, request: Request)
    requires IsRun(f, Init, steps)
    ensures var s := Exec(f, Init, steps);
      AcceptedWith(s, c, request) <==> Deliver(Tag(ServiceRequest, c), true, request) in steps
  {
    RunHistory(f, Init, steps, c, request);
  }

  /** Between two events: Finish was called, once and with what the handler function returned for the
      accepted request, if and only if the alarm of the call rang with ok; the call is deleted if and
      only if its request or its alarm came back not ok, and then it was not finished, or its Finish
      came back at all, and then it was. */
  lemma EveryCallIsConcluded(f: Request -> Response, steps: seq<Step>, c: nat)
    requires IsRun(f, Init, steps) && Exec(f, Init, steps).pc.Waiting?
    requires c < |Exec(f, Init, steps).h.calls|
    ensures var call := Exec(f, Init, steps).h.calls[c];
      && (call.request.Some? ==> Deliver(Tag(ServiceRequest, c), true, call.request.value) in steps)
      && (SomeRings(steps, c) ==> call.request.Some?)
      && call.finished == (if SomeRings(steps, c) then [f(call.request.value)] else [])
      && call.frees == Tally(SomeGivesUp(steps, c) || SomeConcludes(steps, c))
      && (SomeConcludes(steps, c) ==> SomeRings(steps, c))
      && (SomeGivesUp(steps, c) ==> !SomeRings(steps, c))
  {
    ReachableInv(f, steps);
    var s := Exec(f, Init, steps);
    var call := s.h.calls[c];
    assert CallOk(f, call);
    RunHistory(f, Init, steps, c, if call.request.Some? then call.request.value else "");
  }

  /** The step in which the handler function runs for a call. */
  predicate Runs(s: System, step: Step, c: nat) {
    Enabled(s, step) && (step == RunHandler(c) || (step == Advance(true) && s.pc == Accepting(c)))
  }

  predicate SomeStepRuns(f: Request -> Response, s: System, steps: seq<Step>, c: nat)
    requires IsRun(f, s, steps)
    decreases |steps|
  {
    steps != [] && (Runs(s, steps[0], c) || SomeStepRuns(f, Apply(f, s, steps[0]), steps[1..], c))
  }

  predicate HasRun(s: System, c: nat) { c < |s.h.calls| && s.h.calls[c].runs > 0 }

  lemma FinalizerRuns(f: Request -> Response, s: System, step: Step, c: nat)
    requires CallsOk(f, s) && PcOk(s) && Enabled(s, step) && step.Advance? && s.pc.Finalizing?
    ensures HasRun(Apply(f, s, step), c) <==> HasRun(s, c)
  {
    match s.pc.tag.kind
    case ServiceRequest =>
    case Handling =>
    case FinishCall =>
  }

  lemma HasRunStep(f: Request -> Response, s: System, step: Step, c: nat)
    requires CallsOk(f, s) && PcOk(s) && Enabled(s, step)
    ensures HasRun(Apply(f, s, step), c) <==> HasRun(s, c) || Runs(s, step, c)
  {
    match step
    case RunHandler(d) => CallsShape(f, s, step, d);
    case Advance(inlined) =>
      if s.pc.Finalizing? {
        FinalizerRuns(f, s, step, c);
      } else if s.pc.Accepting? {
        CallsShape(f, s, step, s.pc.call);
        assert CallOk(f, s.h.calls[s.pc.call]);
      }
    case _ =>
  }

  /** The handler function has run for a call exactly if it was dispatched inline, or run later. */
  lemma {:induction false} RunIffDispatched(f: Request -> Response, s: System, steps: seq<Step>, c: nat)
    requires Inv(f, s) && IsRun(f, s, steps)
    ensures HasRun(Exec(f, s, steps), c) <==> HasRun(s, c) || SomeStepRuns(f, s, steps, c)
    decreases |steps|
  {
    if steps != [] {
      StepKeepsInv(f, s, steps[0]);
      HasRunStep(f, s, steps[0], c);
      RunIffDispatched(f, Apply(f, s, steps[0]), steps[1..], c);
    }
  }

  /** The queue is shut down, and reports it, exactly if that has happened in the run. */
  lemma {:induction false} ShutdownIsRecorded(f: Request -> Response, s: System, steps: seq<Step>)
    requires IsRun(f, s, steps)
    ensures Exec(f, s, steps).shutdown <==> s.shutdown || CallShutdown in steps
    ensures Exec(f, s, steps).down <==> s.down || ReportShutdown in steps
    decreases |steps|
  {
    if steps != [] { ShutdownIsRecorded(f, Apply(f, s, steps[0]), steps[1..]); }
  }
}
