/** What the invariant of the unary call handler means: ownership of the Call objects, the accept
    chain, the order of the stages of a call, and how serving ends. */
module UnaryCallTheorems {
  import opened Common
  import opened UnaryCallHandler

  // ---- The shape of a step ----

  /** The call a step works on, if any. */
  function Touched(s: System, step: Step): Option<nat> {
    match step
    case RunHandler(c) => Some(c)
    case Advance(_) =>
      (match s.pc
       case Finalizing(tag, _, _) => Some(tag.call)
       case Accepting(c) => Some(c)
       case _ => None)
    case _ => None
  }

  /** Whether a step arms a further request. */
  predicate Arms(s: System, step: Step) {
    step.Advance? && s.pc.Finalizing? && s.pc.tag.kind.ServiceRequest? && s.pc.ok
  }

  /** A step changes the call it works on, and at most adds a fresh one at the end. */
  lemma CallsShape(f: Request -> Response, s: System, step: Step, c: nat)
    requires Enabled(s, step) && Touched(s, step) == Some(c)
    ensures var s' := Apply(f, s, step);
      && c < |s.h.calls| && c < |s'.h.calls|
      && s'.h.calls == s.h.calls[c := s'.h.calls[c]] + if Arms(s, step) then [NewCall] else []
  {
    if step.Advance? && s.pc.Finalizing? {
      match s.pc.tag.kind
      case ServiceRequest =>
      case Handling =>
      case FinishCall =>
    }
  }

  // ---- Ownership ----

  /** Between two events of the queue every live Call has exactly one action object responsible for
      it, every action object has a live Call, and every Call was deleted once or not at all. */
  lemma CallsAndActionsMatch(f: Request -> Response, steps: seq<Step>)
    requires IsRun(f, Init, steps) && Exec(f, Init, steps).pc.Waiting?
    ensures var h := Exec(f, Init, steps).h;
      && (forall tag :: h.actions[tag] <= 1)
      && (forall tag :: tag in h.actions ==> tag.call < |h.calls| && h.calls[tag.call].frees == 0)
      && (forall c :: 0 <= c < |h.calls| && h.calls[c].frees == 0 ==>
            exists kind :: Tag(kind, c) in h.actions && forall other :: Tag(other, c) in h.actions ==> other == kind)
      && (forall c :: 0 <= c < |h.calls| ==> h.calls[c].frees <= 1)
  {
    ReachableInv(f, steps);
    OwnersMatch(f, Exec(f, Init, steps));
  }

  lemma OwnersMatch(f: Request -> Response, s: System)
    requires Inv(f, s) && s.pc.Waiting?
    ensures forall tag :: s.h.actions[tag] <= 1
    ensures forall tag :: tag in s.h.actions ==> tag.call < |s.h.calls| && s.h.calls[tag.call].frees == 0
    ensures forall c :: 0 <= c < |s.h.calls| && s.h.calls[c].frees == 0 ==>
      exists kind :: Tag(kind, c) in s.h.actions && forall other :: Tag(other, c) in s.h.actions ==> other == kind
    ensures forall c :: 0 <= c < |s.h.calls| ==> s.h.calls[c].frees <= 1
  {
    forall c | 0 <= c < |s.h.calls| ensures s.h.calls[c].frees <= 1 { assert CallOk(f, s.h.calls[c]); }
    forall tag ensures s.h.actions[tag] <= 1 && (tag in s.h.actions <==> Owns(s, tag)) { assert TagOk(s, tag); }
    forall tag | Owns(s, tag) ensures s.h.calls[tag.call].frees == 0 { assert CallOk(f, s.h.calls[tag.call]); }
    forall c | 0 <= c < |s.h.calls| && s.h.calls[c].frees == 0
      ensures exists kind ::
        Tag(kind, c) in s.h.actions && forall other :: Tag(other, c) in s.h.actions ==> other == kind
    {
      assert CallOk(f, s.h.calls[c]);
      var kind := OwnerKind(s.h.calls[c].stage).value;
      assert Owns(s, Tag(kind, c));
      assert forall other :: Owns(s, Tag(other, c)) ==> other == kind;
    }
  }

  function WasAccepted(call: Call): nat { if call.request.Some? then 1 else 0 }

  /** Call objects allocated are always one more than calls accepted, at every single step. */
  lemma AllocatedIsAcceptedPlusOne(f: Request -> Response, steps: seq<Step>)
    requires IsRun(f, Init, steps)
    ensures var calls := Exec(f, Init, steps).h.calls; |calls| == SumOf(calls, WasAccepted) + 1
  {
    ReachableInv(f, steps);
    CountAccepted(Exec(f, Init, steps).h.calls);
  }

  lemma CountAccepted(calls: seq<Call>)
    requires |calls| > 0 && forall c :: 0 <= c < |calls| ==> (calls[c].request.None? <==> c == |calls| - 1)
    ensures |calls| == SumOf(calls, WasAccepted) + 1
  {
    var n := |calls| - 1;
    SumAll(calls[..n], WasAccepted);
    assert calls == calls[..n] + [calls[n]];
    SumAppend(calls[..n], calls[n], WasAccepted);
  }

  lemma {:induction false} SumAll(calls: seq<Call>, weight: Call -> nat)
    requires forall c :: 0 <= c < |calls| ==> weight(calls[c]) == 1
    ensures SumOf(calls, weight) == |calls|
  {
    if calls != [] { SumAll(calls[..|calls| - 1], weight); }
  }

  // ---- The accept chain ----

  /** gRPC returns a service request with ok false. */
  predicate Refuses(step: Step) {
    step.Deliver? && step.tag.kind.ServiceRequest? && !step.ok
  }

  predicate SomeRefused(steps: seq<Step>) { exists step :: step in steps && Refuses(step) }

  /** The request of the latest Call was refused: its finalizer has deleted the Call or is about to. */
  predicate Closed(s: System) {
    |s.h.calls| > 0 &&
    var latest := |s.h.calls| - 1;
    !s.h.calls[latest].stage.Requested? ||
    (s.pc.Finalizing? && s.pc.tag == Tag(ServiceRequest, latest) && !s.pc.ok)
  }

  /** The service request in hand, and any that is outstanding, is that of the latest Call. */
  lemma RequestIsLatest(f: Request -> Response, s: System, tag: Tag)
    requires Inv(f, s) && tag.kind.ServiceRequest?
    requires tag in s.h.outstanding || (s.pc.Finalizing? && s.pc.tag == tag)
    ensures tag.call == |s.h.calls| - 1 && s.h.calls[tag.call].stage.Requested?
  {
    assert TagOk(s, tag);
    assert CallOk(f, s.h.calls[tag.call]);
  }

  lemma ClosedByFinalizer(f: Request -> Response, s: System, step: Step)
    requires Inv(f, s) && Enabled(s, step) && step.Advance? && s.pc.Finalizing?
    ensures Closed(Apply(f, s, step)) <==> Closed(s)
    ensures Closed(s) ==> |Apply(f, s, step).h.calls| == |s.h.calls|
  {
    var tag := s.pc.tag;
    CallsShape(f, s, step, tag.call);
    if tag.kind.ServiceRequest? {
      RequestIsLatest(f, s, tag);
    } else {
      assert CallOk(f, s.h.calls[tag.call]);
    }
  }

  lemma ClosedStep(f: Request -> Response, s: System, step: Step)
    requires Inv(f, s) && Enabled(s, step)
    ensures Closed(Apply(f, s, step)) <==> Closed(s) || Refuses(step)
    ensures Closed(s) ==> |Apply(f, s, step).h.calls| == |s.h.calls|
  {
    if step.Deliver? && step.tag.kind.ServiceRequest? {
      RequestIsLatest(f, s, step.tag);
    } else if step.Advance? && s.pc.Finalizing? {
      ClosedByFinalizer(f, s, step);
    } else if Touched(s, step).Some? {
      var c := Touched(s, step).value;
      CallsShape(f, s, step, c);
      assert CallOk(f, s.h.calls[c]);
    }
  }

  lemma {:induction false} ClosedIff(f: Request -> Response, s: System, steps: seq<Step>)
    requires Inv(f, s) && IsRun(f, s, steps)
    ensures Closed(Exec(f, s, steps)) <==> Closed(s) || SomeRefused(steps)
    ensures Closed(s) ==> |Exec(f, s, steps).h.calls| == |s.h.calls|
    decreases |steps|
  {
    if steps != [] {
      StepKeepsInv(f, s, steps[0]);
      ClosedStep(f, s, steps[0]);
      ClosedIff(f, Apply(f, s, steps[0]), steps[1..]);
      assert forall step :: step in steps <==> step == steps[0] || step in steps[1..];
    }
  }

  lemma RequestCount(f: Request -> Response, s: System, c: nat)
    requires Inv(f, s)
    ensures var tag := Tag(ServiceRequest, c);
      s.h.outstanding[tag] == Tally(c == |s.h.calls| - 1 && !Closed(s) && !(s.pc.Finalizing? && s.pc.tag == tag))
  {
    assert TagOk(s, Tag(ServiceRequest, c));
    if c < |s.h.calls| { assert CallOk(f, s.h.calls[c]); }
  }

  /** Between two events exactly one service request is outstanding, that of the latest Call, until
      one comes back not ok, and none ever after. At all times the next one has been posted before
      an accepted call is dispatched. */
  lemma OneRequestArmed(f: Request -> Response, steps: seq<Step>)
    requires IsRun(f, Init, steps)
    ensures var s := Exec(f, Init, steps); var n := |s.h.calls|;
      && n > 0
      && (forall c: nat :: s.h.outstanding[Tag(ServiceRequest, c)] ==
            Tally(c == n - 1 && !SomeRefused(steps) && !(s.pc.Finalizing? && s.pc.tag == Tag(ServiceRequest, c))))
      && (forall c :: 0 <= c < n && (s.h.calls[c].stage.Dispatched? || s.h.calls[c].runs > 0) ==> c < n - 1)
  {
    var s := Exec(f, Init, steps);
    ReachableInv(f, steps);
    ClosedIff(f, Init, steps);
    forall c: nat ensures s.h.outstanding[Tag(ServiceRequest, c)] ==
      Tally(c == |s.h.calls| - 1 && !SomeRefused(steps) && !(s.pc.Finalizing? && s.pc.tag == Tag(ServiceRequest, c)))
    {
      RequestCount(f, s, c);
    }
  }

  /** Once gRPC has returned a service request with ok false no Call is ever allocated again and no
      service request ever outstanding again. */
  lemma ChainStaysClosed(f: Request -> Response, first: seq<Step>, more: seq<Step>)
    requires IsRun(f, Init, first) && SomeRefused(first) && IsRun(f, Exec(f, Init, first), more)
    ensures var s, s' := Exec(f, Init, first), Exec(f, Exec(f, Init, first), more);
      |s'.h.calls| == |s.h.calls| && forall c: nat :: Tag(ServiceRequest, c) !in s'.h.outstanding
  {
    var s := Exec(f, Init, first);
    ReachableInv(f, first);
    ClosedIff(f, Init, first);
    ClosedIff(f, s, more);
    RunKeepsInv(f, s, more);
    var s' := Exec(f, s, more);
    forall c: nat ensures Tag(ServiceRequest, c) !in s'.h.outstanding {
      RequestCount(f, s', c);
    }
  }

  // ---- The order within a call ----

  function Rank(stage: Stage): nat {
    match stage
    case Requested => 0
    case Accepted => 1
    case Dispatched => 2
    case Handled => 3
    case Finishing => 4
    case Freed => 5
  }

  /** A call may go from the one state to the other. */
  predicate Advanced(before: Call, after: Call) {
    && Rank(before.stage) <= Rank(after.stage)
    && (before.request.Some? ==> after.request == before.request)
  }

  lemma RankStep(f: Request -> Response, s: System, step: Step, c: nat)
    requires CallsOk(f, s) && PcOk(s) && Enabled(s, step) && c < |s.h.calls|
    ensures c < |Apply(f, s, step).h.calls| && Advanced(s.h.calls[c], Apply(f, s, step).h.calls[c])
  {
    var touched := Touched(s, step);
    if touched.Some? {
      CallsShape(f, s, step, touched.value);
      TouchedAdvances(f, s, step, touched.value);
    } else {
      assert Apply(f, s, step).h.calls == s.h.calls;
    }
  }

  lemma FinalizerAdvances(f: Request -> Response, s: System, step: Step)
    requires CallsOk(f, s) && PcOk(s) && Enabled(s, step) && step.Advance? && s.pc.Finalizing?
    ensures var c := s.pc.tag.call;
      c < |s.h.calls| && c < |Apply(f, s, step).h.calls| && Advanced(s.h.calls[c], Apply(f, s, step).h.calls[c])
  {
    assert CallOk(f, s.h.calls[s.pc.tag.call]);
    match s.pc.tag.kind
    case ServiceRequest =>
    case Handling =>
    case FinishCall =>
  }

  lemma TouchedAdvances(f: Request -> Response, s: System, step: Step, c: nat)
    requires CallsOk(f, s) && PcOk(s) && Enabled(s, step) && Touched(s, step) == Some(c)
    ensures c < |s.h.calls| && c < |Apply(f, s, step).h.calls|
    ensures Advanced(s.h.calls[c], Apply(f, s, step).h.calls[c])
  {
    if step.Advance? && s.pc.Finalizing? {
      FinalizerAdvances(f, s, step);
    } else {
      assert CallOk(f, s.h.calls[c]);
    }
  }

  /** The stages of a call only ever advance, and its request does not change once it was accepted. */
  lemma {:induction false} StagesAdvance(f: Request -> Response, s: System, steps: seq<Step>, c: nat)
    requires Inv(f, s) && IsRun(f, s, steps) && c < |s.h.calls|
    ensures c < |Exec(f, s, steps).h.calls| && Advanced(s.h.calls[c], Exec(f, s, steps).h.calls[c])
    decreases |steps|
  {
    if steps != [] {
      StepKeepsInv(f, s, steps[0]);
      RankStep(f, s, steps[0], c);
      StagesAdvance(f, Apply(f, s, steps[0]), steps[1..], c);
    }
  }

  /** In every run: the handler function runs at most once for a call and only after it was
      accepted; Finish is called at most once, after that, with what the function returned. */
  lemma HandledThenFinished(f: Request -> Response, steps: seq<Step>)
    requires IsRun(f, Init, steps)
    ensures forall c :: 0 <= c < |Exec(f, Init, steps).h.calls| ==>
      var call := Exec(f, Init, steps).h.calls[c];
      && call.runs <= 1
      && (call.runs == 1 ==> call.request.Some?)
      && (call.finished == [] || (call.runs == 1 && call.finished == [f(call.request.value)]))
  {
    ReachableInv(f, steps);
    var calls := Exec(f, Init, steps).h.calls;
    assert forall c :: 0 <= c < |calls| ==> CallOk(f, calls[c]);
  }

  // ---- How serving ends ----

  function StageCost(call: Call): nat {
    match call.stage
    case Requested => 3
    case Accepted => 7
    case Dispatched => 7
    case Handled => 6
    case Finishing => 3
    case Freed => 0
  }

  function PcCost(pc: Pc): nat {
    match pc
    case Waiting => 1
    case Finalizing(tag, ok, _) => if tag.kind.ServiceRequest? && ok then 11 else 0
    case Accepting(_) => 3
    case Deleting(_) => 2
  }

  function Work(s: System): nat {
    SumOf(s.h.calls, StageCost) + PcCost(s.pc) + (if s.shutdown then 0 else 1) + (if s.down then 0 else 1)
  }

  /** Only a further accepted call brings work. */
  function Charge(step: Step): nat {
    if step.Deliver? && step.tag.kind.ServiceRequest? && step.ok then 11 else 0
  }

  lemma CostFalls(f: Request -> Response, s: System, step: Step, c: nat)
    requires CallsOk(f, s) && PcOk(s) && Enabled(s, step) && Touched(s, step) == Some(c)
    ensures var s' := Apply(f, s, step);
      && c < |s.h.calls| && c < |s'.h.calls|
      && s'.shutdown == s.shutdown && s'.down == s.down
      && StageCost(s'.h.calls[c]) + PcCost(s'.pc) + (if Arms(s, step) then 3 else 0) <
         StageCost(s.h.calls[c]) + PcCost(s.pc)
  {
    match step
    case RunHandler(_) =>
    case Advance(_) =>
      match s.pc
      case Finalizing(tag, ok, _) => FinalizeCost(f, s, step);
      case Accepting(_) =>
  }

  lemma FinalizeCost(f: Request -> Response, s: System, step: Step)
    requires PcOk(s) && Enabled(s, step) && step.Advance? && s.pc.Finalizing?
    ensures var s', c := Apply(f, s, step), s.pc.tag.call;
      && c < |s.h.calls| && c < |s'.h.calls|
      && s'.shutdown == s.shutdown && s'.down == s.down
      && StageCost(s'.h.calls[c]) + PcCost(s'.pc) + (if Arms(s, step) then 3 else 0) <
         StageCost(s.h.calls[c]) + PcCost(s.pc)
  {
  }

  lemma WorkStep(f: Request -> Response, s: System, step: Step)
    requires CallsOk(f, s) && PcOk(s) && Enabled(s, step)
    ensures Work(Apply(f, s, step)) + 1 <= Work(s) + Charge(step)
  {
    var s', touched := Apply(f, s, step), Touched(s, step);
    if touched.Some? {
      var c := touched.value;
      CallsShape(f, s, step, c);
      CostFalls(f, s, step, c);
      var moved := s.h.calls[c := s'.h.calls[c]];
      SumUpdate(s.h.calls, c, s'.h.calls[c], StageCost);
      SumAppend(moved, NewCall, StageCost);
      assert moved + [] == moved;
    } else {
      assert s'.h.calls == s.h.calls;
    }
  }

  lemma {:induction false} RunsAreShort(f: Request -> Response, s: System, steps: seq<Step>)
    requires Inv(f, s) && IsRun(f, s, steps)
    ensures |steps| + Work(Exec(f, s, steps)) <= Work(s) + SumOf(steps, Charge)
    decreases |steps|
  {
    if steps != [] {
      SumOfTail(steps, Charge);
      WorkStep(f, s, steps[0]);
      StepKeepsInv(f, s, steps[0]);
      RunsAreShort(f, Apply(f, s, steps[0]), steps[1..]);
    }
  }

  lemma InitWork()
    ensures Work(Init) == 6
  {
    assert Init.h.calls == [] + [NewCall];
    SumAppend([], NewCall, StageCost);
  }

  /** Apart from 11 steps for each accepted call no run has more than 6 steps. */
  lemma ServingEnds(f: Request -> Response, steps: seq<Step>)
    requires IsRun(f, Init, steps)
    ensures |steps| <= 6 + SumOf(steps, Charge)
  {
    InitWork();
    InitInv(f);
    RunsAreShort(f, Init, steps);
  }

  /** The queue was shut down while no call was between its acceptance and the end of its handler
      function. Once SHUTDOWN was reported nothing is outstanding. */
  ghost predicate Winding(f: Request -> Response, s: System) {
    && Inv(f, s) && s.shutdown && !s.pc.Accepting?
    && !(s.pc.Finalizing? && s.pc.tag.kind.ServiceRequest? && s.pc.ok)
    && (forall c :: 0 <= c < |s.h.calls| ==> !s.h.calls[c].stage.Dispatched?)
    && (s.down ==> s.pc.Waiting? && s.h.outstanding == multiset{})
  }

  predicate AcceptsNone(steps: seq<Step>) { forall step :: step in steps ==> Charge(step) == 0 }

  predicate AllFreed(s: System) {
    forall c :: 0 <= c < |s.h.calls| ==> s.h.calls[c].frees == 1
  }

  lemma WindingStep(f: Request -> Response, s: System, step: Step)
    requires Winding(f, s) && Enabled(s, step) && Charge(step) == 0
    ensures Winding(f, Apply(f, s, step))
  {
    StepKeepsInv(f, s, step);
    if Touched(s, step).Some? { CallsShape(f, s, step, Touched(s, step).value); }
  }

  /** Short of SHUTDOWN the loop can go on without accepting a call. */
  lemma WindsOn(f: Request -> Response, s: System) returns (step: Step)
    requires Winding(f, s) && !s.down
    ensures Enabled(s, step) && Charge(step) == 0
  {
    if !s.pc.Waiting? {
      step := Advance(false);
    } else if tag :| tag in s.h.outstanding {
      step := Deliver(tag, false, "");
    } else {
      step := ReportShutdown;
    }
  }

  lemma DownIsFreed(f: Request -> Response, s: System)
    requires Winding(f, s) && s.down
    ensures AllFreed(s) && forall step :: !Enabled(s, step)
  {
    forall c | 0 <= c < |s.h.calls| ensures s.h.calls[c].frees == 1 { LeftWhenEmpty(f, s, c); }
  }

  /** If no call is mid-handling when the queue is shut down, the loop has a run to SHUTDOWN that
      accepts nothing and frees every Call exactly once. */
  lemma {:induction false} DrainsToShutdown(f: Request -> Response, s: System) returns (steps: seq<Step>)
    requires Winding(f, s)
    ensures IsRun(f, s, steps) && AcceptsNone(steps)
    ensures Exec(f, s, steps).down && AllFreed(Exec(f, s, steps))
    decreases Work(s)
  {
    if s.down {
      DownIsFreed(f, s);
      steps := [];
    } else {
      var step := WindsOn(f, s);
      WindingStep(f, s, step);
      WorkStep(f, s, step);
      var rest := DrainsToShutdown(f, Apply(f, s, step));
      steps := [step] + rest;
      assert steps[1..] == rest;
    }
  }

  lemma {:induction false} WindingRun(f: Request -> Response, s: System, steps: seq<Step>)
    requires Winding(f, s) && IsRun(f, s, steps) && AcceptsNone(steps)
    ensures Winding(f, Exec(f, s, steps))
    decreases |steps|
  {
    if steps != [] {
      WindingStep(f, s, steps[0]);
      WindingRun(f, Apply(f, s, steps[0]), steps[1..]);
    }
  }

  /** Nothing but accepting a call could make the run longer. */
  ghost predicate Maximal(s: System) {
    forall step :: Enabled(s, step) ==> Charge(step) > 0
  }

  /** Every such run is short, and those that cannot be made longer are exactly those in which
      SHUTDOWN was reported; then every Call was freed exactly once. */
  lemma EveryDrainReachesShutdown(f: Request -> Response, s: System, steps: seq<Step>)
    requires Winding(f, s) && IsRun(f, s, steps) && AcceptsNone(steps)
    ensures |steps| <= Work(s)
    ensures var s' := Exec(f, s, steps); (Maximal(s') <==> s'.down) && (s'.down ==> AllFreed(s'))
  {
    var s' := Exec(f, s, steps);
    RunsAreShort(f, s, steps);
    SumZero(steps, Charge);
    WindingRun(f, s, steps);
    if s'.down {
      DownIsFreed(f, s');
    } else {
      var step := WindsOn(f, s');
    }
  }

  /** Short of that the handler functions that were dispatched can run, and the loop can go on to them. */
  lemma HandlersGoOn(f: Request -> Response, s: System) returns (step: Step)
    requires Inv(f, s) && s.shutdown && !s.down && !Winding(f, s)
    ensures Enabled(s, step) && Charge(step) == 0 && !step.ReportShutdown?
  {
    if c :| 0 <= c < |s.h.calls| && s.h.calls[c].stage.Dispatched? {
      assert CallOk(f, s.h.calls[c]);
      step := RunHandler(c);
    } else {
      if s.pc.Accepting? { assert CallOk(f, s.h.calls[s.pc.call]); }
      step := Advance(true);
    }
  }

  /** From every state after shutdown in which SHUTDOWN has not been reported, if the handler functions
      that were dispatched run before it is, the loop frees every Call exactly once, accepting no more. */
  lemma {:induction false} EveryCallCanBeFreed(f: Request -> Response, s: System) returns (steps: seq<Step>)
    requires Inv(f, s) && s.shutdown && !s.down
    ensures IsRun(f, s, steps) && AcceptsNone(steps)
    ensures Exec(f, s, steps).down && AllFreed(Exec(f, s, steps))
    decreases Work(s)
  {
    if Winding(f, s) {
      steps := DrainsToShutdown(f, s);
    } else {
      var step := HandlersGoOn(f, s);
      StepKeepsInv(f, s, step);
      WorkStep(f, s, step);
      var rest := EveryCallCanBeFreed(f, Apply(f, s, step));
      steps := [step] + rest;
      assert steps[1..] == rest;
    }
  }

  lemma LeftWhenEmpty(f: Request -> Response, s: System, c: nat)
    requires Inv(f, s) && s.pc.Waiting? && s.h.outstanding == multiset{} && c < |s.h.calls|
    ensures s.h.calls[c].frees == if s.h.calls[c].stage.Dispatched? then 0 else 1
  {
    var call := s.h.calls[c];
    assert CallOk(f, call);
    var kind := if PostedKind(call.stage).Some? then PostedKind(call.stage).value else Handling;
    assert TagOk(s, Tag(kind, c));
  }

  /** When SHUTDOWN is reported, the Call objects that have not been deleted are exactly those whose
      handler function was dispatched and has not run; so all are deleted if and only if there is none. */
  lemma LeftAtShutdown(f: Request -> Response, steps: seq<Step>)
    requires IsRun(f, Init, steps) && Enabled(Exec(f, Init, steps), ReportShutdown)
    ensures var calls := Exec(f, Init, steps).h.calls;
      && (forall c :: 0 <= c < |calls| ==> (calls[c].frees == 0 <==> calls[c].stage.Dispatched?))
      && ((forall c :: 0 <= c < |calls| ==> calls[c].frees == 1) <==>
          (forall c :: 0 <= c < |calls| ==> !calls[c].stage.Dispatched?))
  {
    ReachableInv(f, steps);
    var s := Exec(f, Init, steps);
    forall c | 0 <= c < |s.h.calls| ensures s.h.calls[c].frees == (if s.h.calls[c].stage.Dispatched? then 0 else 1) {
      LeftWhenEmpty(f, s, c);
    }
  }

  /** A call that was still dispatched when SHUTDOWN was reported is never deleted, even if its
      handler function runs later. */
  predicate Abandoned(s: System, c: nat) {
    s.down && s.pc.Waiting? && c < |s.h.calls| && (s.h.calls[c].stage.Dispatched? || s.h.calls[c].stage.Handled?)
  }

  lemma AbandonedStep(f: Request -> Response, s: System, step: Step, c: nat)
    requires Abandoned(s, c) && Enabled(s, step)
    ensures Abandoned(Apply(f, s, step), c)
  {
  }

  lemma {:induction false} AbandonedForever(f: Request -> Response, s: System, steps: seq<Step>, c: nat)
    requires Inv(f, s) && Abandoned(s, c) && IsRun(f, s, steps)
    ensures var s' := Exec(f, s, steps); Abandoned(s', c) && s'.h.calls[c].frees == 0
    decreases |steps|
  {
    if steps != [] {
      AbandonedStep(f, s, steps[0], c);
      StepKeepsInv(f, s, steps[0]);
      AbandonedForever(f, Apply(f, s, steps[0]), steps[1..], c);
    } else {
      assert CallOk(f, s.h.calls[c]);
    }
  }
}
