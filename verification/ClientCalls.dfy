/** The client: user threads create calls and add them to the registry, the completion thread
    completes unary calls and removes them. The two sides race for each call. */
module ClientCalls {
  import opened Common

  type Response = string

  datatype Status = Ok | Error(message: string)

  /** What the completion queue brings for the Finish of a unary call. */
  datatype Event = Event(ok: bool, status: Status, response: Response)

  datatype Outcome = Value(response: Response) | CallError(status: Status)

  datatype Kind = Unary(hasCallback: bool) | ClientStream

  /** added: addStreamingCall has run, after which call() returns; dead: onCallDead has run;
      diedFirst: it ran before the call was added. */
  datatype Call = Call(
    kind: Kind,
    added: bool,
    event: Option<Event>,
    promise: Option<Outcome>,
    dispatched: nat,
    ran: nat,
    dead: bool,
    diedFirst: bool)

  function NewCall(kind: Kind): Call { Call(kind, false, None, None, 0, 0, false, false) }

  /** Where the completion thread is in finalizeFinished of a call. */
  datatype Pc = Idle | Finalizing(call: nat) | Notifying(call: nat) | Dying(call: nat)

  datatype System =
    | Running(calls: seq<Call>, registry: set<nat>, outstanding: multiset<nat>, pc: Pc)
    | Aborted(event: Event)

  datatype Step =
    | Create(kind: Kind)             // a user thread constructs a call, which posts its Finish
    | Add(call: nat)                 // the same thread adds it to the registry
    | Deliver(call: nat, event: Event)
    | Advance                        // the completion thread goes on
    | RunCallback(call: nat)         // a dispatched callback runs, inline or on any thread

  const Init := Running([], {}, multiset{}, Idle)

  /** Index bounds aside: a call is added once, the queue returns each Finish once, a callback runs
      as often as it was dispatched. */
  predicate Enabled(s: System, step: Step) {
    s.Running? &&
    match step
    case Create(_) => true
    case Add(c) => c < |s.calls| && !s.calls[c].added
    case Deliver(c, _) => s.pc.Idle? && c in s.outstanding && c < |s.calls|
    case Advance => !s.pc.Idle? && s.pc.call < |s.calls| && (s.pc.Finalizing? ==> s.calls[s.pc.call].event.Some?)
    case RunCallback(c) => c < |s.calls| && s.calls[c].ran < s.calls[c].dispatched
  }

  /** The response promise holds a value exactly when the status is ok. */
  function OutcomeOf(event: Event): Outcome {
    if event.status.Ok? then Value(event.response) else CallError(event.status)
  }

  function SetCall(s: System, c: nat, call: Call): System
    requires s.Running? && c < |s.calls|
  {
    s.(calls := s.calls[c := call])
  }

  function Apply(s: System, step: Step): System
    requires Enabled(s, step)
  {
    match step
    case Create(kind) =>
      s.(calls := s.calls + [NewCall(kind)],
         outstanding := if kind.Unary? then s.outstanding + multiset{|s.calls|} else s.outstanding)
    case Add(c) => SetCall(s.(registry := s.registry + {c}), c, s.calls[c].(added := true))
    case Deliver(c, event) =>
      SetCall(s.(outstanding := s.outstanding - multiset{c}, pc := Finalizing(c)), c, s.calls[c].(event := Some(event)))
    case Advance => AdvanceFinalize(s)
    case RunCallback(c) => SetCall(s, c, s.calls[c].(ran := s.calls[c].ran + 1))
  }

  /** finalizeFinished: assert and promise, responseCallback, _deadCallback. */
  function AdvanceFinalize(s: System): System
    requires Enabled(s, Advance)
  {
    var c := s.pc.call;
    var call := s.calls[c];
    match s.pc
    case Finalizing(_) =>
      if !call.event.value.ok || call.promise.Some? then Aborted(call.event.value)
      else SetCall(s.(pc := Notifying(c)), c, call.(promise := Some(OutcomeOf(call.event.value))))
    case Notifying(_) =>
      if call.kind == Unary(true)
      then SetCall(s.(pc := Dying(c)), c, call.(dispatched := call.dispatched + 1))
      else s.(pc := Dying(c))
    case Dying(_) =>
      SetCall(s.(registry := s.registry - {c}, pc := Idle), c, call.(dead := true, diedFirst := !call.added))
  }

  predicate IsRun(s: System, steps: seq<Step>)
    decreases |steps|
  {
    steps == [] || (Enabled(s, steps[0]) && IsRun(Apply(s, steps[0]), steps[1..]))
  }

  function Exec(s: System, steps: seq<Step>): System
    requires IsRun(s, steps)
    decreases |steps|
  {
    if steps == [] then s else Exec(Apply(s, steps[0]), steps[1..])
  }

  // ---- The invariant ----

  function Callbacks(call: Call): nat { Tally(call.kind == Unary(true)) }

  /** How far a call is, by whether its promise is set and whether the completion thread is at it. */
  predicate CallOk(s: System, c: nat)
    requires s.Running? && c < |s.calls|
  {
    var call := s.calls[c];
    && call.ran <= call.dispatched
    && (call.dead ==> call.promise.Some?)
    && (call.promise.None? ==> call.dispatched == 0 && !call.dead)
    && (call.promise.Some? ==> call.kind.Unary? && call.event.Some? && call.event.value.ok &&
                               call.promise.value == OutcomeOf(call.event.value))
    && (call.promise.Some? && !call.dead ==>
          if s.pc == Notifying(c) then call.dispatched == 0 else s.pc == Dying(c) && call.dispatched == Callbacks(call))
    && (call.dead ==> call.dispatched == Callbacks(call) && (!call.added ==> call.diedFirst))
    && (call.diedFirst ==> call.dead)
    && (c in s.registry <==> call.added && (!call.dead || call.diedFirst))
    && (call.event.Some? <==> s.pc == Finalizing(c) || call.promise.Some?)
    && (s.pc == Notifying(c) || s.pc == Dying(c) ==> call.promise.Some? && !call.dead)
  }

  /** The Finish of a unary call is outstanding, in hand, or was used to complete the promise. */
  predicate FinishOk(s: System, c: nat)
    requires s.Running? && c < |s.calls|
  {
    s.outstanding[c] + Tally(s.pc == Finalizing(c)) + Tally(s.calls[c].promise.Some?) == Tally(s.calls[c].kind.Unary?)
  }

  ghost predicate Inv(s: System) {
    if s.Running? then
      && (forall c :: 0 <= c < |s.calls| ==> CallOk(s, c) && FinishOk(s, c))
      && (forall c :: c in s.outstanding || c in s.registry ==> c < |s.calls|)
      && (!s.pc.Idle? ==> s.pc.call < |s.calls|)
    else !s.event.ok
  }

  /** A step of the completion thread, on the call it is at and on any other. */
  lemma FinalizeStep(s: System, c: nat)
    requires Inv(s) && Enabled(s, Advance) && AdvanceFinalize(s).Running? && c < |s.calls|
    ensures c < |AdvanceFinalize(s).calls| && CallOk(AdvanceFinalize(s), c) && FinishOk(AdvanceFinalize(s), c)
  {
    assert CallOk(s, c) && FinishOk(s, c);
    match s.pc
    case Finalizing(_) => assert FinishOk(s, s.pc.call);
    case Notifying(_) =>
    case Dying(_) =>
  }

  lemma DeliverStep(s: System, step: Step, c: nat)
    requires Inv(s) && Enabled(s, step) && step.Deliver? && c < |s.calls|
    ensures c < |Apply(s, step).calls| && CallOk(Apply(s, step), c) && FinishOk(Apply(s, step), c)
  {
    assert CallOk(s, c) && FinishOk(s, c) && FinishOk(s, step.call);
  }

  lemma CreateStep(s: System, step: Step, c: nat)
    requires Inv(s) && Enabled(s, step) && step.Create? && c <= |s.calls|
    ensures c < |Apply(s, step).calls| && CallOk(Apply(s, step), c) && FinishOk(Apply(s, step), c)
  {
    if c < |s.calls| { assert CallOk(s, c) && FinishOk(s, c); }
  }

  lemma UserStep(s: System, step: Step, c: nat)
    requires Inv(s) && Enabled(s, step) && (step.Add? || step.RunCallback?) && c < |s.calls|
    ensures c < |Apply(s, step).calls| && CallOk(Apply(s, step), c) && FinishOk(Apply(s, step), c)
  {
    assert CallOk(s, c) && FinishOk(s, c);
  }

  lemma CallStep(s: System, step: Step, c: nat)
    requires Inv(s) && Enabled(s, step) && Apply(s, step).Running? && c < |Apply(s, step).calls|
    ensures CallOk(Apply(s, step), c) && FinishOk(Apply(s, step), c)
  {
    match step
    case Create(_) => CreateStep(s, step, c);
    case Add(_) => UserStep(s, step, c);
    case RunCallback(_) => UserStep(s, step, c);
    case Deliver(_, _) => DeliverStep(s, step, c);
    case Advance => FinalizeStep(s, c);
  }

  lemma StepKeepsInv(s: System, step: Step)
    requires Inv(s) && Enabled(s, step)
    ensures Inv(Apply(s, step))
  {
    var s' := Apply(s, step);
    if s'.Running? {
      forall c | 0 <= c < |s'.calls| ensures CallOk(s', c) && FinishOk(s', c) { CallStep(s, step, c); }
    } else {
      assert FinishOk(s, s.pc.call);
    }
  }

  lemma {:induction false} RunKeepsInv(s: System, steps: seq<Step>)
    requires Inv(s) && IsRun(s, steps)
    ensures Inv(Exec(s, steps))
    decreases |steps|
  {
    if steps != [] {
      StepKeepsInv(s, steps[0]);
      RunKeepsInv(Apply(s, steps[0]), steps[1..]);
    }
  }

  // ---- What the steps of a run say about a call ----

  /** The kinds of the calls that were created, in that order. */
  function Created(steps: seq<Step>): seq<Kind>
    decreases |steps|
  {
    if steps == [] then []
    else (if steps[0].Create? then [steps[0].kind] else []) + Created(steps[1..])
  }

  function Kinds(calls: seq<Call>): seq<Kind> {
    seq(|calls|, c requires 0 <= c < |calls| => calls[c].kind)
  }

  predicate HasEvent(s: System, c: nat, event: Event) {
    s.Running? && c < |s.calls| && s.calls[c].event == Some(event)
  }

  predicate IsAdded(s: System, c: nat) {
    s.Running? && c < |s.calls| && s.calls[c].added
  }

  function Ran(s: System, c: nat): nat {
    if s.Running? && c < |s.calls| then s.calls[c].ran else 0
  }

  function RunsCallback(c: nat): Step -> nat {
    step => Tally(step == RunCallback(c))
  }

  lemma KindsStep(s: System, step: Step)
    requires Enabled(s, step) && Apply(s, step).Running?
    ensures Kinds(Apply(s, step).calls) == Kinds(s.calls) + if step.Create? then [step.kind] else []
  {
  }

  lemma EventStep(s: System, step: Step, c: nat, event: Event)
    requires Inv(s) && Enabled(s, step) && Apply(s, step).Running?
    ensures HasEvent(Apply(s, step), c, event) <==> HasEvent(s, c, event) || step == Deliver(c, event)
  {
    if step.Deliver? { assert CallOk(s, step.call) && FinishOk(s, step.call); }
  }

  lemma AddedStep(s: System, step: Step, c: nat)
    requires Enabled(s, step) && Apply(s, step).Running?
    ensures IsAdded(Apply(s, step), c) <==> IsAdded(s, c) || step == Add(c)
    ensures Ran(Apply(s, step), c) == Ran(s, c) + RunsCallback(c)(step)
  {
  }

  lemma AbortedStays(s: System, steps: seq<Step>)
    requires IsRun(s, steps)
    ensures s.Aborted? ==> steps == []
  {
  }

  lemma {:induction false} KindsRun(s: System, steps: seq<Step>)
    requires s.Running? && IsRun(s, steps) && Exec(s, steps).Running?
    ensures Kinds(Exec(s, steps).calls) == Kinds(s.calls) + Created(steps)
    decreases |steps|
  {
    if steps != [] {
      AbortedStays(Apply(s, steps[0]), steps[1..]);
      KindsStep(s, steps[0]);
      KindsRun(Apply(s, steps[0]), steps[1..]);
    }
  }

  lemma {:induction false} EventRun(s: System, steps: seq<Step>, c: nat, event: Event)
    requires Inv(s) && s.Running? && IsRun(s, steps) && Exec(s, steps).Running?
    ensures HasEvent(Exec(s, steps), c, event) <==> HasEvent(s, c, event) || Deliver(c, event) in steps
    decreases |steps|
  {
    if steps != [] {
      AbortedStays(Apply(s, steps[0]), steps[1..]);
      StepKeepsInv(s, steps[0]);
      EventStep(s, steps[0], c, event);
      EventRun(Apply(s, steps[0]), steps[1..], c, event);
    }
  }

  lemma {:induction false} AddedRun(s: System, steps: seq<Step>, c: nat)
    requires s.Running? && IsRun(s, steps) && Exec(s, steps).Running?
    ensures IsAdded(Exec(s, steps), c) <==> IsAdded(s, c) || Add(c) in steps
    ensures Ran(Exec(s, steps), c) == Ran(s, c) + SumOf(steps, RunsCallback(c))
    decreases |steps|
  {
    if steps != [] {
      AbortedStays(Apply(s, steps[0]), steps[1..]);
      AddedStep(s, steps[0], c);
      AddedRun(Apply(s, steps[0]), steps[1..], c);
      SumOfTail(steps, RunsCallback(c));
    }
  }

  /** The calls of a run are those that were created, in that order and with these kinds. */
  lemma CallsAreCreated(steps: seq<Step>)
    requires IsRun(Init, steps) && Exec(Init, steps).Running?
    ensures var s := Exec(Init, steps);
      |s.calls| == |Created(steps)| && forall c :: 0 <= c < |s.calls| ==> s.calls[c].kind == Created(steps)[c]
  {
    KindsRun(Init, steps);
    var s := Exec(Init, steps);
    assert Kinds(s.calls) == Created(steps);
    assert forall c :: 0 <= c < |s.calls| ==> Kinds(s.calls)[c] == s.calls[c].kind;
  }

  // ---- Completion ----

  /** A promise completed by an event: with the response that came if its status is ok, and with the
      status otherwise. */
  predicate CompletedBy(promise: Option<Outcome>, event: Event) {
    if event.status.Ok? then promise == Some(Value(event.response)) else promise == Some(CallError(event.status))
  }

  /** In every run: the promise of a call is completed by what the queue returned for that call, and
      not before; a callback given to call() is dispatched only once the promise is set, and exactly
      once by the time the call has left the registry; no other call has one dispatched. */
  lemma CompletedOnce(steps: seq<Step>, c: nat)
    requires IsRun(Init, steps) && Exec(Init, steps).Running?
    requires c < |Exec(Init, steps).calls| && c < |Created(steps)|
    ensures var call := Exec(Init, steps).calls[c];
      var callbacks := Tally(Created(steps)[c] == Unary(true));
      && (call.promise.Some? ==> call.event.Some? && Deliver(c, call.event.value) in steps)
      && (call.promise.Some? ==> call.event.value.ok && CompletedBy(call.promise, call.event.value))
      && call.ran <= call.dispatched <= callbacks
      && (call.dispatched > 0 ==> call.promise.Some?)
      && (call.dead ==> call.promise.Some? && call.dispatched == callbacks)
  {
    var s := Exec(Init, steps);
    RunKeepsInv(Init, steps);
    CallsAreCreated(steps);
    assert CallOk(s, c);
    if s.calls[c].event.Some? { EventRun(Init, steps, c, s.calls[c].event.value); }
  }

  /** When the completion thread is not at the call, its promise is completed by any event the queue
      has returned for it, the call is dead, and it has had its callback dispatched. */
  lemma EveryEventCompletes(steps: seq<Step>, c: nat, event: Event)
    requires IsRun(Init, steps) && Exec(Init, steps).Running? && Deliver(c, event) in steps
    ensures var s := Exec(Init, steps);
      && c < |s.calls| && c < |Created(steps)|
      && (s.pc.Idle? || s.pc.call != c ==>
            && CompletedBy(s.calls[c].promise, event) && s.calls[c].dead
            && s.calls[c].dispatched == Tally(Created(steps)[c] == Unary(true)))
  {
    var s := Exec(Init, steps);
    RunKeepsInv(Init, steps);
    CallsAreCreated(steps);
    EventRun(Init, steps, c, event);
    assert CallOk(s, c);
  }

  /** A callback runs only when it was dispatched, and as often as the run says. */
  lemma CallbackRuns(steps: seq<Step>, c: nat)
    requires IsRun(Init, steps) && Exec(Init, steps).Running? && c < |Exec(Init, steps).calls|
    ensures Exec(Init, steps).calls[c].ran == SumOf(steps, RunsCallback(c)) <= 1
  {
    RunKeepsInv(Init, steps);
    assert CallOk(Exec(Init, steps), c);
    AddedRun(Init, steps, c);
  }

  lemma PromiseStep(s: System, step: Step, c: nat)
    requires Inv(s) && Enabled(s, step) && Apply(s, step).Running? && c < |s.calls|
    ensures c < |Apply(s, step).calls|
    ensures s.calls[c].promise.Some? ==> Apply(s, step).calls[c].promise == s.calls[c].promise
  {
    if step.Advance? { assert FinishOk(s, s.pc.call); }
  }

  /** A completed response promise is never completed again. */
  lemma {:induction false} PromiseIsFinal(s: System, steps: seq<Step>, c: nat)
    requires Inv(s) && s.Running? && IsRun(s, steps) && Exec(s, steps).Running?
    requires c < |s.calls| && s.calls[c].promise.Some?
    ensures c < |Exec(s, steps).calls| && Exec(s, steps).calls[c].promise == s.calls[c].promise
    decreases |steps|
  {
    if steps != [] {
      var s' := Apply(s, steps[0]);
      StepKeepsInv(s, steps[0]);
      PromiseStep(s, steps[0], c);
      PromiseIsFinal(s', steps[1..], c);
    }
  }

  /** The client dies only if gRPC returns the Finish of a unary call with ok false. */
  lemma DiesOnlyOnFailedFinish(steps: seq<Step>)
    requires IsRun(Init, steps) && Exec(Init, steps).Aborted?
    ensures !Exec(Init, steps).event.ok
  {
    RunKeepsInv(Init, steps);
  }

  // ---- The registry ----

  /** A call whose call() has returned and which has not completed is in the registry. */
  lemma LiveCallsAreRegistered(steps: seq<Step>, c: nat)
    requires IsRun(Init, steps) && Exec(Init, steps).Running? && Add(c) in steps
    ensures var s := Exec(Init, steps);
      c < |s.calls| && (!s.calls[c].dead ==> c in s.registry)
  {
    RunKeepsInv(Init, steps);
    AddedRun(Init, steps, c);
    assert CallOk(Exec(Init, steps), c);
  }

  /** Every call() has returned and the completion queue has nothing left. */
  predicate Quiescent(s: System) {
    && s.Running? && s.pc.Idle? && s.outstanding == multiset{}
    && forall c :: 0 <= c < |s.calls| ==> s.calls[c].added
  }

  /** At quiescence the registry holds exactly the client-stream calls and the unary calls whose
      onCallDead ran before their addStreamingCall. */
  lemma RegistryAtQuiescence(steps: seq<Step>)
    requires IsRun(Init, steps) && Quiescent(Exec(Init, steps))
    ensures var s, kinds := Exec(Init, steps), Created(steps);
      && |s.calls| == |kinds|
      && s.registry == set c: nat | 0 <= c < |s.calls| && (kinds[c].ClientStream? || s.calls[c].diedFirst)
  {
    RunKeepsInv(Init, steps);
    CallsAreCreated(steps);
    var s := Exec(Init, steps);
    forall c: nat
      ensures c in s.registry <==> c < |s.calls| && (s.calls[c].kind.ClientStream? || s.calls[c].diedFirst)
    {
      if c < |s.calls| { assert CallOk(s, c) && FinishOk(s, c); }
    }
  }

  // ---- Every call can be completed ----

  function Todo(call: Call): nat {
    Tally(!call.added) + (if call.kind.Unary? && call.event.None? then 5 else 0) +
    if call.ran < call.dispatched then call.dispatched - call.ran else 0
  }

  function PcCost(pc: Pc): nat {
    match pc
    case Idle => 0
    case Finalizing(_) => 4
    case Notifying(_) => 3
    case Dying(_) => 1
  }

  function Work(s: System): nat
    requires s.Running?
  {
    SumOf(s.calls, Todo) + PcCost(s.pc)
  }

  /** The completion thread is not about to die of a Finish that came back not ok. */
  predicate Healthy(s: System) {
    s.Running? && (s.pc.Finalizing? && s.pc.call < |s.calls| && s.calls[s.pc.call].event.Some? ==>
                     s.calls[s.pc.call].event.value.ok)
  }

  /** The call a step changes. */
  function Changed(s: System, step: Step): nat
    requires Enabled(s, step)
  {
    match step
    case Create(_) => |s.calls|
    case Add(c) => c
    case Deliver(c, _) => c
    case Advance => s.pc.call
    case RunCallback(c) => c
  }

  lemma WorkFalls(s: System, step: Step)
    requires Inv(s) && Enabled(s, step) && !step.Create? && Apply(s, step).Running?
    ensures Work(Apply(s, step)) < Work(s)
  {
    var s', c := Apply(s, step), Changed(s, step);
    assert CallOk(s, c) && FinishOk(s, c);
    assert s'.calls == s.calls[c := s'.calls[c]];
    SumUpdate(s.calls, c, s'.calls[c], Todo);
  }

  predicate AllDead(s: System) {
    s.Running? && forall c :: 0 <= c < |s.calls| && s.calls[c].kind.Unary? ==> s.calls[c].dead
  }

  predicate AllCallbacksRan(s: System) {
    s.Running? && forall c :: 0 <= c < |s.calls| ==> s.calls[c].ran == s.calls[c].dispatched
  }

  lemma DeadWhenEmpty(s: System)
    requires Inv(s) && s.Running? && s.pc.Idle? && s.outstanding == multiset{}
    ensures AllDead(s)
  {
    forall c | 0 <= c < |s.calls| && s.calls[c].kind.Unary? ensures s.calls[c].dead {
      assert CallOk(s, c) && FinishOk(s, c);
    }
  }

  lemma GoesOn(s: System) returns (step: Step)
    requires Inv(s) && Healthy(s) && !(Quiescent(s) && AllDead(s) && AllCallbacksRan(s))
    ensures Enabled(s, step) && !step.Create? && (step.Deliver? ==> step.event.ok)
  {
    if !s.pc.Idle? {
      assert CallOk(s, s.pc.call);
      step := Advance;
    } else if c :| 0 <= c < |s.calls| && !s.calls[c].added {
      step := Add(c);
    } else if c :| 0 <= c < |s.calls| && s.calls[c].ran != s.calls[c].dispatched {
      assert CallOk(s, c);
      step := RunCallback(c);
    } else {
      if s.outstanding == multiset{} { DeadWhenEmpty(s); }
      var c :| c in s.outstanding;
      step := Deliver(c, Event(true, Ok, ""));
    }
  }

  lemma StaysHealthy(s: System, step: Step)
    requires Inv(s) && Healthy(s) && Enabled(s, step) && (step.Deliver? ==> step.event.ok)
    ensures Healthy(Apply(s, step))
  {
    if step.Advance? { assert CallOk(s, s.pc.call) && FinishOk(s, s.pc.call); }
  }

  /** However a run has gone, if the Finish in hand is ok it has a continuation in which no further call
      is created and every unary call is completed and leaves the registry, every callback runs, and
      every call() returns. */
  lemma {:induction false} AllCallsComplete(s: System) returns (steps: seq<Step>)
    requires Inv(s) && Healthy(s)
    ensures IsRun(s, steps) && Created(steps) == []
    ensures var s' := Exec(s, steps); Quiescent(s') && AllDead(s') && AllCallbacksRan(s')
    decreases Work(s)
  {
    if Quiescent(s) && AllDead(s) && AllCallbacksRan(s) {
      steps := [];
    } else {
      var step := GoesOn(s);
      StepKeepsInv(s, step);
      StaysHealthy(s, step);
      WorkFalls(s, step);
      var rest := AllCallsComplete(Apply(s, step));
      Chain(s, step, rest, Exec(Apply(s, step), rest));
      steps := [step] + rest;
    }
  }

  /** The step in which a call that has not been added yet is removed. */
  predicate RemovesTooEarly(s: System, step: Step, c: nat) {
    Enabled(s, step) && step.Advance? && s.pc == Dying(c) && c < |s.calls| && !s.calls[c].added
  }

  predicate SomeStepRemovesTooEarly(s: System, steps: seq<Step>, c: nat)
    requires IsRun(s, steps)
    decreases |steps|
  {
    steps != [] && (RemovesTooEarly(s, steps[0], c) || SomeStepRemovesTooEarly(Apply(s, steps[0]), steps[1..], c))
  }

  lemma DiedFirstStep(s: System, step: Step, c: nat)
    requires Inv(s) && Enabled(s, step) && Apply(s, step).Running?
    ensures var s' := Apply(s, step);
      (c < |s'.calls| && s'.calls[c].diedFirst) <==>
      (c < |s.calls| && s.calls[c].diedFirst) || RemovesTooEarly(s, step, c)
  {
    if step.Advance? {
      assert CallOk(s, s.pc.call);
      match s.pc
      case Finalizing(_) =>
      case Notifying(_) =>
      case Dying(_) =>
    }
  }

  lemma {:induction false} DiedFirstIff(s: System, steps: seq<Step>, c: nat)
    requires Inv(s) && s.Running? && IsRun(s, steps) && Exec(s, steps).Running?
    ensures var s' := Exec(s, steps);
      (c < |s'.calls| && s'.calls[c].diedFirst) <==>
      (c < |s.calls| && s.calls[c].diedFirst) || SomeStepRemovesTooEarly(s, steps, c)
    decreases |steps|
  {
    if steps != [] {
      var s' := Apply(s, steps[0]);
      StepKeepsInv(s, steps[0]);
      DiedFirstStep(s, steps[0], c);
      DiedFirstIff(s', steps[1..], c);
    }
  }

  /** Completed and still registered: nothing will remove the call any more. */
  predicate Leaked(s: System, c: nat) {
    s.Running? && c < |s.calls| && s.calls[c].dead && c in s.registry
  }

  lemma LeakedStep(s: System, step: Step, c: nat)
    requires Inv(s) && Leaked(s, c) && Enabled(s, step) && Apply(s, step).Running?
    ensures Leaked(Apply(s, step), c)
  {
    assert CallOk(s, c);
    if step.Advance? { assert CallOk(s, s.pc.call); }
  }

  lemma {:induction false} LeakedForever(s: System, steps: seq<Step>, c: nat)
    requires Inv(s) && Leaked(s, c) && IsRun(s, steps) && Exec(s, steps).Running?
    ensures Leaked(Exec(s, steps), c)
    decreases |steps|
  {
    if steps != [] {
      var s' := Apply(s, steps[0]);
      StepKeepsInv(s, steps[0]);
      LeakedStep(s, steps[0], c);
      LeakedForever(s', steps[1..], c);
    }
  }

  /** A completion that overtakes the user thread leaves its call in the registry. */
  lemma FastCompletionLeaks() returns (steps: seq<Step>)
    ensures IsRun(Init, steps) && Leaked(Exec(Init, steps), 0)
  {
    var event := Event(true, Ok, "");
    var s1 := Apply(Init, Create(Unary(false)));
    var s2 := Apply(s1, Deliver(0, event));
    var s3 := Apply(s2, Advance);
    var s4 := Apply(s3, Advance);
    var s5 := Apply(s4, Advance);
    var s6 := Apply(s5, Add(0));
    steps := [Create(Unary(false)), Deliver(0, event), Advance, Advance, Advance, Add(0)];
    Chain(s5, Add(0), [], s6);
    Chain(s4, Advance, [Add(0)], s6);
    Chain(s3, Advance, [Advance, Add(0)], s6);
    Chain(s2, Advance, [Advance, Advance, Add(0)], s6);
    Chain(s1, Deliver(0, event), [Advance, Advance, Advance, Add(0)], s6);
    Chain(Init, Create(Unary(false)), [Deliver(0, event), Advance, Advance, Advance, Add(0)], s6);
  }

  lemma Chain(s: System, step: Step, rest: seq<Step>, last: System)
    requires Enabled(s, step) && IsRun(Apply(s, step), rest) && Exec(Apply(s, step), rest) == last
    ensures IsRun(s, [step] + rest) && Exec(s, [step] + rest) == last
  {
    assert ([step] + rest)[1..] == rest;
  }
}
