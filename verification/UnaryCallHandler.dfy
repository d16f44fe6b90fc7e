/** AsyncUnaryCallHandler on its completion queue: a Call is requested, accepted, handled, finished
    and freed by finalizers that post further actions, and every accepted call arms the next
    request. The handler function runs inline in the finalizer or later on another thread. */
module UnaryCallHandler {
  import opened Common

  type Request = string
  type Response = string

  datatype Stage = Requested | Accepted | Dispatched | Handled | Finishing | Freed

  /** A Call object. request is filled in by gRPC when the request completes with ok; the last
      three fields count what was done with the object: how often the handler function ran, what
      was passed to Finish, how often it was deleted. */
  datatype Call = Call(
    stage: Stage,
    request: Option<Request>,
    response: Response,
    runs: nat,
    finished: seq<Response>,
    frees: nat)

  const NewCall := Call(Requested, None, "", 0, [], 0)

  datatype Kind = ServiceRequest | Handling | FinishCall

  /** An action object, which is also its tag on the queue. */
  datatype Tag = Tag(kind: Kind, call: nat)

  /** calls lists all the Call objects ever allocated; actions holds the allocated action objects
      and outstanding the tags the completion queue has not returned. */
  datatype Handler = Handler(calls: seq<Call>, actions: multiset<Tag>, outstanding: multiset<Tag>)

  // ---- The program's fragments ----

  function Allocate(h: Handler, tag: Tag): Handler {
    h.(actions := h.actions + multiset{tag})
  }

  function Post(h: Handler, tag: Tag): Handler {
    h.(outstanding := h.outstanding + multiset{tag})
  }

  function NewCallRequest(h: Handler): Handler {
    var tag := Tag(ServiceRequest, |h.calls|);
    Post(Allocate(h.(calls := h.calls + [NewCall]), tag), tag)
  }

  /** The first half of finalizeCallRequest with ok: the next request is armed. */
  function Accept(h: Handler, c: nat, request: Request): Handler
    requires c < |h.calls|
  {
    NewCallRequest(h.(calls := h.calls[c := h.calls[c].(stage := Accepted, request := Some(request))]))
  }

  /** Constructing a CallHandlingAction, up to the dispatch of perform(). */
  function NewHandling(h: Handler, c: nat): Handler
    requires c < |h.calls|
  {
    Allocate(h.(calls := h.calls[c := h.calls[c].(stage := Dispatched)]), Tag(Handling, c))
  }

  /** perform(): the handler function runs and the alarm is set. */
  function Perform(f: Request -> Response, h: Handler, c: nat): Handler
    requires c < |h.calls| && h.calls[c].request.Some?
  {
    var call := h.calls[c];
    Post(h.(calls := h.calls[c := call.(stage := Handled, response := f(call.request.value), runs := call.runs + 1)]),
         Tag(Handling, c))
  }

  function NewFinish(h: Handler, c: nat): Handler
    requires c < |h.calls|
  {
    var call := h.calls[c];
    var tag := Tag(FinishCall, c);
    var finishing := call.(stage := Finishing, finished := call.finished + [call.response]);
    Post(Allocate(h.(calls := h.calls[c := finishing]), tag), tag)
  }

  function DeleteCall(h: Handler, c: nat): Handler
    requires c < |h.calls|
  {
    h.(calls := h.calls[c := h.calls[c].(stage := Freed, frees := h.calls[c].frees + 1)])
  }

  // ---- The system ----

  /** Where the consumer thread of the queue is. */
  datatype Pc =
    | Waiting
    | Finalizing(tag: Tag, ok: bool, request: Request)
    | Accepting(call: nat)    // the next request is armed, the CallHandlingAction is not constructed yet
    | Deleting(tag: Tag)      // finalizeResult has returned, the action is about to be deleted

  datatype System = System(h: Handler, pc: Pc, shutdown: bool, down: bool)

  datatype Step =
    | Deliver(tag: Tag, ok: bool, request: Request)
    | Advance(inlined: bool)      // inlined: whether dispatch runs perform() at once
    | RunHandler(call: nat)       // a dispatched perform() runs on some thread
    | CallShutdown
    | ReportShutdown

  const Init := System(NewCallRequest(Handler([], multiset{}, multiset{})), Waiting, false, false)

  predicate Enabled(s: System, step: Step) {
    match step
    case Deliver(tag, _, _) => s.pc.Waiting? && !s.down && tag in s.h.outstanding
    case Advance(_) =>
      (match s.pc
       case Waiting => false
       case Finalizing(tag, _, _) => tag.call < |s.h.calls|
       case Accepting(c) => c < |s.h.calls| && s.h.calls[c].request.Some?
       case Deleting(_) => true)
    case RunHandler(c) => c < |s.h.calls| && s.h.calls[c].stage.Dispatched? && s.h.calls[c].request.Some?
    case CallShutdown => !s.shutdown
    case ReportShutdown => s.pc.Waiting? && s.shutdown && !s.down && s.h.outstanding == multiset{}
  }

  function Finalize(h: Handler, tag: Tag, ok: bool, request: Request): Handler
    requires tag.call < |h.calls|
  {
    match tag.kind
    case ServiceRequest => if ok then Accept(h, tag.call, request) else DeleteCall(h, tag.call)
    case Handling => if ok then NewFinish(h, tag.call) else DeleteCall(h, tag.call)
    case FinishCall => DeleteCall(h, tag.call)
  }

  function Apply(f: Request -> Response, s: System, step: Step): System
    requires Enabled(s, step)
  {
    match step
    case Deliver(tag, ok, request) =>
      s.(h := s.h.(outstanding := s.h.outstanding - multiset{tag}), pc := Finalizing(tag, ok, request))
    case Advance(inlined) =>
      (match s.pc
       case Finalizing(tag, ok, request) =>
         s.(h := Finalize(s.h, tag, ok, request),
            pc := if tag.kind.ServiceRequest? && ok then Accepting(tag.call) else Deleting(tag))
       case Accepting(c) =>
         var h := NewHandling(s.h, c);
         s.(h := if inlined then Perform(f, h, c) else h, pc := Deleting(Tag(ServiceRequest, c)))
       case Deleting(tag) => s.(h := s.h.(actions := s.h.actions - multiset{tag}), pc := Waiting))
    case RunHandler(c) => s.(h := Perform(f, s.h, c))
    case CallShutdown => s.(shutdown := true)
    case ReportShutdown => s.(down := true)
  }

  predicate IsRun(f: Request -> Response, s: System, steps: seq<Step>)
    decreases |steps|
  {
    steps == [] || (Enabled(s, steps[0]) && IsRun(f, Apply(f, s, steps[0]), steps[1..]))
  }

  function Exec(f: Request -> Response, s: System, steps: seq<Step>): System
    requires IsRun(f, s, steps)
    decreases |steps|
  {
    if steps == [] then s else Exec(f, Apply(f, s, steps[0]), steps[1..])
  }

  // ---- The invariant ----

  /** What was done with a Call, by its stage. */
  predicate CallOk(f: Request -> Response, call: Call) {
    match call.stage
    case Requested => call == NewCall
    case Accepted => call.request.Some? && call.runs == 0 && call.finished == [] && call.frees == 0
    case Dispatched => call.request.Some? && call.runs == 0 && call.finished == [] && call.frees == 0
    case Handled => HandledOnce(f, call) && call.finished == [] && call.frees == 0
    case Finishing => HandledOnce(f, call) && call.finished == [call.response] && call.frees == 0
    case Freed =>
      && call.frees == 1
      && (call.request.None? ==> call.runs == 0 && call.finished == [])
      && (call.request.Some? ==> HandledOnce(f, call) && (call.finished == [] || call.finished == [call.response]))
  }

  predicate HandledOnce(f: Request -> Response, call: Call) {
    call.request.Some? && call.runs == 1 && call.response == f(call.request.value)
  }

  /** The kind of tag a call in this stage has on the queue. */
  function PostedKind(stage: Stage): Option<Kind> {
    match stage
    case Requested => Some(ServiceRequest)
    case Handled => Some(Handling)
    case Finishing => Some(FinishCall)
    case _ => None
  }

  /** The kind of the action object that is responsible for a call in this stage. */
  function OwnerKind(stage: Stage): Option<Kind> {
    if stage.Dispatched? then Some(Handling) else PostedKind(stage)
  }

  predicate Posted(s: System, tag: Tag) {
    && tag.call < |s.h.calls| && PostedKind(s.h.calls[tag.call].stage) == Some(tag.kind)
    && !(s.pc.Finalizing? && s.pc.tag == tag)
  }

  predicate Owns(s: System, tag: Tag) {
    tag.call < |s.h.calls| && OwnerKind(s.h.calls[tag.call].stage) == Some(tag.kind)
  }

  /** The action whose finalizer has already passed the call on. */
  predicate Spent(s: System, tag: Tag) {
    s.pc == Deleting(tag) || (s.pc.Accepting? && tag == Tag(ServiceRequest, s.pc.call))
  }

  ghost predicate CallsOk(f: Request -> Response, s: System) {
    && |s.h.calls| > 0
    && (forall c :: 0 <= c < |s.h.calls| ==> CallOk(f, s.h.calls[c]))
    && (forall c :: 0 <= c < |s.h.calls| ==> (s.h.calls[c].request.None? <==> c == |s.h.calls| - 1))
    && (forall c :: 0 <= c < |s.h.calls| ==> (s.h.calls[c].stage.Accepted? <==> s.pc == Accepting(c)))
  }

  ghost predicate PcOk(s: System) {
    match s.pc
    case Finalizing(tag, _, _) =>
      tag.call < |s.h.calls| && PostedKind(s.h.calls[tag.call].stage) == Some(tag.kind) && !s.down
    case Accepting(c) => c < |s.h.calls| && s.h.calls[c].stage.Accepted? && !s.down
    case Deleting(_) => !s.down
    case Waiting => true
  }

  predicate TagOk(s: System, tag: Tag) {
    && s.h.outstanding[tag] == Tally(Posted(s, tag))
    && s.h.actions[tag] == Tally(Owns(s, tag)) + Tally(Spent(s, tag))
  }

  ghost predicate TagsOk(s: System) { forall tag :: TagOk(s, tag) }

  ghost predicate Inv(f: Request -> Response, s: System) {
    CallsOk(f, s) && PcOk(s) && TagsOk(s)
  }

  // ---- Every step keeps it ----

  ghost predicate StillOk(f: Request -> Response, s: System, tag: Tag) {
    CallsOk(f, s) && PcOk(s) && TagOk(s, tag)
  }

  lemma DeliverOk(f: Request -> Response, s: System, step: Step, tag: Tag)
    requires Inv(f, s) && Enabled(s, step) && step.Deliver?
    ensures StillOk(f, Apply(f, s, step), tag)
  {
    assert TagOk(s, tag) && TagOk(s, step.tag);
  }

  lemma AcceptOk(f: Request -> Response, s: System, step: Step, tag: Tag)
    requires Inv(f, s) && Enabled(s, step) && step.Advance? && s.pc.Finalizing?
    requires s.pc.tag.kind.ServiceRequest? && s.pc.ok
    ensures StillOk(f, Apply(f, s, step), tag)
  {
    assert TagOk(s, tag);
  }

  lemma FreeOk(f: Request -> Response, s: System, step: Step, tag: Tag)
    requires Inv(f, s) && Enabled(s, step) && step.Advance? && s.pc.Finalizing?
    requires s.pc.tag.kind.FinishCall? || !s.pc.ok
    ensures StillOk(f, Apply(f, s, step), tag)
  {
    assert TagOk(s, tag);
    assert Apply(f, s, step).h == DeleteCall(s.h, s.pc.tag.call);
  }

  lemma FinishOk(f: Request -> Response, s: System, step: Step, tag: Tag)
    requires Inv(f, s) && Enabled(s, step) && step.Advance? && s.pc.Finalizing?
    requires s.pc.tag.kind.Handling? && s.pc.ok
    ensures StillOk(f, Apply(f, s, step), tag)
  {
    assert TagOk(s, tag);
    assert Apply(f, s, step).h == NewFinish(s.h, s.pc.tag.call);
  }

  lemma DispatchOk(f: Request -> Response, s: System, step: Step, tag: Tag)
    requires Inv(f, s) && Enabled(s, step) && step.Advance? && s.pc.Accepting?
    ensures StillOk(f, Apply(f, s, step), tag)
  {
    assert TagOk(s, tag);
    var h := NewHandling(s.h, s.pc.call);
    assert Apply(f, s, step).h == if step.inlined then Perform(f, h, s.pc.call) else h;
  }

  lemma QuietOk(f: Request -> Response, s: System, step: Step, tag: Tag)
    requires Inv(f, s) && Enabled(s, step)
    requires (step.Advance? && s.pc.Deleting?) || step.CallShutdown? || step.ReportShutdown?
    ensures StillOk(f, Apply(f, s, step), tag)
  {
    assert TagOk(s, tag);
  }

  lemma RunOk(f: Request -> Response, s: System, step: Step, tag: Tag)
    requires Inv(f, s) && Enabled(s, step) && step.RunHandler?
    ensures StillOk(f, Apply(f, s, step), tag)
  {
    assert TagOk(s, tag);
  }

  lemma StepOk(f: Request -> Response, s: System, step: Step, tag: Tag)
    requires Inv(f, s) && Enabled(s, step)
    ensures StillOk(f, Apply(f, s, step), tag)
  {
    match step
    case Deliver(_, _, _) => DeliverOk(f, s, step, tag);
    case RunHandler(_) => RunOk(f, s, step, tag);
    case CallShutdown => QuietOk(f, s, step, tag);
    case ReportShutdown => QuietOk(f, s, step, tag);
    case Advance(_) =>
      match s.pc
      case Finalizing(t, ok, _) =>
        if !ok || t.kind.FinishCall? { FreeOk(f, s, step, tag); }
        else if t.kind.Handling? { FinishOk(f, s, step, tag); }
        else { AcceptOk(f, s, step, tag); }
      case Accepting(_) => DispatchOk(f, s, step, tag);
      case Deleting(_) => QuietOk(f, s, step, tag);
  }

  lemma StepKeepsInv(f: Request -> Response, s: System, step: Step)
    requires Inv(f, s) && Enabled(s, step)
    ensures Inv(f, Apply(f, s, step))
  {
    StepOk(f, s, step, Tag(ServiceRequest, 0));
    forall tag: Tag ensures TagOk(Apply(f, s, step), tag) { StepOk(f, s, step, tag); }
  }

  lemma {:induction false} RunKeepsInv(f: Request -> Response, s: System, steps: seq<Step>)
    requires Inv(f, s) && IsRun(f, s, steps)
    ensures Inv(f, Exec(f, s, steps))
    decreases |steps|
  {
    if steps != [] {
      StepKeepsInv(f, s, steps[0]);
      RunKeepsInv(f, Apply(f, s, steps[0]), steps[1..]);
    }
  }

  lemma InitInv(f: Request -> Response)
    ensures Inv(f, Init)
  {
  }

  lemma ReachableInv(f: Request -> Response, steps: seq<Step>)
    requires IsRun(f, Init, steps)
    ensures Inv(f, Exec(f, Init, steps))
  {
    InitInv(f);
    RunKeepsInv(f, Init, steps);
  }
}
