/** AsyncUnaryCallHandler as the object it is: its finalizers allocate, fill and delete Call objects
    and post further actions. Each method does what the corresponding fragment of the transition
    system says, and keeps the invariant of that system. */
module UnaryCallClass {
  import opened Common
  import opened UnaryCallHandler

  /** The transition system with this handler, while the consumer thread is at pc. */
  function At(h: Handler, pc: Pc): System { System(h, pc, false, false) }

  /** A finalizer with everything it does before it returns; inlined says whether a dispatched handler
      function runs at once. */
  function AfterFinalize(
    f: Request -> Response, h: Handler, tag: Tag, ok: bool, request: Request, inlined: bool): Handler
    requires tag.call < |h.calls|
  {
    var after := Finalize(h, tag, ok, request);
    if !(tag.kind.ServiceRequest? && ok) then after
    else
      var dispatched := NewHandling(after, tag.call);
      if inlined then Perform(f, dispatched, tag.call) else dispatched
  }

  /** The tags a finalizer posts. */
  function PostedBy(h: Handler, tag: Tag, ok: bool, inlined: bool): multiset<Tag> {
    if !ok || tag.kind.FinishCall? then multiset{}
    else if tag.kind.Handling? then multiset{Tag(FinishCall, tag.call)}
    else if inlined then multiset{Tag(ServiceRequest, |h.calls|), Tag(Handling, tag.call)}
    else multiset{Tag(ServiceRequest, |h.calls|)}
  }

  function FinalizeSteps(tag: Tag, ok: bool, inlined: bool): seq<Step> {
    if tag.kind.ServiceRequest? && ok then [Advance(false), Advance(inlined), Advance(false)]
    else [Advance(false), Advance(false)]
  }

  function EventSteps(tag: Tag, ok: bool, request: Request, inlined: bool): seq<Step> {
    [Deliver(tag, ok, request)] + FinalizeSteps(tag, ok, inlined)
  }

  /** A dispatched call has not been handled before. */
  lemma RunsOnce(f: Request -> Response, h: Handler, pc: Pc, c: nat)
    requires Inv(f, At(h, pc)) && c < |h.calls| && h.calls[c].stage.Dispatched?
    ensures h.calls[c].request.Some? && h.calls[c].runs == 0 && h.outstanding[Tag(Handling, c)] == 0
    ensures Inv(f, At(Perform(f, h, c), pc))
  {
    assert CallOk(f, h.calls[c]);
    assert TagOk(At(h, pc), Tag(Handling, c));
    StepKeepsInv(f, At(h, pc), RunHandler(c));
  }

  /** What came with a completion matters only for a service request. */
  lemma RequestIgnored(f: Request -> Response, h: Handler, tag: Tag, ok: bool, request: Request)
    requires Inv(f, At(h, Finalizing(tag, ok, request)))
    ensures Inv(f, At(h, Finalizing(tag, ok, "")))
  {
    forall t: Tag ensures TagOk(At(h, Finalizing(tag, ok, "")), t) {
      assert TagOk(At(h, Finalizing(tag, ok, request)), t);
    }
  }

  lemma FinalizerPosts(f: Request -> Response, h: Handler, tag: Tag, ok: bool, request: Request, inlined: bool)
    requires tag.call < |h.calls|
    ensures AfterFinalize(f, h, tag, ok, request, inlined).outstanding == h.outstanding + PostedBy(h, tag, ok, inlined)
  {
    match tag.kind
    case ServiceRequest =>
    case Handling =>
    case FinishCall =>
  }

  /** What the completion of an action means for its call: an accepted request is stored and handled,
      at once or not yet; an alarm is answered with the function's response to the stored request; a
      completion that is not ok, or that of Finish, ends the call. */
  predicate CallAfter(
    f: Request -> Response, before: Call, after: Call, kind: Kind, ok: bool, request: Request, inlined: bool)
  {
    match kind
    case ServiceRequest =>
      && after.finished == [] && after.frees == Tally(!ok) && after.runs == Tally(ok && inlined)
      && after.request == (if ok then Some(request) else None)
      && (ok && inlined ==> after.response == f(request))
    case Handling =>
      && before.request.Some? && after.request == before.request && after.runs == 1 && after.frees == Tally(!ok)
      && after.finished == if ok then [f(before.request.value)] else []
    case FinishCall =>
      && before.request.Some? && after.request == before.request && after.runs == 1 && after.frees == 1
      && after.finished == [f(before.request.value)]
  }

  /** All calls but one are as before; at most a new one was added. */
  predicate OthersKept(before: seq<Call>, after: seq<Call>, c: nat) {
    |before| <= |after| && forall d :: 0 <= d < |before| && d != c ==> after[d] == before[d]
  }

  lemma FinalizerEffect(f: Request -> Response, h: Handler, tag: Tag, ok: bool, request: Request, inlined: bool)
    requires tag.call < |h.calls| && CallOk(f, h.calls[tag.call])
    requires PostedKind(h.calls[tag.call].stage) == Some(tag.kind)
    ensures var after, c := AfterFinalize(f, h, tag, ok, request, inlined), tag.call;
      && c < |after.calls| && OthersKept(h.calls, after.calls, c)
      && CallAfter(f, h.calls[c], after.calls[c], tag.kind, ok, request, inlined)
      && OwnerKind(after.calls[c].stage) != Some(tag.kind)
  {
    match tag.kind
    case ServiceRequest =>
    case Handling =>
    case FinishCall =>
  }

  /** Deleting the action of a call that has moved on leaves nothing of it. */
  lemma ActionGone(f: Request -> Response, h: Handler, tag: Tag)
    requires Inv(f, At(h, Deleting(tag)))
    requires tag.call < |h.calls| && OwnerKind(h.calls[tag.call].stage) != Some(tag.kind)
    ensures h.actions[tag] == 1 && Inv(f, At(h.(actions := h.actions - multiset{tag}), Waiting))
  {
    assert TagOk(At(h, Deleting(tag)), tag);
    StepKeepsInv(f, At(h, Deleting(tag)), Advance(false));
  }

  class AsyncUnaryCallHandler {
    const handleFunc: Request -> Response
    /** All the Call objects allocated so far; a call is known by its index. */
    var calls: seq<Call>
    /** The live action objects, and those of them the completion queue still has. */
    var actions: multiset<Tag>
    var outstanding: multiset<Tag>

    ghost function View(): Handler
      reads this
    {
      Handler(calls, actions, outstanding)
    }

    constructor (f: Request -> Response)
      ensures handleFunc == f && View() == Init.h && ValidAt(Waiting)
    {
      handleFunc := f;
      calls, actions, outstanding := [], multiset{}, multiset{};
      new;
      NewCallRequest();
    }

    method NewAction(tag: Tag)
      modifies this`actions
      ensures View() == Allocate(old(View()), tag)
    {
      actions := actions + multiset{tag};
    }

    method PostAction(tag: Tag)
      modifies this`outstanding
      ensures View() == Post(old(View()), tag)
    {
      outstanding := outstanding + multiset{tag};
    }

    method NewCallRequest()
      modifies this
      ensures View() == UnaryCallHandler.NewCallRequest(old(View()))
    {
      var tag := Tag(ServiceRequest, |calls|);
      calls := calls + [NewCall];
      NewAction(tag);
      PostAction(tag);
    }

    /** The handler is as the transition system has it while the consumer thread is at pc. */
    ghost predicate ValidAt(pc: Pc)
      reads this
    {
      Inv(handleFunc, At(View(), pc))
    }

    /** perform() of a CallHandlingAction, wherever it is dispatched to: the call is handled now, for
        the first time, and its alarm is on the queue. */
    method PerformHandling(c: nat, ghost pc: Pc)
      requires ValidAt(pc) && c < |calls| && calls[c].stage.Dispatched?
      modifies this
      ensures ValidAt(pc) && View() == Perform(handleFunc, old(View()), c)
      ensures calls[c].runs == 1 && calls[c].response == handleFunc(old(calls)[c].request.value)
      ensures outstanding[Tag(Handling, c)] == 1 && old(outstanding)[Tag(Handling, c)] == 0
    {
      RunsOnce(handleFunc, View(), pc, c);
      var response := handleFunc(calls[c].request.value);
      calls := calls[c := calls[c].(stage := Handled, response := response, runs := calls[c].runs + 1)];
      PostAction(Tag(Handling, c));
    }

    method DeleteCallObject(c: nat)
      requires c < |calls|
      modifies this`calls
      ensures View() == DeleteCall(old(View()), c)
    {
      calls := calls[c := calls[c].(stage := Freed, frees := calls[c].frees + 1)];
    }

    /** With ok, gRPC has filled in the request: the next request is posted, and the call dispatched;
        inlined says whether its function runs at once. Without, the call is deleted, once. */
    method FinalizeCallRequest(c: nat, ok: bool, request: Request, inlined: bool)
      requires ValidAt(Finalizing(Tag(ServiceRequest, c), ok, request))
      modifies this
      ensures ValidAt(Deleting(Tag(ServiceRequest, c))) && c < |calls|
      ensures View() == AfterFinalize(handleFunc, old(View()), Tag(ServiceRequest, c), ok, request, inlined)
      ensures ok ==> |calls| == |old(calls)| + 1 && outstanding[Tag(ServiceRequest, |old(calls)|)] == 1
      ensures ok ==> calls[c].request == Some(request) && calls[c].frees == 0
      ensures ok && inlined ==> calls[c].runs == 1 && calls[c].response == handleFunc(request)
      ensures ok && !inlined ==> calls[c].stage.Dispatched? && calls[c].runs == 0
      ensures !ok ==> calls[c].frees == 1 && |calls| == |old(calls)|
    {
      ghost var s := At(View(), Finalizing(Tag(ServiceRequest, c), ok, request));
      StepKeepsInv(handleFunc, s, Advance(false));
      if ok {
        ghost var accepted := Apply(handleFunc, s, Advance(false));
        StepKeepsInv(handleFunc, accepted, Advance(false));
        ghost var dispatched := Apply(handleFunc, accepted, Advance(false));
        assert TagOk(dispatched, Tag(ServiceRequest, |calls|));
        calls := calls[c := calls[c].(stage := Accepted, request := Some(request))];
        NewCallRequest();
        calls := calls[c := calls[c].(stage := Dispatched)];
        NewAction(Tag(Handling, c));
        assert View() == dispatched.h;
        if inlined { PerformHandling(c, Deleting(Tag(ServiceRequest, c))); }
      } else {
        DeleteCallObject(c);
      }
      assert CallOk(handleFunc, calls[c]);
    }

    /** With ok, Finish is posted with what the function returned for this request; without, the call
        is deleted, once. */
    method FinalizeCallHandling(c: nat, ok: bool)
      requires ValidAt(Finalizing(Tag(Handling, c), ok, ""))
      modifies this
      ensures ValidAt(Deleting(Tag(Handling, c))) && c < |calls|
      ensures View() == if ok then NewFinish(old(View()), c) else DeleteCall(old(View()), c)
      ensures calls[c].request.Some? && calls[c].runs == 1
      ensures ok ==> calls[c].finished == [handleFunc(calls[c].request.value)] && outstanding[Tag(FinishCall, c)] == 1
      ensures !ok ==> calls[c].finished == [] && calls[c].frees == 1
    {
      ghost var s := At(View(), Finalizing(Tag(Handling, c), ok, ""));
      StepKeepsInv(handleFunc, s, Advance(false));
      assert CallOk(handleFunc, calls[c]);
      if ok {
        var tag := Tag(FinishCall, c);
        calls := calls[c := calls[c].(stage := Finishing, finished := calls[c].finished + [calls[c].response])];
        NewAction(tag);
        PostAction(tag);
      } else {
        DeleteCallObject(c);
      }
      assert TagOk(At(View(), Deleting(Tag(Handling, c))), Tag(FinishCall, c));
    }

    /** The call, for which Finish was called once, is deleted, once, whatever ok is. */
    method FinalizeCallFinish(c: nat, ok: bool)
      requires ValidAt(Finalizing(Tag(FinishCall, c), ok, ""))
      modifies this
      ensures ValidAt(Deleting(Tag(FinishCall, c))) && c < |calls|
      ensures View() == DeleteCall(old(View()), c)
      ensures calls[c].request.Some? && calls[c].finished == [handleFunc(calls[c].request.value)] && calls[c].frees == 1
    {
      ghost var s := At(View(), Finalizing(Tag(FinishCall, c), ok, ""));
      StepKeepsInv(handleFunc, s, Advance(false));
      assert CallOk(handleFunc, calls[c]);
      DeleteCallObject(c);
    }

    /** The queue's finalizeResult: run the finalizer of the tag and delete the action. Afterwards the
        handler is as it should be between two events, nothing is left of the action, and the call
        was deleted exactly if it went no further. */
    method FinalizeTag(tag: Tag, ok: bool, request: Request, inlined: bool)
      requires ValidAt(Finalizing(tag, ok, request))
      modifies this
      ensures ValidAt(Waiting) && tag.call < |calls| && tag.call < |old(calls)|
      ensures var after := AfterFinalize(handleFunc, old(View()), tag, ok, request, inlined);
        View() == after.(actions := after.actions - multiset{tag})
      ensures outstanding == old(outstanding) + PostedBy(old(View()), tag, ok, inlined)
      ensures actions[tag] == 0 && calls[tag.call].frees == if ok && !tag.kind.FinishCall? then 0 else 1
      ensures OthersKept(old(calls), calls, tag.call)
      ensures CallAfter(handleFunc, old(calls)[tag.call], calls[tag.call], tag.kind, ok, request, inlined)
    {
      RequestIgnored(handleFunc, View(), tag, ok, request);
      FinalizerPosts(handleFunc, View(), tag, ok, request, inlined);
      FinalizerEffect(handleFunc, View(), tag, ok, request, inlined);
      match tag.kind {
        case ServiceRequest => FinalizeCallRequest(tag.call, ok, request, inlined);
        case Handling => FinalizeCallHandling(tag.call, ok);
        case FinishCall => FinalizeCallFinish(tag.call, ok);
      }
      ActionGone(handleFunc, View(), tag);
      actions := actions - multiset{tag};
    }

    /** One event of the queue, from between two events to between two events. */
    method HandleEvent(tag: Tag, ok: bool, request: Request, inlined: bool)
      requires ValidAt(Waiting) && tag in outstanding
      modifies this
      ensures ValidAt(Waiting) && actions[tag] == 0
      ensures outstanding == old(outstanding) - multiset{tag} + PostedBy(old(View()), tag, ok, inlined)
      ensures tag.call < |calls| && tag.call < |old(calls)| && OthersKept(old(calls), calls, tag.call)
      ensures CallAfter(handleFunc, old(calls)[tag.call], calls[tag.call], tag.kind, ok, request, inlined)
      ensures IsRun(handleFunc, At(old(View()), Waiting), EventSteps(tag, ok, request, inlined))
      ensures Exec(handleFunc, At(old(View()), Waiting), EventSteps(tag, ok, request, inlined)) == At(View(), Waiting)
    {
      StepKeepsInv(handleFunc, At(View(), Waiting), Deliver(tag, ok, request));
      EventIsARun(handleFunc, View(), tag, ok, request, inlined);
      outstanding := outstanding - multiset{tag};
      FinalizeTag(tag, ok, request, inlined);
    }
  }

  /** FinalizeTag is what the consumer thread does between two events of the queue: three steps of the
      transition system for an accepted call, two for every other completion. */
  lemma FinalizeTagIsARun(f: Request -> Response, s: System, inlined: bool)
    requires s.pc.Finalizing? && s.pc.tag.call < |s.h.calls|
    ensures var tag, ok := s.pc.tag, s.pc.ok;
      var after := AfterFinalize(f, s.h, tag, ok, s.pc.request, inlined);
      var steps := FinalizeSteps(tag, ok, inlined);
      && IsRun(f, s, steps)
      && Exec(f, s, steps) == s.(h := after.(actions := after.actions - multiset{tag}), pc := Waiting)
  {
    var tag := s.pc.tag;
    var s1 := Apply(f, s, Advance(false));
    if tag.kind.ServiceRequest? && s.pc.ok {
      var s2 := Apply(f, s1, Advance(inlined));
      var s3 := Apply(f, s2, Advance(false));
      var steps := [Advance(false), Advance(inlined), Advance(false)];
      assert steps[1..] == [Advance(inlined), Advance(false)] && steps[1..][1..] == [Advance(false)];
      assert steps[1..][1..][1..] == [];
      assert IsRun(f, s3, []) && Exec(f, s3, []) == s3;
      assert IsRun(f, s2, steps[1..][1..]) && Exec(f, s2, steps[1..][1..]) == s3;
      assert IsRun(f, s1, steps[1..]) && Exec(f, s1, steps[1..]) == s3;
    } else {
      var s2 := Apply(f, s1, Advance(false));
      var steps := [Advance(false), Advance(false)];
      assert steps[1..] == [Advance(false)] && steps[1..][1..] == [];
      assert IsRun(f, s2, []) && Exec(f, s2, []) == s2;
      assert IsRun(f, s1, steps[1..]) && Exec(f, s1, steps[1..]) == s2;
    }
  }

  /** One event of the queue, with everything the consumer thread does about it. */
  lemma EventIsARun(f: Request -> Response, h: Handler, tag: Tag, ok: bool, request: Request, inlined: bool)
    requires tag in h.outstanding && tag.call < |h.calls|
    ensures var s, steps := At(h, Waiting), EventSteps(tag, ok, request, inlined);
      var after := AfterFinalize(f, h.(outstanding := h.outstanding - multiset{tag}), tag, ok, request, inlined);
      && IsRun(f, s, steps)
      && Exec(f, s, steps) == At(after.(actions := after.actions - multiset{tag}), Waiting)
  {
    var s, steps := At(h, Waiting), EventSteps(tag, ok, request, inlined);
    var s1 := Apply(f, s, Deliver(tag, ok, request));
    assert steps[1..] == FinalizeSteps(tag, ok, inlined);
    FinalizeTagIsARun(f, s1, inlined);
  }
}
