/** AsyncClientStreamCallHandler and its readers: the second accept chain of the server, and how
    often a reader is deleted, which depends on how moveNext is called. */
module StreamCallHandler {
  import opened Common

  datatype Stage = Pending | Active | Deleted

  /** deletes counts how often delete was called on the reader, left how often it left the
      pending or active class. */
  datatype Reader = Reader(stage: Stage, deletes: nat, left: nat)

  /** A ReadAction, whose tag is outstanding until its promise holds a result. */
  datatype Read = Read(reader: nat, result: Option<bool>)

  /** readers and readActions list all that were ever allocated; requests holds the readers whose
      RequestStreamAction the completion queue has not returned. */
  datatype Handler = Handler(
    readers: seq<Reader>,
    streamReaders: set<nat>,
    requests: set<nat>,
    readActions: seq<Read>)

  // ---- The program's fragments ----

  /** Constructing a RequestStreamAction allocates the reader of the next call. */
  function NewRequest(h: Handler): Handler {
    h.(readers := h.readers + [Reader(Pending, 0, 0)], requests := h.requests + {|h.readers|})
  }

  function Delete(h: Handler, r: nat): Handler
    requires r < |h.readers|
  {
    var reader := h.readers[r];
    h.(readers := h.readers[r := Reader(Deleted, reader.deletes + 1,
                                        if reader.stage.Deleted? then reader.left else reader.left + 1)])
  }

  function OnNewStreamReaderReady(h: Handler, r: nat): Handler
    requires r < |h.readers|
  {
    var armed := NewRequest(h);
    armed.(streamReaders := armed.streamReaders + {r},
           readers := armed.readers[r := armed.readers[r].(stage := Active)])
  }

  function OnStreamReaderFinished(h: Handler, r: nat): Handler
    requires r < |h.readers|
  {
    Delete(h.(streamReaders := h.streamReaders - {r}), r)
  }

  function NewRead(h: Handler, r: nat): Handler {
    h.(readActions := h.readActions + [Read(r, None)])
  }

  function SetResult(h: Handler, i: nat, ok: bool): Handler
    requires i < |h.readActions|
  {
    h.(readActions := h.readActions[i := Read(h.readActions[i].reader, Some(ok))])
  }

  const Init := NewRequest(Handler([], {}, {}, []))

  datatype Step =
    | RequestDone(r: nat, ok: bool)
    | MoveNext(r: nat)               // the user of a reader posts a read
    | ReadDone(i: nat, ok: bool)

  predicate Enabled(h: Handler, step: Step) {
    match step
    case RequestDone(r, _) => r < |h.readers| && r in h.requests
    case MoveNext(r) => r < |h.readers|
    case ReadDone(i, _) => i < |h.readActions| && h.readActions[i].result.None? && h.readActions[i].reader < |h.readers|
  }

  function Apply(h: Handler, step: Step): Handler
    requires Enabled(h, step)
  {
    match step
    case RequestDone(r, ok) =>
      var done := h.(requests := h.requests - {r});
      if ok then OnNewStreamReaderReady(done, r) else Delete(done, r)
    case MoveNext(r) => NewRead(h, r)
    case ReadDone(i, ok) =>
      var done := SetResult(h, i, ok);
      if ok then done else OnStreamReaderFinished(done, h.readActions[i].reader)
  }

  predicate IsRun(h: Handler, steps: seq<Step>)
    decreases |steps|
  {
    steps == [] || (Enabled(h, steps[0]) && IsRun(Apply(h, steps[0]), steps[1..]))
  }

  function Exec(h: Handler, steps: seq<Step>): Handler
    requires IsRun(h, steps)
    decreases |steps|
  {
    if steps == [] then h else Exec(Apply(h, steps[0]), steps[1..])
  }

  // ---- Reads ----

  function Unreturned(r: nat): Read -> nat {
    (read: Read) => Tally(read.reader == r && read.result.None?)
  }

  function Failed(r: nat): Read -> nat {
    (read: Read) => Tally(read.reader == r && read.result == Some(false))
  }

  function PendingReads(h: Handler, r: nat): nat { SumOf(h.readActions, Unreturned(r)) }

  function FailedReads(h: Handler, r: nat): nat { SumOf(h.readActions, Failed(r)) }

  /** The step in which a read of r comes back. */
  predicate Returns(h: Handler, step: Step, r: nat)
    requires Enabled(h, step)
  {
    step.ReadDone? && h.readActions[step.i].reader == r
  }

  lemma ReadsShape(h: Handler, step: Step, r: nat)
    requires Enabled(h, step)
    ensures var h' := Apply(h, step);
      && PendingReads(h', r) + Tally(Returns(h, step, r)) == PendingReads(h, r) + Tally(step == MoveNext(r))
      && FailedReads(h', r) == FailedReads(h, r) + Tally(Returns(h, step, r) && !step.ok)
      && (Returns(h, step, r) ==> PendingReads(h, r) > 0)
  {
    match step
    case RequestDone(_, _) =>
    case MoveNext(q) =>
      SumAppend(h.readActions, Read(q, None), Unreturned(r));
      SumAppend(h.readActions, Read(q, None), Failed(r));
    case ReadDone(i, ok) =>
      var read := Read(h.readActions[i].reader, Some(ok));
      SumUpdate(h.readActions, i, read, Unreturned(r));
      SumUpdate(h.readActions, i, read, Failed(r));
      SumAtLeast(h.readActions, i, Unreturned(r));
  }

  /** The future of a read, once it is ready, keeps its result. */
  lemma {:induction false} FutureIsFinal(h: Handler, steps: seq<Step>, i: nat)
    requires IsRun(h, steps) && i < |h.readActions| && h.readActions[i].result.Some?
    ensures i < |Exec(h, steps).readActions| && Exec(h, steps).readActions[i] == h.readActions[i]
    decreases |steps|
  {
    if steps != [] { FutureIsFinal(Apply(h, steps[0]), steps[1..], i); }
  }

  /** The readers moveNext was called on, in that order. */
  function Moves(steps: seq<Step>): seq<nat>
    decreases |steps|
  {
    if steps == [] then [] else (if steps[0].MoveNext? then [steps[0].r] else []) + Moves(steps[1..])
  }

  function ReadersOf(readActions: seq<Read>): seq<nat> {
    seq(|readActions|, i requires 0 <= i < |readActions| => readActions[i].reader)
  }

  predicate Holds(h: Handler, i: nat, ok: bool) {
    i < |h.readActions| && h.readActions[i].result == Some(ok)
  }

  lemma FutureStep(h: Handler, step: Step, i: nat, ok: bool)
    requires Enabled(h, step)
    ensures Holds(Apply(h, step), i, ok) <==> Holds(h, i, ok) || step == ReadDone(i, ok)
    ensures ReadersOf(Apply(h, step).readActions) ==
      ReadersOf(h.readActions) + if step.MoveNext? then [step.r] else []
  {
  }

  lemma {:induction false} FuturesRun(h: Handler, steps: seq<Step>, i: nat, ok: bool)
    requires IsRun(h, steps)
    ensures Holds(Exec(h, steps), i, ok) <==> Holds(h, i, ok) || ReadDone(i, ok) in steps
    ensures ReadersOf(Exec(h, steps).readActions) == ReadersOf(h.readActions) + Moves(steps)
    decreases |steps|
  {
    if steps != [] {
      FutureStep(h, steps[0], i, ok);
      FuturesRun(Apply(h, steps[0]), steps[1..], i, ok);
    }
  }

  /** In every run the i-th call of moveNext made the i-th read, on that reader, and its future holds
      exactly what the completion queue returned for it. */
  lemma FutureIsWhatCameBack(steps: seq<Step>, i: nat, ok: bool)
    requires IsRun(Init, steps)
    ensures var h := Exec(Init, steps);
      && (Holds(h, i, ok) <==> ReadDone(i, ok) in steps)
      && |h.readActions| == |Moves(steps)|
      && (i < |Moves(steps)| ==> h.readActions[i].reader == Moves(steps)[i])
  {
    FuturesRun(Init, steps, i, ok);
    var h := Exec(Init, steps);
    assert ReadersOf(h.readActions) == Moves(steps);
    assert i < |h.readActions| ==> ReadersOf(h.readActions)[i] == h.readActions[i].reader;
  }

  // ---- What becomes of a reader, however moveNext is called ----

  /** A reader joins the handler's set when its request is accepted, and leaves it when a read fails. */
  lemma ReaderSetStep(h: Handler, step: Step, r: nat)
    requires Enabled(h, step)
    ensures r in Apply(h, step).streamReaders <==>
      step == RequestDone(r, true) || (r in h.streamReaders && !(Returns(h, step, r) && !step.ok))
  {
  }

  function Deletes(h: Handler, r: nat): nat { if r < |h.readers| then h.readers[r].deletes else 0 }

  function RefusesReader(r: nat): Step -> nat { step => Tally(step == RequestDone(r, false)) }

  lemma DeletesShape(h: Handler, step: Step, r: nat)
    requires Enabled(h, step)
    ensures Deletes(Apply(h, step), r) ==
      Deletes(h, r) + Tally(Returns(h, step, r) && !step.ok) + RefusesReader(r)(step)
  {
  }

  /** In every run a reader is deleted once for each of its reads whose future holds false, and once
      if its request was refused, and never else. */
  lemma {:induction false} DeletesAccounted(h: Handler, steps: seq<Step>, r: nat)
    requires IsRun(h, steps)
    ensures var h' := Exec(h, steps);
      Deletes(h', r) + FailedReads(h, r) == Deletes(h, r) + FailedReads(h', r) + SumOf(steps, RefusesReader(r))
    decreases |steps|
  {
    if steps != [] {
      ReadsShape(h, steps[0], r);
      DeletesShape(h, steps[0], r);
      DeletesAccounted(Apply(h, steps[0]), steps[1..], r);
      SumOfTail(steps, RefusesReader(r));
    }
  }

  // ---- The accept chain, however the readers are used ----

  predicate Refuses(step: Step) { step.RequestDone? && !step.ok }

  predicate SomeRefused(steps: seq<Step>) { exists step :: step in steps && Refuses(step) }

  /** The latest reader's request is the only one, or there is none. */
  predicate OneRequest(h: Handler, refused: bool) {
    |h.readers| > 0 && h.requests == if refused then {} else {|h.readers| - 1}
  }

  lemma OneRequestStep(h: Handler, step: Step, refused: bool)
    requires OneRequest(h, refused) && Enabled(h, step)
    ensures OneRequest(Apply(h, step), refused || Refuses(step))
    ensures refused ==> |Apply(h, step).readers| == |h.readers|
  {
  }

  lemma {:induction false} OneRequestRun(h: Handler, steps: seq<Step>, refused: bool)
    requires OneRequest(h, refused) && IsRun(h, steps)
    ensures OneRequest(Exec(h, steps), refused || SomeRefused(steps))
    ensures refused ==> |Exec(h, steps).readers| == |h.readers|
    decreases |steps|
  {
    if steps != [] {
      OneRequestStep(h, steps[0], refused);
      OneRequestRun(Apply(h, steps[0]), steps[1..], refused || Refuses(steps[0]));
      assert forall step :: step in steps <==> step == steps[0] || step in steps[1..];
    }
  }

  /** In every run, whatever the readers do, exactly one request is outstanding, that of the latest
      reader, until one completes not ok; then there is none. */
  lemma OneRequestUntilRefused(steps: seq<Step>)
    requires IsRun(Init, steps)
    ensures var h := Exec(Init, steps);
      |h.readers| > 0 && h.requests == if SomeRefused(steps) then {} else {|h.readers| - 1}
  {
    OneRequestRun(Init, steps, false);
  }

  /** After a refusal no reader is ever allocated and no request outstanding again. */
  lemma ChainStaysClosed(first: seq<Step>, more: seq<Step>)
    requires IsRun(Init, first) && SomeRefused(first) && IsRun(Exec(Init, first), more)
    ensures var h, h' := Exec(Init, first), Exec(Exec(Init, first), more);
      h'.requests == {} && |h'.readers| == |h.readers|
  {
    OneRequestRun(Init, first, false);
    OneRequestRun(Exec(Init, first), more, true);
  }

  // ---- One read at a time ----

  /** What the user of a reader can check before moveNext: it is active and its last read has returned. */
  predicate MayMoveNext(h: Handler, r: nat) {
    r < |h.readers| && h.readers[r].stage.Active? && PendingReads(h, r) == 0
  }

  predicate Disciplined(h: Handler, step: Step) { step.MoveNext? ==> MayMoveNext(h, step.r) }

  predicate DisciplinedRun(h: Handler, steps: seq<Step>)
    decreases |steps|
  {
    steps == [] ||
    (Enabled(h, steps[0]) && Disciplined(h, steps[0]) && DisciplinedRun(Apply(h, steps[0]), steps[1..]))
  }

  predicate ReaderOk(h: Handler, r: nat)
    requires r < |h.readers|
  {
    var reader := h.readers[r];
    && (r in h.requests <==> reader.stage.Pending?)
    && PendingReads(h, r) <= Tally(reader.stage.Active?)
    && (r in h.streamReaders <==> reader.stage.Active?)
    && reader.deletes == reader.left == Tally(reader.stage.Deleted?)
  }

  ghost predicate InBounds(h: Handler) {
    && (forall r :: r in h.requests || r in h.streamReaders ==> r < |h.readers|)
    && (forall i :: 0 <= i < |h.readActions| ==> h.readActions[i].reader < |h.readers|)
  }

  ghost predicate Inv(h: Handler) {
    InBounds(h) && forall r :: 0 <= r < |h.readers| ==> ReaderOk(h, r)
  }

  lemma NoReadsYet(h: Handler)
    requires InBounds(h)
    ensures PendingReads(h, |h.readers|) == 0
  {
    SumZero(h.readActions, Unreturned(|h.readers|));
  }

  lemma ReaderStep(h: Handler, step: Step, r: nat)
    requires Inv(h) && Enabled(h, step) && Disciplined(h, step) && r < |Apply(h, step).readers|
    ensures ReaderOk(Apply(h, step), r)
  {
    ReadsShape(h, step, r);
    if r < |h.readers| { assert ReaderOk(h, r); } else { NoReadsYet(h); }
  }

  lemma StepKeepsInv(h: Handler, step: Step)
    requires Inv(h) && Enabled(h, step) && Disciplined(h, step)
    ensures Inv(Apply(h, step))
  {
    var h' := Apply(h, step);
    forall r | 0 <= r < |h'.readers| ensures ReaderOk(h', r) { ReaderStep(h, step, r); }
  }

  lemma {:induction false} RunKeepsInv(h: Handler, steps: seq<Step>)
    requires Inv(h) && DisciplinedRun(h, steps)
    ensures IsRun(h, steps) && Inv(Exec(h, steps))
    decreases |steps|
  {
    if steps != [] {
      StepKeepsInv(h, steps[0]);
      RunKeepsInv(Apply(h, steps[0]), steps[1..]);
    }
  }

  /** If moveNext is only called on an active reader with no read outstanding, every reader is in
      exactly one of pending (its request outstanding), active (in the handler's set) and deleted,
      and is deleted at most once, on leaving one of the first two. */
  lemma ReadersDeletedOnce(steps: seq<Step>, r: nat)
    requires DisciplinedRun(Init, steps)
    ensures IsRun(Init, steps)
    ensures var h := Exec(Init, steps); r < |h.readers| ==>
      && Tally(r in h.requests) + Tally(r in h.streamReaders) + h.readers[r].deletes == 1
      && h.readers[r].deletes == h.readers[r].left
      && PendingReads(h, r) <= Tally(r in h.streamReaders)
  {
    RunKeepsInv(Init, steps);
    var h := Exec(Init, steps);
    if r < |h.readers| { assert ReaderOk(h, r); }
  }

  // ---- Exactly when a reader can be deleted twice ----

  /** At most one of: its request or a read outstanding, and already deleted. */
  predicate AtMostOneDelete(h: Handler, r: nat) {
    r < |h.readers| && Tally(r in h.requests) + PendingReads(h, r) + h.readers[r].deletes <= 1
  }

  predicate NoMoreReads(steps: seq<Step>, r: nat) { MoveNext(r) !in steps }

  lemma {:induction false} AtMostOneDeleteKept(h: Handler, steps: seq<Step>, r: nat)
    requires IsRun(h, steps) && NoMoreReads(steps, r) && AtMostOneDelete(h, r)
    ensures Deletes(Exec(h, steps), r) <= 1
    decreases |steps|
  {
    if steps != [] {
      ReadsShape(h, steps[0], r);
      AtMostOneDeleteKept(Apply(h, steps[0]), steps[1..], r);
    }
  }

  /** Every continuation that posts no further read deletes the reader at most once. */
  ghost predicate NeverTwice(h: Handler, r: nat) {
    forall steps :: IsRun(h, steps) && NoMoreReads(steps, r) ==> Deletes(Exec(h, steps), r) <= 1
  }

  /** An active or deleted reader is safe from a second delete exactly when at most one of its
      outstanding reads can still fail it. */
  lemma DeletedTwiceIff(h: Handler, r: nat)
    requires r < |h.readers| && r !in h.requests && h.readers[r].deletes <= 1
    ensures NeverTwice(h, r) <==> AtMostOneDelete(h, r)
  {
    if AtMostOneDelete(h, r) {
      forall steps | IsRun(h, steps) && NoMoreReads(steps, r) ensures Deletes(Exec(h, steps), r) <= 1 {
        AtMostOneDeleteKept(h, steps, r);
      }
    } else {
      var steps := FailTwice(h, r);
      assert IsRun(h, steps) && NoMoreReads(steps, r);
    }
  }

  /** A read of the reader that is outstanding fails. */
  lemma FailOne(h: Handler, r: nat) returns (step: Step)
    requires r < |h.readers| && PendingReads(h, r) > 0
    ensures step.ReadDone? && Enabled(h, step)
    ensures var h' := Apply(h, step);
      PendingReads(h', r) == PendingReads(h, r) - 1 &&
      r < |h'.readers| && h'.readers[r].deletes == h.readers[r].deletes + 1
  {
    SumZero(h.readActions, Unreturned(r));
    var i :| 0 <= i < |h.readActions| && Unreturned(r)(h.readActions[i]) != 0;
    step := ReadDone(i, false);
    ReadsShape(h, step, r);
  }

  /** Failing the outstanding reads of a reader one after the other. */
  lemma FailTwice(h: Handler, r: nat) returns (steps: seq<Step>)
    requires r < |h.readers| && PendingReads(h, r) + h.readers[r].deletes > 1 && h.readers[r].deletes <= 1
    ensures IsRun(h, steps) && NoMoreReads(steps, r) && Deletes(Exec(h, steps), r) > 1
  {
    var first := FailOne(h, r);
    var h1 := Apply(h, first);
    if h1.readers[r].deletes > 1 {
      steps := [first];
      assert steps[1..] == [] && IsRun(h1, []);
    } else {
      var second := FailOne(h1, r);
      var h2 := Apply(h1, second);
      steps := [first, second];
      assert steps[1..] == [second] && steps[1..][1..] == [];
      assert IsRun(h2, []) && Exec(h2, []) == h2;
      assert IsRun(h1, steps[1..]) && Exec(h1, steps[1..]) == h2;
    }
  }

  // ---- The handler as the object it is ----

  class AsyncClientStreamCallHandler {
    var readers: seq<Reader>
    var streamReaders: set<nat>
    var requests: set<nat>
    var readActions: seq<Read>

    ghost function View(): Handler
      reads this
    {
      Handler(readers, streamReaders, requests, readActions)
    }

    constructor ()
      ensures View() == Init && Inv(View()) && OneRequest(View(), false)
    {
      readers, streamReaders, requests, readActions := [], {}, {}, [];
      new;
      NewRequestStreamAction();
    }

    method NewRequestStreamAction()
      modifies this
      ensures View() == NewRequest(old(View()))
    {
      requests := requests + {|readers|};
      readers := readers + [Reader(Pending, 0, 0)];
    }

    method DeleteReader(r: nat)
      requires r < |readers|
      modifies this`readers
      ensures View() == Delete(old(View()), r)
    {
      var left := if readers[r].stage.Deleted? then readers[r].left else readers[r].left + 1;
      readers := readers[r := Reader(Deleted, readers[r].deletes + 1, left)];
    }

    /** An accepted call arms the next request and activates its reader; a refused one ends the chain
        and deletes its reader. */
    method FinalizeRequest(r: nat, ok: bool)
      requires r < |readers| && r in requests
      modifies this
      ensures View() == Apply(old(View()), RequestDone(r, ok))
      ensures old(OneRequest(View(), false)) ==> OneRequest(View(), !ok)
      ensures old(Inv(View())) ==> Inv(View())
      ensures old(Inv(View())) ==> if ok then r in streamReaders else readers[r].deletes == readers[r].left == 1
    {
      ghost var before := View();
      if OneRequest(before, false) { OneRequestStep(before, RequestDone(r, ok), false); }
      if Inv(before) {
        StepKeepsInv(before, RequestDone(r, ok));
        assert ReaderOk(Apply(before, RequestDone(r, ok)), r);
      }
      requests := requests - {r};
      if ok {
        NewRequestStreamAction();
        streamReaders := streamReaders + {r};
        readers := readers[r := readers[r].(stage := Active)];
      } else {
        DeleteReader(r);
      }
    }

    /** moveNext of a reader; the future is that of the new read. */
    method MoveNext(r: nat) returns (future: nat)
      requires r < |readers|
      modifies this`readActions
      ensures View() == Apply(old(View()), Step.MoveNext(r))
      ensures future == |old(readActions)| && readActions[future] == Read(r, None)
      ensures old(Inv(View()) && MayMoveNext(View(), r)) ==> Inv(View())
    {
      if Inv(View()) && MayMoveNext(View(), r) { StepKeepsInv(View(), Step.MoveNext(r)); }
      future := |readActions|;
      readActions := readActions + [Read(r, None)];
    }

    /** The read's future becomes ready; if it holds false, its reader leaves the set and is deleted,
        for the only time if there is one read at a time. */
    method FinalizeRead(i: nat, ok: bool)
      requires i < |readActions| && readActions[i].result.None? && readActions[i].reader < |readers|
      modifies this
      ensures View() == Apply(old(View()), ReadDone(i, ok))
      ensures i < |readActions| && readActions[i] == Read(old(readActions)[i].reader, Some(ok))
      ensures old(Inv(View())) ==> Inv(View())
      ensures var r := old(readActions)[i].reader; old(Inv(View())) ==>
        && r < |readers|
        && if ok then r in streamReaders else r !in streamReaders && readers[r].deletes == readers[r].left == 1
    {
      var r := readActions[i].reader;
      ghost var before, step := View(), ReadDone(i, ok);
      if Inv(before) {
        ReadsShape(before, step, r);
        StepKeepsInv(before, step);
        assert ReaderOk(before, r) && ReaderOk(Apply(before, step), r);
      }
      readActions := readActions[i := Read(r, Some(ok))];
      if !ok {
        streamReaders := streamReaders - {r};
        DeleteReader(r);
      }
    }
  }
}
