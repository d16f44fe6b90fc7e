/** AsyncClientStreamWriter as a labelled transition system.

    Thread 0 is the completion-queue thread; every other thread is a submitter calling
    write() or finish() any number of times. A step of a thread is at most one lock section:
    pushing, popping, the unlocked read of _state, performing, setting the result and the
    reset to Ready are all separate, so that any other thread may run between them. */
module StreamWriter {
  import opened Common

  datatype Op = Write(message: string, last: bool) | Finish

  /** One StreamAction object; id is its creation index, so no two created actions are equal. */
  datatype Action = Action(id: nat, op: Op)

  datatype WriterState = Ready | Processing | Finished

  /** The four InvalidStreamingAction messages. */
  datatype Reason = StreamFinished | LastAlreadyWritten | WriteAfterFinish | DuplicateFinish

  /** What the promise of an action was completed with. */
  datatype Outcome = Value(ok: bool) | Rejected(reason: Reason)

  /** Where a run can die: a false assert, or a promise completed a second time. */
  datatype Failure =
    | PerformNotReady(inDrain: bool)
    | ResultNotProcessing
    | FinishNotOk
    | PromiseTwice
    | ResponseTwice

  /** What the threads share. The first five fields are the program's (outstanding holds the tags
      the completion queue has not returned yet); the last four record the history of the run. */
  datatype Shared = Shared(
    state: WriterState,
    queue: seq<Action>,
    outstanding: multiset<Action>,
    promises: map<Action, Outcome>,
    responseSet: bool,
    pushed: seq<Action>,
    popped: seq<Action>,
    wire: seq<Action>,
    stranded: set<Action>)

  const Fresh := Shared(Ready, [], multiset{}, map[], false, [], [], [], {})

  // ---- The program's fragments, as functions of the shared state ----

  function Push(sh: Shared, a: Action): Shared {
    sh.(queue := sh.queue + [a], pushed := sh.pushed + [a])
  }

  function Pop(sh: Shared): Shared
    requires sh.queue != []
  {
    sh.(queue := sh.queue[1..], popped := sh.popped + [sh.queue[0]])
  }

  /** perform() once its assert has passed: the operation is handed to the stream. */
  function Perform(sh: Shared, a: Action): Shared {
    sh.(state := Processing, wire := sh.wire + [a], outstanding := sh.outstanding + multiset{a})
  }

  /** Completing the promise of an action; it must not have been completed before. */
  function Complete(sh: Shared, a: Action, outcome: Outcome): Shared
    requires a !in sh.promises
  {
    sh.(promises := sh.promises[a := outcome])
  }

  function Strand(sh: Shared, a: Action): Shared {
    sh.(stranded := sh.stranded + {a})
  }

  /** What one iteration of the loop in finalizeWrite decides about an action: None to perform it. */
  function LoopVerdict(op: Op, last: bool, finishPerformed: bool): Option<Reason> {
    match op
    case Write(_, _) =>
      if last then Some(LastAlreadyWritten) else if finishPerformed then Some(WriteAfterFinish) else None
    case Finish =>
      if finishPerformed then Some(DuplicateFinish) else None
  }

  /** How an uninterrupted call ends: it returns, or dies at a failing assert or promise. */
  datatype CallResult = Done(sh: Shared) | Died(at: Shared, why: Failure)

  // ---- Threads ----

  /** Where a thread goes on after perform(): back to its caller, or to the loop of finalizeWrite. */
  datatype Resume = Return | Loop(last: bool, finishPerformed: bool)

  datatype Pc =
    | Idle
    | WantPush(a: Action)                    // created, about to lock _actionsMutex in newAction
    | WantTry                                // pushed, about to lock _actionsMutex in tryPerformAction
    | Popped(a: Action)                      // holds _actionsMutex, about to read _state
    | Performing(a: Action, resume: Resume)  // holds _actionsMutex, about to lock _stateMutex
    | WantFinalize(a: Action, ok: bool)      // got the completion, about to lock _stateMutex
    | ResultSet(a: Action, ok: bool)         // holds _stateMutex, promise set, state not reset yet
    | AfterReset(a: Action, ok: bool)        // state reset, finalizeResultImpl is next
    | Draining(last: bool, finishPerformed: bool) // holds _actionsMutex, at the loop head

  predicate HoldsActions(pc: Pc) { pc.Popped? || pc.Performing? || pc.Draining? }

  predicate HoldsState(pc: Pc) { pc.ResultSet? }

  predicate WantsActions(pc: Pc) {
    pc.WantPush? || pc.WantTry? || (pc.AfterReset? && pc.a.op.Write? && pc.ok)
  }

  predicate WantsState(pc: Pc) { pc.Performing? || pc.WantFinalize? }

  datatype System =
    | Running(created: seq<Action>, sh: Shared, threads: seq<Pc>,
              actionsOwner: Option<nat>, stateOwner: Option<nat>)
    | Aborted(last: Shared, why: Failure)

  /** Begin: a submitter enters write() or finish(). Deliver: the completion queue returns an
      outstanding tag. Advance: a thread that is inside a call takes its next step. */
  datatype Step = Begin(t: nat, op: Op) | Deliver(a: Action, ok: bool) | Advance(t: nat)

  function Init(submitters: nat): System {
    Running([], Fresh, seq(submitters + 1, _ => Idle), None, None)
  }

  predicate CanAdvance(s: System, t: nat)
    requires s.Running? && t < |s.threads|
  {
    var pc := s.threads[t];
    && !pc.Idle?
    && (WantsActions(pc) ==> s.actionsOwner.None?)
    && (WantsState(pc) ==> s.stateOwner.None?)
  }

  predicate Enabled(s: System, step: Step) {
    s.Running? && |s.threads| > 0 &&
    match step
    case Begin(t, _) => 0 < t < |s.threads| && s.threads[t].Idle?
    case Deliver(a, _) => s.threads[0].Idle? && a in s.sh.outstanding
    case Advance(t) => t < |s.threads| && CanAdvance(s, t)
  }

  function Goto(s: System, t: nat, pc: Pc): System
    requires s.Running? && t < |s.threads|
  {
    s.(threads := s.threads[t := pc])
  }

  function NewAction(s: System, t: nat, op: Op): System
    requires s.Running? && t < |s.threads|
  {
    var a := Action(|s.created|, op);
    Goto(s.(created := s.created + [a]), t, WantPush(a))
  }

  function Apply(s: System, step: Step): System
    requires Enabled(s, step)
  {
    match step
    case Begin(t, op) => NewAction(s, t, op)
    case Deliver(a, ok) =>
      Goto(s.(sh := s.sh.(outstanding := s.sh.outstanding - multiset{a})), 0, WantFinalize(a, ok))
    case Advance(t) => AdvanceThread(s, t)
  }

  /** The next step of thread t, by where it is. */
  function AdvanceThread(s: System, t: nat): System
    requires s.Running? && t < |s.threads| && CanAdvance(s, t)
  {
    match s.threads[t]
    case WantPush(a) => Goto(s.(sh := Push(s.sh, a)), t, WantTry)
    case WantTry =>
      if s.sh.queue == [] then Goto(s, t, Idle)
      else Goto(s.(sh := Pop(s.sh), actionsOwner := Some(t)), t, Popped(s.sh.queue[0]))
    case Popped(a) => ReadState(s, t, a)
    case Performing(a, resume) =>
      if s.sh.state != Ready then Aborted(s.sh, PerformNotReady(resume.Loop?))
      else AfterPerform(s.(sh := Perform(s.sh, a)), t, a, resume)
    case WantFinalize(a, ok) =>
      if s.sh.state != Processing then Aborted(s.sh, ResultNotProcessing)
      else if a in s.sh.promises then Aborted(s.sh, PromiseTwice)
      else Goto(s.(sh := Complete(s.sh, a, Value(ok)), stateOwner := Some(t)), t, ResultSet(a, ok))
    case ResultSet(a, ok) =>
      Goto(s.(sh := s.sh.(state := Ready), stateOwner := None), t, AfterReset(a, ok))
    case AfterReset(a, ok) => FinalizeImpl(s, t, a, ok)
    case Draining(last, finishPerformed) => DrainIteration(s, t, last, finishPerformed)
  }

  /** The switch on the unlocked _state. The popped action is dropped when the state is Processing. */
  function ReadState(s: System, t: nat, a: Action): System
    requires s.Running? && t < |s.threads|
  {
    match s.sh.state
    case Ready => Goto(s, t, Performing(a, Return))
    case Processing => Goto(s.(sh := Strand(s.sh, a), actionsOwner := None), t, Idle)
    case Finished =>
      if a in s.sh.promises then Aborted(s.sh, PromiseTwice)
      else Goto(s.(sh := Complete(s.sh, a, Rejected(StreamFinished)), actionsOwner := None), t, Idle)
  }

  function AfterPerform(s: System, t: nat, a: Action, resume: Resume): System
    requires s.Running? && t < |s.threads|
  {
    match resume
    case Return => Goto(s.(actionsOwner := None), t, Idle)
    case Loop(last, finishPerformed) => Goto(s, t, Draining(last, finishPerformed || a.op.Finish?))
  }

  /** finalizeWrite and finalizeFinish. A failed write calls finish() on the completion thread. */
  function FinalizeImpl(s: System, t: nat, a: Action, ok: bool): System
    requires s.Running? && t < |s.threads|
  {
    match a.op
    case Write(_, last) =>
      if ok then Goto(s.(actionsOwner := Some(t)), t, Draining(last, false))
      else NewAction(s, t, Finish)
    case Finish =>
      if !ok then Aborted(s.sh, FinishNotOk)
      else if s.sh.responseSet then Aborted(s.sh, ResponseTwice)
      else Goto(s.(sh := s.sh.(responseSet := true)), t, Idle)
  }

  function DrainIteration(s: System, t: nat, last: bool, finishPerformed: bool): System
    requires s.Running? && t < |s.threads|
  {
    if s.sh.queue == [] then Goto(s.(actionsOwner := None), t, Idle)
    else
      var a := s.sh.queue[0];
      match LoopVerdict(a.op, last, finishPerformed)
      case None => Goto(s.(sh := Pop(s.sh)), t, Performing(a, Loop(last, finishPerformed)))
      case Some(reason) =>
        if a in s.sh.promises then Aborted(Pop(s.sh), PromiseTwice)
        else s.(sh := Complete(Pop(s.sh), a, Rejected(reason)))
  }

  // ---- Runs ----

  predicate IsRun(s: System, steps: seq<Step>)
    decreases |steps|
  {
    steps == [] || (Enabled(s, steps[0]) && IsRun(Apply(s, steps[0]), steps[1..]))
  }

  function Exec(s: System, steps: seq<Step>): System
    requires IsRun(s, steps)
    decreases |steps|
  {
    if steps == [] then s else Exec(Apply(s, steps[0]), steps[1..])
  }

  /** s is reached by some run with the given number of submitter threads. */
  ghost predicate Reachable(submitters: nat, s: System) {
    exists steps :: IsRun(Init(submitters), steps) && Exec(Init(submitters), steps) == s
  }
}
