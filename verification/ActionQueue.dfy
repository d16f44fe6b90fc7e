/** AsyncActionQueue: the event loop that all the machines run on. Finalizers may post further
    actions while they run, and so may any other thread; the queue's destructor spins until the
    last status that was stored is SHUTDOWN. */
module ActionQueue {
  import opened Common

  datatype Status = Shutdown | GotEvent | Timeout

  /** Where the thread that calls asyncNext is. */
  datatype LoopPc =
    | Waiting                    // inside AsyncNext of the completion queue
    | Finalizing(tag: nat)       // running action->finalizeResult
    | Deleting(tag: nat)
    | Storing(status: Status)    // about to store _nextStatus
    | Exited                     // asyncNext has returned SHUTDOWN and the loop is over

  datatype WaiterPc = NotStarted | Spinning | Returned

  /** Tags are numbered in the order they are posted; posted counts them. The sequences record
      which were finalized and deleted. */
  datatype Queue = Queue(
    posted: nat,
    outstanding: set<nat>,
    finalized: seq<nat>,
    deleted: seq<nat>,
    pc: LoopPc,
    shutdown: bool,
    nextStatus: Status,
    waiter: WaiterPc)

  datatype Step =
    | Post            // a new action, posted by a finalizer or by any thread
    | Receive(tag: nat)
    | TimeOut
    | ReportShutdown
    | Advance         // the loop thread takes its next step
    | CallShutdown
    | Destroy         // the destructor starts to wait
    | StopSpinning

  /** _nextStatus is not initialised by the constructor: it starts as anything. */
  function Init(garbage: Status): Queue {
    Queue(0, {}, [], [], Waiting, false, garbage, NotStarted)
  }

  /** The completion queue returns each tag once, and SHUTDOWN only after Shutdown and with no tag left. */
  predicate Enabled(q: Queue, step: Step) {
    match step
    case Post => true
    case Receive(tag) => q.pc.Waiting? && tag in q.outstanding
    case TimeOut => q.pc.Waiting?
    case ReportShutdown => q.pc.Waiting? && q.shutdown && q.outstanding == {}
    case Advance => q.pc.Finalizing? || q.pc.Deleting? || q.pc.Storing?
    case CallShutdown => true
    case Destroy => q.waiter.NotStarted?
    case StopSpinning => q.waiter.Spinning? && q.nextStatus.Shutdown?
  }

  function Apply(q: Queue, step: Step): Queue
    requires Enabled(q, step)
  {
    match step
    case Post => q.(posted := q.posted + 1, outstanding := q.outstanding + {q.posted})
    case Receive(tag) => q.(outstanding := q.outstanding - {tag}, pc := Finalizing(tag))
    case TimeOut => q.(pc := Storing(Timeout))
    case ReportShutdown => q.(pc := Storing(Shutdown))
    case Advance =>
      (match q.pc
       case Finalizing(tag) => q.(finalized := q.finalized + [tag], pc := Deleting(tag))
       case Deleting(tag) => q.(deleted := q.deleted + [tag], pc := Storing(GotEvent))
       case Storing(status) => q.(nextStatus := status, pc := if status.Shutdown? then Exited else Waiting)
       case _ => q)
    case CallShutdown => q.(shutdown := true)
    case Destroy => q.(waiter := Spinning)
    case StopSpinning => q.(waiter := Returned)
  }

  predicate IsRun(q: Queue, steps: seq<Step>)
    decreases |steps|
  {
    steps == [] || (Enabled(q, steps[0]) && IsRun(Apply(q, steps[0]), steps[1..]))
  }

  function Exec(q: Queue, steps: seq<Step>): Queue
    requires IsRun(q, steps)
    decreases |steps|
  {
    if steps == [] then q else Exec(Apply(q, steps[0]), steps[1..])
  }

  lemma {:induction false} ExecJoin(q: Queue, first: seq<Step>, second: seq<Step>)
    requires IsRun(q, first) && IsRun(Exec(q, first), second)
    ensures IsRun(q, first + second) && Exec(q, first + second) == Exec(Exec(q, first), second)
    decreases |first|
  {
    if first == [] {
      assert first + second == second;
    } else {
      assert (first + second)[1..] == first[1..] + second;
      ExecJoin(Apply(q, first[0]), first[1..], second);
    }
  }

  lemma ExecAppend(q: Queue, steps: seq<Step>, step: Step)
    requires IsRun(q, steps) && Enabled(Exec(q, steps), step)
    ensures IsRun(q, steps + [step]) && Exec(q, steps + [step]) == Apply(Exec(q, steps), step)
  {
    OneStep(Exec(q, steps), step);
    ExecJoin(q, steps, [step]);
  }

  lemma OneStep(q: Queue, step: Step)
    requires Enabled(q, step)
    ensures IsRun(q, [step]) && Exec(q, [step]) == Apply(q, step)
  {
    assert [step][1..] == [];
    assert IsRun(Apply(q, step), []);
  }

  // ---- Each action is finalized once and then deleted once ----

  /** A posted action is outstanding, being finalized, or was finalized once. */
  ghost predicate FinalizedOnce(q: Queue) {
    && (forall tag: nat ::
          multiset(q.finalized)[tag] == Tally(tag < q.posted && tag !in q.outstanding && q.pc != Finalizing(tag)))
    && (q.pc.Finalizing? ==> q.pc.tag < q.posted && q.pc.tag !in q.outstanding)
    && (forall tag: nat :: tag in q.outstanding ==> tag < q.posted)
  }

  /** A finalized action is being deleted, or was deleted once. */
  ghost predicate DeletedOnce(q: Queue) {
    && (forall tag: nat :: multiset(q.deleted)[tag] == multiset(q.finalized)[tag] - Tally(q.pc == Deleting(tag)))
    && (q.pc.Deleting? ==> q.pc.tag in q.finalized)
  }

  ghost predicate Exact(q: Queue) { FinalizedOnce(q) && DeletedOnce(q) }

  lemma FinalizedStep(q: Queue, step: Step)
    requires FinalizedOnce(q) && Enabled(q, step)
    ensures FinalizedOnce(Apply(q, step))
  {
  }

  lemma DeletedStep(q: Queue, step: Step)
    requires DeletedOnce(q) && Enabled(q, step)
    ensures DeletedOnce(Apply(q, step))
  {
  }

  lemma ExactStep(q: Queue, step: Step)
    requires Exact(q) && Enabled(q, step)
    ensures Exact(Apply(q, step))
  {
    FinalizedStep(q, step);
    DeletedStep(q, step);
  }

  lemma {:induction false} ExactRun(q: Queue, steps: seq<Step>)
    requires Exact(q) && IsRun(q, steps)
    ensures Exact(Exec(q, steps))
    decreases |steps|
  {
    if steps != [] {
      ExactStep(q, steps[0]);
      ExactRun(Apply(q, steps[0]), steps[1..]);
    }
  }

  /** However finalizers and threads keep posting, when SHUTDOWN is reported every action posted
      so far has been finalized exactly once and deleted exactly once, and nothing else has. */
  lemma ShutdownMeansAllDeleted(garbage: Status, steps: seq<Step>)
    requires IsRun(Init(garbage), steps) && Enabled(Exec(Init(garbage), steps), ReportShutdown)
    ensures var q := Exec(Init(garbage), steps);
      forall tag: nat ::
        multiset(q.finalized)[tag] == Tally(tag < q.posted) && multiset(q.deleted)[tag] == Tally(tag < q.posted)
  {
    ExactRun(Init(garbage), steps);
  }

  /** At no time is an action finalized or deleted twice, or deleted before it was finalized. */
  lemma NeverTwice(garbage: Status, steps: seq<Step>, tag: nat)
    requires IsRun(Init(garbage), steps)
    ensures var q := Exec(Init(garbage), steps);
      multiset(q.deleted)[tag] <= multiset(q.finalized)[tag] <= Tally(tag < q.posted)
  {
    ExactRun(Init(garbage), steps);
  }

  // ---- The destructor's wait ----

  predicate Reports(steps: seq<Step>) { ReportShutdown in steps }

  /** The destructor may only return once the loop is over. */
  predicate WaitIsOver(q: Queue) { q.waiter.Returned? ==> q.pc.Exited? }

  predicate StatusIsHonest(q: Queue) { q.nextStatus.Shutdown? ==> q.pc.Exited? }

  lemma {:induction false} HonestRun(q: Queue, steps: seq<Step>)
    requires StatusIsHonest(q) && WaitIsOver(q) && IsRun(q, steps)
    ensures StatusIsHonest(Exec(q, steps)) && WaitIsOver(Exec(q, steps))
    ensures Exec(q, steps).pc.Exited? && !q.pc.Exited? && q.pc != Storing(Shutdown) ==> Reports(steps)
    decreases |steps|
  {
    if steps != [] {
      HonestRun(Apply(q, steps[0]), steps[1..]);
      assert forall s :: s in steps[1..] ==> s in steps;
    }
  }

  /** If the uninitialised field happens to hold SHUTDOWN the destructor returns at once. */
  lemma GarbageEndsTheWait() returns (steps: seq<Step>)
    ensures IsRun(Init(Shutdown), steps) && !WaitIsOver(Exec(Init(Shutdown), steps))
  {
    var q := Init(Shutdown);
    var q1 := Apply(q, Destroy);
    var q2 := Apply(q1, StopSpinning);
    steps := [Destroy, StopSpinning];
    assert steps[1..] == [StopSpinning] && steps[1..][1..] == [];
    assert IsRun(q2, []) && Exec(q2, []) == q2;
    assert IsRun(q1, steps[1..]) && Exec(q1, steps[1..]) == q2;
  }

  ghost predicate AlwaysWaits(garbage: Status) {
    forall steps :: IsRun(Init(garbage), steps) ==> WaitIsOver(Exec(Init(garbage), steps))
  }

  /** The destructor waits for the loop in every run if and only if the field that is never
      initialised does not happen to start as SHUTDOWN. */
  lemma WaitIffNotGarbage(garbage: Status)
    ensures AlwaysWaits(garbage) <==> garbage != Shutdown
  {
    if garbage == Shutdown {
      var steps := GarbageEndsTheWait();
      assert IsRun(Init(garbage), steps);
    } else {
      forall steps | IsRun(Init(garbage), steps) ensures WaitIsOver(Exec(Init(garbage), steps)) {
        HonestRun(Init(garbage), steps);
      }
    }
  }

  /** With an honest start the destructor returns only if some thread ran the loop until SHUTDOWN
      was reported; a queue whose loop nobody runs is never destroyed. */
  lemma NobodyServedNobodyReturns(garbage: Status, steps: seq<Step>)
    requires garbage != Shutdown && IsRun(Init(garbage), steps) && !Reports(steps)
    ensures !Exec(Init(garbage), steps).waiter.Returned?
  {
    HonestRun(Init(garbage), steps);
  }

  // ---- Shutdown ends the loop and the wait ----

  lemma {:induction false} ShutdownIsRecorded(q: Queue, steps: seq<Step>)
    requires IsRun(q, steps)
    ensures Exec(q, steps).shutdown <==> q.shutdown || CallShutdown in steps
    decreases |steps|
  {
    if steps != [] { ShutdownIsRecorded(Apply(q, steps[0]), steps[1..]); }
  }

  /** When the loop is over the last status that was stored is SHUTDOWN. */
  predicate ExitIsStored(q: Queue) { q.pc.Exited? ==> q.nextStatus.Shutdown? }

  lemma {:induction false} ExitStays(q: Queue, steps: seq<Step>)
    requires ExitIsStored(q) && IsRun(q, steps)
    ensures ExitIsStored(Exec(q, steps))
    decreases |steps|
  {
    if steps != [] { ExitStays(Apply(q, steps[0]), steps[1..]); }
  }

  /** How far the loop is from its end if nothing more is posted. */
  function LoopCost(q: Queue): nat {
    6 * |q.outstanding| +
    match q.pc
    case Waiting => 2
    case Finalizing(_) => 5
    case Deleting(_) => 4
    case Storing(status) => if status.Shutdown? then 1 else 3
    case Exited => 0
  }

  lemma LoopGoesOn(q: Queue) returns (step: Step)
    requires q.shutdown && !q.pc.Exited?
    ensures Enabled(q, step) && (step.Receive? || step.ReportShutdown? || step.Advance?)
    ensures LoopCost(Apply(q, step)) < LoopCost(q)
  {
    if !q.pc.Waiting? {
      step := Advance;
    } else if tag :| tag in q.outstanding {
      step := Receive(tag);
      assert |q.outstanding - {tag}| == |q.outstanding| - 1;
    } else {
      step := ReportShutdown;
    }
  }

  lemma {:induction false} LoopEnds(q: Queue) returns (steps: seq<Step>)
    requires q.shutdown
    ensures IsRun(q, steps) && Post !in steps
    ensures Exec(q, steps).pc.Exited? && Exec(q, steps).waiter == q.waiter
    decreases LoopCost(q)
  {
    if q.pc.Exited? {
      steps := [];
    } else {
      var step := LoopGoesOn(q);
      var rest := LoopEnds(Apply(q, step));
      steps := [step] + rest;
      assert steps[1..] == rest;
    }
  }

  /** However a run in which shutdown was called has gone, it has a continuation without further posts in
      which the loop ends and the destructor, called by then if not before, returns. */
  lemma ShutdownEndsTheWait(garbage: Status, first: seq<Step>) returns (steps: seq<Step>)
    requires IsRun(Init(garbage), first) && CallShutdown in first
    ensures Post !in steps && IsRun(Exec(Init(garbage), first), steps)
    ensures var q := Exec(Exec(Init(garbage), first), steps); q.pc.Exited? && q.waiter.Returned?
  {
    var q := Exec(Init(garbage), first);
    ShutdownIsRecorded(Init(garbage), first);
    ExitStays(Init(garbage), first);
    steps := LoopEnds(q);
    ExitStays(q, steps);
    var over := Exec(q, steps);
    if over.waiter.NotStarted? {
      OneStep(over, Destroy);
      ExecJoin(q, steps, [Destroy]);
      steps := steps + [Destroy];
      over := Apply(over, Destroy);
    }
    if over.waiter.Spinning? {
      OneStep(over, StopSpinning);
      ExecJoin(q, steps, [StopSpinning]);
      steps := steps + [StopSpinning];
    }
  }

  // ---- The loop as the program runs it ----

  /** What other threads may do to a queue while its loop runs. */
  datatype Outside = Posts | ShutsDown

  function StepOf(event: Outside): Step { if event.Posts? then Post else CallShutdown }

  class AsyncActionQueue {
    /** Which of gRPC's completion queues this one wraps. */
    const completionQueue: nat
    /** What the uninitialised _nextStatus happens to hold. */
    const garbage: Status
    var posted: nat
    var outstanding: set<nat>
    var shutdown: bool
    var nextStatus: Status
    /** The actions whose finalizeResult has returned, and those that were deleted, in that order. */
    ghost var finalized: seq<nat>
    ghost var deleted: seq<nat>
    /** Where the thread that runs the loop is, and the run of the transition system up to here. */
    ghost var pc: LoopPc
    ghost var run: seq<Step>

    ghost function View(): Queue
      reads this
    {
      Queue(posted, outstanding, finalized, deleted, pc, shutdown, nextStatus, NotStarted)
    }

    /** All that has happened to the queue is a run of the transition system. */
    ghost predicate Valid()
      reads this
    {
      IsRun(Init(garbage), run) && Exec(Init(garbage), run) == View()
    }

    /** Everything that was ever posted was finalized once and deleted once, and nothing else was. */
    ghost predicate AllDeleted()
      reads this
    {
      forall tag: nat :: multiset(finalized)[tag] == multiset(deleted)[tag] == Tally(tag < posted)
    }

    constructor (completionQueue: nat, garbage: Status)
      ensures this.completionQueue == completionQueue && this.garbage == garbage
      ensures Valid() && View() == Init(garbage)
    {
      this.completionQueue, this.garbage := completionQueue, garbage;
      posted, outstanding, finalized, deleted := 0, {}, [], [];
      shutdown, nextStatus := false, garbage;
      pc, run := Waiting, [];
    }

    method PostAction() returns (tag: nat)
      requires Valid()
      modifies this`posted, this`outstanding, this`run
      ensures Valid() && View() == Apply(old(View()), Post) && run == old(run) + [Post]
      ensures tag == old(posted) && |outstanding| == |old(outstanding)| + 1
    {
      TagsArePosted(garbage, run);
      ExecAppend(Init(garbage), run, Post);
      tag := posted;
      outstanding := outstanding + {tag};
      posted := posted + 1;
      run := run + [Post];
    }

    method RequestShutdown()
      requires Valid()
      modifies this`shutdown, this`run
      ensures Valid() && View() == Apply(old(View()), CallShutdown) && run == old(run) + [CallShutdown]
    {
      ExecAppend(Init(garbage), run, CallShutdown);
      shutdown := true;
      run := run + [CallShutdown];
    }

    /** The completion queue returns a tag. */
    method Receive(tag: nat)
      requires Valid() && pc.Waiting? && tag in outstanding
      modifies this`outstanding, this`pc, this`run
      ensures Valid() && View() == Apply(old(View()), Step.Receive(tag)) && run == old(run) + [Step.Receive(tag)]
      ensures |outstanding| + 1 == |old(outstanding)|
    {
      ExecAppend(Init(garbage), run, Step.Receive(tag));
      outstanding := outstanding - {tag};
      pc := Finalizing(tag);
      run := run + [Step.Receive(tag)];
    }

    /** action->finalizeResult: posts any number of actions within the budget; left is what remains. */
    method RunFinalizer(budget: nat) returns (left: nat)
      requires Valid() && pc.Finalizing?
      modifies this`posted, this`outstanding, this`finalized, this`pc, this`run
      ensures Valid() && pc == Deleting(old(pc).tag) && finalized == old(finalized) + [old(pc).tag]
      ensures old(run) <= run && posted >= old(posted) && old(outstanding) <= outstanding
      ensures left <= budget && |outstanding| == |old(outstanding)| + budget - left
    {
      var posts: nat :| posts <= budget;
      left := budget;
      while left > budget - posts
        invariant budget - posts <= left <= budget && Valid() && pc == old(pc) && finalized == old(finalized)
        invariant old(run) <= run && posted >= old(posted) && old(outstanding) <= outstanding
        invariant |outstanding| == |old(outstanding)| + budget - left
      {
        var added := PostAction();
        left := left - 1;
      }
      ExecAppend(Init(garbage), run, Advance);
      finalized := finalized + [pc.tag];
      pc := Deleting(pc.tag);
      run := run + [Advance];
    }

    /** An action is deleted once its finalizer has returned. */
    method DeleteAction()
      requires Valid() && pc.Deleting?
      modifies this`deleted, this`pc, this`run
      ensures Valid() && View() == Apply(old(View()), Advance) && run == old(run) + [Advance]
    {
      ExecAppend(Init(garbage), run, Advance);
      deleted := deleted + [pc.tag];
      pc := Storing(GotEvent);
      run := run + [Advance];
    }

    /** The private finalizeResult of the queue: finalize the action of a returned tag and delete it. */
    method Finish(tag: nat, budget: nat) returns (left: nat)
      requires Valid() && pc == Finalizing(tag)
      modifies this`posted, this`outstanding, this`finalized, this`deleted, this`pc, this`run
      ensures Valid() && pc == Storing(GotEvent) && old(run) <= run
      ensures finalized == old(finalized) + [tag] && deleted == old(deleted) + [tag]
      ensures left <= budget && |outstanding| == |old(outstanding)| + budget - left
    {
      left := RunFinalizer(budget);
      DeleteAction();
    }

    /** The completion queue reports something other than an event. */
    method Report(status: Status)
      requires Valid() && pc.Waiting? && status != GotEvent
      requires status == Shutdown ==> shutdown && outstanding == {}
      modifies this`pc, this`run
      ensures Valid() && pc == Storing(status) && old(run) <= run
    {
      var step := if status == Timeout then TimeOut else ReportShutdown;
      ExecAppend(Init(garbage), run, step);
      pc := Storing(status);
      run := run + [step];
    }

    method Store(status: Status)
      requires Valid() && pc == Storing(status)
      modifies this`nextStatus, this`pc, this`run
      ensures Valid() && View() == Apply(old(View()), Advance) && run == old(run) + [Advance]
    {
      ExecAppend(Init(garbage), run, Advance);
      nextStatus := status;
      pc := if status.Shutdown? then Exited else Waiting;
      run := run + [Advance];
    }

    /** One call of asyncNext; timesOut says whether its deadline passes before an event is there. */
    method AsyncNext(timesOut: bool, budget: nat) returns (status: Status, ghost tag: nat, left: nat)
      requires Valid() && pc.Waiting? && (timesOut || outstanding != {} || shutdown)
      modifies this
      ensures Valid() && old(run) <= run && shutdown == old(shutdown)
      ensures nextStatus == status && pc == if status.Shutdown? then Exited else Waiting
      ensures status == if timesOut then Timeout else if old(outstanding) == {} then Shutdown else GotEvent
      ensures status == GotEvent ==>
        tag in old(outstanding) && finalized == old(finalized) + [tag] && deleted == old(deleted) + [tag]
      ensures status != GotEvent ==>
        && left == budget && outstanding == old(outstanding) && posted == old(posted)
        && finalized == old(finalized) && deleted == old(deleted)
      ensures left <= budget
      ensures status == GotEvent ==> |outstanding| + 1 == |old(outstanding)| + budget - left
    {
      left, tag := budget, 0;
      if timesOut {
        status := Timeout;
        Report(status);
      } else if outstanding == {} {
        status := Shutdown;
        Report(status);
      } else {
        var event :| event in outstanding;
        Receive(event);
        left := Finish(event, budget);
        status, tag := GotEvent, event;
      }
      Store(status);
    }

    /** What another thread does to the queue. */
    method Interfere(event: Outside)
      requires Valid()
      modifies this`posted, this`outstanding, this`shutdown, this`run
      ensures Valid() && View() == Apply(old(View()), StepOf(event)) && run == old(run) + [StepOf(event)]
      ensures |outstanding| == |old(outstanding)| + if event.Posts? then 1 else 0
    {
      match event
      case Posts => var tag := PostAction();
      case ShutsDown => RequestShutdown();
    }

    /** Other threads act: any number of events of the script, and as many as it takes for AsyncNext
        not to block. */
    method Meanwhile(script: seq<Outside>) returns (rest: seq<Outside>)
      requires Valid() && (shutdown || ShutsDown in script)
      modifies this`posted, this`outstanding, this`shutdown, this`run
      ensures Valid() && old(run) <= run && (shutdown || ShutsDown in rest) && (outstanding != {} || shutdown)
      ensures |outstanding| + |rest| <= |old(outstanding)| + |script|
    {
      var k: nat :| k <= |script|;
      rest := script;
      while |rest| > k || (outstanding == {} && !shutdown)
        invariant Valid() && old(run) <= run && (shutdown || ShutsDown in rest)
        invariant |outstanding| + |rest| <= |old(outstanding)| + |script|
        decreases |rest|
      {
        Interfere(rest[0]);
        rest := rest[1..];
      }
    }

    /** The thread function of the client and of the server: call asyncNext until it returns SHUTDOWN,
        while other threads go through the script. If they shut the queue down at some time and the
        finalizers together post finitely many more actions, it does, with everything that was ever
        posted finalized once and deleted once. */
    method Serve(script: seq<Outside>, budget: nat)
      requires Valid() && pc.Waiting? && (shutdown || ShutsDown in script)
      modifies this
      ensures Valid() && old(run) <= run && shutdown && nextStatus == Shutdown && pc.Exited?
      ensures outstanding == {} && AllDeleted()
    {
      var rest := Meanwhile(script);
      var status: Status, left: nat;
      ghost var tag;
      status, tag, left := AsyncNext(false, budget);
      while status != Shutdown
        invariant Valid() && old(run) <= run && nextStatus == status && (shutdown || ShutsDown in rest)
        invariant pc == if status.Shutdown? then Exited else Waiting
        invariant status == Shutdown ==> outstanding == {} && shutdown
        decreases left + left + |outstanding| + |rest|, status != Shutdown
      {
        rest := Meanwhile(rest);
        status, tag, left := AsyncNext(false, left);
      }
      NothingLeft(garbage, run);
    }
  }

  lemma TagsArePosted(garbage: Status, steps: seq<Step>)
    requires IsRun(Init(garbage), steps)
    ensures Exec(Init(garbage), steps).posted !in Exec(Init(garbage), steps).outstanding
  {
    ExactRun(Init(garbage), steps);
  }

  lemma NothingLeft(garbage: Status, steps: seq<Step>)
    requires IsRun(Init(garbage), steps)
    requires Exec(Init(garbage), steps).outstanding == {} && Exec(Init(garbage), steps).pc.Exited?
    ensures var q := Exec(Init(garbage), steps);
      forall tag: nat :: multiset(q.finalized)[tag] == multiset(q.deleted)[tag] == Tally(tag < q.posted)
  {
    ExactRun(Init(garbage), steps);
  }
}
