/** The loop of finalizeWrite in closed form, and why no interleaving can change what it does. */
module StreamWriterDrain {
  import opened Common
  import opened StreamWriter
  import opened StreamWriterInvariant

  /** The loop of finalizeWrite run to its end. */
  function DrainFrom(sh: Shared, last: bool, finishPerformed: bool): CallResult
    decreases |sh.queue|
  {
    if sh.queue == [] then Done(sh)
    else
      var a := sh.queue[0];
      match LoopVerdict(a.op, last, finishPerformed)
      case Some(reason) =>
        if a in sh.promises then Died(Pop(sh), PromiseTwice)
        else DrainFrom(Complete(Pop(sh), a, Rejected(reason)), last, finishPerformed)
      case None =>
        if sh.state != Ready then Died(Pop(sh), PerformNotReady(true))
        else DrainFrom(Perform(Pop(sh), a), last, finishPerformed || a.op.Finish?)
  }

  // ---- Closed form ----

  /** The index of the first Finish, or the length of the queue. */
  function FirstFinish(q: seq<Action>): (k: nat)
    ensures k <= |q|
    ensures k < |q| ==> q[k].op.Finish?
    ensures forall i :: 0 <= i < k ==> q[i].op.Write?
  {
    if q == [] || q[0].op.Finish? then 0 else 1 + FirstFinish(q[1..])
  }

  /** The actions the loop tries to perform: those up to the first Finish, or that Finish alone
      when the message just written was the last one. */
  function Attempts(q: seq<Action>, last: bool, finishPerformed: bool): seq<Action> {
    var k := FirstFinish(q);
    if finishPerformed then [] else q[if last then k else 0..if k < |q| then k + 1 else k]
  }

  /** The exception for an action the loop does not try. */
  function Refusal(op: Op, last: bool): Reason {
    if op.Finish? then DuplicateFinish else if last then LastAlreadyWritten else WriteAfterFinish
  }

  function Refusals(q: seq<Action>, tried: seq<Action>, last: bool): map<Action, Outcome> {
    map a | a in q && a !in tried :: Rejected(Refusal(a.op, last))
  }

  /** The assert in perform() fails: something is tried, and it is not a single operation on a ready stream. */
  predicate DrainFails(sh: Shared, last: bool, finishPerformed: bool) {
    var n := |Attempts(sh.queue, last, finishPerformed)|;
    n > 0 && n + Tally(sh.state != Ready) > 1
  }

  predicate Distinct(q: seq<Action>) {
    forall i, j :: 0 <= i < j < |q| ==> q[i] != q[j]
  }

  predicate Untouched(sh: Shared) {
    Distinct(sh.queue) && forall i :: 0 <= i < |sh.queue| ==> sh.queue[i] !in sh.promises
  }

  /** The loop having tried these actions, one after the other, and refused all the others. */
  function Emptied(sh: Shared, tried: seq<Action>, last: bool): Shared {
    sh.(queue := [], popped := sh.popped + sh.queue,
        state := if tried == [] then sh.state else Processing,
        outstanding := sh.outstanding + multiset(tried), wire := sh.wire + tried,
        promises := sh.promises + Refusals(sh.queue, tried, last))
  }

  /** The loop fails exactly when DrainFails says so; otherwise it performs its attempts in order,
      refuses everything else, and leaves the queue empty. */
  predicate HasClosedForm(sh: Shared, last: bool, finishPerformed: bool) {
    var r := DrainFrom(sh, last, finishPerformed);
    && (r.Died? <==> DrainFails(sh, last, finishPerformed))
    && (r.Died? ==> r.why == PerformNotReady(true))
    && (r.Done? ==> r.sh == Emptied(sh, Attempts(sh.queue, last, finishPerformed), last))
  }

  lemma {:induction false} ClosedForm(sh: Shared, last: bool, finishPerformed: bool)
    requires Untouched(sh)
    ensures HasClosedForm(sh, last, finishPerformed)
    decreases |sh.queue|
  {
    if sh.queue == [] {
      assert Emptied(sh, [], last) == sh;
    } else {
      var a := sh.queue[0];
      HeadOnce(sh.queue);
      match LoopVerdict(a.op, last, finishPerformed)
      case Some(reason) =>
        ClosedForm(Complete(Pop(sh), a, Rejected(reason)), last, finishPerformed);
        RefusingFirst(sh, last, finishPerformed);
      case None =>
        ClosedForm(Perform(Pop(sh), a), last, finishPerformed || a.op.Finish?);
        TryingFirst(sh, last, finishPerformed);
    }
  }

  lemma RefusingFirst(sh: Shared, last: bool, finishPerformed: bool)
    requires sh.queue != [] && Untouched(sh) && LoopVerdict(sh.queue[0].op, last, finishPerformed).Some?
    requires var a := sh.queue[0];
      HasClosedForm(Complete(Pop(sh), a, Rejected(Refusal(a.op, last))), last, finishPerformed)
    ensures HasClosedForm(sh, last, finishPerformed)
  {
    var tried := Attempts(sh.queue[1..], last, finishPerformed);
    assert tried == Attempts(sh.queue, last, finishPerformed) by { AttemptsCons(sh.queue, last, finishPerformed); }
    assert forall a :: a in tried ==> a in sh.queue[1..] by { AttemptsIn(sh.queue[1..], last, finishPerformed); }
    EmptiedRefusing(sh, tried, last);
  }

  lemma TryingFirst(sh: Shared, last: bool, finishPerformed: bool)
    requires sh.queue != [] && Untouched(sh) && LoopVerdict(sh.queue[0].op, last, finishPerformed).None?
    requires HasClosedForm(Perform(Pop(sh), sh.queue[0]), last, finishPerformed || sh.queue[0].op.Finish?)
    ensures HasClosedForm(sh, last, finishPerformed)
  {
    var tried := Attempts(sh.queue[1..], last, finishPerformed || sh.queue[0].op.Finish?);
    assert Attempts(sh.queue, last, finishPerformed) == [sh.queue[0]] + tried by {
      AttemptsCons(sh.queue, last, finishPerformed);
    }
    if sh.state == Ready {
      LoopTries(sh, last, finishPerformed);
      assert DrainFails(sh, last, finishPerformed) <==> tried != [];
      if tried == [] { EmptiedTrying(sh, [], last); }
    }
  }

  /** One iteration of the loop that performs the first action. */
  lemma LoopTries(sh: Shared, last: bool, finishPerformed: bool)
    requires sh.queue != [] && sh.state == Ready && LoopVerdict(sh.queue[0].op, last, finishPerformed).None?
    ensures DrainFrom(sh, last, finishPerformed) ==
      DrainFrom(Perform(Pop(sh), sh.queue[0]), last, finishPerformed || sh.queue[0].op.Finish?)
  {
  }

  lemma EmptiedRefusing(sh: Shared, tried: seq<Action>, last: bool)
    requires sh.queue != [] && Untouched(sh) && forall a :: a in tried ==> a in sh.queue[1..]
    ensures var a := sh.queue[0];
      Emptied(sh, tried, last) == Emptied(Complete(Pop(sh), a, Rejected(Refusal(a.op, last))), tried, last)
  {
    var a, rest := sh.queue[0], sh.queue[1..];
    assert sh.popped + sh.queue == (sh.popped + [a]) + rest;
    RefusalsCons(sh.promises, sh.queue, tried, last);
  }

  lemma RefusalsCons(promises: map<Action, Outcome>, q: seq<Action>, tried: seq<Action>, last: bool)
    requires q != [] && Distinct(q) && forall a :: a in tried ==> a in q[1..]
    ensures promises + Refusals(q, tried, last) ==
            promises[q[0] := Rejected(Refusal(q[0].op, last))] + Refusals(q[1..], tried, last)
  {
    HeadOnce(q);
  }

  lemma EmptiedTrying(sh: Shared, tried: seq<Action>, last: bool)
    requires sh.queue != [] && Untouched(sh)
    ensures var a := sh.queue[0];
      Emptied(sh, [a] + tried, last) == Emptied(Perform(Pop(sh), a), tried, last)
  {
    var a, rest := sh.queue[0], sh.queue[1..];
    var next := Perform(Pop(sh), a);
    HeadOnce(sh.queue);
    assert sh.popped + sh.queue == next.popped + rest;
    assert sh.wire + ([a] + tried) == next.wire + tried;
    assert sh.outstanding + multiset([a] + tried) == next.outstanding + multiset(tried);
    assert Refusals(sh.queue, [a] + tried, last) == Refusals(rest, tried, last);
  }

  lemma HeadOnce(q: seq<Action>)
    requires q != [] && Distinct(q)
    ensures q[0] !in q[1..] && Distinct(q[1..])
    ensures forall a :: a in q <==> a == q[0] || a in q[1..]
  {
    assert q == [q[0]] + q[1..];
  }

  /** The attempts are decided one action at a time. */
  lemma AttemptsCons(q: seq<Action>, last: bool, finishPerformed: bool)
    requires q != []
    ensures LoopVerdict(q[0].op, last, finishPerformed).Some? ==>
      && Attempts(q, last, finishPerformed) == Attempts(q[1..], last, finishPerformed)
      && LoopVerdict(q[0].op, last, finishPerformed).value == Refusal(q[0].op, last)
    ensures LoopVerdict(q[0].op, last, finishPerformed).None? ==>
      Attempts(q, last, finishPerformed) == [q[0]] + Attempts(q[1..], last, finishPerformed || q[0].op.Finish?)
  {
  }

  lemma AttemptsIn(q: seq<Action>, last: bool, finishPerformed: bool)
    ensures forall a :: a in Attempts(q, last, finishPerformed) ==> a in q
  {
  }

  // ---- The loop among the other threads ----

  /** The completion thread is inside the loop of finalizeWrite, holding _actionsMutex. */
  predicate InDrain(s: System) {
    s.Running? && |s.threads| > 0 &&
    (s.threads[0].Draining? || (s.threads[0].Performing? && s.threads[0].resume.Loop?))
  }

  /** What the rest of the loop comes to if nothing interferes. */
  function DrainPlan(s: System): CallResult
    requires InDrain(s)
  {
    match s.threads[0]
    case Draining(last, finishPerformed) => DrainFrom(s.sh, last, finishPerformed)
    case Performing(a, resume) =>
      if s.sh.state != Ready then Died(s.sh, PerformNotReady(true))
      else DrainFrom(Perform(s.sh, a), resume.last, resume.finishPerformed || a.op.Finish?)
  }

  /** The first state of a run in which the loop is over is the one that was planned. */
  predicate FollowsPlan(s: System, steps: seq<Step>, plan: CallResult)
    requires IsRun(s, steps)
    decreases |steps|
  {
    if s.Aborted? then plan == Died(s.last, s.why)
    else if InDrain(s) then steps == [] || FollowsPlan(Apply(s, steps[0]), steps[1..], plan)
    else plan == Done(s.sh) && s.actionsOwner.None? && |s.threads| > 0 && s.threads[0].Idle?
  }

  /** Nobody else can take a step that is under way. */
  lemma OthersBlocked(s: System)
    requires s.Running? && |s.threads| > 0 && Roles(s) && Locks(s) && s.actionsOwner == Some(0)
    ensures forall t :: 0 < t < |s.threads| ==> !CanAdvance(s, t)
  {
    assert forall t :: 0 < t < |s.threads| ==> SubmitterPc(s.threads[t]) && !HoldsActions(s.threads[t]);
  }

  /** While the completion thread drains, others can at most enter write() or finish(). */
  lemma OthersWait(s: System, step: Step)
    requires InDrain(s) && Roles(s) && Locks(s) && Enabled(s, step)
    ensures step.Begin? || step == Advance(0)
  {
    assert HoldsActions(s.threads[0]);
    OthersBlocked(s);
  }

  lemma DrainStep(s: System, step: Step)
    requires InDrain(s) && Roles(s) && Locks(s) && Enabled(s, step)
    ensures var s' := Apply(s, step);
      if s'.Aborted? then DrainPlan(s) == Died(s'.last, s'.why)
      else if InDrain(s') then DrainPlan(s') == DrainPlan(s)
      else DrainPlan(s) == Done(s'.sh) && s'.actionsOwner.None? && |s'.threads| > 0 && s'.threads[0].Idle?
  {
    OthersWait(s, step);
  }

  /** Whatever the other threads do meanwhile, the loop does what DrainFrom says of the state it starts in. */
  lemma {:induction false} DrainFollowsPlan(s: System, steps: seq<Step>)
    requires InDrain(s) && RunInv(s) && IsRun(s, steps)
    ensures FollowsPlan(s, steps, DrainPlan(s))
    decreases |steps|
  {
    if steps != [] {
      var s' := Apply(s, steps[0]);
      StepKeepsInv(s, steps[0]);
      DrainStep(s, steps[0]);
      if InDrain(s') { DrainFollowsPlan(s', steps[1..]); }
    }
  }

  lemma QueueUntouched(s: System)
    requires s.Running? && |s.threads| > 0 && Conserved(s)
    ensures Untouched(s.sh)
  {
    var q := s.sh.queue;
    forall i | 0 <= i < |q| ensures q[i] !in s.sh.promises { Unresolved(s, 0, q[i]); }
    forall i, j | 0 <= i < j < |q| ensures q[i] != q[j] {
      assert Places(s, q[i]) <= 1;
      if q[i] == q[j] { TwiceInSeq(q, i, j); }
    }
  }

  lemma TwiceInSeq(q: seq<Action>, i: nat, j: nat)
    requires i < j < |q| && q[i] == q[j]
    ensures multiset(q)[q[i]] >= 2
  {
    assert q == q[..j] + [q[j]] + q[j + 1..];
    assert q[i] in q[..j];
  }

  /** A loop that is planned to die is never left alive. */
  lemma {:induction false} PlannedToDie(s: System, steps: seq<Step>, plan: CallResult)
    requires IsRun(s, steps) && FollowsPlan(s, steps, plan) && plan.Died?
    ensures InDrain(Exec(s, steps)) || Exec(s, steps) == Aborted(plan.at, plan.why)
    decreases |steps|
  {
    if steps != [] && InDrain(s) { PlannedToDie(Apply(s, steps[0]), steps[1..], plan); }
  }

  /** From any reachable state in which the loop starts, in every interleaving: if DrainFails holds
      of the queue and the state there, every run that leaves the loop does so by the assert in
      perform(); otherwise the loop ends with the attempts performed and everything else refused. */
  lemma DrainOutcome(submitters: nat, s: System, steps: seq<Step>)
    requires Reachable(submitters, s) && s.Running? && |s.threads| > 0
    requires s.threads[0].Draining? && IsRun(s, steps)
    ensures var last, fin := s.threads[0].last, s.threads[0].finishPerformed;
      var s' := Exec(s, steps);
      if DrainFails(s.sh, last, fin)
      then InDrain(s') || (s'.Aborted? && s'.why == PerformNotReady(true))
      else FollowsPlan(s, steps, Done(Emptied(s.sh, Attempts(s.sh.queue, last, fin), last)))
  {
    ReachableInv(submitters, s);
    LoopOutcome(s, steps);
  }

  lemma LoopOutcome(s: System, steps: seq<Step>)
    requires s.Running? && RunInv(s) && s.threads[0].Draining? && IsRun(s, steps)
    ensures var last, fin := s.threads[0].last, s.threads[0].finishPerformed;
      var s' := Exec(s, steps);
      if DrainFails(s.sh, last, fin)
      then InDrain(s') || (s'.Aborted? && s'.why == PerformNotReady(true))
      else FollowsPlan(s, steps, Done(Emptied(s.sh, Attempts(s.sh.queue, last, fin), last)))
  {
    QueueUntouched(s);
    ClosedForm(s.sh, s.threads[0].last, s.threads[0].finishPerformed);
    DrainFollowsPlan(s, steps);
    if DrainPlan(s).Died? { PlannedToDie(s, steps, DrainPlan(s)); }
  }

  /** The completion thread has reset the state after a successful write and takes _actionsMutex, in
      any reachable state: from there on, in every interleaving, the loop ends in the closed form for
      what is shared at that moment, with nothing performed before, and the last-message flag is that
      of the write itself. */
  lemma DrainOfWrite(submitters: nat, s: System, steps: seq<Step>)
    requires Reachable(submitters, s) && Enabled(s, Advance(0)) && s.threads[0].AfterReset?
    requires s.threads[0].a.op.Write? && s.threads[0].ok && IsRun(Apply(s, Advance(0)), steps)
    ensures var last, s1 := s.threads[0].a.op.last, Apply(s, Advance(0));
      var s' := Exec(s1, steps);
      && InDrain(s1) && s1.sh == s.sh
      && if DrainFails(s.sh, last, false)
         then InDrain(s') || (s'.Aborted? && s'.why == PerformNotReady(true))
         else FollowsPlan(s1, steps, Done(Emptied(s.sh, Attempts(s.sh.queue, last, false), last)))
  {
    ReachableInv(submitters, s);
    StepKeepsInv(s, Advance(0));
    LoopOutcome(Apply(s, Advance(0)), steps);
  }
}
