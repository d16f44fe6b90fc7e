# Easy-gRPC: a verified model

Easy-gRPC wraps gRPC completion queues. What makes it hard is a handful of small concurrent state
machines driven by completion events. This project models them in Dafny and proves, for all runs
and all interleavings, what they keep, what they deliver, how they end, and exactly when they fail.

Two forms stand side by side:

- Transition systems (`Step`, `Enabled`, `Apply`, `IsRun`, `Exec`) for the interleavings. A step of a
  thread is at most one lock section; the unlocked read of the writer's state is a step of its own.
- Classes with the program's fields and methods, each method proved against a function of the state.
  Lemmas connect the two: an uninterrupted call of a method is a run of the transition system.

| file | what it holds |
|---|---|
| `StreamWriter.dfy` | `AsyncClientStreamWriter` with its two mutexes, any number of submitter threads and one completion thread |
| `StreamWriterInvariant.dfy` | what every reachable state of the writer satisfies |
| `StreamWriterTheorems.dfy` | conservation, stranded actions, the asserts, wire order, queue bound |
| `StreamWriterResponse.dfy` | which Finish completes the call's response, and exactly when a run dies |
| `StreamWriterProgress.dfy` | lock order, deadlock freedom, a bound on the length of every run, where runs end |
| `StreamWriterDrain.dfy` | the loop of `finalizeWrite` in closed form, under interference |
| `StreamWriterDiscipline.dfy` | how to use the writer so that it does what its comments promise |
| `StreamWriterExact.dfy` | that this is exact: a submission of any other kind does harm in some interleaving |
| `StreamWriterWitness.dfy` | short runs in which the writer does not do it |
| `StreamWriterClass.dfy` | the writer as a class |
| `ActionQueue.dfy`, `ServerLifecycle.dfy` | the event loop, the wait in its destructor, and `start`/`stop` of the server |
| `ServerActionQueue.dfy` | the server's queue: the set of call handlers it owns, and its shutdown |
| `UnaryCallHandler.dfy`, `UnaryCallTheorems.dfy`, `UnaryCallClass.dfy` | the self-re-arming accept loop of the server |
| `UnaryCallHistory.dfy` | what becomes of a call, in terms of what the completion queue returned for it |
| `StreamCallHandler.dfy` | the accept chain of client-stream calls and their readers |
| `ClientCalls.dfy`, `ClientClasses.dfy` | completion of unary calls and the client's registry |
| `Common.dfy` | sums over sequences and the subsequence relation |

`dafny verify dfyconfig.toml` checks the project.

## What the environment is assumed to do

- Every tag posted to a completion queue comes back at most once, with an arbitrary `ok`; `AsyncNext`
  reports SHUTDOWN only after `Shutdown` and when no tag is outstanding.
- Each queue has one consumer thread. User callbacks terminate and do not throw.
- Steps are sequentially consistent. A mutex section that takes no other mutex is one step.
- A false `assert`, and completing a promise a second time, end the run in a state of their own.

## Where the code and its comments differ

The model follows the code.

- `tryPerformAction` says of an action popped while the state is Processing that it is processed in
  the finalizers (`AsyncClientStreamWriter.h:170-172`). Nothing does: the action is no longer in the
  queue. `StrandedIffDropped` says exactly which actions are lost, `StrandedForever` that they stay so.
- The comment at lines 147-149 promises one operation at a time in pushing order. The order holds
  always (`WireOrder`) and no second operation is ever handed to the stream, but the loop of
  `finalizeWrite` may try to, and then dies in the assert at line 85; `DrainOutcome` says exactly when.
- Which submissions are safe is decided by `MaySubmit`, and by nothing less (`MaySubmitIsExact`): the
  previous action must be a write that came back true, the state must have been reset, and after a
  last message only `finish()` may follow. Waiting for the future is not enough
  (`AwaitingTheFutureIsTooWeak`), since it is completed at line 95 and the state is reset at line 96.
  Waiting for the reset is not enough either if the write failed: a write submitted before the
  completion thread has submitted its own Finish is sent, and that Finish is lost
  (`WaitingForTheResetIsTooWeak`). A caller that waits for neither, as the streaming example does, can
  also run into the assert (`WritingWithoutWaitingCanAbort`).
- Nothing stops a second `finish()`, and it completes the response a second time. A run dies of that
  if and only if two Finishes came back ok (`ResponseTwiceIff`).
- `State::Finished` is never assigned; that is part of `SingleFlight` in the invariant.
- `_nextStatus` is not initialised (`AsyncActionQueue.h:71`), so the destructor's wait may end at once;
  `WaitIffNotGarbage`. A queue whose loop nobody runs is never destroyed: `NobodyServedNobodyReturns`.
- `stop()` does not reset `_started` (`AsyncServer.h:65-80`), so a second `stop()`, such as the one in
  the destructor, dereferences a null `_server`; `ServerLifecycle.AsyncServer.Stop`.
- A reader whose owner calls `moveNext` again before the last read has returned can be deleted twice
  (`AsyncClientStreamReader.h:55-69`); `DeletedTwiceIff` says exactly when.

## Model

| member | source | states |
|---|---|---|
| StreamWriterInvariant.StepKeepsInv | EasyGRPC/include/ShuHai/gRPC/Client/AsyncClientStreamWriter.h:58-261 | every step of every thread keeps mutual exclusion, single flight, the soundness of the unlocked read, conservation, wire order, the queue bound and the account of the wire |
| StreamWriterInvariant.ReachableInv | EasyGRPC/include/ShuHai/gRPC/Client/AsyncClientStreamWriter.h:58-261 | all of that in every reachable state, for any number of submitters |
| StreamWriterInvariant.SingleFlightStep | EasyGRPC/include/ShuHai/gRPC/Client/AsyncClientStreamWriter.h:82-99 | the state is never Finished, and Processing exactly while one operation is between perform and the reset |
| StreamWriterInvariant.ConservedStep | EasyGRPC/include/ShuHai/gRPC/Client/AsyncClientStreamWriter.h:145-261 | a step moves actions between places and neither loses nor copies one |
| StreamWriterInvariant.OrderedStep | EasyGRPC/include/ShuHai/gRPC/Client/AsyncClientStreamWriter.h:145-157 | popped then queued stays what was pushed, and the wire plus the action being tried stays a subsequence of the popped |
| StreamWriterInvariant.BoundedStep | EasyGRPC/include/ShuHai/gRPC/Client/AsyncClientStreamWriter.h:58-70 | the queue stays no longer than the number of submissions between push and try |
| StreamWriterInvariant.FailureStep | EasyGRPC/include/ShuHai/gRPC/Client/AsyncClientStreamWriter.h:82-99 | a step that dies is the assert of perform in the drain loop, a failed Finish, or a second response |
| StreamWriterTheorems.ExactlyOnePlace | EasyGRPC/include/ShuHai/gRPC/Client/AsyncClientStreamWriter.h:145-254 | every created action is in exactly one of submitting, queued, being tried, under way, resolved, rejected, stranded |
| StreamWriterTheorems.UnresolvedAreStranded | EasyGRPC/include/ShuHai/gRPC/Client/AsyncClientStreamWriter.h:159-177 | at quiescence the futures that are not ready are exactly the stranded ones |
| StreamWriterTheorems.SentOnceUnlessLostOrRefused | EasyGRPC/include/ShuHai/gRPC/Client/AsyncClientStreamWriter.h:145-227 | at quiescence an action was handed to the stream exactly once unless it was stranded or rejected |
| StreamWriterTheorems.StrandedIffDropped | EasyGRPC/include/ShuHai/gRPC/Client/AsyncClientStreamWriter.h:159-177 | an action is stranded if and only if a submission popped it and read Processing |
| StreamWriterTheorems.StrandedForever | EasyGRPC/include/ShuHai/gRPC/Client/AsyncClientStreamWriter.h:170-172 | a stranded action is never resolved in any continuation |
| StreamWriterTheorems.PromiseKept | EasyGRPC/include/ShuHai/gRPC/AsyncAction.h:11-29 | a completed promise keeps its outcome for the rest of the run |
| StreamWriterTheorems.FutureIsWhatCameBack | EasyGRPC/include/ShuHai/gRPC/Client/AsyncClientStreamWriter.h:90-99 | in every run the future of an action holds a value exactly if the completion queue returned that value for it |
| StreamWriterTheorems.ProcessingIffOneUnderWay | EasyGRPC/include/ShuHai/gRPC/Client/AsyncClientStreamWriter.h:82-99 | Processing if and only if exactly one operation is under way, Ready if and only if none, never Finished and never more than one |
| StreamWriterTheorems.ReadThenPerformIsSafe | EasyGRPC/include/ShuHai/gRPC/Client/AsyncClientStreamWriter.h:82-97 | the assert in perform holds after the unlocked read, and the assert in finalizeResult always holds |
| StreamWriterTheorems.ReadyUntilPerform | EasyGRPC/include/ShuHai/gRPC/Client/AsyncClientStreamWriter.h:159-165 | after the unlocked read of Ready no run of the other threads makes the state leave Ready before perform |
| StreamWriterTheorems.OnlyThreeFailures | EasyGRPC/include/ShuHai/gRPC/Client/AsyncClientStreamWriter.h:82-140 | every run that dies does so in one of three ways |
| StreamWriterResponse.FailsExactly | EasyGRPC/include/ShuHai/gRPC/Client/AsyncClientStreamWriter.h:82-140 | from every reachable state, for each of the three ways to die, the exact condition under which a step dies that way; otherwise it does not |
| StreamWriterResponse.ResponseSetIffFinished | EasyGRPC/include/ShuHai/gRPC/Client/AsyncClientStreamCall.h:65-77 | in every reachable running state the response is set if and only if some Finish has been through finalizeFinish; there is one such Finish at most and it came back ok |
| StreamWriterResponse.ResponseTwiceIff | EasyGRPC/include/ShuHai/gRPC/Client/AsyncClientStreamWriter.h:234-240 | a run that died completed the response twice if and only if two Finishes came back ok |
| StreamWriterTheorems.WireOrder | EasyGRPC/include/ShuHai/gRPC/Client/AsyncClientStreamWriter.h:145-157 | popped then queued is the pushed sequence and the wire is a subsequence of it |
| StreamWriterTheorems.QueueIsBounded | EasyGRPC/include/ShuHai/gRPC/Client/AsyncClientStreamWriter.h:58-70 | the queue is at most as long as the number of half-done submissions, and empty when there is none |
| StreamWriterTheorems.OneSubmitterOneToDrain | EasyGRPC/include/ShuHai/gRPC/Client/AsyncClientStreamWriter.h:185-191 | with one submitter the drain loop finds at most one action |
| StreamWriterProgress.LockOrder | EasyGRPC/include/ShuHai/gRPC/Client/AsyncClientStreamWriter.h:82-99 | no mutex is requested while _stateMutex is held, and none by a thread that already holds it |
| StreamWriterProgress.DeadlockFree | EasyGRPC/include/ShuHai/gRPC/Client/AsyncClientStreamWriter.h:145-254 | unless all threads are idle some thread can take a step |
| StreamWriterProgress.WorkStep | EasyGRPC/include/ShuHai/gRPC/Client/AsyncClientStreamWriter.h:58-261 | every step except a new call uses up work, including the Finish that a failed write causes |
| StreamWriterProgress.Terminates | EasyGRPC/include/ShuHai/gRPC/Client/AsyncClientStreamWriter.h:58-261 | no run, dying ones included, is longer than 17 steps per write plus 9 per finish |
| StreamWriterProgress.MovesUntilQuiescent | EasyGRPC/include/ShuHai/gRPC/Client/AsyncClientStreamWriter.h:58-261 | short of quiescence the system can move without a new call |
| StreamWriterProgress.MaximalRunsEnd | EasyGRPC/include/ShuHai/gRPC/Client/AsyncClientStreamWriter.h:58-261 | the runs without a new call that cannot be made longer are exactly those that died or are quiescent, and all are short |
| StreamWriterProgress.RunsToTheEnd | EasyGRPC/include/ShuHai/gRPC/Client/AsyncClientStreamWriter.h:58-261 | from every reachable state there is a run without a new call to quiescence or a failure |
| StreamWriterDrain.ClosedForm | EasyGRPC/include/ShuHai/gRPC/Client/AsyncClientStreamWriter.h:185-227 | the loop performs the actions up to the first Finish, or only that Finish after a last message, rejects the rest with the stated exception, and fails exactly when it would perform on a stream that is not ready |
| StreamWriterDrain.DrainStep | EasyGRPC/include/ShuHai/gRPC/Client/AsyncClientStreamWriter.h:185-227 | no step of any thread changes what the rest of the loop comes to |
| StreamWriterDrain.DrainOutcome | EasyGRPC/include/ShuHai/gRPC/Client/AsyncClientStreamWriter.h:185-227 | in every interleaving the loop ends in the closed form of the state it starts in, failing line 85 if and only if the attempts, plus one if Processing, exceed one and there is an attempt |
| StreamWriterDrain.DrainOfWrite | EasyGRPC/include/ShuHai/gRPC/Client/AsyncClientStreamWriter.h:179-227 | from every reachable state in which a successful write takes _actionsMutex the loop ends, in every interleaving, in the closed form of what is shared then, with that write's own last-message flag, and fails exactly when that says |
| StreamWriterDrain.OthersWait | EasyGRPC/include/ShuHai/gRPC/Client/AsyncClientStreamWriter.h:187-191 | while the completion thread drains, other threads can only enter a call |
| StreamWriterDiscipline.DisciplinedStep | EasyGRPC/include/ShuHai/gRPC/Client/AsyncClientStreamWriter.h:58-240 | a step in which a submission waits for the reset of the previous action keeps the system in step |
| StreamWriterDiscipline.DisciplinedRunsDeliver | EasyGRPC/include/ShuHai/gRPC/Client/AsyncClientStreamWriter.h:58-240 | for any number of submitters who wait so, in every interleaving nothing fails, strands or is rejected and the wire is the submitted sequence, plus one automatic Finish if and only if a write failed, which is missing only while the completion thread is about to create it |
| StreamWriterDiscipline.DisciplinedRunsComplete | EasyGRPC/include/ShuHai/gRPC/Client/AsyncClientStreamCall.h:65-77 | at quiescence of such a run everything was sent and answered, the automatic Finish was added if and only if a write failed, and the response is set exactly if the last operation is a Finish |
| StreamWriterDiscipline.CreatedIsSubmitted | EasyGRPC/include/ShuHai/gRPC/Client/AsyncClientStreamWriter.h:228-231 | the created operations are the submitted ones and at most one automatic Finish |
| StreamWriterExact.MaySubmitIsExact | EasyGRPC/include/ShuHai/gRPC/Client/AsyncClientStreamWriter.h:145-240 | after any disciplined run a submission does no harm in any interleaving if and only if MaySubmit holds, where harm is dying, stranding, refusing, or an operation the stream does not allow there |
| StreamWriterExact.BusySubmissionIsLost | EasyGRPC/include/ShuHai/gRPC/Client/AsyncClientStreamWriter.h:159-177 | in every state of a disciplined run in which the stream is busy, every submission can be lost within five steps |
| StreamWriterExact.FailureLosesItsFinish | EasyGRPC/include/ShuHai/gRPC/Client/AsyncClientStreamWriter.h:228-231 | whatever is submitted between the reset of a failed write and the Finish of the completion thread, that Finish can be lost |
| StreamWriterWitness.AwaitingTheFutureIsTooWeak | EasyGRPC/include/ShuHai/gRPC/Client/AsyncClientStreamWriter.h:93-97 | a run in which a submission made after the previous future was ready is stranded |
| StreamWriterWitness.WaitingForTheResetIsTooWeak | EasyGRPC/include/ShuHai/gRPC/Client/AsyncClientStreamWriter.h:228-231 | a run in which a submission made after the reset of a failed write is sent and the Finish for the failure is lost |
| StreamWriterWitness.WritingWithoutWaitingCanAbort | EasyGRPC/include/ShuHai/gRPC/Client/AsyncClientStreamWriter.h:185-227 | a run of one submitter that does not wait and dies in the assert of perform |
| StreamWriterWitness.FinishingTwiceAborts | EasyGRPC/include/ShuHai/gRPC/Client/AsyncClientStreamCall.h:67 | a run in which two finishes complete the response promise twice |
| StreamWriterWitness.FailedFinishAborts | EasyGRPC/include/ShuHai/gRPC/Client/AsyncClientStreamWriter.h:234-240 | a run in which a Finish comes back not ok |
| StreamWriterClass.AsyncClientStreamWriter.Write | EasyGRPC/include/ShuHai/gRPC/Client/AsyncClientStreamWriter.h:58-63 | the whole new state; the first of the old queue and the new action is sent on a ready stream and lost on a busy one |
| StreamWriterClass.AsyncClientStreamWriter.Finish | EasyGRPC/include/ShuHai/gRPC/Client/AsyncClientStreamWriter.h:65-70 | the whole new state; likewise for a Finish |
| StreamWriterClass.AsyncClientStreamWriter.NewAction | EasyGRPC/include/ShuHai/gRPC/Client/AsyncClientStreamWriter.h:242-254 | a new action at the end of the queue |
| StreamWriterClass.AsyncClientStreamWriter.PopAction | EasyGRPC/include/ShuHai/gRPC/Client/AsyncClientStreamWriter.h:256-261 | the first action leaves the queue |
| StreamWriterClass.AsyncClientStreamWriter.SetPromise | EasyGRPC/include/ShuHai/gRPC/AsyncAction.h:13-26 | a promise is completed once; a second time fails and changes nothing |
| StreamWriterClass.AsyncClientStreamWriter.PerformAction | EasyGRPC/include/ShuHai/gRPC/Client/AsyncClientStreamWriter.h:82-88 | hands the operation to the stream, or fails if the state is not Ready |
| StreamWriterClass.AsyncClientStreamWriter.TryPerformAction | EasyGRPC/include/ShuHai/gRPC/Client/AsyncClientStreamWriter.h:145-177 | the new state for each of the three states and the empty queue, and when it returns true |
| StreamWriterClass.AsyncClientStreamWriter.DrainQueue | EasyGRPC/include/ShuHai/gRPC/Client/AsyncClientStreamWriter.h:185-227 | the loop does what its recursive form says, and with it the closed form |
| StreamWriterClass.AsyncClientStreamWriter.FinalizeWrite | EasyGRPC/include/ShuHai/gRPC/Client/AsyncClientStreamWriter.h:179-232 | after a success the closed form of the loop for the write's own last-message flag, after a failure the submission of a Finish |
| StreamWriterClass.AsyncClientStreamWriter.FinalizeFinish | EasyGRPC/include/ShuHai/gRPC/Client/AsyncClientStreamWriter.h:234-240 | completes the response once, fails on not ok |
| StreamWriterClass.AsyncClientStreamWriter.FinalizeResult | EasyGRPC/include/ShuHai/gRPC/Client/AsyncClientStreamWriter.h:90-99 | the same from the state in which the result is set and the stream is ready again, the response for a Finish, and each way to fail |
| StreamWriterClass.SubmitAlone | EasyGRPC/include/ShuHai/gRPC/Client/AsyncClientStreamWriter.h:58-70 | an uninterrupted write or finish is a run with the result the method states |
| StreamWriterClass.DrainAlone | EasyGRPC/include/ShuHai/gRPC/Client/AsyncClientStreamWriter.h:185-227 | an uninterrupted loop is a run with the result the method states |
| StreamWriterClass.FinalizeAlone | EasyGRPC/include/ShuHai/gRPC/Client/AsyncClientStreamWriter.h:90-99 | an uninterrupted completion is a run with the result the method states |
| ActionQueue.ShutdownMeansAllDeleted | EasyGRPC/include/ShuHai/gRPC/AsyncActionQueue.h:35-61 | when SHUTDOWN is reported the posted, the finalized and the deleted actions are the same, once each |
| ActionQueue.NeverTwice | EasyGRPC/include/ShuHai/gRPC/AsyncActionQueue.h:56-61 | no action is ever finalized or deleted twice, or deleted first |
| ActionQueue.WaitIffNotGarbage | EasyGRPC/include/ShuHai/gRPC/AsyncActionQueue.h:63-71 | the destructor waits for the loop in every run if and only if the uninitialised status is not SHUTDOWN |
| ActionQueue.NobodyServedNobodyReturns | EasyGRPC/include/ShuHai/gRPC/AsyncActionQueue.h:25-67 | unless a thread runs the loop to SHUTDOWN the destructor does not return |
| ActionQueue.ShutdownEndsTheWait | EasyGRPC/include/ShuHai/gRPC/AsyncActionQueue.h:25-68 | after shutdown was called, in whatever state, there is a continuation without further posts in which the loop ends and the destructor returns |
| ActionQueue.AsyncActionQueue.AsyncNext | EasyGRPC/include/ShuHai/gRPC/AsyncActionQueue.h:35-46 | one event is finalized and then deleted, or the deadline passes, or SHUTDOWN is returned and nothing is left; the status is stored; with all that happened before it is a run of the transition system |
| ActionQueue.AsyncActionQueue.Finish | EasyGRPC/include/ShuHai/gRPC/AsyncActionQueue.h:56-61 | the finalizer runs, posting any further actions, and then the action is deleted, each once |
| ActionQueue.AsyncActionQueue.Serve | EasyGRPC/include/ShuHai/gRPC/Client/AsyncClient.h:115-120 | whatever other threads post meanwhile, if they shut the queue down at some time the loop ends with everything ever posted finalized once and deleted once |
| ServerLifecycle.AsyncServer.Start | EasyGRPC/include/ShuHai/gRPC/Server/AsyncServer.h:46-63 | one thread per queue, and an exception on any later start |
| ServerLifecycle.AsyncServer.Stop | EasyGRPC/include/ShuHai/gRPC/Server/AsyncServer.h:65-80 | every queue deletes its handlers, is told to shut down and is served to SHUTDOWN before it is destroyed; a null dereference if and only if the server was started and stopped before |
| ServerLifecycle.StopTwice | EasyGRPC/include/ShuHai/gRPC/Server/AsyncServer.h:44-80 | the second of two stops crashes if and only if the server was started |
| UnaryCallHandler.StepKeepsInv | EasyGRPC/include/ShuHai/gRPC/Server/AsyncUnaryCallHandler.h:43-150 | every step keeps each call's record in line with its stage and each tag in line with its call |
| UnaryCallTheorems.CallsAndActionsMatch | EasyGRPC/include/ShuHai/gRPC/Server/AsyncUnaryCallHandler.h:43-69 | between events live calls and action objects are in bijection and no call is deleted twice |
| UnaryCallTheorems.AllocatedIsAcceptedPlusOne | EasyGRPC/include/ShuHai/gRPC/Server/AsyncUnaryCallHandler.h:112-133 | calls allocated are always calls accepted plus one |
| UnaryCallTheorems.OneRequestArmed | EasyGRPC/include/ShuHai/gRPC/Server/AsyncUnaryCallHandler.h:112-133 | exactly one service request is outstanding between events until one comes back not ok and none ever after, in terms of the steps of the run, and the next is armed before an accepted call is dispatched |
| UnaryCallTheorems.ChainStaysClosed | EasyGRPC/include/ShuHai/gRPC/Server/AsyncUnaryCallHandler.h:118-133 | in every continuation of a run with a refused request no call is allocated and no request is outstanding |
| UnaryCallTheorems.StagesAdvance | EasyGRPC/include/ShuHai/gRPC/Server/AsyncUnaryCallHandler.h:100-150 | in every run the stages of a call only advance |
| UnaryCallTheorems.HandledThenFinished | EasyGRPC/include/ShuHai/gRPC/Server/AsyncUnaryCallHandler.h:86-110 | the function runs at most once and only after acceptance, and Finish is called at most once, with what it returned |
| UnaryCallHistory.RequestIsTheAccepted | EasyGRPC/include/ShuHai/gRPC/Server/AsyncUnaryCallHandler.h:56-69 | a call holds a request if and only if gRPC accepted it with that request and its finalizer has run or is in hand |
| UnaryCallHistory.EveryCallIsConcluded | EasyGRPC/include/ShuHai/gRPC/Server/AsyncUnaryCallHandler.h:118-150 | between events Finish was called, with the function's response to the accepted request, if and only if the alarm came back ok; a call is deleted if and only if it was given up, and then unfinished, or its Finish came back, and then finished |
| UnaryCallHistory.RunIffDispatched | EasyGRPC/include/ShuHai/gRPC/Server/AsyncUnaryCallHandler.h:71-98 | the handler function has run for a call exactly if some step of the run was its inline dispatch or its later run |
| UnaryCallHistory.ShutdownIsRecorded | EasyGRPC/include/ShuHai/gRPC/AsyncActionQueue.h:35-48 | the queue is shut down, and SHUTDOWN reported, exactly if the run has a step that did so |
| UnaryCallTheorems.WorkStep | EasyGRPC/include/ShuHai/gRPC/Server/AsyncUnaryCallHandler.h:112-150 | every step except accepting a call uses up work |
| UnaryCallTheorems.ServingEnds | EasyGRPC/include/ShuHai/gRPC/Server/AsyncUnaryCallHandler.h:112-150 | no run is longer than 6 steps plus 11 per accepted call |
| UnaryCallTheorems.DrainsToShutdown | EasyGRPC/include/ShuHai/gRPC/AsyncActionQueue.h:35-54 | if no call is mid-handling at the shutdown there is a run without accepted calls to SHUTDOWN with every call freed once |
| UnaryCallTheorems.EveryDrainReachesShutdown | EasyGRPC/include/ShuHai/gRPC/AsyncActionQueue.h:35-61 | every such run is short, and it cannot be made longer if and only if SHUTDOWN was reported, with every call freed once |
| UnaryCallTheorems.EveryCallCanBeFreed | EasyGRPC/include/ShuHai/gRPC/AsyncActionQueue.h:35-61 | from every state after shutdown there is a run, in which the dispatched functions run first, to SHUTDOWN with every call freed once |
| UnaryCallTheorems.LeftAtShutdown | EasyGRPC/include/ShuHai/gRPC/Server/AsyncUnaryCallHandler.h:71-98 | at SHUTDOWN every call is deleted if and only if none is dispatched and not yet run |
| UnaryCallTheorems.AbandonedForever | EasyGRPC/include/ShuHai/gRPC/Server/AsyncUnaryCallHandler.h:86-95 | such a call is never deleted later |
| UnaryCallClass.AsyncUnaryCallHandler.FinalizeCallRequest | EasyGRPC/include/ShuHai/gRPC/Server/AsyncUnaryCallHandler.h:118-133 | keeps the invariant; exactly one new request is outstanding, the call is handled now or dispatched and not yet handled; a refused call is deleted once |
| UnaryCallClass.AsyncUnaryCallHandler.PerformHandling | EasyGRPC/include/ShuHai/gRPC/Server/AsyncUnaryCallHandler.h:86-95 | keeps the invariant wherever the consumer thread is; the call is handled for the first time, with the function's response to its request, and its alarm becomes outstanding |
| UnaryCallClass.AsyncUnaryCallHandler.FinalizeCallHandling | EasyGRPC/include/ShuHai/gRPC/Server/AsyncUnaryCallHandler.h:135-141 | keeps the invariant; Finish is posted once with what the function returns for this request, or the call is deleted once |
| UnaryCallClass.AsyncUnaryCallHandler.FinalizeCallFinish | EasyGRPC/include/ShuHai/gRPC/Server/AsyncUnaryCallHandler.h:143-150 | keeps the invariant; the call, finished once with what the function returns for its request, is deleted once whatever ok is |
| UnaryCallClass.AsyncUnaryCallHandler.FinalizeTag | EasyGRPC/include/ShuHai/gRPC/AsyncActionQueue.h:56-61 | restores the invariant between two events, leaves nothing of the action and no other call changed; the call holds the accepted request, or was finished with the function's response to it, or is deleted, by kind and ok |
| UnaryCallClass.AsyncUnaryCallHandler.HandleEvent | EasyGRPC/include/ShuHai/gRPC/AsyncActionQueue.h:35-61 | one event keeps the invariant, exchanges its tag for those of the next stage, does to the call what its kind, ok and request say, and is a run of the transition system |
| UnaryCallClass.FinalizeTagIsARun | EasyGRPC/include/ShuHai/gRPC/Server/AsyncUnaryCallHandler.h:112-150 | what the method does is what the consumer thread does between two events |
| ServerActionQueue.AsyncActionQueue.NewCallHandler | EasyGRPC/include/ShuHai/gRPC/Server/AsyncActionQueue.h:80-89 | a handler not seen before joins the set |
| ServerActionQueue.AsyncActionQueue.DeleteCallHandler | EasyGRPC/include/ShuHai/gRPC/Server/AsyncActionQueue.h:91-100 | a registered handler leaves the set and is deleted; an unknown one is refused |
| ServerActionQueue.AsyncActionQueue.DeleteAllCallHandlers | EasyGRPC/include/ShuHai/gRPC/Server/AsyncActionQueue.h:102-109 | afterwards every handler ever created was deleted exactly once |
| ServerActionQueue.AsyncActionQueue.Shutdown | EasyGRPC/include/ShuHai/gRPC/Server/AsyncActionQueue.h:27-33 | every handler is deleted exactly once, and after that the event queue is told to shut down |
| StreamCallHandler.ReadersDeletedOnce | EasyGRPC/include/ShuHai/gRPC/Server/AsyncClientStreamCallHandler.h:40-106 | with one read at a time per reader, every reader is in exactly one of pending, active and deleted, and deleted once, on leaving one of the first two |
| StreamCallHandler.OneRequestUntilRefused | EasyGRPC/include/ShuHai/gRPC/Server/AsyncClientStreamCallHandler.h:58-100 | in every run, however readers are used, exactly one request is outstanding until one comes back not ok, then none |
| StreamCallHandler.ChainStaysClosed | EasyGRPC/include/ShuHai/gRPC/Server/AsyncClientStreamCallHandler.h:58-100 | in every continuation of a run with a refused request no reader is allocated and no request is outstanding |
| StreamCallHandler.DeletesAccounted | EasyGRPC/include/ShuHai/gRPC/Server/AsyncClientStreamReader.h:39-69 | in every run a reader is deleted once for each of its reads whose future holds false, and once if its request was refused |
| StreamCallHandler.FutureIsFinal | EasyGRPC/include/ShuHai/gRPC/Server/AsyncClientStreamReader.h:39-43 | the future of a read, once ready, keeps its result |
| StreamCallHandler.FutureIsWhatCameBack | EasyGRPC/include/ShuHai/gRPC/Server/AsyncClientStreamReader.h:21-47 | in every run the i-th moveNext made the i-th read, on its reader, and the future holds exactly what the completion queue returned |
| StreamCallHandler.ReaderSetStep | EasyGRPC/include/ShuHai/gRPC/Server/AsyncClientStreamCallHandler.h:93-106 | a reader joins the set exactly when its request is accepted and leaves it exactly when a read fails |
| StreamCallHandler.DeletedTwiceIff | EasyGRPC/include/ShuHai/gRPC/Server/AsyncClientStreamReader.h:21-69 | a reader can still be deleted twice if and only if more than one of its reads is outstanding, or one after its deletion |
| StreamCallHandler.AsyncClientStreamCallHandler.FinalizeRequest | EasyGRPC/include/ShuHai/gRPC/Server/AsyncClientStreamCallHandler.h:58-100 | keeps both invariants; an accepted call activates its reader and leaves the one request of the next reader, a refused one leaves none and deletes its reader for the only time |
| StreamCallHandler.AsyncClientStreamCallHandler.MoveNext | EasyGRPC/include/ShuHai/gRPC/Server/AsyncClientStreamReader.h:21-25 | returns the future of a new read; keeps the invariant if the reader is active with no read outstanding |
| StreamCallHandler.AsyncClientStreamCallHandler.FinalizeRead | EasyGRPC/include/ShuHai/gRPC/Server/AsyncClientStreamReader.h:39-69 | completes that future; keeps the invariant, under which a reader whose read fails leaves the set and is deleted for the only time |
| ClientCalls.CompletedOnce | EasyGRPC/include/ShuHai/gRPC/Client/AsyncUnaryCall.h:69-104 | a promise holds what the queue returned for that call, the response if the status is ok and the error otherwise; a callback given to call() is dispatched after that, at most once, exactly once before the call is dead, and no other is |
| ClientCalls.EveryEventCompletes | EasyGRPC/include/ShuHai/gRPC/Client/AsyncUnaryCall.h:69-104 | whatever the queue returned for a call has completed its promise, had its callback dispatched and made the call dead, unless the completion thread is still at it |
| ClientCalls.CallbackRuns | EasyGRPC/include/ShuHai/gRPC/Client/AsyncUnaryCall.h:90-104 | a callback runs as often as the run says, once at most |
| ClientCalls.CallsAreCreated | EasyGRPC/include/ShuHai/gRPC/Client/AsyncClient.h:43-90 | the calls are those that were created, in order, each with the kind and callback it was given |
| ClientCalls.AllCallsComplete | EasyGRPC/include/ShuHai/gRPC/Client/AsyncClient.h:63-104 | from every state in which the Finish in hand is ok there is a continuation in which every unary call completes and leaves the registry, every callback runs and every call() returns |
| ClientCalls.PromiseIsFinal | EasyGRPC/include/ShuHai/gRPC/Client/AsyncUnaryCall.h:74-83 | a completed response promise never changes |
| ClientCalls.DiesOnlyOnFailedFinish | EasyGRPC/include/ShuHai/gRPC/Client/AsyncUnaryCall.h:69-72 | the assert is the only way to die, and no promise is completed twice |
| ClientCalls.LiveCallsAreRegistered | EasyGRPC/include/ShuHai/gRPC/Client/AsyncClient.h:63-104 | a call that the run has added and that has not completed is in the registry |
| ClientCalls.RegistryAtQuiescence | EasyGRPC/include/ShuHai/gRPC/Client/AsyncClient.h:63-107 | at quiescence the registry is exactly the calls created as client streams and the unary calls that died before they were added |
| ClientCalls.DiedFirstIff | EasyGRPC/include/ShuHai/gRPC/Client/AsyncClient.h:92-104 | which calls those are, by the order of the two steps in the run |
| ClientCalls.LeakedForever | EasyGRPC/include/ShuHai/gRPC/Client/AsyncClient.h:100-104 | nothing ever removes such a call |
| ClientCalls.FastCompletionLeaks | EasyGRPC/include/ShuHai/gRPC/Client/AsyncClient.h:71-75 | a run in which that happens |
| ClientClasses.AsyncClient.StartCall | EasyGRPC/include/ShuHai/gRPC/Client/AsyncClient.h:63-76 | a new call that is in the registry |
| ClientClasses.AsyncClient.OnCallDead | EasyGRPC/include/ShuHai/gRPC/Client/AsyncClient.h:92-104 | the call leaves the registry |
| ClientClasses.AsyncUnaryCall.FinalizeFinished | EasyGRPC/include/ShuHai/gRPC/Client/AsyncUnaryCall.h:69-104 | the promise holds the response, or the error status; callback and registry in the same completion, and nothing at all when the assert fails |

## Left out

- gRPC itself, channels, credentials, message contents and wire encoding: messages, requests and responses are opaque strings.
- The C++ memory model below the grain described above.
- asio executors: a dispatched function runs at once or at any later step.
- Races inside constructors: constructing a call or a writer is one step, so a completion cannot arrive before `_streamWriter` is assigned.
- `markStreamWriterReady` and the opening of a client-stream call: one assignment of one promise.
- Handler memory after `deleteAllCallHandlers`: a handler is an identity, not heap memory, and the same holds for the reader's callback to it.
- ServerActionQueue.AsyncActionQueue.Shutdown: `shutdownCallHandlers` is not modelled, since the handlers' own `shutdown` does nothing; the mutex of the set is not either, as every access is one lock section.
- ServerLifecycle.AsyncServer.JoinThreads: the work of a thread is done when it is joined; what it does before is left to `Serve`, and `_server->Shutdown()` to the environment.
- The client-stream handler function: its call is commented out in the source, so nothing is claimed about its response.
- Heap identity of actions, calls and readers: they are known by their creation index, and their promises and fields are held in maps and sequences of the owning class, so aliasing between them is not modelled.
- Memory leaks of rejected and stranded actions: a stranded action is only recorded as lost.
- ActionQueue.AsyncActionQueue.Serve: assumes that other threads shut the queue down at some time and that the finalizers post finitely many further actions in all; without that the loop need not end.
- Type traits, stub and service lookup, RPC type dispatch, CMake functions and examples: compile-time or easy.
