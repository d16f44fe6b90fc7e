/** AsyncServer: one thread per queue, started once, and the order in which stop() takes things down. */
module ServerLifecycle {
  import Queues = ServerActionQueue

  /** The queues and their event queues, each for a completion queue of its own, are in repr. */
  ghost predicate Apart(queues: seq<Queues.AsyncActionQueue>, repr: set<object>) {
    forall i :: 0 <= i < |queues| ==>
      queues[i] in repr && queues[i].events in repr && queues[i].events.completionQueue == i
  }

  class AsyncServer {
    var started: bool
    /** Whether _server still points to the gRPC server. */
    var hasServer: bool
    var queues: seq<Queues.AsyncActionQueue>
    ghost var repr: set<object>
    /** For each running thread, the queue it serves. */
    var threads: seq<Queues.AsyncActionQueue>

    ghost predicate Valid()
      reads this, repr
    {
      && this !in repr && Apart(queues, repr)
      && (forall i :: 0 <= i < |queues| ==> queues[i].Valid())
      && threads == (if started then queues else [])
      && (!started ==> hasServer)
    }

    constructor (queues: seq<Queues.AsyncActionQueue>, ghost repr: set<object>)
      requires Apart(queues, repr)
      requires forall i :: 0 <= i < |queues| ==> queues[i].Valid()
      ensures Valid() && !started && hasServer && this.queues == queues && this.repr == repr
    {
      this.queues, this.repr := queues, repr;
      started, hasServer, threads := false, true, [];
    }

    /** Throws if the server was started before, even if it was stopped since. */
    method Start() returns (thrown: bool)
      requires Valid()
      modifies this`started, this`threads
      ensures Valid() && started && thrown == old(started)
      ensures thrown ==> threads == old(threads)
      ensures !thrown ==> threads == queues
    {
      if started { return true; }
      for i := 0 to |queues|
        invariant threads == queues[..i]
      {
        threads := threads + [queues[i]];
      }
      started := true;
      thrown := false;
    }

    /** Every queue deletes its handlers and is then told to shut down. */
    method ShutdownQueues()
      requires Valid()
      modifies repr
      ensures forall i :: 0 <= i < |queues| ==> queues[i].ToldToStop()
    {
      for i := 0 to |queues|
        invariant forall j :: 0 <= j < |queues| ==>
          if j < i then queues[j].ToldToStop() else unchanged(queues[j]) && unchanged(queues[j].events)
      {
        queues[i].Shutdown();
      }
    }

    /** Joining the threads: each of them has served its queue until SHUTDOWN. The finalizers of a
        queue post at most budget further actions. */
    method JoinThreads(budget: nat)
      requires this !in repr && Apart(queues, repr) && threads == queues
      requires forall i :: 0 <= i < |queues| ==> queues[i].ToldToStop()
      modifies repr
      ensures forall i :: 0 <= i < |queues| ==> queues[i].Served()
    {
      for i := 0 to |threads|
        invariant forall j :: 0 <= j < |queues| ==> if j < i then queues[j].Served() else queues[j].ToldToStop()
      {
        threads[i].Join(budget);
      }
    }

    /** crashed: _server is dereferenced although it is null. That is the case exactly when the server
        was started and stopped before, because stop() never resets _started. Otherwise every queue
        of a started server deletes its handlers, is shut down and then served to the end before it
        is destroyed. */
    method Stop(budget: nat) returns (crashed: bool)
      requires Valid()
      modifies this, repr
      ensures crashed <==> old(started) && !old(hasServer)
      ensures started == old(started) && repr <= old(repr)
      ensures old(started) && old(hasServer) ==> !hasServer && queues == [] && threads == []
      ensures old(started) && old(hasServer) ==> forall q :: q in old(queues) ==> q.Served()
      ensures !old(started) ==> hasServer && queues == old(queues) && threads == old(threads)
      ensures !crashed ==> Valid()
    {
      if !started { return false; }
      if !hasServer { return true; }
      ShutdownQueues();
      JoinThreads(budget);
      threads := [];
      hasServer := false;
      queues, repr := [], {};
      crashed := false;
    }
  }

  /** Stopping twice, as an explicit stop() followed by the destructor does, crashes; stopping a server
      that was never started does nothing, however often. */
  method StopTwice(server: AsyncServer, budget: nat) returns (crashed: bool)
    requires server.Valid() && server.hasServer
    modifies server, server.repr
    ensures crashed <==> old(server.started)
  {
    crashed := server.Stop(budget);
    crashed := server.Stop(budget);
  }
}
