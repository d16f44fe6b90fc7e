/** The server's AsyncActionQueue: the set of call handlers it owns, and the order of its shutdown. */
module ServerActionQueue {
  import opened Common
  import Events = ActionQueue

  /** What shutdown() does, in the order it does it. */
  datatype Act = DeleteHandler(h: nat) | ShutdownEvents

  /** How often each handler was deleted; a handler is known by the order of its creation. */
  function Deletions(log: seq<Act>): multiset<nat> {
    if log == [] then multiset{}
    else
      var last := log[|log| - 1];
      Deletions(log[..|log| - 1]) + if last.DeleteHandler? then multiset{last.h} else multiset{}
  }

  lemma DeletionsAppend(log: seq<Act>, act: Act)
    ensures Deletions(log + [act]) == Deletions(log) + if act.DeleteHandler? then multiset{act.h} else multiset{}
  {
    assert (log + [act])[..|log|] == log;
  }

  /** Each of the handlers created was deleted once, and nothing else was. */
  ghost predicate DeletedOnce(log: seq<Act>, created: nat) {
    forall h: nat :: Deletions(log)[h] == Tally(h < created)
  }

  /** The last thing that was done was to shut the events down, when every handler had been deleted. */
  ghost predicate HandlersFirst(log: seq<Act>, created: nat) {
    log != [] && log[|log| - 1] == ShutdownEvents && DeletedOnce(log[..|log| - 1], created)
  }

  class AsyncActionQueue {
    const events: Events.AsyncActionQueue
    var created: nat
    var callHandlers: set<nat>
    ghost var log: seq<Act>

    /** Every handler created is registered or was deleted, and none was deleted twice. */
    ghost predicate HandlersOk()
      reads this
    {
      forall h: nat :: Tally(h in callHandlers) + Deletions(log)[h] == Tally(h < created)
    }

    ghost predicate Valid()
      reads this, events
    {
      HandlersOk() && events.Valid() && events.pc.Waiting?
    }

    /** shutdown() was called: the handlers were deleted, then the events shut down. */
    ghost predicate ToldToStop()
      reads this, events
    {
      callHandlers == {} && HandlersFirst(log, created) && events.shutdown && events.Valid() && events.pc.Waiting?
    }

    /** SHUTDOWN was stored and nothing posted is left, so the destructor of the queue does not wait. */
    ghost predicate Served()
      reads this, events
    {
      && callHandlers == {} && HandlersFirst(log, created) && events.shutdown && events.Valid() && events.pc.Exited?
      && events.nextStatus == Events.Shutdown && events.outstanding == {} && events.AllDeleted()
    }

    constructor (events: Events.AsyncActionQueue)
      ensures HandlersOk() && this.events == events && callHandlers == {} && created == 0
    {
      this.events := events;
      created, callHandlers, log := 0, {}, [];
    }

    method NewCallHandler() returns (h: nat)
      requires HandlersOk()
      modifies this`created, this`callHandlers
      ensures HandlersOk() && h == old(created) && created == h + 1
      ensures h !in old(callHandlers) && callHandlers == old(callHandlers) + {h}
    {
      h := created;
      created := created + 1;
      callHandlers := callHandlers + {h};
    }

    method DoDeleteCallHandler(h: nat)
      requires HandlersOk() && h in callHandlers
      modifies this`callHandlers, this`log
      ensures HandlersOk() && callHandlers == old(callHandlers) - {h} && log == old(log) + [DeleteHandler(h)]
    {
      callHandlers := callHandlers - {h};
      DeletionsAppend(log, DeleteHandler(h));
      log := log + [DeleteHandler(h)];
    }

    method DeleteCallHandler(h: nat) returns (found: bool)
      requires HandlersOk()
      modifies this`callHandlers, this`log
      ensures HandlersOk() && found == (h in old(callHandlers)) && callHandlers == old(callHandlers) - {h}
      ensures log == old(log) + if found then [DeleteHandler(h)] else []
    {
      if h !in callHandlers { return false; }
      DoDeleteCallHandler(h);
      found := true;
    }

    method DeleteAllCallHandlers()
      requires HandlersOk()
      modifies this`callHandlers, this`log
      ensures HandlersOk() && callHandlers == {} && DeletedOnce(log, created)
    {
      while callHandlers != {}
        invariant HandlersOk()
        decreases callHandlers
      {
        var h :| h in callHandlers;
        DoDeleteCallHandler(h);
      }
    }

    /** The handlers are deleted while their tags may still be outstanding: the queue of events is
        only told to shut down afterwards, and not drained here. */
    method Shutdown()
      requires Valid()
      modifies this`callHandlers, this`log, events`shutdown, events`run
      ensures HandlersOk() && ToldToStop()
    {
      DeleteAllCallHandlers();
      events.RequestShutdown();
      DeletionsAppend(log, ShutdownEvents);
      log := log + [ShutdownEvents];
      assert log[..|log| - 1] + [ShutdownEvents] == log;
    }

    /** Joining the thread of the queue, which has run asyncNext until SHUTDOWN. */
    method Join(budget: nat)
      requires ToldToStop()
      modifies events
      ensures Served()
    {
      events.Serve([], budget);
    }
  }
}
