/** AsyncClient's registry and AsyncUnaryCall's completion as the objects they are. */
module ClientClasses {
  import opened Common
  import opened ClientCalls

  class AsyncClient {
    var streamingCalls: set<AsyncUnaryCall>

    constructor ()
      ensures streamingCalls == {}
    {
      streamingCalls := {};
    }

    /** call() for a unary RPC: construct the call, then add it. */
    method StartCall(hasCallback: bool) returns (c: AsyncUnaryCall)
      modifies this
      ensures fresh(c) && c.client == this && c.promise.None? && c.dispatched == 0
      ensures c.responseCallback == hasCallback
      ensures streamingCalls == old(streamingCalls) + {c}
    {
      c := new AsyncUnaryCall(this, hasCallback);
      AddStreamingCall(c);
    }

    method AddStreamingCall(c: AsyncUnaryCall)
      modifies this
      ensures streamingCalls == old(streamingCalls) + {c}
    {
      streamingCalls := streamingCalls + {c};
    }

    method OnCallDead(c: AsyncUnaryCall)
      modifies this
      ensures streamingCalls == old(streamingCalls) - {c}
    {
      streamingCalls := streamingCalls - {c};
    }
  }

  class AsyncUnaryCall {
    const client: AsyncClient
    var promise: Option<Outcome>
    /** Whether a response callback is set; dispatching moves it out. */
    var responseCallback: bool
    var dispatched: nat

    constructor (client: AsyncClient, hasCallback: bool)
      ensures this.client == client && promise.None? && responseCallback == hasCallback && dispatched == 0
    {
      this.client := client;
      promise, responseCallback, dispatched := None, hasCallback, 0;
    }

    method ResponseCallback()
      modifies this
      ensures promise == old(promise) && !responseCallback
      ensures dispatched == old(dispatched) + if old(responseCallback) then 1 else 0
    {
      if !responseCallback { return; }
      responseCallback := false;
      dispatched := dispatched + 1;
    }

    /** died: the assert failed, or the promise had been completed before. */
    method FinalizeFinished(event: Event) returns (died: bool)
      modifies this, client
      ensures died <==> !event.ok || old(promise).Some?
      ensures !died && event.status.Ok? ==> promise == Some(Value(event.response))
      ensures !died && event.status.Error? ==> promise == Some(CallError(event.status))
      ensures !died ==> promise == Some(OutcomeOf(event)) && !responseCallback
      ensures !died ==> dispatched == old(dispatched) + if old(responseCallback) then 1 else 0
      ensures !died ==> client.streamingCalls == old(client.streamingCalls) - {this}
      ensures died ==> unchanged(this) && unchanged(client)
    {
      if !event.ok || promise.Some? { return true; }
      if event.status.Ok? {
        promise := Some(Value(event.response));
      } else {
        promise := Some(CallError(event.status));
      }
      ResponseCallback();
      client.OnCallDead(this);
      died := false;
    }
  }
}
