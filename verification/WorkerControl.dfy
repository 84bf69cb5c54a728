/** The worker side over a FIFO connection. */
module WorkerControls {
  import opened Options
  import opened Protocol
  import opened ProtocolSafety
  import opened ProtocolAsync
  import opened MasterControls

  /** A connection that keeps messages in order in both directions. */
  class FifoConnection {
    var inbox: seq<Message>
    var outbox: seq<Message>

    method Read() returns (buf: Message)
      requires inbox != []
      modifies this
      ensures buf == old(inbox)[0] && inbox == old(inbox)[1..] && outbox == old(outbox)
    {
      buf := inbox[0];
      inbox := inbox[1..];
    }

    method Write(buf: Message)
      modifies this
      ensures outbox == old(outbox) + [buf] && inbox == old(inbox)
    {
      outbox := outbox + [buf];
    }
  }

  /** The messages up to and including the first request to quit. */
  predicate QuitOnlyAtEnd(msgs: seq<Message>) {
    msgs != [] && msgs[|msgs| - 1].oper < 0 && forall k :: 0 <= k < |msgs| - 1 ==> msgs[k].oper >= 0
  }

  class WorkerControl {
    const itsProxy: WorkerProxy
    const itsConnection: FifoConnection

    constructor (proxy: WorkerProxy, connection: FifoConnection)
      ensures itsProxy == proxy && itsConnection == connection
    {
      itsProxy, itsConnection := proxy, connection;
    }

    /** The loop of the worker. It handles exactly the messages up to the request to quit, in order,
        and leaves later ones unread; its replies are those of the protocol model. */
    method Run(ghost mine: seq<Message>, ghost later: seq<Message>)
      requires itsProxy.Valid()
      requires itsConnection.inbox == mine + later && QuitOnlyAtEnd(mine)
      modifies itsProxy, itsConnection
      ensures itsProxy.Valid() && itsProxy.received == old(itsProxy.received) + mine
      ensures itsConnection.inbox == later
      ensures itsConnection.outbox
           == old(itsConnection.outbox) + Replies(itsProxy.process, old(itsProxy.received), mine)
    {
      hide Handle, WorkerIdAfter;
      var goOn := true;
      ghost var done, todo := [], mine;
      while goOn
        invariant done + todo == mine && (goOn <==> todo != []) && (goOn ==> QuitOnlyAtEnd(todo))
        invariant itsProxy.Valid() && itsProxy.received == old(itsProxy.received) + done
        invariant itsConnection.inbox == todo + later
        invariant itsConnection.outbox
               == old(itsConnection.outbox) + Replies(itsProxy.process, old(itsProxy.received), done)
        decreases |todo|
      {
        Shift(done, todo, later);
        var bufIn := itsConnection.Read();
        RepliesAppend(itsProxy.process, old(itsProxy.received), done, bufIn);
        var bufOut;
        goOn, bufOut := itsProxy.HandleMessage(bufIn);
        if bufOut.Some? {
          itsConnection.Write(bufOut.value);
        }
        done, todo := done + [bufIn], todo[1..];
      }
      assert done == mine;
    }
  }

  lemma Shift(done: seq<Message>, todo: seq<Message>, later: seq<Message>)
    requires QuitOnlyAtEnd(todo)
    ensures (todo + later)[0] == todo[0] && (todo + later)[1..] == todo[1..] + later
    ensures (done + [todo[0]]) + todo[1..] == done + todo
    ensures if todo[0].oper >= 0 then QuitOnlyAtEnd(todo[1..]) else todo[1..] == []
  {
  }
}
