/** The output side of a connection: a deque of partly written contexts, the pending-byte counter and
    the watched events.  Each method is proved to do what OutputModel says. */
module TcpConnections {
  import opened Basics
  import opened OutputModel
  import OutputTheorems

  /** Where a context takes its bytes from. */
  datatype Source =
    | Memory(data: seq<byte>)
    | File(content: seq<byte>, initialOffset: nat, len: nat)

  /** The kernel's end of the connection: it answers writes as it likes. */
  class Socket {
    var wire: seq<byte>
    var shut: bool

    constructor ()
      ensures wire == [] && !shut
    {
      wire, shut := [], false;
    }

    method Write(bytes: seq<byte>) returns (k: Outcome)
      modifies `wire
      ensures Possible(bytes, k)
      ensures wire == if k.Accepted? then old(wire) + bytes[..k.n] else old(wire)
    {
      var n: nat := *;
      if * {
        k := Failed;
      } else if 0 <= n <= |bytes| && (bytes != [] ==> n >= 1) {
        k := Accepted(n);
        wire := wire + bytes[..n];
      } else {
        k := Again;
      }
    }

    method ShutdownWrite()
      modifies `shut
      ensures shut
    {
      shut := true;
    }
  }

  class Context {
    const source: Source
    var pos: nat  // position in memory, or offset in the file

    ghost predicate Valid()
      reads `pos
    {
      match source
      case Memory(data) => pos <= |data|
      case File(content, initial, len) => initial <= pos <= initial + len <= |content|
    }

    /** The bytes still to be written. */
    ghost function Rest(): seq<byte>
      requires Valid()
      reads `pos
    {
      match source
      case Memory(data) => data[pos..]
      case File(content, initial, len) => content[pos..initial + len]
    }

    constructor FromMemory(data: seq<byte>)
      ensures Valid() && Rest() == data
    {
      source, pos := Memory(data), 0;
    }

    constructor FromFile(content: seq<byte>, offset: nat, len: nat)
      requires offset + len <= |content|
      ensures Valid() && Rest() == content[offset..offset + len]
    {
      source, pos := File(content, offset, len), offset;
    }

    predicate IsComplete()
      requires Valid()
      reads `pos
      ensures IsComplete() <==> Rest() == []
    {
      match source
      case Memory(data) => pos == |data|
      case File(_, initial, len) => pos - initial == len
    }

    function Remaining(): nat
      requires Valid()
      reads `pos
      ensures Remaining() == |Rest()|
    {
      match source
      case Memory(data) => |data| - pos
      case File(_, initial, len) => len - (pos - initial)
    }

    /** One write attempt; what is accepted is dropped from the rest. */
    method WriteToSocket(socket: Socket) returns (k: Outcome)
      requires Valid()
      modifies `pos, socket`wire
      ensures Valid() && Possible(old(Rest()), k)
      ensures Rest() == if k.Accepted? then old(Rest())[k.n..] else old(Rest())
      ensures socket.wire == if k.Accepted? then old(socket.wire) + old(Rest())[..k.n] else old(socket.wire)
    {
      match source
      case Memory(data) =>
        k := socket.Write(data[pos..]);
        if k.Accepted? {
          pos := pos + k.n;
        }
      case File(content, initial, len) =>
        var remain := len - (pos - initial);
        k := socket.Write(content[pos..pos + remain]);
        if k.Accepted? {
          pos := pos + k.n;
        }
    }
  }

  class TcpConnection {
    var phase: Phase
    const socket: Socket
    var isReading: bool
    var isWriting: bool
    var contextQueue: seq<Context>
    var totalPendingBytes: int
    ghost var enqueued: seq<byte>
    ghost var failed: bool

    ghost predicate Valid()
      reads `contextQueue, contextQueue`pos
    {
      && (forall i :: 0 <= i < |contextQueue| ==> contextQueue[i].Valid())
      && (forall i, j :: 0 <= i < j < |contextQueue| ==> contextQueue[i] != contextQueue[j])
    }

    ghost function Contexts(): set<Context>
      reads `contextQueue
    {
      set c | c in contextQueue
    }

    static ghost function RestsOf(queue: seq<Context>): seq<seq<byte>>
      requires forall i :: 0 <= i < |queue| ==> queue[i].Valid()
      reads queue
    {
      seq(|queue|, i requires 0 <= i < |queue| && queue[i].Valid() reads queue => queue[i].Rest())
    }

    ghost function Rests(): seq<seq<byte>>
      requires Valid()
      reads `contextQueue, contextQueue
    {
      RestsOf(contextQueue)
    }

    ghost function View(): Conn
      requires Valid()
      reads this, contextQueue, socket
    {
      Conn(phase, Rests(), totalPendingBytes, isWriting, isReading, socket.wire, socket.shut, enqueued, failed)
    }

    constructor (socket: Socket)
      requires socket.wire == [] && !socket.shut
      ensures Valid() && View() == Established().(phase := Connecting, reading := false)
    {
      this.socket := socket;
      phase, isReading, isWriting := Connecting, false, false;
      contextQueue, totalPendingBytes, enqueued, failed := [], 0, [], false;
    }

    method ConnectEstablished()
      requires Valid()
      modifies `phase, `isReading
      ensures Valid() && View() == old(View()).(phase := Connected, reading := true)
    {
      phase := Connected;
      isReading := true;
    }

    method Close()
      requires Valid()
      modifies `phase, `isReading, `isWriting
      ensures Valid() && View() == OutputModel.Close(old(View()))
    {
      phase := Disconnected;
      isReading, isWriting := false, false;
    }

    /** Tries to write the front context. */
    method WriteFront() returns (k: Outcome)
      requires Valid() && contextQueue != []
      modifies contextQueue[..1]`pos, socket`wire
      ensures Valid() && Rests() == [contextQueue[0].Rest()] + old(Rests())[1..]
      ensures Possible(old(Rests())[0], k)
      ensures Rests()[0] == if k.Accepted? then old(Rests())[0][k.n..] else old(Rests())[0]
      ensures socket.wire == if k.Accepted? then old(socket.wire) + old(Rests())[0][..k.n] else old(socket.wire)
    {
      hide Context.Rest;
      k := contextQueue[0].WriteToSocket(socket);
      assert forall i :: 1 <= i < |contextQueue| ==> contextQueue[i].Rest() == old(contextQueue[i].Rest());
    }

    method PopFront()
      requires Valid() && contextQueue != []
      modifies `contextQueue
      ensures Valid() && contextQueue == old(contextQueue)[1..] && Rests() == old(Rests())[1..]
    {
      hide Context.Rest, Context.Valid;
      contextQueue := contextQueue[1..];
    }

    /** Removes the front context if it has been written to its end. */
    method SettleFront()
      requires Valid() && contextQueue != []
      modifies `contextQueue, `isWriting
      ensures Valid() && View() == Settle(old(View()))
      ensures contextQueue == old(contextQueue) || contextQueue == old(contextQueue)[1..]
    {
      hide Valid, Rests, Context.Rest, Context.Valid;
      FrontFacts();
      if contextQueue[0].IsComplete() {
        PopFront();
        if contextQueue == [] {
          if isWriting {
            isWriting := false;
          }
        }
      }
      FrontFacts();
    }

    /** One turn of the loop. */
    method WriteTurn() returns (k: Outcome)
      requires Valid() && contextQueue != []
      modifies this, Contexts(), socket`wire
      ensures Valid() && Possible(old(View()).queue[0], k)
      ensures View() == WriteOnce(old(View()), k)
      ensures contextQueue == old(contextQueue) || contextQueue == old(contextQueue)[1..]
    {
      hide Valid, Rests, Context.Rest, Context.Valid, Settle;
      FrontFacts();
      k := WriteFront();
      FrontFacts();
      if k.Accepted? {
        totalPendingBytes := totalPendingBytes - k.n;
        SettleFront();
      } else if k.Failed? {
        PopFront();
        failed := true;
        Close();
      } else {
        if contextQueue[0].Remaining() > 0 {
          if !isWriting {
            isWriting := true;
          }
        }
      }
    }

    lemma FrontFacts()
      requires Valid()
      ensures |Rests()| == |contextQueue| && View().queue == Rests()
      ensures contextQueue != [] ==> contextQueue[0].Valid() && Rests()[0] == contextQueue[0].Rest()
    {
    }

    /** Writes until the queue is empty, the kernel refuses, or the connection fails.  The loop ends:
        every accepted write takes bytes off the queue or an empty context out of it. */
    method DoWriting() returns (ghost ks: seq<Outcome>)
      requires Valid()
      modifies this, Contexts(), socket`wire
      ensures Valid()
      ensures Drains(old(View()), ks) && View() == Drain(old(View()), ks)
    {
      hide Valid, View, Rests, WriteOnce, Context.Valid;
      ks := [];
      FrontFacts();
      assert forall more: seq<Outcome> :: [] + more == more;
      while contextQueue != []
        invariant Valid()
        invariant Contexts() <= old(Contexts())
        invariant forall more :: Drains(View(), more) ==>
          Drains(old(View()), ks + more) && Drain(old(View()), ks + more) == Drain(View(), more)
        invariant |View().queue| == |contextQueue|
        decreases |Flatten(View().queue)|, |View().queue|
      {
        ghost var before := View();
        FrontFacts();
        var k := WriteTurn();
        FrontFacts();
        if !k.Accepted? {
          assert Drains(before, [k]) && Drain(before, [k]) == View();
          ks := ks + [k];
          return;
        }
        OnceMore(old(View()), ks, before, k);
        ks := ks + [k];
        TurnShrinks(before, k);
      }
      assert Drains(View(), []);
      assert ks + [] == ks;
    }

    method EnqueueContext(ctx: Context)
      requires Valid() && ctx.Valid() && ctx !in contextQueue
      modifies `contextQueue, `totalPendingBytes, `enqueued
      ensures Valid() && View() == Enqueue(old(View()), ctx.Rest())
      ensures contextQueue == old(contextQueue) + [ctx]
    {
      hide Context.Valid, Context.Rest;
      contextQueue := contextQueue + [ctx];
      totalPendingBytes := totalPendingBytes + ctx.Remaining();
      enqueued := enqueued + ctx.Rest();
    }

    /** Queues bytes in memory, unless disconnected, and writes what can be written. */
    method SendInLoop(data: seq<byte>) returns (ghost ks: seq<Outcome>)
      requires Valid()
      modifies this, Contexts(), socket`wire
      ensures Valid() && Possibly(old(View()), QueuedSend(data, false, ks))
      ensures View() == Apply(old(View()), QueuedSend(data, false, ks))
    {
      hide Valid, Rests, Context.Valid, Context.Rest, Drains, Drain;
      ks := [];
      if phase == Disconnected {
        return;
      }
      var ctx := new Context.FromMemory(data);
      EnqueueContext(ctx);
      ks := DoWriting();
    }

    /** Queues a stretch of a file and writes what can be written; the phase is not looked at. */
    method SendFileInLoop(content: seq<byte>, offset: nat, len: nat) returns (ghost ks: seq<Outcome>)
      requires Valid() && offset + len <= |content|
      modifies this, Contexts(), socket`wire
      ensures Valid() && Possibly(old(View()), QueuedSend(content[offset..offset + len], true, ks))
      ensures View() == Apply(old(View()), QueuedSend(content[offset..offset + len], true, ks))
    {
      hide Valid, Rests, Context.Valid, Context.Rest, Drains, Drain;
      var ctx := new Context.FromFile(content, offset, len);
      EnqueueContext(ctx);
      ks := DoWriting();
    }

    method SendData(data: seq<byte>) returns (ghost ks: seq<Outcome>)
      requires Valid()
      modifies this, Contexts(), socket`wire
      ensures Valid() && Possibly(old(View()), Send(data, false, ks))
      ensures View() == Apply(old(View()), Send(data, false, ks))
    {
      hide Valid, Rests, Drains, Drain;
      ks := [];
      if phase == Connected {
        ks := SendInLoop(data);
      }
    }

    method SendFile(content: seq<byte>, offset: nat, len: nat) returns (ghost ks: seq<Outcome>)
      requires Valid() && offset + len <= |content|
      modifies this, Contexts(), socket`wire
      ensures Valid() && Possibly(old(View()), Send(content[offset..offset + len], true, ks))
      ensures View() == Apply(old(View()), Send(content[offset..offset + len], true, ks))
    {
      hide Valid, Rests, Drains, Drain;
      ks := [];
      if phase == Connected {
        ks := SendFileInLoop(content, offset, len);
      }
    }

    method HandleWrite() returns (ghost ks: seq<Outcome>)
      requires Valid()
      modifies this, Contexts(), socket`wire
      ensures Valid() && Possibly(old(View()), OutputModel.HandleWrite(ks))
      ensures View() == Apply(old(View()), OutputModel.HandleWrite(ks))
    {
      hide Valid, Rests, Drains, Drain;
      ks := [];
      FrontFacts();
      if isWriting && contextQueue != [] {
        ks := DoWriting();
      }
    }

    method ShutdownInLoop()
      requires Valid()
      modifies socket`shut
      ensures Valid() && View() == OutputModel.ShutdownInLoop(old(View()))
    {
      hide Valid, Rests;
      if !isWriting {
        socket.ShutdownWrite();
      }
    }

    method Shutdown()
      requires Valid()
      modifies `phase, socket`shut
      ensures Valid() && View() == Apply(old(View()), OutputModel.Shutdown)
    {
      hide Valid, Rests;
      if phase == Connected {
        phase := Disconnecting;
        ShutdownInLoop();
      }
    }

    method HandleClose()
      requires Valid()
      modifies `phase, `isReading, `isWriting
      ensures Valid() && View() == Apply(old(View()), OutputModel.HandleClose)
    {
      Close();
    }
  }

  /** Answers collected so far, followed by one accepted write, followed by any more. */
  lemma OnceMore(start: Conn, ks: seq<Outcome>, before: Conn, k: Outcome)
    requires before.queue != [] && Possible(before.queue[0], k) && k.Accepted?
    requires forall more :: Drains(before, more) ==> Drains(start, ks + more) && Drain(start, ks + more) == Drain(before, more)
    ensures var after := WriteOnce(before, k);
      forall more :: Drains(after, more) ==>
        Drains(start, (ks + [k]) + more) && Drain(start, (ks + [k]) + more) == Drain(after, more)
  {
    var after := WriteOnce(before, k);
    forall more | Drains(after, more)
      ensures Drains(start, (ks + [k]) + more) && Drain(start, (ks + [k]) + more) == Drain(after, more)
    {
      var longer := [k] + more;
      assert longer[0] == k && longer[1..] == more;
      assert ks + longer == (ks + [k]) + more;
      assert Drains(before, longer);
    }
  }

  lemma TurnShrinks(s: Conn, k: Outcome)
    requires s.queue != [] && Possible(s.queue[0], k) && k.Accepted?
    ensures var r := WriteOnce(s, k);
      |Flatten(r.queue)| < |Flatten(s.queue)| || (|Flatten(r.queue)| == |Flatten(s.queue)| && |r.queue| < |s.queue|)
  {
    assert s.queue == [s.queue[0]] + s.queue[1..];
    OutputTheorems.TakenFromFront(s.wire, s.queue[0], s.queue[1..], k.n);
    assert Advance(s, k.n).queue[1..] == s.queue[1..];
  }
}
