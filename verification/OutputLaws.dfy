/** How much each operation of a connection's output side writes, and what the callers of a whole run have
    sent. */
module OutputLaws {
  import opened Basics
  import opened OutputModel
  import opened OutputTheorems

  // ----- what one operation writes -----

  /** The bytes the kernel said it took. */
  ghost function Taken(ks: seq<Outcome>): nat {
    if ks == [] then 0 else (if ks[0].Accepted? then ks[0].n else 0) + Taken(ks[1..])
  }

  ghost predicate EndsIn(ks: seq<Outcome>, k: Outcome) {
    ks != [] && ks[|ks| - 1] == k
  }

  ghost predicate ShorterEnd<T>(a: seq<T>, b: seq<T>) {
    |a| < |b| && a == b[|b| - |a|..]
  }

  /** The socket has taken as many bytes as the kernel's answers add up to, from the front of the queue.  The
      rest is still queued; it is nothing if every answer was an acceptance.  After a refusal the write event
      is on if the payload in front has bytes left; after a failure that payload is gone and the connection
      is closed. */
  ghost predicate Wrote(s: Conn, ks: seq<Outcome>, r: Conn) {
    var bytes := Flatten(s.queue);
    && Taken(ks) <= |bytes|
    && r.wire == s.wire + bytes[..Taken(ks)] && r.pending == s.pending - Taken(ks)
    && (r.shut, r.enqueued) == (s.shut, s.enqueued)
    && if EndsIn(ks, Failed) then
         r.failed && r.phase == Disconnected && !r.writing && !r.reading && ShorterEnd(r.queue, s.queue)
       else
         && Flatten(r.queue) == bytes[Taken(ks)..]
         && (r.failed, r.phase, r.reading) == (s.failed, s.phase, s.reading)
         && if EndsIn(ks, Again) then r.queue != [] && (r.writing <==> s.writing || r.queue[0] != [])
            else r.queue == [] && (r.writing <==> s.writing && s.queue == [])
  }

  lemma OneWrite(s: Conn, n: nat)
    requires s.queue != [] && n <= |s.queue[0]|
    ensures var r := Settle(Advance(s, n));
      && n <= |Flatten(s.queue)|
      && r.wire == s.wire + Flatten(s.queue)[..n] && Flatten(r.queue) == Flatten(s.queue)[n..]
  {
    hide Flatten, Settle, Advance;
    var first, rest := s.queue[0], s.queue[1..];
    assert s.queue == [first] + rest;
    FlattenCons(first, rest);
    FlattenCons(first[n..], rest);
    FlattenNothing<byte>();
    assert [] + Flatten(rest) == Flatten(rest);
    FrontOf(first, Flatten(rest), n);
    AfterOne(s, n);
  }

  lemma FrontOf<T>(a: seq<T>, b: seq<T>, n: nat)
    requires n <= |a|
    ensures (a + b)[..n] == a[..n] && (a + b)[n..] == a[n..] + b
  {
  }

  /** What one accepted write does, in terms of the payload in front and those behind it. */
  lemma AfterOne(s: Conn, n: nat)
    requires s.queue != [] && n <= |s.queue[0]|
    ensures var r := Settle(Advance(s, n)); var first, rest := s.queue[0], s.queue[1..];
      && r.wire == s.wire + first[..n] && r.pending == s.pending - n
      && r.queue == (if first[n..] == [] then rest else [first[n..]] + rest)
      && (r.shut, r.enqueued, r.failed, r.phase, r.reading) == (s.shut, s.enqueued, s.failed, s.phase, s.reading)
      && (r.writing <==> s.writing && r.queue != [])
  {
    assert Advance(s, n).queue[1..] == s.queue[1..];
  }

  lemma EndAfterOne(s: Conn, n: nat, x: seq<seq<byte>>)
    requires s.queue != [] && n <= |s.queue[0]| && ShorterEnd(x, Settle(Advance(s, n)).queue)
    ensures ShorterEnd(x, s.queue)
  {
    AfterOne(s, n);
    hide Settle;
    var q, rest := Settle(Advance(s, n)).queue, s.queue[1..];
    assert q[|q| - |x|..] == rest[|rest| - |x|..];
    assert rest[|rest| - |x|..] == s.queue[|s.queue| - |x|..];
  }

  lemma {:induction false} DrainWrites(s: Conn, ks: seq<Outcome>)
    requires Drains(s, ks)
    ensures Wrote(s, ks, Drain(s, ks))
    decreases |ks|
  {
    hide Flatten, Settle, Advance, Possible;
    if s.queue == [] {
      FlattenNothing<byte>();
    } else if ks[0].Accepted? {
      TakesSome(s, ks[0]);
      OneWrite(s, ks[0].n);
      AfterOne(s, ks[0].n);
      DrainWrites(WriteOnce(s, ks[0]), ks[1..]);
      if EndsIn(ks[1..], Failed) {
        EndAfterOne(s, ks[0].n, Drain(s, ks).queue);
      }
      WroteMore(s, ks, WriteOnce(s, ks[0]), Drain(s, ks));
    } else {
      LastWrite(s, ks[0]);
      assert ks == [ks[0]];
    }
  }

  /** A refused or a failed write. */
  lemma LastWrite(s: Conn, k: Outcome)
    requires s.queue != [] && !k.Accepted?
    ensures Wrote(s, [k], WriteOnce(s, k)) && Taken([k]) == 0
  {
    hide Flatten;
    var bytes := Flatten(s.queue);
    assert [k][1..] == [] && Taken([k]) == 0;
    assert bytes[0..] == bytes && s.wire + bytes[..0] == s.wire;
    assert EndsIn([k], k);
    assert k.Failed? ==> WriteOnce(s, k).queue == s.queue[|s.queue| - |s.queue[1..]|..];
  }

  lemma TakesSome(s: Conn, k: Outcome)
    requires s.queue != [] && Possible(s.queue[0], k) && k.Accepted?
    ensures k.n <= |s.queue[0]| && WriteOnce(s, k) == Settle(Advance(s, k.n))
  {
  }

  lemma WroteMore(s: Conn, ks: seq<Outcome>, s1: Conn, r: Conn)
    requires s.queue != [] && ks != [] && ks[0].Accepted? && ks[0].n <= |Flatten(s.queue)|
    requires s1.wire == s.wire + Flatten(s.queue)[..ks[0].n] && Flatten(s1.queue) == Flatten(s.queue)[ks[0].n..]
    requires s1.pending == s.pending - ks[0].n
    requires (s1.shut, s1.enqueued, s1.failed, s1.phase, s1.reading) == (s.shut, s.enqueued, s.failed, s.phase, s.reading)
    requires s1.writing <==> s.writing && s1.queue != []
    requires s1.queue == [] ==> ks[1..] == []
    requires EndsIn(ks[1..], Failed) ==> ShorterEnd(r.queue, s.queue)
    requires Wrote(s1, ks[1..], r)
    ensures Wrote(s, ks, r)
  {
    hide Flatten, ShorterEnd;
    var bytes, n, m := Flatten(s.queue), ks[0].n, Taken(ks[1..]);
    assert bytes[n..][..m] == bytes[n..n + m] && bytes[..n] + bytes[n..n + m] == bytes[..n + m];
    assert bytes[n..][m..] == bytes[n + m..];
    assert ks[1..] != [] ==> ks[1..][|ks| - 2] == ks[|ks| - 1];
    Associates(s.wire, bytes[..n], bytes[n..n + m]);
  }

  /** A write event on a connection with queued output writes; any other does nothing. */
  lemma HandleWriteWrites(s: Conn, ks: seq<Outcome>)
    requires Possibly(s, HandleWrite(ks))
    ensures var r := Apply(s, HandleWrite(ks));
      if s.writing && s.queue != [] then ks != [] && Wrote(s, ks, r) else ks == [] && r == s
  {
    hide Wrote;
    if s.writing && s.queue != [] {
      DrainWrites(s, ks);
    }
  }

  /** What a send has added to the queue before it writes. */
  ghost function Longer(s: Conn, payload: seq<byte>): Conn {
    s.(queue := s.queue + [payload], pending := s.pending + |payload|, enqueued := s.enqueued + payload)
  }

  /** A send on a connected connection queues its payload at the end and writes at once; so does one handed
      over from another thread, for bytes in memory unless the connection is down by then, and for a file in
      any case.  Every other send does nothing. */
  lemma SendWrites(s: Conn, op: Op)
    requires (op.Send? || op.QueuedSend?) && Possibly(s, op)
    ensures var goes := if op.Send? then s.phase == Connected else op.isFile || s.phase != Disconnected;
      if goes then op.ks != [] && Wrote(Longer(s, op.payload), op.ks, Apply(s, op)) else op.ks == [] && Apply(s, op) == s
  {
    hide Wrote, Drain;
    if Enqueues(s, op) {
      assert Longer(s, op.payload) == Enqueue(s, op.payload);
      DrainWrites(Enqueue(s, op.payload), op.ks);
    }
  }

  // ----- what a whole run was given to send -----

  ghost predicate IsSend(op: Op) {
    op.Send? || op.QueuedSend?
  }

  /** The payloads of all sends. */
  ghost function Payloads(ops: seq<Op>): seq<byte> {
    if ops == [] then [] else (if IsSend(ops[0]) then ops[0].payload else []) + Payloads(ops[1..])
  }

  /** Nobody shuts down or closes, and no write fails. */
  ghost predicate Undisturbed(ops: seq<Op>) {
    forall i :: 0 <= i < |ops| ==> StaysUp(ops[i])
  }

  ghost predicate StaysUp(op: Op) {
    match op
    case Send(_, _, ks) => Failed !in ks
    case QueuedSend(_, _, ks) => Failed !in ks
    case HandleWrite(ks) => Failed !in ks
    case _ => false
  }

  lemma StepUp(s: Conn, op: Op)
    requires s.phase == Connected && !s.failed && Possibly(s, op) && StaysUp(op)
    ensures var r := Apply(s, op);
      r.phase == Connected && !r.failed && r.enqueued == s.enqueued + if IsSend(op) then op.payload else []
  {
    hide Drain, Drains, Flatten, Apply, Possibly;
    if op.HandleWrite? {
      HandleWriteWrites(s, op.ks);
      assert !EndsIn(op.ks, Failed);
    } else {
      SendWrites(s, op);
      assert !EndsIn(op.ks, Failed);
    }
  }

  /** As long as a connection is not disturbed, every payload of every send is queued, so what the socket has
      taken and what is still queued are together exactly what its callers sent, in order. */
  lemma {:induction false} EverythingSentIsThere(s: Conn, ops: seq<Op>)
    requires s.phase == Connected && !s.failed && Faithful(s) && LegalRun(s, ops) && Undisturbed(ops)
    ensures Run(s, ops).phase == Connected
    ensures Run(s, ops).wire + Flatten(Run(s, ops).queue) == s.wire + Flatten(s.queue) + Payloads(ops)
    decreases |ops|
  {
    hide Flatten, Apply, Possibly;
    if ops != [] {
      StepUp(s, ops[0]);
      ApplyFaithful(s, ops[0]);
      EverythingSentIsThere(Apply(s, ops[0]), ops[1..]);
      Associates(s.wire + Flatten(s.queue), if IsSend(ops[0]) then ops[0].payload else [], Payloads(ops[1..]));
    }
  }

  // ----- down and quiet -----

  /** A connection that is down asks the kernel for no event. */
  ghost predicate Quiet(s: Conn) {
    s.phase == Disconnected ==> !s.writing && !s.reading
  }

  /** A file handed over from another thread that arrives when the connection is down already. */
  ghost predicate LateFile(s: Conn, op: Op) {
    s.phase == Disconnected && op.QueuedSend? && op.isFile
  }

  ghost predicate NoLateFile(s: Conn, ops: seq<Op>)
    requires LegalRun(s, ops)
    decreases |ops|
  {
    ops != [] ==> !LateFile(s, ops[0]) && NoLateFile(Apply(s, ops[0]), ops[1..])
  }

  lemma QuietKept(s: Conn, op: Op)
    requires Quiet(s) && Possibly(s, op) && !LateFile(s, op)
    ensures Quiet(Apply(s, op))
    ensures s.phase == Disconnected ==> Apply(s, op) == s
  {
    hide Drain, Drains, Flatten;
    match op
    case HandleWrite(ks) => HandleWriteWrites(s, ks);
    case Send(_, _, _) => SendWrites(s, op);
    case QueuedSend(_, _, _) => SendWrites(s, op);
    case _ =>
  }

  /** A connection that has gone down asks for no event, and nothing changes any more, unless a file arrives
      late. */
  lemma {:induction false} DownIsQuiet(s: Conn, ops: seq<Op>)
    requires Quiet(s) && LegalRun(s, ops) && NoLateFile(s, ops)
    ensures Quiet(Run(s, ops))
    ensures s.phase == Disconnected ==> Run(s, ops) == s
    decreases |ops|
  {
    hide Apply, Possibly, Quiet, LateFile;
    if ops != [] {
      QuietKept(s, ops[0]);
      DownIsQuiet(Apply(s, ops[0]), ops[1..]);
    }
  }

  /** A close is the end: whatever is called afterwards, but for late files, the connection is down, asks for no
      event, and everything else about it, what it has written and what is still queued too, is as it was. */
  lemma CloseIsTheEnd(s: Conn, ops: seq<Op>)
    requires LegalRun(s, [HandleClose] + ops) && NoLateFile(Apply(s, HandleClose), ops)
    ensures Run(s, [HandleClose] + ops) == s.(phase := Disconnected, writing := false, reading := false)
  {
    var all := [HandleClose] + ops;
    assert all[1..] == ops;
    DownIsQuiet(Apply(s, HandleClose), ops);
  }

  /** A late file goes to the socket all the same, and if the socket refuses it the write event of the closed
      connection is on again. */
  lemma LateFileWakesIt(s: Conn, payload: seq<byte>)
    requires s.phase == Disconnected && s.queue == [] && payload != []
    ensures var op := QueuedSend(payload, true, [Again]);
      Possibly(s, op) && Apply(s, op).phase == Disconnected && Apply(s, op).writing
  {
    var s1 := Enqueue(s, payload);
    assert s1.queue[0] == payload;
  }
}
