/** What every schedule of sends, partial writes and refusals keeps. */
module OutputTheorems {
  import opened Basics
  import opened OutputModel

  lemma {:induction false} FlattenCons<T>(first: seq<T>, rest: seq<seq<T>>)
    ensures Flatten([first] + rest) == first + Flatten(rest)
  {
    FlattenAppend([first], rest);
    assert [first][..0] == [];
    assert Flatten([first]) == first;
  }

  // ----- fidelity -----

  /** The bytes the socket took, then what is left of the queued payloads, are the payloads in order;
      and the counter is the number of bytes left. */
  ghost predicate Faithful(s: Conn) {
    !s.failed ==> s.wire + Flatten(s.queue) == s.enqueued && s.pending == |Flatten(s.queue)|
  }

  lemma TakenFromFront<T>(wire: seq<T>, rest: seq<T>, tail: seq<seq<T>>, n: nat)
    requires n <= |rest|
    ensures wire + Flatten([rest] + tail) == (wire + rest[..n]) + Flatten([rest[n..]] + tail)
    ensures |Flatten([rest] + tail)| == n + |Flatten([rest[n..]] + tail)|
    ensures n == |rest| ==> Flatten([rest[n..]] + tail) == Flatten(tail)
  {
    FlattenCons(rest, tail);
    FlattenCons(rest[n..], tail);
    assert rest == rest[..n] + rest[n..];
  }

  lemma WriteOnceFaithful(s: Conn, k: Outcome)
    requires Faithful(s) && s.queue != [] && Possible(s.queue[0], k)
    ensures Faithful(WriteOnce(s, k))
  {
    hide Advance, Settle;
    if k.Accepted? {
      AdvanceFaithful(s, k.n);
      SettleFaithful(Advance(s, k.n));
    }
  }

  lemma AdvanceFaithful(s: Conn, n: nat)
    requires Faithful(s) && s.queue != [] && n <= |s.queue[0]|
    ensures Advance(s, n).queue != [] && Faithful(Advance(s, n))
  {
    hide Flatten;
    assert s.queue == [s.queue[0]] + s.queue[1..];
    TakenFromFront(s.wire, s.queue[0], s.queue[1..], n);
  }

  lemma SettleFaithful(s: Conn)
    requires Faithful(s) && s.queue != []
    ensures Faithful(Settle(s))
  {
    hide Flatten;
    if s.queue[0] == [] {
      assert s.queue == [[]] + s.queue[1..];
      FlattenCons([], s.queue[1..]);
      assert |s.queue| == 1 ==> s.queue[1..] == [];
    }
  }

  lemma {:induction false} DrainFaithful(s: Conn, ks: seq<Outcome>)
    requires Faithful(s) && Drains(s, ks)
    ensures Faithful(Drain(s, ks))
    decreases |ks|
  {
    if s.queue != [] {
      WriteOnceFaithful(s, ks[0]);
      if ks[0].Accepted? {
        DrainFaithful(WriteOnce(s, ks[0]), ks[1..]);
      }
    }
  }

  lemma EnqueueFaithful(s: Conn, payload: seq<byte>)
    requires Faithful(s)
    ensures Faithful(Enqueue(s, payload))
  {
    FlattenSnoc(s.queue, payload);
    assert (s.wire + Flatten(s.queue)) + payload == s.wire + (Flatten(s.queue) + payload);
  }

  lemma ApplyFaithful(s: Conn, op: Op)
    requires Faithful(s) && Possibly(s, op)
    ensures Faithful(Apply(s, op))
  {
    hide Faithful, Drain, Drains;
    match op
    case Send(payload, _, ks) => if Enqueues(s, op) { EnqueueFaithful(s, payload); DrainFaithful(Enqueue(s, payload), ks); }
    case QueuedSend(payload, _, ks) => if Enqueues(s, op) { EnqueueFaithful(s, payload); DrainFaithful(Enqueue(s, payload), ks); }
    case HandleWrite(ks) => if s.writing && s.queue != [] { DrainFaithful(s, ks); }
    case _ => SameOutput(s, Apply(s, op));
  }

  lemma SameOutput(s: Conn, s': Conn)
    requires Faithful(s)
    requires (s.wire, s.queue, s.pending, s.enqueued, s.failed) == (s'.wire, s'.queue, s'.pending, s'.enqueued, s'.failed)
    ensures Faithful(s')
  {
  }

  /** Stream fidelity over every run, until a hard error. */
  lemma {:induction false} RunFaithful(s: Conn, ops: seq<Op>)
    requires Faithful(s) && LegalRun(s, ops)
    ensures Faithful(Run(s, ops))
    decreases |ops|
  {
    hide Faithful, Apply, Possibly;
    if ops != [] {
      ApplyFaithful(s, ops[0]);
      RunFaithful(Apply(s, ops[0]), ops[1..]);
    }
  }

  // ----- the write event -----

  /** While the connection is up no hard error has happened, the write event is only watched while
      something is queued, and it is watched whenever the first payload has bytes left. */
  ghost predicate Watched(s: Conn) {
    s.phase != Disconnected ==>
      && !s.failed
      && (s.writing ==> s.queue != [])
      && (s.queue != [] && s.queue[0] != [] ==> s.writing)
  }

  /** The loop runs from a state in which the event may still have to be switched on. */
  ghost predicate NotOverwatched(s: Conn) {
    s.phase != Disconnected ==> !s.failed && (s.writing ==> s.queue != [])
  }

  lemma {:induction false} DrainWatched(s: Conn, ks: seq<Outcome>)
    requires NotOverwatched(s) && Drains(s, ks)
    ensures Watched(Drain(s, ks))
    decreases |ks|
  {
    if s.queue != [] && ks[0].Accepted? {
      DrainWatched(WriteOnce(s, ks[0]), ks[1..]);
    }
  }

  lemma ApplyWatched(s: Conn, op: Op)
    requires Watched(s) && Possibly(s, op)
    ensures Watched(Apply(s, op))
  {
    hide Drain, Drains;
    match op
    case Send(payload, _, ks) => if Enqueues(s, op) { DrainWatched(Enqueue(s, payload), ks); }
    case QueuedSend(payload, _, ks) => if Enqueues(s, op) { DrainWatched(Enqueue(s, payload), ks); }
    case HandleWrite(ks) => if s.writing && s.queue != [] { DrainWatched(s, ks); }
    case _ =>
  }

  lemma {:induction false} RunWatched(s: Conn, ops: seq<Op>)
    requires Watched(s) && LegalRun(s, ops)
    ensures Watched(Run(s, ops))
    decreases |ops|
  {
    hide Watched, Apply, Possibly;
    if ops != [] {
      ApplyWatched(s, ops[0]);
      RunWatched(Apply(s, ops[0]), ops[1..]);
    }
  }

  // ----- no stalled output -----

  /** While the connection is up, the write event is watched exactly when something is queued. */
  ghost predicate Synced(s: Conn) {
    s.phase != Disconnected ==> (s.writing <==> s.queue != [])
  }

  /** The one way to get out of step: an empty payload is sent with nothing queued before it, and the
      kernel refuses the write of zero bytes. */
  ghost predicate RefusedAlone(s: Conn, op: Op) {
    s.phase != Disconnected && Enqueues(s, op) && op.payload == [] && s.queue == [] && op.ks == [Again]
  }

  /** Output that is being watched for stays watched until the queue is empty. */
  lemma {:induction false} DrainWatching(s: Conn, ks: seq<Outcome>)
    requires s.writing && s.queue != [] && Drains(s, ks)
    ensures Synced(Drain(s, ks))
    decreases |ks|
  {
    if ks[0].Accepted? && WriteOnce(s, ks[0]).queue != [] {
      DrainWatching(WriteOnce(s, ks[0]), ks[1..]);
    }
  }

  /** A payload on its own is written out, or refused and then watched for, unless it is empty. */
  lemma {:induction false} DrainAlone(s: Conn, ks: seq<Outcome>)
    requires s.phase != Disconnected && !s.writing && |s.queue| == 1 && Drains(s, ks)
    ensures Synced(Drain(s, ks)) <==> s.queue != [[]] || ks != [Again]
    decreases |ks|
  {
    if ks[0].Accepted? && WriteOnce(s, ks[0]).queue != [] {
      DrainAlone(WriteOnce(s, ks[0]), ks[1..]);
    }
  }

  lemma {:induction false} DrainStaysDown(s: Conn, ks: seq<Outcome>)
    requires s.phase == Disconnected && Drains(s, ks)
    ensures Drain(s, ks).phase == Disconnected
    decreases |ks|
  {
    if s.queue != [] && ks[0].Accepted? {
      DrainStaysDown(WriteOnce(s, ks[0]), ks[1..]);
    }
  }

  lemma SendSyncedIff(s: Conn, payload: seq<byte>, ks: seq<Outcome>)
    requires Synced(s) && Drains(Enqueue(s, payload), ks)
    ensures Synced(Drain(Enqueue(s, payload), ks))
       <==> !(s.phase != Disconnected && payload == [] && s.queue == [] && ks == [Again])
  {
    hide Drain, Drains;
    if s.phase == Disconnected {
      DrainStaysDown(Enqueue(s, payload), ks);
    } else if s.queue == [] {
      assert Enqueue(s, payload).queue == [payload];
      assert payload != [] ==> [payload][0] != [[]][0];
      DrainAlone(Enqueue(s, payload), ks);
    } else {
      DrainWatching(Enqueue(s, payload), ks);
    }
  }

  /** An operation keeps the write event in step with the queue if and only if it is not that. */
  lemma ApplySyncedIff(s: Conn, op: Op)
    requires Synced(s) && Possibly(s, op)
    ensures Synced(Apply(s, op)) <==> !RefusedAlone(s, op)
  {
    hide Drain, Drains;
    match op
    case Send(payload, _, ks) => if Enqueues(s, op) { SendSyncedIff(s, payload, ks); }
    case QueuedSend(payload, _, ks) => if Enqueues(s, op) { SendSyncedIff(s, payload, ks); }
    case HandleWrite(ks) => if s.writing && s.queue != [] { DrainWatching(s, ks); }
    case _ =>
  }

  ghost predicate AlwaysSynced(s: Conn, ops: seq<Op>)
    requires LegalRun(s, ops)
    decreases |ops|
  {
    Synced(s) && (ops != [] ==> AlwaysSynced(Apply(s, ops[0]), ops[1..]))
  }

  ghost predicate NeverRefusedAlone(s: Conn, ops: seq<Op>)
    requires LegalRun(s, ops)
    decreases |ops|
  {
    ops != [] ==> !RefusedAlone(s, ops[0]) && NeverRefusedAlone(Apply(s, ops[0]), ops[1..])
  }

  /** Over every run: the write event is watched exactly when something is queued, after each operation
      while the connection is up, if and only if no empty payload was refused on its own. */
  lemma {:induction false} OutputNeverStallsIff(s: Conn, ops: seq<Op>)
    requires Synced(s) && LegalRun(s, ops)
    ensures AlwaysSynced(s, ops) <==> NeverRefusedAlone(s, ops)
    decreases |ops|
  {
    hide Apply, Possibly, Synced, RefusedAlone;
    if ops != [] {
      ApplySyncedIff(s, ops[0]);
      if Synced(Apply(s, ops[0])) {
        OutputNeverStallsIff(Apply(s, ops[0]), ops[1..]);
      } else {
        assert !AlwaysSynced(Apply(s, ops[0]), ops[1..]);
      }
    }
  }

  /** For a caller, who does not know the kernel's answers: a send keeps the event in step whatever they
      are if and only if the payload is not empty or something is queued already. */
  lemma SendNeverStallsIff(s: Conn, payload: seq<byte>, isFile: bool)
    requires Synced(s) && s.phase == Connected
    ensures (forall ks :: Possibly(s, Send(payload, isFile, ks)) ==> Synced(Apply(s, Send(payload, isFile, ks))))
       <==> payload != [] || s.queue != []
  {
    forall ks | Possibly(s, Send(payload, isFile, ks))
      ensures Synced(Apply(s, Send(payload, isFile, ks))) <==> !RefusedAlone(s, Send(payload, isFile, ks))
    {
      ApplySyncedIff(s, Send(payload, isFile, ks));
    }
    if payload == [] && s.queue == [] {
      assert Possibly(s, Send(payload, isFile, [Again]));
      assert RefusedAlone(s, Send(payload, isFile, [Again]));
    }
  }

  // ----- half-close -----

  ghost predicate OnLoopThread(ops: seq<Op>) {
    forall i :: 0 <= i < |ops| ==> !ops[i].QueuedSend?
  }

  /** Once the write side is shut, everything ever queued was written and nothing more can be queued. */
  ghost predicate CleanlyShut(s: Conn) {
    s.shut ==>
      && (s.phase == Disconnecting || s.phase == Disconnected)
      && s.queue == [] && s.wire == s.enqueued
  }

  lemma {:induction false} DrainUnshut(s: Conn, ks: seq<Outcome>)
    requires Drains(s, ks)
    ensures Drain(s, ks).shut == s.shut
    ensures Drain(s, ks).phase == s.phase || Drain(s, ks).phase == Disconnected
    decreases |ks|
  {
    if s.queue != [] && ks[0].Accepted? {
      DrainUnshut(WriteOnce(s, ks[0]), ks[1..]);
    }
  }

  lemma ApplyCleanlyShut(s: Conn, op: Op)
    requires Faithful(s) && Watched(s) && Synced(s) && CleanlyShut(s)
    requires Possibly(s, op) && !op.QueuedSend?
    ensures CleanlyShut(Apply(s, op))
  {
    hide Drain, Drains;
    assert Flatten<byte>([]) == [];
    match op
    case Send(payload, _, ks) => if Enqueues(s, op) { DrainUnshut(Enqueue(s, payload), ks); }
    case HandleWrite(ks) => if s.writing && s.queue != [] { DrainUnshut(s, ks); }
    case _ =>
  }

  /** For calls made on the loop's thread, the write side is shut only after every byte queued, then or
      later, has been written, as long as no empty payload was refused on its own. */
  lemma {:induction false} ShutOnlyWhenAllWritten(s: Conn, ops: seq<Op>)
    requires Faithful(s) && Watched(s) && Synced(s) && CleanlyShut(s)
    requires LegalRun(s, ops) && OnLoopThread(ops) && NeverRefusedAlone(s, ops)
    ensures CleanlyShut(Run(s, ops))
    decreases |ops|
  {
    hide Apply, Possibly, Watched, Synced, RefusedAlone, Faithful, CleanlyShut;
    if ops != [] {
      ApplyFaithful(s, ops[0]);
      ApplyWatched(s, ops[0]);
      ApplySyncedIff(s, ops[0]);
      ApplyCleanlyShut(s, ops[0]);
      ShutOnlyWhenAllWritten(Apply(s, ops[0]), ops[1..]);
    }
  }

  /** That condition is needed: an empty payload refused on its own hides the next one from the write
      event, and a shutdown then closes the write side with that payload unwritten. */
  lemma RefusalShutsEarly(payload: seq<byte>)
    requires payload != []
    ensures var ops := [Send([], false, [Again]), Send(payload, false, [Again]), Shutdown];
      && LegalRun(Established(), ops)
      && Run(Established(), ops).shut && Run(Established(), ops).wire == [] != Run(Established(), ops).enqueued
  {
    var ops := [Send([], false, [Again]), Send(payload, false, [Again]), Shutdown];
    var s1 := Apply(Established(), ops[0]);
    assert s1 == Established().(queue := [[]]);
    var s2 := Apply(s1, ops[1]);
    assert s2 == s1.(queue := [[], payload], pending := |payload|, enqueued := payload);
    assert ops[1..][1..] == [Shutdown] && [Shutdown][1..] == [];
    assert ops[1..][0] == ops[1];
    assert LegalRun(s2, [Shutdown]) && Run(s2, [Shutdown]) == Apply(s2, Shutdown);
  }

  /** All of this holds of a connection just established, so the run theorems apply to its runs. */
  lemma EstablishedIsGood()
    ensures Faithful(Established()) && Watched(Established()) && Synced(Established()) && CleanlyShut(Established())
  {
    assert Flatten<byte>([]) == [];
  }

  lemma {:induction false} ShutIsFinal(s: Conn, ops: seq<Op>)
    requires LegalRun(s, ops) && s.phase != Connected
    ensures Run(s, ops).shut == s.shut
    decreases |ops|
  {
    if ops != [] {
      PhaseNotRaised(s, ops[0]);
      ShutIsFinal(Apply(s, ops[0]), ops[1..]);
    }
  }

  lemma PhaseNotRaised(s: Conn, op: Op)
    requires Possibly(s, op) && s.phase != Connected
    ensures Apply(s, op).phase != Connected && Apply(s, op).shut == s.shut
  {
    hide Drain, Drains;
    match op
    case QueuedSend(payload, _, ks) => if Enqueues(s, op) { DrainUnshut(Enqueue(s, payload), ks); }
    case HandleWrite(ks) => if s.writing && s.queue != [] { DrainUnshut(s, ks); }
    case _ =>
  }

  /** Contrary to the comment in the source, nothing sends the half-close later: whatever happens after
      a shutdown, the write side ends up shut if and only if no output was pending at the call. */
  lemma HalfCloseIffIdle(s: Conn, ops: seq<Op>)
    requires s.phase == Connected && !s.shut && LegalRun(s, [Shutdown] + ops)
    ensures Run(s, [Shutdown] + ops).shut <==> !s.writing
  {
    var all := [Shutdown] + ops;
    assert all[1..] == ops;
    ShutIsFinal(Apply(s, Shutdown), ops);
  }
}
