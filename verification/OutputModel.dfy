/** The output side of a connection as a value: what is queued, what the socket has taken, and which
    events are watched.  The kernel answers each write attempt as it likes; the answers are recorded. */
module OutputModel {
  import opened Basics

  type byte = x: int | 0 <= x < 256

  datatype Phase = Disconnected | Disconnecting | Connecting | Connected

  /** The answer to a write of the rest of one payload. */
  datatype Outcome = Accepted(n: nat) | Again | Failed

  /** `queue` holds what is left of each queued payload; `enqueued` is everything ever queued, `failed`
      records a hard write error. */
  datatype Conn = Conn(
    phase: Phase,
    queue: seq<seq<byte>>,
    pending: int,
    writing: bool,
    reading: bool,
    wire: seq<byte>,
    shut: bool,
    enqueued: seq<byte>,
    failed: bool)

  ghost function Established(): Conn {
    Conn(Connected, [], 0, false, true, [], false, [], false)
  }

  /** A kernel takes some of a non-empty payload, and nothing of an empty one. */
  ghost predicate Possible(rest: seq<byte>, k: Outcome) {
    k.Accepted? ==> k.n <= |rest| && (rest != [] ==> k.n >= 1)
  }

  ghost function Close(s: Conn): Conn {
    s.(phase := Disconnected, writing := false, reading := false)
  }

  /** A payload written to its end leaves the queue; the last one takes the write event with it. */
  ghost function Settle(s: Conn): Conn
    requires s.queue != []
  {
    if s.queue[0] != [] then s
    else if |s.queue| == 1 then s.(queue := [], writing := false)
    else s.(queue := s.queue[1..])
  }

  ghost function Advance(s: Conn, n: nat): Conn
    requires s.queue != [] && n <= |s.queue[0]|
  {
    s.(wire := s.wire + s.queue[0][..n],
       pending := s.pending - n,
       queue := [s.queue[0][n..]] + s.queue[1..])
  }

  /** One turn of the writing loop. */
  ghost function WriteOnce(s: Conn, k: Outcome): Conn
    requires s.queue != [] && Possible(s.queue[0], k)
  {
    match k
    case Accepted(n) => Settle(Advance(s, n))
    case Failed => Close(s.(queue := s.queue[1..], failed := true))
    case Again => if s.queue[0] != [] then s.(writing := true) else s
  }

  /** `ks` are the answers to one run of the writing loop: it goes on while writes are accepted. */
  ghost predicate Drains(s: Conn, ks: seq<Outcome>)
    decreases |ks|
  {
    if s.queue == [] then ks == []
    else
      && ks != [] && Possible(s.queue[0], ks[0])
      && if ks[0].Accepted? then Drains(WriteOnce(s, ks[0]), ks[1..]) else |ks| == 1
  }

  ghost function Drain(s: Conn, ks: seq<Outcome>): Conn
    requires Drains(s, ks)
    decreases |ks|
  {
    if s.queue == [] then s
    else if ks[0].Accepted? then Drain(WriteOnce(s, ks[0]), ks[1..])
    else WriteOnce(s, ks[0])
  }

  ghost function Enqueue(s: Conn, payload: seq<byte>): Conn {
    s.(queue := s.queue + [payload], pending := s.pending + |payload|, enqueued := s.enqueued + payload)
  }

  /** A payload is either bytes in memory or a stretch of a file. */
  datatype Op =
    | Send(payload: seq<byte>, isFile: bool, ks: seq<Outcome>)        // called on the loop's thread
    | QueuedSend(payload: seq<byte>, isFile: bool, ks: seq<Outcome>)  // handed over from another thread
    | HandleWrite(ks: seq<Outcome>)
    | Shutdown
    | HandleClose

  /** The part of a send that runs on the loop's thread; only the memory variant checks the phase. */
  ghost predicate Enqueues(s: Conn, op: Op) {
    match op
    case Send(_, _, _) => s.phase == Connected
    case QueuedSend(_, isFile, _) => isFile || s.phase != Disconnected
    case _ => false
  }

  ghost predicate Possibly(s: Conn, op: Op) {
    match op
    case Send(payload, _, ks) => if Enqueues(s, op) then Drains(Enqueue(s, payload), ks) else ks == []
    case QueuedSend(payload, _, ks) => if Enqueues(s, op) then Drains(Enqueue(s, payload), ks) else ks == []
    case HandleWrite(ks) => if s.writing && s.queue != [] then Drains(s, ks) else ks == []
    case _ => true
  }

  ghost function ShutdownInLoop(s: Conn): Conn {
    if !s.writing then s.(shut := true) else s
  }

  ghost function Apply(s: Conn, op: Op): Conn
    requires Possibly(s, op)
  {
    match op
    case Send(payload, _, ks) => if Enqueues(s, op) then Drain(Enqueue(s, payload), ks) else s
    case QueuedSend(payload, _, ks) => if Enqueues(s, op) then Drain(Enqueue(s, payload), ks) else s
    case HandleWrite(ks) => if s.writing && s.queue != [] then Drain(s, ks) else s
    case Shutdown => if s.phase == Connected then ShutdownInLoop(s.(phase := Disconnecting)) else s
    case HandleClose => Close(s)
  }

  ghost predicate LegalRun(s: Conn, ops: seq<Op>)
    decreases |ops|
  {
    ops == [] || (Possibly(s, ops[0]) && LegalRun(Apply(s, ops[0]), ops[1..]))
  }

  ghost function Run(s: Conn, ops: seq<Op>): Conn
    requires LegalRun(s, ops)
    decreases |ops|
  {
    if ops == [] then s else Run(Apply(s, ops[0]), ops[1..])
  }
}
