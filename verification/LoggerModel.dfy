/** The asynchronous logger as a state machine.  One step is one critical section of the front end,
    the critical section of the back end, or one of the unlocked stages of the back end; the threads
    interleave freely between steps.  A buffer is the sequence of whole lines appended to it. */
module LoggerModel {
  import opened Basics

  /** A round with more buffers than this drops all but the first two. */
  const MAX_ROUND := 25
  const KEPT := 2

  type Line = seq<char>
  type Buf = seq<Line>

  datatype Stage = Head | Swapping | Trimming | Writing | Refilling | Exited

  datatype Record = Notice(dropped: nat) | Data(content: seq<char>)

  /** `rounds` is the history of what each swap took; everything else is the logger's own state. */
  datatype State = State(
    size: nat,
    running: bool,
    current: Option<Buf>,
    next: Option<Buf>,
    buffers: seq<Buf>,
    stage: Stage,
    spare1: Option<Buf>,
    spare2: Option<Buf>,
    toWrite: seq<Buf>,
    out: seq<Record>,
    rounds: seq<seq<Buf>>)

  ghost function Init(size: nat): State {
    State(size, true, Some([]), Some([]), [], Head, Some([]), Some([]), [], [], [])
  }

  ghost function Avail(size: nat, b: Buf): int {
    size - |Flatten(b)|
  }

  /** What a buffer does with a line: it takes it only if more room than the line needs is left. */
  ghost function Accept(size: nat, b: Buf, line: Line): Buf {
    if Avail(size, b) > |line| then b + [line] else b
  }

  ghost function AppendHere(s: State, line: Line): State
    requires s.current.Some?
  {
    s.(current := Some(Accept(s.size, s.current.value, line)))
  }

  /** Queues the current buffer and puts the spare one, or a new one, in its place. */
  ghost function Rotate(s: State): State
    requires s.current.Some?
  {
    s.(buffers := s.buffers + [s.current.value],
       current := if s.next.Some? then s.next else Some([]),
       next := None)
  }

  ghost function Append(s: State, line: Line): State
    requires s.current.Some?
  {
    if Avail(s.size, s.current.value) > |line| then AppendHere(s, line) else AppendHere(Rotate(s), line)
  }

  ghost function LoopHead(s: State): State {
    s.(stage := if s.running then Swapping else Exited)
  }

  /** Moves the current buffer behind the full ones, and all of them to the back end. */
  ghost function TakeRound(s: State): State
    requires s.current.Some?
  {
    var taken := s.buffers + [s.current.value];
    s.(buffers := s.toWrite, toWrite := taken, rounds := s.rounds + [taken], current := None)
  }

  /** Gives the front end its spare buffers back. */
  ghost function Restock(s: State): State {
    s.(current := s.spare1,
       spare1 := None,
       next := if s.next.None? then s.spare2 else s.next,
       spare2 := if s.next.None? then None else s.spare2)
  }

  ghost function Swap(s: State): State
    requires s.current.Some?
  {
    Restock(TakeRound(s)).(stage := Trimming)
  }

  ghost function Trim(s: State): State {
    if |s.toWrite| > MAX_ROUND then
      s.(out := s.out + [Notice(|s.toWrite| - KEPT)], toWrite := s.toWrite[..KEPT], stage := Writing)
    else s.(stage := Writing)
  }

  ghost function DataOf(bufs: seq<Buf>): seq<Record> {
    seq(|bufs|, i requires 0 <= i < |bufs| => Data(Flatten(bufs[i])))
  }

  ghost function Write(s: State): State {
    s.(out := s.out + DataOf(s.toWrite),
       toWrite := if |s.toWrite| > KEPT then s.toWrite[..KEPT] else s.toWrite,
       stage := Refilling)
  }

  /** An empty spare slot takes the last of the written buffers, emptied. */
  ghost function Reclaim1(s: State): State
    requires s.spare1.None? ==> s.toWrite != []
  {
    if s.spare1.None? then s.(spare1 := Some([]), toWrite := s.toWrite[..|s.toWrite| - 1]) else s
  }

  ghost function Reclaim2(s: State): State
    requires s.spare2.None? ==> s.toWrite != []
  {
    if s.spare2.None? then s.(spare2 := Some([]), toWrite := s.toWrite[..|s.toWrite| - 1]) else s
  }

  ghost predicate CanRefill(s: State) {
    && (s.spare1.None? ==> s.toWrite != [])
    && (s.spare2.None? ==> Reclaim1(s).toWrite != [])
  }

  ghost function Refill(s: State): State
    requires CanRefill(s)
  {
    Reclaim2(Reclaim1(s)).(toWrite := [], stage := Head)
  }

  // ----- runs -----

  datatype Step = StepAppend(line: Line) | StepStop | StepBackEnd

  /** The source's assertions at the stage the back end is in. */
  ghost predicate AssertsHold(s: State) {
    match s.stage
    case Head => s.running ==> s.spare1 == Some([]) && s.spare2 == Some([]) && s.toWrite == []
    case Trimming => s.toWrite != []
    case Refilling => CanRefill(s)
    case _ => true
  }

  /** The step can be taken: no null buffer is dereferenced and no assertion fails. */
  ghost predicate CanStep(s: State, step: Step) {
    match step
    case StepAppend(_) => s.current.Some?
    case StepStop => true
    case StepBackEnd => AssertsHold(s) && (s.stage == Swapping ==> s.current.Some?)
  }

  ghost function Take(s: State, step: Step): State
    requires CanStep(s, step)
  {
    match step
    case StepAppend(line) => Append(s, line)
    case StepStop => s.(running := false)
    case StepBackEnd =>
      match s.stage
      case Head => LoopHead(s)
      case Swapping => Swap(s)
      case Trimming => Trim(s)
      case Writing => Write(s)
      case Refilling => Refill(s)
      case Exited => s
  }

  ghost predicate LegalRun(size: nat, steps: seq<Step>)
    decreases |steps|, 0
  {
    steps == [] ||
    (LegalRun(size, steps[..|steps| - 1]) && CanStep(Run(size, steps[..|steps| - 1]), steps[|steps| - 1]))
  }

  ghost function Run(size: nat, steps: seq<Step>): State
    requires LegalRun(size, steps)
    decreases |steps|, 1
  {
    if steps == [] then Init(size) else Take(Run(size, steps[..|steps| - 1]), steps[|steps| - 1])
  }

  /** The lines appended so far, in lock order, without those no buffer has room for. */
  ghost function Accepted(size: nat, steps: seq<Step>): seq<Line> {
    if steps == [] then []
    else
      var before := Accepted(size, steps[..|steps| - 1]);
      match steps[|steps| - 1]
      case StepAppend(line) => if |line| < size then before + [line] else before
      case _ => before
  }

  // ----- what the file should hold -----

  /** A round of more than 25 buffers leaves a notice and the first two; a smaller one leaves all. */
  ghost function RoundOutput(round: seq<Buf>): seq<Record> {
    if |round| > MAX_ROUND then [Notice(|round| - KEPT)] + DataOf(round[..KEPT]) else DataOf(round)
  }

  ghost function FileOf(rounds: seq<seq<Buf>>): seq<Record> {
    if rounds == [] then [] else FileOf(rounds[..|rounds| - 1]) + RoundOutput(rounds[|rounds| - 1])
  }

  /** Every line the logger has taken in: swapped out, waiting to be, or in the current buffer. */
  ghost function Held(s: State): seq<Line> {
    Flatten(Flatten(s.rounds)) + Flatten(s.buffers) + (if s.current.Some? then s.current.value else [])
  }
}
