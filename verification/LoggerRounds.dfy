/** How the asynchronous logger fills its buffers: what each round looks like for the lines that were
    appended while it was collected, and when the back end stops. */
module LoggerRounds {
  import opened Basics
  import opened LoggerModel
  import opened LoggerTheorems

  // ----- a round -----

  /** The lines shorter than a buffer. */
  ghost function Short(size: nat, lines: seq<Line>): seq<Line> {
    if lines == [] then []
    else
      var last := lines[|lines| - 1];
      Short(size, lines[..|lines| - 1]) + if |last| < size then [last] else []
  }

  /** The buffer holds the stretch of lines, whole and in order; every line fits, but that the one a stretch
      begins with may be as long as a buffer, and then it is left out. */
  ghost predicate Filled(size: nat, stretch: seq<Line>, buf: Buf, first: bool) {
    && buf == Short(size, stretch)
    && (buf == [] || |Flatten(buf)| < size)
    && (forall j :: (if first then 0 else 1) <= j < |stretch| ==> |stretch[j]| < size)
  }

  /** Each stretch of lines fills one buffer, and ends only because there is no room for the line the next
      one begins with. */
  ghost predicate Packed(size: nat, stretches: seq<seq<Line>>, round: seq<Buf>) {
    && |stretches| == |round| > 0
    && (forall i :: 0 <= i < |round| ==> Filled(size, stretches[i], round[i], i == 0))
    && (forall i :: 0 <= i < |round| - 1 ==> NoRoom(size, round[i], stretches[i + 1]))
  }

  /** The buffer had no room for the line that came next. */
  ghost predicate NoRoom(size: nat, buf: Buf, next: seq<Line>) {
    next != [] && |Flatten(buf)| + |next[0]| >= size
  }

  /** The lines, in order, fill the buffers of the round one after the other, none before it has to be. */
  ghost predicate Packs(size: nat, lines: seq<Line>, round: seq<Buf>) {
    exists stretches :: Packed(size, stretches, round) && Flatten(stretches) == lines
  }

  lemma ShortSnoc(size: nat, lines: seq<Line>, line: Line)
    ensures Short(size, lines + [line]) == Short(size, lines) + if |line| < size then [line] else []
  {
    assert (lines + [line])[..|lines|] == lines;
  }

  lemma PacksNothing(size: nat)
    ensures Packs(size, [], [[]])
  {
    var stretches: seq<seq<Line>> := [[]];
    assert stretches[..0] == [];
    assert Packed(size, stretches, [[]]) && Flatten(stretches) == [];
  }

  lemma FillMore(size: nat, stretch: seq<Line>, buf: Buf, line: Line, first: bool)
    requires Filled(size, stretch, buf, first) && |Flatten(buf)| + |line| < size
    ensures Filled(size, stretch + [line], buf + [line], first)
  {
    ShortSnoc(size, stretch, line);
    FlattenSnoc(buf, line);
  }

  lemma FillFirst(size: nat, line: Line)
    ensures Filled(size, [line], if |line| < size then [line] else [], false)
  {
    ShortOne(size, line);
  }

  /** A line that fits goes to the last buffer. */
  lemma PackHere(size: nat, lines: seq<Line>, full: seq<Buf>, cur: Buf, line: Line)
    requires Packs(size, lines, full + [cur]) && |Flatten(cur)| + |line| < size
    ensures Packs(size, lines + [line], full + [cur + [line]])
  {
    hide Flatten, Filled, NoRoom;
    var a :| Packed(size, a, full + [cur]) && Flatten(a) == lines;
    var n := |full|;
    var b := a[..n] + [a[n] + [line]];
    assert (full + [cur])[n] == cur;
    FillMore(size, a[n], cur, line, n == 0);
    assert a == a[..n] + [a[n]];
    FlattenSnoc(a[..n], a[n]);
    FlattenSnoc(a[..n], a[n] + [line]);
    Associates(Flatten(a[..n]), a[n], [line]);
    PackedLast(size, a, full, cur, a[n] + [line], cur + [line]);
  }

  lemma PackedLast(size: nat, a: seq<seq<Line>>, full: seq<Buf>, cur: Buf, stretch: seq<Line>, buf: Buf)
    requires Packed(size, a, full + [cur]) && Filled(size, stretch, buf, |full| == 0)
    requires a[|full|] != [] ==> stretch != [] && stretch[0] == a[|full|][0]
    ensures Packed(size, a[..|full|] + [stretch], full + [buf])
  {
    hide Flatten, Filled;
    var b := a[..|full|] + [stretch];
    forall i | 0 <= i < |full| ensures NoRoom(size, (full + [buf])[i], b[i + 1]) {
      assert NoRoom(size, (full + [cur])[i], a[i + 1]);
    }
    forall i | 0 <= i < |full| ensures Filled(size, b[i], (full + [buf])[i], i == 0) {
      assert Filled(size, a[i], (full + [cur])[i], i == 0);
    }
  }

  /** Any other begins the next one, or is left out if it is as long as a buffer. */
  lemma PackNext(size: nat, lines: seq<Line>, full: seq<Buf>, cur: Buf, line: Line)
    requires Packs(size, lines, full + [cur]) && |Flatten(cur)| + |line| >= size
    ensures Packs(size, lines + [line], full + [cur] + [if |line| < size then [line] else []])
  {
    hide Flatten, Filled;
    var a :| Packed(size, a, full + [cur]) && Flatten(a) == lines;
    var round := full + [cur];
    var round' := round + [if |line| < size then [line] else []];
    var b := a + [[line]];
    FlattenSnoc(a, [line]);
    FillFirst(size, line);
    assert round[|full|] == cur;
    forall i | 0 <= i < |round| ensures Filled(size, b[i], round'[i], i == 0) && NoRoom(size, round'[i], b[i + 1]) {
      assert Filled(size, a[i], round[i], i == 0);
      if i < |full| {
        assert NoRoom(size, round[i], a[i + 1]);
      }
    }
    assert Packed(size, b, round');
  }

  lemma ShortOne(size: nat, line: Line)
    ensures Short(size, [line]) == if |line| < size then [line] else []
    ensures Flatten([line]) == line
  {
    assert [line][..0] == [];
  }

  // ----- every run -----

  /** What was appended while each round was collected, the round that is still open last. */
  ghost function Asked(size: nat, steps: seq<Step>): (r: seq<seq<Line>>)
    requires LegalRun(size, steps)
    ensures r != []
    decreases |steps|
  {
    if steps == [] then [[]]
    else
      var front, step := steps[..|steps| - 1], steps[|steps| - 1];
      var before := Asked(size, front);
      if step.StepAppend? then before[..|before| - 1] + [before[|before| - 1] + [step.line]]
      else if step.StepBackEnd? && Run(size, front).stage == Swapping then before + [[]]
      else before
  }

  /** The rounds swapped out, and the one that is being collected. */
  ghost function AllRounds(s: State): seq<seq<Buf>>
    requires s.current.Some?
  {
    s.rounds + [s.buffers + [s.current.value]]
  }

  ghost predicate EachPacks(size: nat, asked: seq<seq<Line>>, rounds: seq<seq<Buf>>) {
    |asked| == |rounds| && forall i :: 0 <= i < |rounds| ==> Packs(size, asked[i], rounds[i])
  }

  lemma AppendPacks(s: State, lines: seq<Line>, line: Line)
    requires Inv(s) && Packs(s.size, lines, s.buffers + [s.current.value])
    ensures var r := Append(s, line);
      r.rounds == s.rounds && r.current.Some? && Packs(s.size, lines + [line], r.buffers + [r.current.value])
  {
    hide Packs, FileOf, DataOf, Flatten;
    ShortOne(s.size, line);
    FlattenNothing<char>();
    if |Flatten(s.current.value)| + |line| < s.size {
      PackHere(s.size, lines, s.buffers, s.current.value, line);
    } else {
      PackNext(s.size, lines, s.buffers, s.current.value, line);
    }
  }

  lemma StepPacks(s: State, asked: seq<seq<Line>>, step: Step)
    requires Inv(s) && CanStep(s, step) && Take(s, step).current.Some?
    requires asked != [] && EachPacks(s.size, asked, AllRounds(s))
    ensures var n := |asked| - 1;
      EachPacks(s.size,
                if step.StepAppend? then asked[..n] + [asked[n] + [step.line]]
                else if step.StepBackEnd? && s.stage == Swapping then asked + [[]]
                else asked,
                AllRounds(Take(s, step)))
  {
    hide Packs, FileOf, DataOf, Flatten, Append, Swap, Trim, Write, Refill, Inv;
    InvCurrent(s);
    var n := |asked| - 1;
    assert AllRounds(s)[n] == s.buffers + [s.current.value];
    assert forall i :: 0 <= i < n ==> AllRounds(s)[i] == s.rounds[i];
    if step.StepAppend? {
      AppendPacks(s, asked[n], step.line);
    } else if step.StepBackEnd? && s.stage == Swapping {
      PacksNothing(s.size);
      SwapOpens(s);
    } else {
      OthersLeave(s, step);
    }
  }

  lemma SwapOpens(s: State)
    requires Inv(s) && s.stage == Swapping
    ensures Swap(s).current.Some? && AllRounds(Swap(s)) == AllRounds(s) + [[[]]]
  {
    hide FileOf, DataOf;
    assert Swap(s).buffers + [Swap(s).current.value] == [[]];
  }

  lemma OthersLeave(s: State, step: Step)
    requires Inv(s) && CanStep(s, step) && !step.StepAppend? && (step.StepBackEnd? ==> s.stage != Swapping)
    ensures Take(s, step).current == s.current && AllRounds(Take(s, step)) == AllRounds(s)
  {
    hide FileOf, DataOf;
  }

  /** In every interleaving, every round that was swapped out, and the one being collected, consists of what
      was appended in its time, packed into buffers in order with none begun before it has to be. */
  lemma {:induction false} RoundsArePacked(size: nat, steps: seq<Step>)
    requires LegalRun(size, steps)
    ensures Run(size, steps).current.Some?
    ensures EachPacks(size, Asked(size, steps), AllRounds(Run(size, steps)))
    decreases |steps|
  {
    hide Inv, CanStep, Take, EachPacks, AllRounds;
    AssertsNeverFail(size, steps, StepStop);
    InvCurrent(Run(size, steps));
    if steps == [] {
      FirstPacks(size);
    } else {
      var front, last := steps[..|steps| - 1], steps[|steps| - 1];
      AssertsNeverFail(size, front, last);
      EveryLineIsHeld(size, front);
      RoundsArePacked(size, front);
      StepPacks(Run(size, front), Asked(size, front), last);
    }
  }

  lemma InvCurrent(s: State)
    requires Inv(s)
    ensures s.current.Some?
  {
  }

  lemma FirstPacks(size: nat)
    ensures EachPacks(size, [[]], AllRounds(Init(size)))
  {
    PacksNothing(size);
    assert Init(size).buffers + [Init(size).current.value] == [[]];
    assert AllRounds(Init(size)) == [[[]]];
  }

  // ----- how many buffers a round has -----

  lemma {:induction false} AllShort(size: nat, lines: seq<Line>)
    requires forall j :: 0 <= j < |lines| ==> |lines[j]| < size
    ensures Short(size, lines) == lines
  {
    if lines != [] {
      AllShort(size, lines[..|lines| - 1]);
    }
  }

  lemma {:induction false} LineWithin(lines: seq<Line>)
    requires lines != []
    ensures |lines[0]| <= |Flatten(lines)|
  {
    if |lines| > 1 {
      LineWithin(lines[..|lines| - 1]);
    }
  }

  lemma TwoStretches(a: seq<seq<Line>>)
    requires |a| >= 2 && a[1] != []
    ensures Flatten(a) != [] && |Flatten(Flatten(a))| >= |Flatten(a[0])| + |a[1][0]|
  {
    hide Flatten;
    var rest := a[2..];
    assert a == [a[0]] + ([a[1]] + rest);
    FlattenAppend([a[0]], [a[1]] + rest);
    FlattenAppend([a[1]], rest);
    FlattenSingle(a[0]);
    FlattenSingle(a[1]);
    FlattenAppend(a[0], a[1] + Flatten(rest));
    FlattenAppend(a[1], Flatten(rest));
    LineWithin(a[1]);
  }

  lemma FlattenSingle<T>(piece: seq<T>)
    ensures Flatten([piece]) == piece
  {
    assert [piece][..0] == [];
  }

  /** A round is one buffer exactly when nothing was appended in its time, or less text than fills a buffer:
      a short spell of logging loses no line. */
  lemma OneBufferIff(size: nat, lines: seq<Line>, round: seq<Buf>)
    requires Packs(size, lines, round)
    ensures |round| == 1 <==> lines == [] || |Flatten(lines)| < size
    ensures |round| == 1 ==> round == [lines]
  {
    hide Flatten;
    var a :| Packed(size, a, round) && Flatten(a) == lines;
    assert Filled(size, a[0], round[0], true);
    AllShort(size, a[0]);
    if |round| == 1 {
      assert a == [a[0]];
      FlattenSingle(a[0]);
      FlattenNothing<char>();
    } else {
      assert NoRoom(size, round[0], a[1]);
      TwoStretches(a);
      FlattenNothing<char>();
    }
  }

  /** Two buffers next to each other hold more than one takes. */
  lemma {:induction false} HalfFull(size: nat, round: seq<Buf>)
    requires round != []
    requires forall i :: 0 <= i < |round| - 1 ==> |Flatten(round[i])| + |Flatten(round[i + 1])| >= size
    ensures 2 * |Flatten(Flatten(round))| - |Flatten(round[|round| - 1])| >= (|round| - 1) * size
  {
    var n := |round|;
    FlattenAppend(Flatten(round[..n - 1]), round[n - 1]);
    if n > 1 {
      HalfFull(size, round[..n - 1]);
      assert |Flatten(round[n - 2])| + |Flatten(round[n - 1])| >= size;
      assert (n - 1) * size == (n - 2) * size + size;
    }
  }

  lemma PackedNeighbours(size: nat, a: seq<seq<Line>>, round: seq<Buf>)
    requires Packed(size, a, round)
    requires forall i, j :: 0 <= i < |a| && 0 <= j < |a[i]| ==> |a[i][j]| < size
    ensures round == a
    ensures forall i :: 0 <= i < |round| - 1 ==> |Flatten(round[i])| + |Flatten(round[i + 1])| >= size
  {
    hide Flatten;
    forall i | 0 <= i < |round| ensures round[i] == a[i] {
      assert Filled(size, a[i], round[i], i == 0);
      AllShort(size, a[i]);
    }
    forall i | 0 <= i < |round| - 1 ensures |Flatten(round[i])| + |Flatten(round[i + 1])| >= size {
      assert NoRoom(size, round[i], a[i + 1]);
      LineWithin(a[i + 1]);
    }
  }

  lemma {:induction false} InSomeStretch(a: seq<seq<Line>>, i: nat, j: nat)
    requires i < |a| && j < |a[i]|
    ensures a[i][j] in Flatten(a)
  {
    if i < |a| - 1 {
      InSomeStretch(a[..|a| - 1], i, j);
    }
  }

  /** As long as no line is as long as a buffer, a round of n buffers took the text of half of n - 1 full ones;
      so the back end throws lines away only after twelve and a half buffers of text in one round. */
  lemma LossNeedsText(size: nat, lines: seq<Line>, round: seq<Buf>)
    requires Packs(size, lines, round) && forall line :: line in lines ==> |line| < size
    ensures 2 * |Flatten(lines)| >= (|round| - 1) * size
    ensures |round| > MAX_ROUND ==> 2 * |Flatten(lines)| >= MAX_ROUND * size
  {
    hide Flatten, Packed;
    var a :| Packed(size, a, round) && Flatten(a) == lines;
    forall i, j | 0 <= i < |a| && 0 <= j < |a[i]| ensures |a[i][j]| < size {
      InSomeStretch(a, i, j);
    }
    PackedNeighbours(size, a, round);
    PackedSome(size, a, round);
    HalfFull(size, round);
    if |round| > MAX_ROUND {
      MoreTimes(MAX_ROUND, |round| - 1, size);
    }
  }

  lemma PackedSome(size: nat, a: seq<seq<Line>>, round: seq<Buf>)
    requires Packed(size, a, round)
    ensures round != []
  {
  }

  lemma MoreTimes(a: nat, b: nat, n: nat)
    requires a <= b
    ensures a * n <= b * n
  {
  }

  /** So a logger that is given no line as long as a buffer, and less than twelve and a half buffers of text
      from one swap to the next, loses nothing: at every stage the file and the buffers spell every line
      appended. */
  lemma NothingDropped(size: nat, steps: seq<Step>)
    requires LegalRun(size, steps)
    requires forall i, line :: 0 <= i < |Asked(size, steps)| && line in Asked(size, steps)[i] ==> |line| < size
    requires forall i :: 0 <= i < |Asked(size, steps)| ==> 2 * |Flatten(Asked(size, steps)[i])| < MAX_ROUND * size
    ensures Run(size, steps).current.Some? && Spelt(Run(size, steps)) == Flatten(Accepted(size, steps))
  {
    hide LegalRun, Run, Spelt, Accepted, Asked, Packs, Flatten;
    RoundsArePacked(size, steps);
    var s := Run(size, steps);
    forall i | 0 <= i < |s.rounds| ensures |s.rounds[i]| <= MAX_ROUND {
      assert AllRounds(s)[i] == s.rounds[i];
      LossNeedsText(size, Asked(size, steps)[i], s.rounds[i]);
    }
    FileAndBuffersSpellTheLines(size, steps);
  }

  // ----- the end of the loop -----

  /** The steps of the back end since the logger was stopped, or -1 while it has not been. */
  ghost function SinceStop(steps: seq<Step>): (n: int)
    ensures n >= -1
  {
    if steps == [] then -1
    else
      var before := SinceStop(steps[..|steps| - 1]);
      match steps[|steps| - 1]
      case StepAppend(_) => before
      case StepStop => if before < 0 then 0 else before
      case StepBackEnd => if before < 0 then -1 else before + 1
  }

  /** The steps a stopped back end has left. */
  ghost function Left(stage: Stage): nat {
    match stage
    case Exited => 0
    case Head => 1
    case Refilling => 2
    case Writing => 3
    case Trimming => 4
    case Swapping => 5
  }

  /** The back end runs on until the logger is stopped, and then comes to an end within five steps. */
  lemma {:induction false} StopsIff(size: nat, steps: seq<Step>)
    requires LegalRun(size, steps)
    ensures Run(size, steps).running <==> SinceStop(steps) < 0
    ensures Run(size, steps).running ==> Run(size, steps).stage != Exited
    ensures !Run(size, steps).running ==>
      Left(Run(size, steps).stage) + SinceStop(steps) <= 5 || Run(size, steps).stage == Exited
    ensures SinceStop(steps) >= 5 ==> Run(size, steps).stage == Exited
    decreases |steps|
  {
    hide CanStep, Inv, FileOf, DataOf;
    if steps != [] {
      StopsIff(size, steps[..|steps| - 1]);
    }
  }
}
