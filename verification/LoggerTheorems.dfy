/** Properties of every interleaving of appends with the logger thread. */
module LoggerTheorems {
  import opened Basics
  import opened LoggerModel

  /** What the two threads keep between steps. */
  ghost predicate Inv(s: State) {
    && s.current.Some?
    && (s.next.None? ==> s.buffers != [])
    && (s.next.Some? ==> s.next == Some([]))
    && (s.spare1.Some? ==> s.spare1 == Some([]))
    && (s.spare2.Some? ==> s.spare2 == Some([]))
    && (s.stage in {Head, Swapping, Exited} ==>
          s.spare1.Some? && s.spare2.Some? && s.toWrite == [] && s.out == FileOf(s.rounds))
    && (s.stage in {Trimming, Writing, Refilling} ==>
          && s.rounds != [] && s.toWrite != []
          && (s.spare2.None? ==> |s.toWrite| >= 2))
    && (s.stage == Trimming ==>
          && s.toWrite == LastRound(s) && s.out == FileOf(s.rounds[..|s.rounds| - 1]))
    && (s.stage == Writing ==> s.out + DataOf(s.toWrite) == FileOf(s.rounds))
    && (s.stage == Refilling ==> s.out == FileOf(s.rounds))
  }

  ghost function LastRound(s: State): seq<Buf>
    requires s.rounds != []
  {
    s.rounds[|s.rounds| - 1]
  }

  lemma AppendKeepsInv(s: State, line: Line)
    requires Inv(s)
    ensures Inv(Append(s, line))
  {
    hide FileOf, DataOf, Accept, Avail;
  }

  lemma SwapKeepsInv(s: State)
    requires Inv(s) && s.stage == Swapping
    ensures Inv(Swap(s))
  {
    hide FileOf, DataOf;
    assert Swap(s).rounds[..|Swap(s).rounds| - 1] == s.rounds;
  }

  lemma TrimKeepsInv(s: State)
    requires Inv(s) && s.stage == Trimming
    ensures Inv(Trim(s))
  {
    hide DataOf, FileOf;
    FileOfLast(s.rounds);
    if |s.toWrite| > MAX_ROUND {
      Associates(FileOf(s.rounds[..|s.rounds| - 1]), [Notice(|s.toWrite| - KEPT)], DataOf(s.toWrite[..KEPT]));
    }
  }

  lemma FileOfLast(rounds: seq<seq<Buf>>)
    requires rounds != []
    ensures FileOf(rounds) == FileOf(rounds[..|rounds| - 1]) + RoundOutput(rounds[|rounds| - 1])
  {
  }

  lemma InvKept(s: State, step: Step)
    requires Inv(s)
    ensures CanStep(s, step)
    ensures Inv(Take(s, step))
  {
    hide FileOf, DataOf, Append, Swap, Trim;
    match step
    case StepAppend(line) => AppendKeepsInv(s, line);
    case StepStop =>
    case StepBackEnd =>
      match s.stage
      case Swapping => SwapKeepsInv(s);
      case Trimming => TrimKeepsInv(s);
      case _ =>
  }

  /** In every run no assertion of the source fails and no null buffer is used, and at the head of
      the loop both spare buffers are there and empty. */
  lemma {:induction false} AssertsNeverFail(size: nat, steps: seq<Step>, next: Step)
    requires LegalRun(size, steps)
    ensures Inv(Run(size, steps))
    ensures CanStep(Run(size, steps), next)
    decreases |steps|
  {
    hide Inv, CanStep, Take;
    if steps == [] {
      InitInv(size);
    } else {
      AssertsNeverFail(size, steps[..|steps| - 1], steps[|steps| - 1]);
      InvKept(Run(size, steps[..|steps| - 1]), steps[|steps| - 1]);
    }
    InvKept(Run(size, steps), next);
  }

  lemma InitInv(size: nat)
    ensures Inv(Init(size))
  {
  }

  // ----- nothing lost, nothing reordered, no line split -----

  lemma HereHeld(s: State, line: Line)
    requires s.current.Some?
    ensures Held(AppendHere(s, line)) ==
            if Avail(s.size, s.current.value) > |line| then Held(s) + [line] else Held(s)
  {
    if Avail(s.size, s.current.value) > |line| {
      assert Held(AppendHere(s, line)) == Held(s) + [line];
    }
  }

  lemma RotateHeld(s: State)
    requires s.current.Some? && (s.next.Some? ==> s.next == Some([]))
    ensures Held(Rotate(s)) == Held(s)
    ensures Rotate(s).current == Some([])
  {
    FlattenSnoc(s.buffers, s.current.value);
    assert Held(Rotate(s)) == Held(s);
  }

  lemma AppendHeld(s: State, line: Line)
    requires s.current.Some? && (s.next.Some? ==> s.next == Some([]))
    ensures Held(Append(s, line)) == if |line| < s.size then Held(s) + [line] else Held(s)
  {
    hide Held;
    assert Flatten<char>([]) == [];
    if Avail(s.size, s.current.value) > |line| {
      HereHeld(s, line);
    } else {
      RotateHeld(s);
      HereHeld(Rotate(s), line);
    }
  }

  lemma SwapHeld(s: State)
    requires s.current.Some? && s.spare1 == Some([]) && s.toWrite == []
    ensures Held(Swap(s)) == Held(s)
  {
    var cur := s.current.value;
    var taken := s.buffers + [cur];
    FlattenSnoc(s.rounds, taken);
    FlattenAppend(Flatten(s.rounds), taken);
    FlattenSnoc(s.buffers, cur);
    assert Flatten<Line>([]) == [];
    assert Held(Swap(s)) == Held(s);
  }

  /** In every interleaving, the buffers the back end has taken, then the full ones waiting, then the
      current one hold exactly the appended lines, whole and in lock order; a line is left out only if
      it is as long as a whole buffer or longer. */
  lemma {:induction false} EveryLineIsHeld(size: nat, steps: seq<Step>)
    requires LegalRun(size, steps)
    ensures Held(Run(size, steps)) == Accepted(size, steps)
    ensures Run(size, steps).size == size
    decreases |steps|
  {
    hide Held, Inv, CanStep, Append, Swap;
    if steps == [] {
      InitHeld(size);
    } else {
      var front, last := steps[..|steps| - 1], steps[|steps| - 1];
      EveryLineIsHeld(size, front);
      AssertsNeverFail(size, front, last);
      StepHeld(Run(size, front), last);
    }
  }

  lemma InitHeld(size: nat)
    ensures Held(Init(size)) == []
  {
    assert Flatten<Buf>([]) == [] && Flatten<Line>([]) == [];
  }

  lemma StepHeld(s: State, step: Step)
    requires Inv(s) && CanStep(s, step)
    ensures Take(s, step).size == s.size
    ensures Held(Take(s, step)) ==
            if step.StepAppend? && |step.line| < s.size then Held(s) + [step.line] else Held(s)
  {
    hide Held, FileOf, DataOf;
    match step
    case StepAppend(line) => AppendHeld(s, line);
    case StepStop => SameHeld(s, Take(s, step));
    case StepBackEnd => if s.stage == Swapping { SwapHeld(s); } else { SameHeld(s, Take(s, step)); }
  }

  lemma SameHeld(s: State, s': State)
    requires s.rounds == s'.rounds && s.buffers == s'.buffers && s.current == s'.current
    ensures Held(s') == Held(s)
  {
  }

  /** Between rounds the file holds, for each round, all its buffers, or, when there were more than
      25, the notice with the number dropped and exactly the first two. */
  lemma FileHoldsRounds(size: nat, steps: seq<Step>)
    requires LegalRun(size, steps)
    ensures Run(size, steps).stage in {Head, Swapping, Refilling, Exited} ==>
              Run(size, steps).out == FileOf(Run(size, steps).rounds)
  {
    AssertsNeverFail(size, steps, StepStop);
  }

  // ----- the text of the file -----

  /** The log text of a record; a notice is not log text. */
  ghost function TextOf(r: Record): seq<char> {
    if r.Data? then r.content else []
  }

  ghost function Text(out: seq<Record>): seq<char> {
    if out == [] then [] else Text(out[..|out| - 1]) + TextOf(out[|out| - 1])
  }

  lemma TextSnoc(out: seq<Record>, r: Record)
    ensures Text(out + [r]) == Text(out) + TextOf(r)
  {
    assert (out + [r])[..|out|] == out;
  }

  lemma {:induction false} TextAppend(a: seq<Record>, b: seq<Record>)
    ensures Text(a + b) == Text(a) + Text(b)
  {
    hide TextOf;
    if b == [] {
      assert a + b == a;
    } else {
      var front, last := b[..|b| - 1], b[|b| - 1];
      TextAppend(a, front);
      assert a + b == (a + front) + [last];
      TextSnoc(a + front, last);
      Associates(Text(a), Text(front), TextOf(last));
    }
  }

  lemma {:induction false} TextOfData(bufs: seq<Buf>)
    ensures Text(DataOf(bufs)) == Flatten(Flatten(bufs))
  {
    if bufs != [] {
      var front, last := bufs[..|bufs| - 1], bufs[|bufs| - 1];
      TextOfData(front);
      assert DataOf(bufs)[..|bufs| - 1] == DataOf(front);
      FlattenAppend(Flatten(front), last);
    }
  }

  /** The rounds without what the back end throws away: from the third buffer on, in a round of more
      than 25. */
  ghost function Kept(rounds: seq<seq<Buf>>): seq<seq<Buf>> {
    seq(|rounds|, i requires 0 <= i < |rounds| =>
      if |rounds[i]| > MAX_ROUND then rounds[i][..KEPT] else rounds[i])
  }

  lemma {:induction false} FileText(rounds: seq<seq<Buf>>)
    ensures Text(FileOf(rounds)) == Flatten(Flatten(Flatten(Kept(rounds))))
  {
    if rounds != [] {
      var front, last := rounds[..|rounds| - 1], rounds[|rounds| - 1];
      var kept := if |last| > MAX_ROUND then last[..KEPT] else last;
      FileText(front);
      assert Kept(rounds)[..|rounds| - 1] == Kept(front) && Kept(rounds)[|rounds| - 1] == kept;
      TextAppend(FileOf(front), RoundOutput(last));
      RoundText(last, kept);
      FlattenAppend(Flatten(Kept(front)), kept);
      FlattenAppend(Flatten(Flatten(Kept(front))), Flatten(kept));
    }
  }

  lemma RoundText(round: seq<Buf>, kept: seq<Buf>)
    requires kept == if |round| > MAX_ROUND then round[..KEPT] else round
    ensures Text(RoundOutput(round)) == Flatten(Flatten(kept))
  {
    TextOfData(kept);
    if |round| > MAX_ROUND {
      var notice := [Notice(|round| - KEPT)];
      TextAppend(notice, DataOf(kept));
      assert notice[..0] == [];
    }
  }

  /** The buffers a swap took that are yet to be written. */
  ghost function HeldForWriting(s: State): seq<Buf> {
    if s.stage in {Trimming, Writing} then s.toWrite else []
  }

  /** The rounds without what has been thrown away so far; the last one is whole until it is trimmed. */
  ghost function Survivors(s: State): seq<seq<Buf>> {
    if s.stage == Trimming && s.rounds != [] then Kept(s.rounds[..|s.rounds| - 1]) + [LastRound(s)] else Kept(s.rounds)
  }

  /** Whatever the stage, the file and the buffers held for writing have the text of the survivors. */
  lemma FileAndHeldText(s: State)
    requires Inv(s)
    ensures Text(s.out) + Flatten(Flatten(HeldForWriting(s))) == Flatten(Flatten(Flatten(Survivors(s))))
  {
    hide Kept;
    FileText(s.rounds);
    if s.stage == Trimming {
      var front := s.rounds[..|s.rounds| - 1];
      FileText(front);
      FlattenSnoc(Kept(front), LastRound(s));
      FlattenAppend(Flatten(Kept(front)), LastRound(s));
      FlattenAppend(Flatten(Flatten(Kept(front))), Flatten(LastRound(s)));
    } else if s.stage == Writing {
      TextAppend(s.out, DataOf(s.toWrite));
      TextOfData(s.toWrite);
    }
  }

  /** The bytes in the file, the buffers held for writing, the full buffers and the current one. */
  ghost function Spelt(s: State): seq<char>
    requires s.current.Some?
  {
    Text(s.out) + Flatten(Flatten(HeldForWriting(s))) + Flatten(Flatten(s.buffers)) + Flatten(s.current.value)
  }

  /** In every interleaving these spell, in order, the appended lines but for the buffers from the third
      on of a trimmed round of more than 25. */
  lemma FileAndBuffersSpellTheSurvivors(size: nat, steps: seq<Step>)
    requires LegalRun(size, steps)
    ensures var s := Run(size, steps);
      && s.current.Some?
      && Flatten(Flatten(s.rounds)) + Flatten(s.buffers) + s.current.value == Accepted(size, steps)
      && Spelt(s) == Flatten(Flatten(Flatten(Survivors(s))) + Flatten(s.buffers) + s.current.value)
  {
    hide LegalRun, Run, HeldForWriting, Survivors;
    var s := Run(size, steps);
    AssertsNeverFail(size, steps, StepStop);
    EveryLineIsHeld(size, steps);
    FileAndHeldText(s);
    var a, b, c := Flatten(Flatten(Survivors(s))), Flatten(s.buffers), s.current.value;
    FlattenAppend(a + b, c);
    FlattenAppend(a, b);
  }

  lemma AllSurvive(s: State)
    requires forall i :: 0 <= i < |s.rounds| ==> |s.rounds[i]| <= MAX_ROUND
    ensures Survivors(s) == s.rounds
  {
  }

  /** So while no round exceeds 25 buffers they spell exactly the appended lines. */
  lemma FileAndBuffersSpellTheLines(size: nat, steps: seq<Step>)
    requires LegalRun(size, steps)
    requires forall i :: 0 <= i < |Run(size, steps).rounds| ==> |Run(size, steps).rounds[i]| <= MAX_ROUND
    ensures Run(size, steps).current.Some? && Spelt(Run(size, steps)) == Flatten(Accepted(size, steps))
  {
    hide LegalRun, Run, Spelt, Survivors, Flatten, Accepted;
    FileAndBuffersSpellTheSurvivors(size, steps);
    AllSurvive(Run(size, steps));
  }

  // ----- a turn of the back end's loop -----

  /** A step of the back end, which can always be taken, and loses nothing that is held. */
  ghost function BackEnd(s: State): (r: State)
    requires Inv(s)
    ensures Inv(r) && Held(r) == Held(s)
  {
    InvKept(s, StepBackEnd);
    StepHeld(s, StepBackEnd);
    Take(s, StepBackEnd)
  }

  /** What a step of the back end does to the stage, the rounds and the front end's buffers. */
  lemma BackEndStep(s: State)
    requires Inv(s) && s.running
    ensures var r := BackEnd(s);
      && r.running
      && r.stage == (match s.stage
                     case Head => Swapping
                     case Swapping => Trimming
                     case Trimming => Writing
                     case Writing => Refilling
                     case Refilling => Head
                     case Exited => Exited)
      && (if s.stage == Swapping then
            r.rounds == s.rounds + [s.buffers + [s.current.value]] && r.buffers == [] && r.current == Some([])
          else r.rounds == s.rounds && r.buffers == s.buffers && r.current == s.current)
  {
    hide Held, FileOf, DataOf, LastRound;
    InvKept(s, StepBackEnd);
  }

  lemma OutAtHead(s: State)
    requires Inv(s) && s.stage == Head
    ensures s.out == FileOf(s.rounds)
  {
  }

  /** While no other thread interferes, five steps take the running loop from its head back to it: what was
      in the front end's buffers has become the last round, and that is in the file as far as a round goes
      there. */
  lemma TurnFacts(s: State)
    requires Inv(s) && s.stage == Head && s.running
    ensures var s1 := BackEnd(s); var s2 := BackEnd(s1); var s3 := BackEnd(s2); var s4 := BackEnd(s3); var r := BackEnd(s4);
      && (s1.stage, s2.stage, s3.stage, s4.stage, r.stage) == (Swapping, Trimming, Writing, Refilling, Head)
      && r.rounds == s.rounds + [s.buffers + [s.current.value]] && r.out == FileOf(r.rounds)
      && r.buffers == [] && r.current == Some([])
  {
    hide Inv, BackEnd, Held, FileOf;
    SomeCurrent(s);
    BackEndStep(s);
    BackEndStep(BackEnd(s));
    BackEndStep(BackEnd(BackEnd(s)));
    BackEndStep(BackEnd(BackEnd(BackEnd(s))));
    BackEndStep(BackEnd(BackEnd(BackEnd(BackEnd(s)))));
    OutAtHead(BackEnd(BackEnd(BackEnd(BackEnd(BackEnd(s))))));
  }

  lemma SomeCurrent(s: State)
    requires Inv(s)
    ensures s.current.Some?
  {
  }
}
