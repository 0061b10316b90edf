/** No lost wakeup, and functors run once and in order, in every interleaving. */
module LoopTheorems {
  import opened Basics
  import opened LoopModel

  /** Something will make poll return: the eventfd is readable, or a thread is about to make it so. */
  ghost predicate WakeupOnTheWay(s: State) {
    s.counter > 0 || s.pushers != {} || s.loopOwes
  }

  /** If the loop is about to block, or blocks, while functors are pending, a wakeup is on its way; the
      same for a request to quit. */
  ghost predicate NoLostWakeup(s: State) {
    && (s.pc == Polling && s.pending != [] ==> s.counter > 0 || s.pushers != {})
    && (s.pc == Polling && s.quit ==> s.counter > 0 || s.quitters != {})
  }

  /** What carries that through a whole turn: from the swap to the end of the next poll. */
  ghost predicate Inv(s: State) {
    && (s.pc in {Running, Checking, Polling} && s.pending != [] ==> WakeupOnTheWay(s))
    && (s.pc == Polling && s.quit ==> s.counter > 0 || s.quitters != {})
    && (s.loopOwes ==> s.pc == Running)
    && (s.calling <==> s.pc in {Taking, Running})
    && (s.inCallback ==> s.pc == Running)
    && (s.batch != [] ==> s.pc == Running)
  }

  /** Functors run in the order in which they were pushed, and none is lost or run twice. */
  ghost predicate InOrder(s: State) {
    s.ran + s.batch + s.pending == s.pushed
  }

  lemma InvKept(s: State, step: Step)
    requires Inv(s) && Enabled(s, step)
    ensures Inv(Take(s, step)) && NoLostWakeup(Take(s, step))
  {
  }

  lemma OrderKept(s: State, step: Step)
    requires Inv(s) && InOrder(s) && Enabled(s, step)
    ensures InOrder(Take(s, step))
  {
    match step
    case RunNext => assert s.batch == [s.batch[0]] + s.batch[1..];
    case _ =>
  }

  lemma QueuedHereKeeps(s: State, f: Functor)
    requires Inv(s) && InOrder(s) && !s.loopOwes
    requires s.pc == Handling || (s.pc == Running && s.inCallback)
    ensures Inv(QueuedHere(s, f)) && InOrder(QueuedHere(s, f))
    ensures s.pc == Handling ==>
      Enabled(s, HandlerPushes(f)) && QueuedHere(s, f) == Take(s, HandlerPushes(f))
    ensures s.pc == Running ==>
      && Enabled(s, FunctorPushes(f)) && Enabled(Take(s, FunctorPushes(f)), FunctorWrites)
      && QueuedHere(s, f) == Take(Take(s, FunctorPushes(f)), FunctorWrites)
  {
    if s.pc == Handling {
      InvKept(s, HandlerPushes(f));
      OrderKept(s, HandlerPushes(f));
    } else {
      InvKept(s, FunctorPushes(f));
      OrderKept(s, FunctorPushes(f));
      InvKept(Take(s, FunctorPushes(f)), FunctorWrites);
      OrderKept(Take(s, FunctorPushes(f)), FunctorWrites);
    }
  }

  /** In every interleaving: no lost wakeup, and what has run, then the rest of the batch, then what is
      pending is exactly what was pushed, in that order. */
  lemma {:induction false} RunKeeps(s: State, steps: seq<Step>)
    requires Inv(s) && InOrder(s) && LegalRun(s, steps)
    ensures Inv(Run(s, steps)) && InOrder(Run(s, steps)) && NoLostWakeup(Run(s, steps))
    decreases |steps|
  {
    hide Enabled, Take, InOrder;
    if steps != [] {
      InvKept(s, steps[0]);
      OrderKept(s, steps[0]);
      RunKeeps(Take(s, steps[0]), steps[1..]);
    }
  }

  ghost function QueuedAt(step: Step): seq<Functor> {
    match step
    case Push(_, f) => [f]
    case HandlerPushes(f) => [f]
    case FunctorPushes(f) => [f]
    case _ => []
  }

  /** The functors the callers of a run queue, on whichever thread, in the order in which they get the lock. */
  ghost function QueuedBy(steps: seq<Step>): seq<Functor> {
    if steps == [] then [] else QueuedAt(steps[0]) + QueuedBy(steps[1..])
  }

  /** The functors the loop's thread has started. */
  ghost function RunsOf(steps: seq<Step>): nat {
    if steps == [] then 0 else (if steps[0].RunNext? then 1 else 0) + RunsOf(steps[1..])
  }

  ghost function WrittenAt(counter: nat, step: Step): nat {
    match step
    case WriteAfterPush(_) => counter + 1
    case WriteAfterQuit(_) => counter + 1
    case FunctorWrites => counter + 1
    case ReadEventfd => 0
    case _ => counter
  }

  /** What the eventfd counts, from `counter` on: every write, back to zero at every read. */
  ghost function Written(counter: nat, steps: seq<Step>): nat
    decreases |steps|
  {
    if steps == [] then counter else Written(WrittenAt(counter, steps[0]), steps[1..])
  }

  ghost predicate AsksToQuit(steps: seq<Step>) {
    exists i :: 0 <= i < |steps| && (steps[i].Quit? || steps[i].LoopQuits?)
  }

  lemma PushedAt(s: State, step: Step)
    requires Enabled(s, step)
    ensures Take(s, step).pushed == s.pushed + QueuedAt(step)
  {
    assert s.pushed + [] == s.pushed;
  }

  lemma CountedAt(s: State, step: Step)
    requires Enabled(s, step)
    ensures Take(s, step).counter == WrittenAt(s.counter, step)
  {
    match step
    case ReadEventfd =>
    case FunctorWrites =>
    case _ =>
  }

  lemma StartedAt(s: State, step: Step)
    requires Enabled(s, step)
    ensures |Take(s, step).ran| == |s.ran| + if step.RunNext? then 1 else 0
  {
    match step
    case RunNext =>
    case _ =>
  }

  lemma QuitAt(s: State, step: Step)
    requires Enabled(s, step)
    ensures Take(s, step).quit <==> s.quit || step.Quit? || step.LoopQuits?
  {
    match step
    case Quit(_) =>
    case LoopQuits =>
    case _ =>
  }

  lemma AskedAt(steps: seq<Step>)
    requires steps != []
    ensures AsksToQuit(steps) <==> steps[0].Quit? || steps[0].LoopQuits? || AsksToQuit(steps[1..])
  {
    assert forall i :: 0 <= i < |steps| - 1 ==> steps[1..][i] == steps[i + 1];
    assert forall i :: 0 < i < |steps| ==> steps[i] == steps[1..][i - 1];
  }

  /** What a run's steps make of the history, the eventfd and the request to quit. */
  lemma {:induction false} StepsAreSeen(s: State, steps: seq<Step>)
    requires LegalRun(s, steps)
    ensures var r := Run(s, steps);
      && r.pushed == s.pushed + QueuedBy(steps)
      && |r.ran| == |s.ran| + RunsOf(steps)
      && r.counter == Written(s.counter, steps)
      && (r.quit <==> s.quit || AsksToQuit(steps))
    decreases |steps|
  {
    hide Enabled, Take;
    if steps != [] {
      StepsAreSeen(Take(s, steps[0]), steps[1..]);
      PushedAt(s, steps[0]);
      CountedAt(s, steps[0]);
      StartedAt(s, steps[0]);
      Associates(s.pushed, QueuedAt(steps[0]), QueuedBy(steps[1..]));
      QuitAt(s, steps[0]);
      AskedAt(steps);
    }
  }

  /** In every interleaving from a fresh loop: no wakeup is lost; the functors that have run, those of the batch
      and those pending are exactly the functors the callers queued, each once and in that order; and as many
      have run as the loop has started. */
  lemma NoWakeupIsEverLost(steps: seq<Step>)
    requires LegalRun(Start(), steps)
    ensures var r := Run(Start(), steps);
      && NoLostWakeup(r)
      && r.ran + r.batch + r.pending == QueuedBy(steps)
      && RunsOf(steps) <= |QueuedBy(steps)| && r.ran == QueuedBy(steps)[..RunsOf(steps)]
      && r.counter == Written(0, steps)
  {
    hide LegalRun, Run, QueuedBy, RunsOf, Written, NoLostWakeup;
    RunKeeps(Start(), steps);
    StepsAreSeen(Start(), steps);
  }

  /** The loop ends at its test exactly when somebody has asked it to quit, on whichever thread. */
  lemma EndsIffAsked(steps: seq<Step>)
    requires LegalRun(Start(), steps) && LegalRun(Run(Start(), steps), [Check])
    ensures LegalRun(Start(), steps + [Check])
    ensures Run(Start(), steps + [Check]).pc == if AsksToQuit(steps) then Stopped else Polling
  {
    StepsAreSeen(Start(), steps);
    RunAppend(Start(), steps, [Check]);
    assert [Check][1..] == [];
  }

  ghost predicate NeverLosesWakeup(s: State) {
    forall steps :: LegalRun(s, steps) ==> NoLostWakeup(Run(s, steps))
  }

  /** Functors the loop's own thread queued before the loop started are not announced: no wakeup is
      lost in any run if and only if there were none, or the eventfd is readable anyway. */
  lemma EarlyFunctorsIff(queued: seq<Functor>, counter: nat)
    ensures NeverLosesWakeup(Waiting(queued, counter)) <==> queued == [] || counter > 0
  {
    var s := Waiting(queued, counter);
    if queued == [] || counter > 0 {
      forall steps | LegalRun(s, steps)
        ensures NoLostWakeup(Run(s, steps))
      {
        RunKeeps(s, steps);
      }
    } else {
      FirstPollMissesThem(queued);
    }
  }

  lemma FirstPollMissesThem(queued: seq<Functor>)
    requires queued != []
    ensures LegalRun(Waiting(queued, 0), [Check])
    ensures !NoLostWakeup(Run(Waiting(queued, 0), [Check]))
  {
    var s := Waiting(queued, 0);
    var steps := [Check];
    assert LegalRun(Take(s, Check), steps[1..]);
    assert Run(s, steps) == Take(s, Check);
  }

  // ----- progress -----

  ghost function RunAll(n: nat): seq<Step> {
    if n == 0 then [LeavePending] else [RunNext] + RunAll(n - 1)
  }

  /** The steps of one undisturbed turn of the loop. */
  ghost function Turn(s: State): seq<Step> {
    [PollReturns(s.counter > 0)] + (if s.counter > 0 then [ReadEventfd] else []) + [EnterPending, TakePending] + RunAll(|s.pending|)
  }

  lemma {:induction false} RunAllRuns(s: State)
    requires s.pc == Running && !s.loopOwes
    ensures LegalRun(s, RunAll(|s.batch|))
    ensures var r := Run(s, RunAll(|s.batch|));
      r.pc == Checking && r.ran == s.ran + s.batch && r.pending == s.pending && r.counter == s.counter
    decreases |s.batch|
  {
    hide Enabled, Take;
    RunNextIs(s);
    var steps := RunAll(|s.batch|);
    if s.batch == [] {
      assert steps[1..] == [];
    } else {
      var s1 := Take(s, RunNext);
      RunAllRuns(s1);
      assert steps[1..] == RunAll(|s1.batch|);
      assert s.ran + [s.batch[0]] + s.batch[1..] == s.ran + s.batch;
    }
  }

  lemma RunNextIs(s: State)
    requires s.pc == Running && !s.loopOwes
    ensures if s.batch == [] then
        && Enabled(s, LeavePending) && LegalRun(Take(s, LeavePending), [])
        && Take(s, LeavePending).(calling := s.calling, inCallback := s.inCallback) == s.(pc := Checking)
      else
        && Enabled(s, RunNext)
        && Take(s, RunNext) == s.(ran := s.ran + [s.batch[0]], batch := s.batch[1..], inCallback := true)
  {
  }

  lemma {:induction false} RunAppend(s: State, a: seq<Step>, b: seq<Step>)
    requires LegalRun(s, a) && LegalRun(Run(s, a), b)
    ensures LegalRun(s, a + b) && Run(s, a + b) == Run(Run(s, a), b)
    decreases |a|
  {
    if a == [] {
      assert a + b == b;
    } else {
      RunAppend(Take(s, a[0]), a[1..], b);
      assert (a + b)[1..] == a[1..] + b;
    }
  }

  /** Once poll returns, one undisturbed turn of the loop runs everything that was pending. */
  lemma TurnRunsAllPending(s: State)
    requires Inv(s) && s.pc == Polling
    ensures LegalRun(s, Turn(s))
    ensures var r := Run(s, Turn(s)); r.pc == Checking && r.ran == s.ran + s.pending && r.pending == [] && r.counter == 0
  {
    var pre := [PollReturns(s.counter > 0)] + (if s.counter > 0 then [ReadEventfd] else []);
    var mid := [EnterPending, TakePending];
    var s1 := Take(s, PollReturns(s.counter > 0));
    var s2 := if s.counter > 0 then Take(s1, ReadEventfd) else s1;
    assert LegalRun(s2, []);
    assert pre[1..] == if s.counter > 0 then [ReadEventfd] else [];
    assert s.counter > 0 ==> [ReadEventfd][1..] == [];
    assert LegalRun(s1, pre[1..]) && Run(s1, pre[1..]) == s2;
    assert LegalRun(s, pre) && Run(s, pre) == s2;
    var s3 := Take(Take(s2, EnterPending), TakePending);
    assert mid[1..] == [TakePending] && [TakePending][1..] == [];
    assert LegalRun(s3, []);
    assert LegalRun(Take(s2, EnterPending), mid[1..]);
    assert LegalRun(s2, mid) && Run(s2, mid) == s3;
    RunAllRuns(s3);
    RunAppend(s, pre, mid);
    RunAppend(s, pre + mid, RunAll(|s.pending|));
    assert Turn(s) == pre + mid + RunAll(|s.pending|);
  }
}
