/** Timers and the queue that serves them all from one timerfd.  Times are microseconds; the interval
    of a timer is a number of seconds, and the arithmetic on it is rounded. */
module Timers {

  const MICROSECONDS_PER_SECOND := 1_000_000

  /** Conversion to an integer, toward zero. */
  function Truncate(x: real): int {
    if x >= 0.0 then x.Floor else -((-x).Floor)
  }

  /** Integers up to this size are double-precision numbers themselves: 2 to the 53rd. */
  const EXACT := 0x20_0000_0000_0000

  predicate InRange(n: int) {
    -EXACT <= n <= EXACT
  }

  /** What is known of rounding to double precision, in whatever direction: it is monotone, and it leaves
      the integers in range alone. */
  ghost predicate Rounds(fl: real -> real) {
    && (forall x, y :: x <= y ==> fl(x) <= fl(y))
    && (forall n :: InRange(n) ==> Fixes(fl, n))
  }

  ghost predicate Fixes(fl: real -> real, n: int) {
    fl(n as real) == n as real
  }

  type Rounding = fl: real -> real | Rounds(fl) ghost witness x => x

  /** The interval in microseconds, as computed. */
  function Micros(fl: Rounding, seconds: real): real {
    fl(seconds * MICROSECONDS_PER_SECOND as real)
  }

  /** TimeStamp plus seconds: both products and sums are rounded, the result is truncated. */
  function Later(fl: Rounding, time: int, seconds: real): int {
    Truncate(fl(fl(time as real) + Micros(fl, seconds)))
  }

  /** When a timer is due after `runs` runs. */
  ghost function Deadline(fl: Rounding, when: int, interval: real, runs: nat): int {
    if runs == 0 then when else Later(fl, Deadline(fl, when, interval, runs - 1), interval)
  }

  lemma WholeSum(time: int, n: int)
    ensures time as real + n as real == (time + n) as real && Truncate((time + n) as real) == time + n
  {
  }

  /** An interval that comes out as a whole number of microseconds is added exactly. */
  lemma LaterByWhole(fl: Rounding, time: int, seconds: real, n: int)
    requires Micros(fl, seconds) == n as real && InRange(time) && InRange(time + n)
    ensures Later(fl, time, seconds) == time + n
  {
    hide Truncate;
    WholeSum(time, n);
    assert Fixes(fl, time) && Fixes(fl, time + n);
  }

  /** Then the deadline after k runs is the first one plus k intervals, whatever the rounding. */
  lemma {:induction false} WholeStepsAddUp(fl: Rounding, when: int, interval: real, n: nat, runs: nat)
    requires Micros(fl, interval) == n as real && InRange(when) && InRange(when + runs * n)
    ensures Deadline(fl, when, interval, runs) == when + runs * n
  {
    hide Later, Micros;
    if runs > 0 {
      assert (runs - 1) * n + n == runs * n;
      WholeStepsAddUp(fl, when, interval, n, runs - 1);
      LaterByWhole(fl, when + (runs - 1) * n, interval, n);
    }
  }

  // ----- exactly when deadlines are exact, whatever the rounding -----

  function Down(x: real): real {
    x.Floor as real
  }

  function Up(x: real): real {
    -((-x).Floor as real)
  }

  lemma FloorIs(x: real, n: int)
    requires n as real <= x < n as real + 1.0
    ensures x.Floor == n
  {
  }

  lemma DirectedRound()
    ensures Rounds(Down) && Rounds(Up)
  {
    hide Down, Up;
    forall n ensures Fixes(Down, n) && Fixes(Up, n) {
      DirectedFix(n);
    }
    forall x, y | x <= y ensures Down(x) <= Down(y) && Up(x) <= Up(y) {
      DirectedMonotone(x, y);
    }
  }

  lemma DirectedFix(n: int)
    ensures Fixes(Down, n) && Fixes(Up, n)
  {
    FloorIs(n as real, n);
    FloorIs(-(n as real), -n);
  }

  lemma DirectedMonotone(x: real, y: real)
    requires x <= y
    ensures Down(x) <= Down(y) && Up(x) <= Up(y)
  {
    FloorMonotone(x, y, x.Floor, y.Floor);
    FloorMonotone(-y, -x, (-y).Floor, (-x).Floor);
  }

  lemma FloorMonotone(x: real, y: real, a: int, b: int)
    requires a as real <= x <= y < b as real + 1.0
    ensures a <= b && a as real <= b as real
  {
  }

  lemma DownStep(time: int, micros: real)
    ensures Truncate(Down(Down(time as real) + Down(micros))) == time + micros.Floor
  {
    FloorIs(time as real, time);
    WholeSum(time, micros.Floor);
    FloorIs((time + micros.Floor) as real, time + micros.Floor);
  }

  lemma UpStep(time: int, micros: real)
    ensures Truncate(Up(Up(time as real) + Up(micros))) == time - (-micros).Floor
  {
    var n := -(-micros).Floor;
    FloorIs(-(time as real), -time);
    assert Up(micros) == n as real;
    WholeSum(time, n);
    FloorIs(-((time + n) as real), -(time + n));
  }

  /** Rounding down and rounding up agree on a number only if it is an integer. */
  lemma BothWays(x: real, n: int)
    requires x.Floor == n && -(-x).Floor == n
    ensures x == n as real
  {
  }

  ghost predicate ExactUnderAll(when: int, interval: real, n: nat) {
    forall fl: Rounding, runs: nat :: InRange(when + runs * n) ==> Deadline(fl, when, interval, runs) == when + runs * n
  }

  /** Within the range of exact integers the deadlines after k runs are the first one plus k times n,
      under every rounding, if and only if the interval is n microseconds.  With a fraction two roundings
      disagree from the first run on. */
  lemma DeadlinesExactIff(when: int, interval: real, n: nat)
    requires InRange(when) && InRange(n) && InRange(when + n)
    ensures ExactUnderAll(when, interval, n) <==> interval * MICROSECONDS_PER_SECOND as real == n as real
  {
    if interval * MICROSECONDS_PER_SECOND as real == n as real {
      assert forall fl: Rounding :: Fixes(fl, n) && Micros(fl, interval) == n as real;
      AllExact(when, interval, n);
    }
    if ExactUnderAll(when, interval, n) {
      DownAndUpAgree(when, interval, n);
    }
  }

  lemma AllExact(when: int, interval: real, n: nat)
    requires InRange(when) && InRange(n)
    requires forall fl: Rounding :: Micros(fl, interval) == n as real
    ensures ExactUnderAll(when, interval, n)
  {
    hide Micros, Deadline;
    forall fl: Rounding, runs: nat | InRange(when + runs * n)
      ensures Deadline(fl, when, interval, runs) == when + runs * n
    {
      WholeStepsAddUp(fl, when, interval, n, runs);
    }
  }

  lemma DownAndUpAgree(when: int, interval: real, n: nat)
    requires InRange(when + n) && ExactUnderAll(when, interval, n)
    ensures interval * MICROSECONDS_PER_SECOND as real == n as real
  {
    hide Down, Up, Truncate, ExactUnderAll;
    DirectedRound();
    FirstStep(Down, when, interval, n);
    FirstStep(Up, when, interval, n);
    DownStep(when, interval * MICROSECONDS_PER_SECOND as real);
    UpStep(when, interval * MICROSECONDS_PER_SECOND as real);
    BothWays(interval * MICROSECONDS_PER_SECOND as real, n);
  }

  lemma FirstStep(fl: Rounding, when: int, interval: real, n: nat)
    requires ExactUnderAll(when, interval, n) && InRange(when + n)
    ensures Later(fl, when, interval) == when + n
  {
    assert Deadline(fl, when, interval, 0) == when;
    assert InRange(when + 1 * n) && Deadline(fl, when, interval, 1) == when + 1 * n;
  }

  // ----- round to nearest, at the times of the present -----

  // 2 to the 50th and 51st: the years 2005 to 2041
  const PRESENT := 0x4_0000_0000_0000
  const FUTURE := 0x8_0000_0000_0000

  /** To the nearest quarter, ties to the even one. */
  function Quarter(y: real): real {
    var q := (4.0 * y).Floor;
    var rest := 4.0 * y - q as real;
    (if rest < 0.5 || (rest == 0.5 && q % 2 == 0) then q else q + 1) as real / 4.0
  }

  /** Between these times the double-precision numbers are the quarters of a microsecond. */
  ghost predicate ToNearest(fl: Rounding) {
    forall y :: PRESENT as real <= y < FUTURE as real ==> fl(y) == Quarter(y)
  }

  /** There is such a rounding: one that leaves all other numbers alone. */
  lemma SomeRoundToNearest()
    ensures exists fl: Rounding :: ToNearest(fl)
  {
    hide Quarter;
    var fl := (y: real) => if PRESENT as real <= y < FUTURE as real then Quarter(y) else y;
    forall n ensures Fixes(fl, n) {
      QuarterFixes(n);
    }
    QuarterFixes(PRESENT);
    QuarterFixes(FUTURE);
    forall x, y | x <= y ensures fl(x) <= fl(y) {
      QuarterMonotone(x, y);
      QuarterMonotone(PRESENT as real, y);
      QuarterMonotone(x, FUTURE as real);
    }
    assert Rounds(fl);
    assert ToNearest(fl);
  }

  lemma QuarterFixes(n: int)
    ensures Quarter(n as real) == n as real
  {
    FloorIs(4.0 * n as real, 4 * n);
  }

  lemma QuarterMonotone(x: real, y: real)
    ensures x <= y ==> Quarter(x) <= Quarter(y)
  {
    if x <= y {
      FloorMonotone(4.0 * x, 4.0 * y, (4.0 * x).Floor, (4.0 * y).Floor);
    }
  }

  /** What a fraction of the interval comes to: nothing, or, from seven eighths on, one microsecond. */
  function PresentStep(micros: real): int {
    micros.Floor + if micros - micros.Floor as real >= 0.875 then 1 else 0
  }

  lemma QuarterAt(y: real, whole: int, part: int, rest: real)
    requires 4.0 * y == (4 * whole + part) as real + rest && 0 <= part <= 3 && 0.0 <= rest < 1.0
    ensures Quarter(y).Floor == whole + if part == 3 && rest >= 0.5 then 1 else 0
    ensures 0 <= whole ==> 0.0 <= Quarter(y)
  {
    FloorIs(4.0 * y, 4 * whole + part);
    Parity(whole, part);
    var q := if rest > 0.5 || (rest == 0.5 && part % 2 == 1) then part + 1 else part;
    assert Quarter(y) == (4 * whole + q) as real / 4.0;
    QuarterFloor(whole, q);
  }

  lemma Parity(whole: int, part: int)
    ensures (4 * whole + part) % 2 == part % 2
  {
    Remainder(4 * whole + part, 2 * whole + part / 2, part % 2);
  }

  lemma Remainder(n: int, half: int, rest: int)
    requires n == 2 * half + rest && 0 <= rest < 2
    ensures n % 2 == rest
  {
  }

  lemma QuarterFloor(whole: int, q: int)
    requires 0 <= q <= 4
    ensures ((4 * whole + q) as real / 4.0).Floor == if q == 4 then whole + 1 else whole
    ensures 0 <= whole ==> 0.0 <= (4 * whole + q) as real / 4.0
  {
    assert (4 * whole + q) as real / 4.0 == whole as real + q as real / 4.0;
    FloorIs((4 * whole + q) as real / 4.0, if q == 4 then whole + 1 else whole);
  }

  lemma QuarterOf(time: int, micros: real)
    ensures Quarter(time as real + micros).Floor == time + PresentStep(micros)
    ensures 0 <= time + micros.Floor ==> 0.0 <= Quarter(time as real + micros)
  {
    hide Quarter;
    var f := micros.Floor;
    var p := (4.0 * (micros - f as real)).Floor;
    QuarterAt(time as real + micros, time + f, p, 4.0 * (micros - f as real) - p as real);
  }

  lemma PresentLater(fl: Rounding, time: int, seconds: real)
    requires ToNearest(fl) && PRESENT <= time && 0.0 <= Micros(fl, seconds)
    requires time as real + Micros(fl, seconds) < FUTURE as real
    ensures Later(fl, time, seconds) == time + PresentStep(Micros(fl, seconds))
  {
    hide Quarter, PresentStep, Micros;
    assert Fixes(fl, time);
    QuarterOf(time, Micros(fl, seconds));
  }

  lemma StepBounds(micros: real, runs: nat)
    requires 0.0 <= micros && runs > 0
    ensures 0 <= PresentStep(micros) <= micros.Floor + 1 && micros < (micros.Floor + 1) as real
    ensures 0 <= (runs - 1) * PresentStep(micros) <= (runs - 1) * (micros.Floor + 1)
    ensures runs * (micros.Floor + 1) == (runs - 1) * (micros.Floor + 1) + micros.Floor + 1
    ensures runs * PresentStep(micros) == (runs - 1) * PresentStep(micros) + PresentStep(micros)
  {
  }

  /** With round-to-nearest, at the times of the present, a repeating timer drifts from whole multiples of
      its rounded-down interval by one microsecond a run if the fraction is seven eighths or more, and not
      at all otherwise. */
  lemma {:induction false} PresentDeadlines(fl: Rounding, when: int, interval: real, runs: nat)
    requires ToNearest(fl) && PRESENT <= when && 0.0 <= Micros(fl, interval)
    requires (when + runs * (Micros(fl, interval).Floor + 1)) < FUTURE
    ensures Deadline(fl, when, interval, runs) == when + runs * PresentStep(Micros(fl, interval))
  {
    hide Micros, Later, Quarter, PresentStep, ToNearest;
    if runs > 0 {
      var micros := Micros(fl, interval);
      StepBounds(micros, runs);
      PresentDeadlines(fl, when, interval, runs - 1);
      PresentLater(fl, when + (runs - 1) * PresentStep(micros), interval);
    }
  }

  /** So the rounded machine's deadlines are multiples of a fixed step exactly for that step. */
  lemma PresentExactIff(fl: Rounding, when: int, interval: real, n: int)
    requires ToNearest(fl) && PRESENT <= when && 0.0 <= Micros(fl, interval)
    requires when + Micros(fl, interval).Floor + 1 < FUTURE
    ensures (forall runs: nat :: when + runs * (Micros(fl, interval).Floor + 1) < FUTURE ==>
               Deadline(fl, when, interval, runs) == when + runs * n)
       <==> n == PresentStep(Micros(fl, interval))
  {
    hide Micros, Deadline, PresentStep, ToNearest;
    PresentDeadlines(fl, when, interval, 1);
    var once: nat := 1;
    assert once * (Micros(fl, interval).Floor + 1) == Micros(fl, interval).Floor + 1;
    assert Deadline(fl, when, interval, once) == when + once * PresentStep(Micros(fl, interval));
    assert once * n == n;
    forall runs: nat | when + runs * (Micros(fl, interval).Floor + 1) < FUTURE
      ensures Deadline(fl, when, interval, runs) == when + runs * PresentStep(Micros(fl, interval))
    {
      PresentDeadlines(fl, when, interval, runs);
    }
  }

  class Timer {
    const callback: nat  // which function it calls
    const address: nat   // where the object lies; the queue breaks ties by it
    const when: int      // the first expiration
    const interval: real
    const repeated: bool
    const rounding: Rounding  // of the machine's arithmetic
    var expiration: int
    ghost var runs: nat

    constructor (callback: nat, address: nat, when: int, interval: real, rounding: Rounding)
      ensures this.callback == callback && this.address == address
      ensures this.when == when && this.interval == interval && repeated == (interval > 0.0)
      ensures this.rounding == rounding
      ensures expiration == when && runs == 0
    {
      this.callback, this.address, this.when, this.interval := callback, address, when, interval;
      repeated, this.rounding := interval > 0.0, rounding;
      expiration, runs := when, 0;
    }

    /** The call itself; what the callback does to the queue is part of the queue's pass. */
    method Run()
      modifies `runs
      ensures runs == old(runs) + 1
    {
      runs := runs + 1;
    }

    method Restart(now: int)
      modifies `expiration
      ensures expiration == if repeated then Later(rounding, old(expiration), interval) else now
    {
      if repeated {
        expiration := Later(rounding, expiration, interval);
      } else {
        expiration := now;
      }
    }
  }
}

/** The ordered set the queue keeps its timers in. */
module TimerSets {
  import opened Timers

  datatype Entry = Entry(time: int, timer: Timer)

  /** A pointer as far as the order goes; Top is the bound no object lies at. */
  datatype Pointer = At(address: nat) | Top

  datatype Key = Key(time: int, pointer: Pointer)

  function KeyOf(e: Entry): Key {
    Key(e.time, At(e.timer.address))
  }

  predicate LessPointer(p: Pointer, q: Pointer) {
    p.At? && (q.Top? || p.address < q.address)
  }

  predicate Less(k: Key, l: Key) {
    k.time < l.time || (k.time == l.time && LessPointer(k.pointer, l.pointer))
  }

  ghost predicate Ordered(s: seq<Entry>) {
    forall i, j :: 0 <= i < j < |s| ==> Less(KeyOf(s[i]), KeyOf(s[j]))
  }

  function TimersOf(s: seq<Entry>): set<Timer> {
    set e | e in s :: e.timer
  }

  /** The first position whose key is not below `key`. */
  function LowerBound(s: seq<Entry>, key: Key): (k: nat)
    ensures k <= |s|
  {
    if s == [] || !Less(KeyOf(s[0]), key) then 0 else 1 + LowerBound(s[1..], key)
  }

  /** emplace: an entry whose key is there already is not added. */
  function Emplace(s: seq<Entry>, e: Entry): seq<Entry> {
    var k := LowerBound(s, KeyOf(e));
    if k < |s| && KeyOf(s[k]) == KeyOf(e) then s else s[..k] + [e] + s[k..]
  }

  lemma {:induction false} LowerBoundSplits(s: seq<Entry>, key: Key)
    requires Ordered(s)
    ensures var k := LowerBound(s, key);
      && (forall i :: 0 <= i < k ==> Less(KeyOf(s[i]), key))
      && (forall i :: k <= i < |s| ==> !Less(KeyOf(s[i]), key))
  {
    if s != [] {
      if Less(KeyOf(s[0]), key) {
        LowerBoundSplits(s[1..], key);
      } else {
        forall i | 0 <= i < |s| ensures !Less(KeyOf(s[i]), key) {
          assert i == 0 || Less(KeyOf(s[0]), KeyOf(s[i]));
        }
      }
    }
  }

  /** The bound (now, Top) splits the set into what is due, ties included, and what is not. */
  lemma {:induction false} DueSplits(s: seq<Entry>, now: int)
    requires Ordered(s)
    ensures var k := LowerBound(s, Key(now, Top));
      && (forall i :: 0 <= i < k ==> s[i].time <= now)
      && (forall i :: k <= i < |s| ==> s[i].time > now)
      && (k == 0 <==> s == [] || s[0].time > now)
  {
    LowerBoundSplits(s, Key(now, Top));
    var k := LowerBound(s, Key(now, Top));
    forall i | k <= i < |s| ensures s[i].time > now {
      assert !Less(KeyOf(s[i]), Key(now, Top));
    }
    assert forall i :: 0 <= i < k ==> Less(KeyOf(s[i]), Key(now, Top));
  }

  lemma InsertionOrdered(s: seq<Entry>, e: Entry, k: nat)
    requires Ordered(s) && k <= |s|
    requires forall i :: 0 <= i < k ==> Less(KeyOf(s[i]), KeyOf(e))
    requires forall i :: k <= i < |s| ==> Less(KeyOf(e), KeyOf(s[i]))
    ensures Ordered(s[..k] + [e] + s[k..])
  {
    hide KeyOf, Less;
    var r := s[..k] + [e] + s[k..];
    forall i, j | 0 <= i < j < |r| ensures Less(KeyOf(r[i]), KeyOf(r[j])) {
      assert r[i] == if i < k then s[i] else if i == k then e else s[i - 1];
      assert r[j] == if j < k then s[j] else if j == k then e else s[j - 1];
    }
  }

  lemma InsertionTimers(s: seq<Entry>, e: Entry, k: nat)
    requires k <= |s|
    ensures TimersOf(s[..k] + [e] + s[k..]) == TimersOf(s) + {e.timer}
  {
    var r := s[..k] + [e] + s[k..];
    forall x ensures x in r <==> x in s || x == e {
      assert x in r <==> x in s[..k] || x == e || x in s[k..];
      assert s == s[..k] + s[k..];
    }
  }

  lemma EmplaceMembers(s: seq<Entry>, e: Entry)
    requires Ordered(s)
    requires forall t :: t in TimersOf(s) ==> t.address != e.timer.address
    ensures forall x :: x in Emplace(s, e) <==> x in s || x == e
  {
    EmplaceAdds(s, e);
    var k := LowerBound(s, KeyOf(e));
    assert s == s[..k] + s[k..];
  }

  /** A timer at an address of its own is added, in order. */
  lemma EmplaceAdds(s: seq<Entry>, e: Entry)
    requires Ordered(s)
    requires forall t :: t in TimersOf(s) ==> t.address != e.timer.address
    ensures var k := LowerBound(s, KeyOf(e)); Emplace(s, e) == s[..k] + [e] + s[k..]
    ensures Ordered(Emplace(s, e))
    ensures TimersOf(Emplace(s, e)) == TimersOf(s) + {e.timer}
    ensures Emplace(s, e)[0].time == if s == [] || e.time < s[0].time then e.time else s[0].time
  {
    var k := LowerBound(s, KeyOf(e));
    LowerBoundSplits(s, KeyOf(e));
    forall i | k <= i < |s| ensures Less(KeyOf(e), KeyOf(s[i])) {
      assert s[i].timer in TimersOf(s);
      assert !Less(KeyOf(s[i]), KeyOf(e));
    }
    InsertionOrdered(s, e, k);
    InsertionTimers(s, e, k);
    if s != [] {
      assert k > 0 ==> Less(KeyOf(s[0]), KeyOf(e));
      assert k == 0 ==> !Less(KeyOf(s[0]), KeyOf(e));
    }
  }

  lemma SplitTimers(s: seq<Entry>, k: nat)
    requires k <= |s|
    ensures TimersOf(s) == TimersOf(s[..k]) + TimersOf(s[k..])
  {
    assert s == s[..k] + s[k..];
    forall x ensures x in s <==> x in s[..k] || x in s[k..] {
      assert x in s[..k] + s[k..] <==> x in s[..k] || x in s[k..];
    }
  }
}

module TimerQueues {
  import opened Timers
  import opened TimerSets

  const LEAST_DELAY := 100

  /** What a callback asks of the queue: addTimer's arguments. */
  datatype Request = Request(callback: nat, when: int, interval: real)

  /** The timerfd: when it fires and when it was set. */
  datatype Timerfd = Disarmed | Armed(deadline: int, at: int)

  datatype Timespec = Timespec(sec: int, nsec: int)

  function Max(x: int, y: int): (m: int)
    ensures x <= m && y <= m && m in {x, y}
  {
    if x < y then y else x
  }

  /** The delay as the seconds and nanoseconds timerfd_settime wants. */
  function ToTimespec(delta: int): (ts: Timespec)
    requires 0 < delta
    ensures 0 <= ts.sec && 0 <= ts.nsec < 1_000_000_000
    ensures ts.sec * 1_000_000_000 + ts.nsec == delta * 1000 != 0
  {
    Timespec(delta / MICROSECONDS_PER_SECOND, delta % MICROSECONDS_PER_SECOND * 1000)
  }

  function RequestOf(t: Timer): Request {
    Request(t.callback, t.when, t.interval)
  }

  function RequestsOf(ts: seq<Timer>): seq<Request> {
    seq(|ts|, i requires 0 <= i < |ts| => RequestOf(ts[i]))
  }

  function SetOf(ts: seq<Timer>): set<Timer> {
    set t | t in ts
  }

  function TimerSeq(s: seq<Entry>): seq<Timer> {
    seq(|s|, i requires 0 <= i < |s| => s[i].timer)
  }

  /** Everything the callbacks of `run` ask for, in order. */
  function Asked(script: nat -> seq<Request>, run: seq<Entry>): seq<Request> {
    if run == [] then []
    else Asked(script, run[..|run| - 1]) + script(run[|run| - 1].timer.callback)
  }

  lemma NothingAsked(script: nat -> seq<Request>)
    ensures Asked(script, []) == []
  {
  }

  lemma AskedStep(script: nat -> seq<Request>, run: seq<Entry>, i: nat)
    requires i < |run|
    ensures Asked(script, run[..i + 1]) == Asked(script, run[..i]) + script(run[i].timer.callback)
  {
    assert run[..i + 1][..i] == run[..i];
  }

  ghost function OneShots(s: seq<Entry>): set<Timer> {
    set e | e in s && !e.timer.repeated :: e.timer
  }

  lemma Unused(used: set<nat>) returns (a: nat)
    ensures forall b :: b in used ==> b < a
  {
    if used == {} {
      a := 0;
    } else {
      var b: nat :| b in used;
      var c := Unused(used - {b});
      a := if b < c then c else b + 1;
      assert used == used - {b} + {b};
    }
  }

  /** Memory for a new timer is anywhere no live timer lies. */
  method Allocate(used: set<nat>) returns (a: nat)
    ensures a !in used
  {
    ghost var b := Unused(used);
    assert b !in used;
    a :| a !in used;
  }

  // ----- where the timers are -----

  /** Every timer ever added is in exactly one place: the set, the entries `taken` from it, or freed;
      and no two live timers lie at one address. */
  ghost predicate Placed(history: seq<Timer>, timers: seq<Entry>, taken: seq<Entry>, freed: set<Timer>) {
    && SetOf(history) == TimersOf(timers) + TimersOf(taken) + freed
    && TimersOf(timers) !! TimersOf(taken)
    && TimersOf(timers) !! freed
    && TimersOf(taken) !! freed
    && (forall i, j :: 0 <= i < j < |taken| ==> taken[i].timer != taken[j].timer)
    && (forall i, j :: 0 <= i < j < |history| ==> history[i] != history[j])
    && AddressesDiffer(TimersOf(timers) + TimersOf(taken))
  }

  ghost predicate AddressesDiffer(live: set<Timer>) {
    forall t, u :: t in live && u in live && t != u ==> t.address != u.address
  }

  lemma PlacedAdded(history: seq<Timer>, timers: seq<Entry>, taken: seq<Entry>, freed: set<Timer>, e: Entry)
    requires Ordered(timers) && Placed(history, timers, taken, freed)
    requires e.timer !in history
    requires forall t :: t in TimersOf(timers) + TimersOf(taken) ==> t.address != e.timer.address
    ensures Placed(history + [e.timer], Emplace(timers, e), taken, freed)
  {
    hide Emplace;
    EmplaceAdds(timers, e);
  }

  /** The entries up to the k-th leave the set for the pass. */
  lemma PlacedTaken(history: seq<Timer>, timers: seq<Entry>, freed: set<Timer>, k: nat)
    requires k <= |timers| && Placed(history, timers, [], freed)
    requires forall i, j :: 0 <= i < j < |timers| ==> timers[i].timer != timers[j].timer
    ensures Placed(history, timers[k..], timers[..k], freed)
  {
    SplitTimers(timers, k);
  }

  lemma PlacedRearmed(history: seq<Timer>, timers: seq<Entry>, taken: seq<Entry>, freed: set<Timer>, e: Entry)
    requires taken != [] && e.timer == taken[0].timer
    requires Ordered(timers) && Placed(history, timers, taken, freed)
    ensures forall t :: t in TimersOf(timers) ==> t.address != e.timer.address
    ensures Placed(history, Emplace(timers, e), taken[1..], freed)
  {
    hide Emplace;
    SplitTimers(taken, 1);
    assert TimersOf(taken[..1]) == {e.timer};
    assert e.timer !in TimersOf(taken[1..]);
    assert e.timer in TimersOf(timers) + TimersOf(taken);
    EmplaceAdds(timers, e);
  }

  lemma PlacedFreed(history: seq<Timer>, timers: seq<Entry>, taken: seq<Entry>, freed: set<Timer>)
    requires taken != [] && Placed(history, timers, taken, freed)
    ensures taken[0].timer !in freed
    ensures Placed(history, timers, taken[1..], freed + {taken[0].timer})
  {
    SplitTimers(taken, 1);
    assert TimersOf(taken[..1]) == {taken[0].timer};
    assert taken[0].timer !in TimersOf(taken[1..]);
    assert taken[0].timer in TimersOf(taken);
  }

  // ----- what is true of a timer, by where it is -----

  /** In the set, or taken from it and not yet run. */
  ghost predicate Ready(e: Entry)
    reads e.timer
  {
    && e.time == e.timer.expiration == Deadline(e.timer.rounding, e.timer.when, e.timer.interval, e.timer.runs)
    && (!e.timer.repeated ==> e.timer.runs == 0)
  }

  /** Taken from the set and run, but not yet re-armed or freed. */
  ghost predicate Fired(e: Entry)
    reads e.timer
  {
    && e.timer.runs > 0
    && e.time == e.timer.expiration == Deadline(e.timer.rounding, e.timer.when, e.timer.interval, e.timer.runs - 1)
    && (!e.timer.repeated ==> e.timer.runs == 1)
  }

  ghost predicate Spent(t: Timer)
    reads t
  {
    !t.repeated && t.runs == 1
  }

  class TimerQueue {
    var timers: seq<Entry>  // a std::set: kept in the order of the keys
    var callingExpiredTimers: bool
    var armed: Timerfd
    const rounding: Rounding
    ghost var history: seq<Timer>  // every timer ever added, in order
    ghost var freed: set<Timer>
    ghost var log: seq<Timer>      // every run, in order

    /** The queue in the middle of a pass: the first `fired` of the taken timers have run. */
    ghost predicate Inv(taken: seq<Entry>, fired: nat)
      reads `timers, `history, `freed, history
    {
      && Ordered(timers) && Placed(history, timers, taken, freed)
      && (forall e :: e in timers ==> e.timer in history && Ready(e))
      && (forall i :: 0 <= i < |taken| ==> taken[i].timer in history)
      && (forall i :: 0 <= i < |taken| && i < fired ==> Fired(taken[i]))
      && (forall i :: fired <= i < |taken| ==> Ready(taken[i]))
      && (forall t :: t in freed ==> t in history && Spent(t))
    }

    ghost predicate Valid()
      reads this, history
    {
      Inv([], 0) && !callingExpiredTimers
    }

    /** The timerfd fires for the earliest timer, but not sooner than the least delay after it was set. */
    ghost predicate ArmedForEarliest()
      reads `timers, `armed
    {
      timers != [] ==> armed.Armed? && armed.deadline == Max(timers[0].time, armed.at + LEAST_DELAY)
    }

    constructor (rounding: Rounding)
      ensures Valid() && ArmedForEarliest() && this.rounding == rounding
      ensures timers == [] && armed == Disarmed && history == [] && freed == {} && log == []
    {
      timers, callingExpiredTimers, armed := [], false, Disarmed;
      this.rounding := rounding;
      history, freed, log := [], {}, [];
    }

    method ResetTimerFd(expiration: int, clock: int)
      modifies `armed
      ensures armed == Armed(Max(expiration, clock + LEAST_DELAY), clock)
    {
      var delta := expiration - clock;
      if delta < LEAST_DELAY {
        delta := LEAST_DELAY;
      }
      var ts := ToTimespec(delta);
      armed := Armed(clock + ts.sec * MICROSECONDS_PER_SECOND + ts.nsec / 1000, clock);
    }

    method Insert(timer: Timer) returns (earliestChanged: bool)
      requires Ordered(timers)
      requires forall t :: t in TimersOf(timers) ==> t.address != timer.address
      modifies `timers
      ensures timers == Emplace(old(timers), Entry(timer.expiration, timer))
      ensures Ordered(timers) && TimersOf(timers) == old(TimersOf(timers)) + {timer} && timers != []
      ensures forall e :: e in timers <==> e in old(timers) || e == Entry(timer.expiration, timer)
      ensures earliestChanged == (old(timers) == [] || timer.expiration < old(timers)[0].time)
      ensures timers[0].time == if earliestChanged then timer.expiration else old(timers)[0].time
    {
      var e := Entry(timer.expiration, timer);
      earliestChanged := timers == [] || timer.expiration < timers[0].time;
      EmplaceAdds(timers, e);
      EmplaceMembers(timers, e);
      timers := Emplace(timers, e);
    }

    method AddTimerInLoop(timer: Timer, clock: int)
      requires Ordered(timers)
      requires forall t :: t in TimersOf(timers) ==> t.address != timer.address
      modifies `timers, `armed
      ensures timers == Emplace(old(timers), Entry(timer.expiration, timer))
      ensures Ordered(timers) && TimersOf(timers) == old(TimersOf(timers)) + {timer} && timers != []
      ensures forall e :: e in timers <==> e in old(timers) || e == Entry(timer.expiration, timer)
      ensures armed == if old(timers) == [] || timer.expiration < old(timers)[0].time
                       then Armed(Max(timer.expiration, clock + LEAST_DELAY), clock) else old(armed)
      ensures old(ArmedForEarliest()) ==> ArmedForEarliest()
    {
      var earliestChanged := Insert(timer);
      if earliestChanged {
        ResetTimerFd(timer.expiration, clock);
      }
    }

    /** addTimer on the loop's thread. */
    method AddTimer(request: Request, address: nat, clock: int, ghost taken: seq<Entry>, ghost fired: nat)
      requires Inv(taken, fired)
      requires forall t :: t in TimersOf(timers) + TimersOf(taken) ==> t.address != address
      modifies `timers, `armed, `history
      ensures Inv(taken, fired)
      ensures |history| == |old(history)| + 1 && history[..|old(history)|] == old(history)
      ensures RequestOf(history[|old(history)|]) == request && history[|old(history)|].address == address
      ensures timers == Emplace(old(timers), Entry(request.when, history[|old(history)|]))
      ensures armed == if old(timers) == [] || request.when < old(timers)[0].time
                       then Armed(Max(request.when, clock + LEAST_DELAY), clock) else old(armed)
      ensures old(ArmedForEarliest()) ==> ArmedForEarliest()
    {
      hide Placed, Emplace, Ordered, TimersOf, ArmedForEarliest;
      var timer := new Timer(request.callback, address, request.when, request.interval, rounding);
      ghost var e := Entry(timer.expiration, timer);
      PlacedAdded(history, timers, taken, freed, e);
      AddTimerInLoop(timer, clock);
      history := history + [timer];
      assert Ready(e);
    }

    /** Takes what is due: everything up to and including `upperbound`, in order. */
    method GetExpired(upperbound: int) returns (expired: seq<Entry>)
      requires Inv([], 0)
      modifies `timers
      ensures Inv(expired, 0)
      ensures |expired| <= |old(timers)|
      ensures expired == old(timers)[..|expired|] && timers == old(timers)[|expired|..]
      ensures forall i :: 0 <= i < |old(timers)| ==> (old(timers)[i].time <= upperbound <==> i < |expired|)
    {
      hide Placed, LowerBound, Less, KeyOf, Ready, Fired, Spent;
      var k := LowerBound(timers, Key(upperbound, Top));
      DueSplits(timers, upperbound);
      DistinctTimers();
      PlacedTaken(history, timers, freed, k);
      expired := timers[..k];
      timers := timers[k..];
    }

    lemma DistinctTimers()
      requires Inv([], 0)
      ensures forall i, j :: 0 <= i < j < |timers| ==> timers[i].timer != timers[j].timer
    {
      forall i, j | 0 <= i < j < |timers| ensures timers[i].timer != timers[j].timer {
        assert timers[i] in timers && timers[j] in timers;
        assert Less(KeyOf(timers[i]), KeyOf(timers[j]));
      }
    }

    /** What a callback does to the queue: it adds the timers it asks for. */
    method AddAsked(asked: seq<Request>, expired: seq<Entry>, ghost fired: nat)
      requires Inv(expired, fired)
      modifies `timers, `armed, `history
      ensures Inv(expired, fired)
      ensures |old(history)| <= |history| && history[..|old(history)|] == old(history)
      ensures RequestsOf(history) == old(RequestsOf(history)) + asked
    {
      hide Inv, TimersOf, ArmedForEarliest, Emplace, RequestOf;
      var k := 0;
      while k < |asked|
        invariant 0 <= k <= |asked|
        invariant Inv(expired, fired)
        invariant |old(history)| <= |history| && history[..|old(history)|] == old(history)
        invariant RequestsOf(history) == old(RequestsOf(history)) + asked[..k]
      {
        var clock: int := *;
        var address := Allocate(set t | t in TimersOf(timers) + TimersOf(expired) :: t.address);
        ghost var before := history;
        AddTimer(asked[k], address, clock, expired, fired);
        assert history == before + [history[|before|]];
        assert RequestsOf(history) == RequestsOf(before) + [asked[k]];
        assert asked[..k + 1] == asked[..k] + [asked[k]];
        k := k + 1;
      }
      assert asked[..k] == asked;
    }

    /** Runs the i-th taken timer; its callback adds the timers it asks for. */
    method RunTimer(expired: seq<Entry>, i: nat, script: nat -> seq<Request>)
      requires i < |expired| && Inv(expired, i)
      modifies `timers, `armed, `history, `log, expired[i].timer`runs
      ensures Inv(expired, i + 1)
      ensures expired[i].timer.runs == old(expired[i].timer.runs) + 1
      ensures log == old(log) + [expired[i].timer]
      ensures |old(history)| <= |history| && history[..|old(history)|] == old(history)
      ensures RequestsOf(history) == old(RequestsOf(history)) + script(expired[i].timer.callback)
    {
      hide Placed, Ordered, Spent, Deadline, TimersOf, SetOf, RequestsOf;
      var timer := expired[i].timer;
      OnlyTaken(expired, i, i);
      timer.Run();
      log := log + [timer];
      AddAsked(script(timer.callback), expired, i + 1);
    }

    /** A taken timer is in no other entry of the set or of the taken ones, and not freed. */
    lemma OnlyTaken(expired: seq<Entry>, fired: nat, i: nat)
      requires i < |expired| && Inv(expired, fired)
      ensures forall e :: e in timers ==> e.timer != expired[i].timer
      ensures forall j :: 0 <= j < |expired| && j != i ==> expired[j].timer != expired[i].timer
      ensures expired[i].timer !in freed
    {
      assert expired[i].timer in TimersOf(expired);
    }

    /** The loop of handleRead over the expired timers. */
    method RunExpired(expired: seq<Entry>, script: nat -> seq<Request>)
      requires Inv(expired, 0)
      modifies `timers, `armed, `history, `log, TimersOf(expired)`runs
      ensures Inv(expired, |expired|)
      ensures forall i :: 0 <= i < |expired| ==> expired[i].timer.runs == old(expired[i].timer.runs) + 1
      ensures expired == [] ==> timers == old(timers) && armed == old(armed)
      ensures log == old(log) + TimerSeq(expired)
      ensures |old(history)| <= |history| && history[..|old(history)|] == old(history)
      ensures RequestsOf(history) == old(RequestsOf(history)) + Asked(script, expired)
    {
      hide Inv, RequestsOf, Asked;
      var i := 0;
      assert expired[..0] == [];
      NothingAsked(script);
      while i < |expired|
        invariant 0 <= i <= |expired|
        invariant Inv(expired, i)
        invariant forall j :: 0 <= j < |expired| ==>
                    expired[j].timer.runs == old(expired[j].timer.runs) + if j < i then 1 else 0
        invariant i == 0 ==> timers == old(timers) && armed == old(armed)
        invariant log == old(log) + TimerSeq(expired[..i])
        invariant |old(history)| <= |history| && history[..|old(history)|] == old(history)
        invariant RequestsOf(history) == old(RequestsOf(history)) + Asked(script, expired[..i])
      {
        OnlyTaken(expired, i, i);
        AskedStep(script, expired, i);
        assert expired[..i + 1] == expired[..i] + [expired[i]];
        RunTimer(expired, i, script);
        i := i + 1;
      }
      assert expired[..i] == expired;
    }

    /** reset's loop body: a repeating timer goes back, re-armed; any other is freed; and the timerfd is set. */
    method ResetOne(taken: seq<Entry>, now: int)
      requires taken != [] && Inv(taken, |taken|)
      modifies `timers, `armed, `freed, taken[0].timer`expiration
      ensures Inv(taken[1..], |taken| - 1)
      ensures ArmedForEarliest()
      ensures freed == old(freed) + if taken[0].timer.repeated then {} else {taken[0].timer}
    {
      hide Placed, Emplace, Ordered, TimersOf, Less, Later;
      var timer := taken[0].timer;
      OnlyTaken(taken, |taken|, 0);
      if timer.repeated {
        timer.Restart(now);
        PlacedRearmed(history, timers, taken, freed, Entry(timer.expiration, timer));
        var earliestChanged := Insert(timer);
      } else {
        PlacedFreed(history, timers, taken, freed);
        freed := freed + {timer};
      }
      if timers != [] {
        var clock: int := *;
        assert timers[0] in timers;
        ResetTimerFd(timers[0].timer.expiration, clock);
      }
    }

    method Reset(expired: seq<Entry>, now: int)
      requires Inv(expired, |expired|)
      modifies `timers, `armed, `freed, TimersOf(expired)`expiration
      ensures Inv([], 0)
      ensures expired != [] ==> ArmedForEarliest()
      ensures expired == [] ==> timers == old(timers) && armed == old(armed)
      ensures freed == old(freed) + OneShots(expired)
    {
      hide Placed, Ordered, Ready, Fired, Spent, ArmedForEarliest;
      var i := 0;
      while i < |expired|
        invariant 0 <= i <= |expired|
        invariant Inv(expired[i..], |expired| - i)
        invariant i > 0 ==> ArmedForEarliest()
        invariant i == 0 ==> timers == old(timers) && armed == old(armed)
        invariant freed == old(freed) + OneShots(expired[..i])
        invariant forall j :: 0 <= j < |expired| ==> expired[j].timer in history
      {
        assert expired[i..][1..] == expired[i + 1..];
        assert expired[..i + 1] == expired[..i] + [expired[i]];
        ResetOne(expired[i..], now);
        i := i + 1;
      }
      assert expired[..i] == expired && expired[i..] == [];
    }

    /** The timerfd has fired. */
    method HandleRead(now: int, script: nat -> seq<Request>) returns (ghost due: seq<Entry>)
      requires Valid()
      modifies `timers, `armed, `history, `log, `freed, `callingExpiredTimers
      modifies TimersOf(timers)`runs, TimersOf(timers)`expiration
      ensures Valid()
      ensures |due| <= |old(timers)| && due == old(timers)[..|due|]
      ensures forall i :: 0 <= i < |old(timers)| ==> (old(timers)[i].time <= now <==> i < |due|)
      ensures log == old(log) + TimerSeq(due)
      ensures forall i :: 0 <= i < |old(timers)| ==>
                old(timers)[i].timer.runs == old(timers[i].timer.runs) + if i < |due| then 1 else 0
      ensures freed == old(freed) + OneShots(due)
      ensures |old(history)| <= |history| && history[..|old(history)|] == old(history)
      ensures RequestsOf(history) == old(RequestsOf(history)) + Asked(script, due)
      ensures ArmedForEarliest() <==> timers == [] || (old(timers) != [] && old(timers)[0].time <= now)
      ensures old(ArmedForEarliest()) && old(timers) != [] && old(armed).deadline <= now ==> ArmedForEarliest()
    {
      hide Inv, Asked, RequestsOf, TimerSeq, OneShots;
      armed := Disarmed;
      DistinctTimers();
      var expired := GetExpired(now);
      due := expired;
      Serve(expired, now, script);
    }

    /** handleRead once the expired timers are known. */
    method Serve(expired: seq<Entry>, now: int, script: nat -> seq<Request>)
      requires Inv(expired, 0) && !callingExpiredTimers
      modifies `timers, `armed, `history, `log, `freed, `callingExpiredTimers
      modifies TimersOf(expired)`runs, TimersOf(expired)`expiration
      ensures Valid()
      ensures log == old(log) + TimerSeq(expired)
      ensures forall i :: 0 <= i < |expired| ==> expired[i].timer.runs == old(expired[i].timer.runs) + 1
      ensures freed == old(freed) + OneShots(expired)
      ensures |old(history)| <= |history| && history[..|old(history)|] == old(history)
      ensures RequestsOf(history) == old(RequestsOf(history)) + Asked(script, expired)
      ensures expired != [] ==> ArmedForEarliest()
      ensures expired == [] ==> timers == old(timers) && armed == old(armed)
    {
      hide Inv, Asked, RequestsOf, TimerSeq, OneShots, TimersOf;
      callingExpiredTimers := true;
      RunExpired(expired, script);
      callingExpiredTimers := false;
      Reset(expired, now);
    }
  }
}
