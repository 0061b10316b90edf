/** What each operation of the LFU cache does to frequencies, totals and arrival orders, in plain numbers,
    and what that makes of a key's frequency over a whole run. */
module LfuLaws {
  import opened Basics
  import opened LfuModel
  import opened LfuTheorems

  // ----- one counted access -----

  /** A frequency less half the maximum average, which is truncated toward zero, and at least 1. */
  function Lowered(freq: int, maxAvgFreq: int): int {
    var half := if maxAvgFreq >= 0 then maxAvgFreq / 2 else -(-maxAvgFreq / 2);
    if freq - half < 1 then 1 else freq - half
  }

  /** The new total puts the average over the maximum. */
  predicate Over<K, V>(cfg: Config, entries: map<K, Entry<V>>, total: int) {
    entries != map[] && total / |entries| > cfg.maxAvgFreq
  }

  /** The entries an access leaves: as they are, or all lowered if the average went over. */
  ghost function Settled<K, V>(cfg: Config, entries: map<K, Entry<V>>, total: int): map<K, Entry<V>> {
    if Over(cfg, entries, total) then
      map k | k in entries :: Entry(entries[k].value, Lowered(entries[k].freq, cfg.maxAvgFreq))
    else entries
  }

  lemma AgingLowers<K(!new), V>(cfg: Config, c: Cache<K, V>, visit: seq<K>)
    requires WellFormed(c) && IsVisit(visit, c.entries.Keys)
    ensures var r := IncreaseFreq(cfg, c, visit);
      && r.entries == Settled(cfg, c.entries, c.totalFreq + 1)
      && r.totalFreq == c.totalFreq + 1
      && WellFormed(r)
      && (c.entries != map[] ==> r.avgFreq == (c.totalFreq + 1) / |c.entries|)
      && (!Over(cfg, c.entries, c.totalFreq + 1) ==> r.lists == c.lists && r.minFreq == c.minFreq)
  {
    hide WellFormed, IsVisit, AgeEach, LeastFreq;
    var c1 := Average(c.(totalFreq := c.totalFreq + 1));
    SameForm(c, c1);
    if c1.avgFreq > cfg.maxAvgFreq && c1.entries != map[] {
      AgeAll(c1, visit, AgingStep(cfg.maxAvgFreq));
      AgeEachAverage(c1, visit, AgingStep(cfg.maxAvgFreq));
      SameForm(AgeEach(c1, visit, AgingStep(cfg.maxAvgFreq)), IncreaseFreq(cfg, c, visit));
    }
  }

  lemma AgeEachAverage<K(!new), V>(c: Cache<K, V>, visit: seq<K>, step: int)
    requires WellFormed(c) && IsVisit(visit, c.entries.Keys)
    ensures AgeEach(c, visit, step).avgFreq == c.avgFreq
  {
    AgeEachVisited(c, visit, step);
  }

  // ----- the order aging leaves -----

  /** The visited keys of frequency f, in the order of the visit. */
  ghost function Arrived<K, V>(visit: seq<K>, entries: map<K, Entry<V>>, f: int): seq<K> {
    if visit == [] then []
    else
      var k := visit[|visit| - 1];
      Arrived(visit[..|visit| - 1], entries, f) + if k in entries && entries[k].freq == f then [k] else []
  }

  /** The keys of s that have not been visited. */
  ghost function Waiting<K>(s: seq<K>, visited: seq<K>): seq<K> {
    if s == [] then [] else (if s[0] in visited then [] else [s[0]]) + Waiting(s[1..], visited)
  }

  lemma {:induction false} WaitingMembers<K>(s: seq<K>, visited: seq<K>)
    ensures forall k :: k in Waiting(s, visited) <==> k in s && k !in visited
    ensures visited == [] ==> Waiting(s, visited) == s
    ensures (forall k :: k in s ==> k in visited) ==> Waiting(s, visited) == []
  {
    if s != [] {
      WaitingMembers(s[1..], visited);
      assert s[0] in s && forall k :: k in s[1..] ==> k in s;
    }
  }

  lemma {:induction false} RemoveFromFirst<K>(a: seq<K>, b: seq<K>, k: K)
    requires k in a
    ensures RemoveKey(a + b, k) == RemoveKey(a, k) + b
  {
    assert (a + b)[1..] == a[1..] + b;
    if a[0] != k {
      RemoveFromFirst(a[1..], b, k);
    }
  }

  lemma {:induction false} VisitedLeaves<K>(s: seq<K>, visited: seq<K>, k: K)
    requires Distinct(s) && k !in visited
    ensures Waiting(s, visited + [k]) == if k in s then RemoveKey(Waiting(s, visited), k) else Waiting(s, visited)
  {
    if s != [] {
      VisitedLeaves(s[1..], visited, k);
      assert s == [s[0]] + s[1..];
      var rest := Waiting(s[1..], visited);
      assert ([s[0]] + rest)[1..] == rest && [] + rest == rest;
      assert s[0] in visited + [k] <==> s[0] in visited || s[0] == k;
      assert [s[0]] + RemoveKey(rest, k) == RemoveKey([s[0]] + rest, k) || s[0] == k;
    }
  }

  lemma {:induction false} ArrivedAre<K, V>(visit: seq<K>, entries: map<K, Entry<V>>, f: int)
    ensures forall k :: k in Arrived(visit, entries, f) ==> k in visit
  {
    if visit != [] {
      ArrivedAre(visit[..|visit| - 1], entries, f);
    }
  }

  /** The keys of each frequency stand in the order in which they were visited. */
  ghost predicate InVisitOrder<K, V>(c: Cache<K, V>, visit: seq<K>) {
    forall f :: ListAt(c, f) == Arrived(visit, c.entries, f)
  }

  ghost function AgedEntries<K, V>(c: Cache<K, V>, step: int): map<K, Entry<V>> {
    map k | k in c.entries :: AgedEntry(c.entries[k], step)
  }

  /** Where one more aging step puts a key: out of what waits, and behind what has arrived. */
  lemma MoveOnce<K(!new), V>(c: Cache<K, V>, r: Cache<K, V>, p: seq<K>, k: K, step: int, f: int)
    requires WellFormed(c) && k in c.entries && k !in p
    requires k in r.entries && r.entries[k].freq == c.entries[k].freq
    requires forall g :: ListAt(r, g) == Waiting(ListAt(c, g), p) + Arrived(p, AgedEntries(c, step), g)
    ensures ListAt(AgeOne(r, k, step), f)
         == Waiting(ListAt(c, f), p + [k]) + Arrived(p + [k], AgedEntries(c, step), f)
  {
    hide WellFormed, Waiting, Aged, ListAt, Distinct, Move, Arrived, RemoveKey;
    var g := c.entries[k].freq;
    var e := AgedEntries(c, step);
    ListedOnce(c, k, f);
    ArrivedNext(p, k, e, f);
    VisitedLeaves(ListAt(c, f), p, k);
    MoveLists(r, k, Aged(g, step), f);
    if f == g {
      WaitingMembers(ListAt(c, g), p);
      RemoveFromFirst(Waiting(ListAt(c, g), p), Arrived(p, e, g), k);
    }
    Reassociate(Waiting(ListAt(c, f), p + [k]), Arrived(p, e, f), if e[k].freq == f then [k] else []);
  }

  lemma ListedOnce<K(!new), V>(c: Cache<K, V>, k: K, f: int)
    requires WellFormed(c) && k in c.entries
    ensures Distinct(ListAt(c, f)) && (k in ListAt(c, f) <==> f == c.entries[k].freq)
  {
  }

  lemma ArrivedNext<K, V>(p: seq<K>, k: K, entries: map<K, Entry<V>>, f: int)
    requires k in entries
    ensures Arrived(p + [k], entries, f) == Arrived(p, entries, f) + if entries[k].freq == f then [k] else []
  {
    assert (p + [k])[..|p|] == p;
  }

  lemma Reassociate<K>(a: seq<K>, b: seq<K>, c: seq<K>)
    ensures a + b + c == a + (b + c)
  {
  }

  lemma MoveLists<K, V>(r: Cache<K, V>, k: K, to: int, f: int)
    requires k in r.entries
    ensures ListAt(Move(r, k, to), f)
         == (if f == r.entries[k].freq then RemoveKey(ListAt(r, f), k) else ListAt(r, f)) + if f == to then [k] else []
  {
  }

  lemma {:induction false} AgedSoFar<K(!new), V>(c: Cache<K, V>, p: seq<K>, step: int)
    requires WellFormed(c) && Distinct(p) && forall k :: k in p ==> k in c.entries
    ensures forall f :: ListAt(AgeEach(c, p, step), f) == Waiting(ListAt(c, f), p) + Arrived(p, AgedEntries(c, step), f)
  {
    hide WellFormed, AgeOne, AgedEntries, ListAt, Waiting;
    if p == [] {
      forall f ensures ListAt(AgeEach(c, p, step), f) == Waiting(ListAt(c, f), p) + Arrived(p, AgedEntries(c, step), f) {
        WaitingMembers(ListAt(c, f), p);
      }
    } else {
      var front, k := p[..|p| - 1], p[|p| - 1];
      assert front + [k] == p;
      AgedSoFar(c, front, step);
      AgeEachVisited(c, front, step);
      assert k !in front;
      forall f ensures ListAt(AgeEach(c, p, step), f) == Waiting(ListAt(c, f), p) + Arrived(p, AgedEntries(c, step), f) {
        MoveOnce(c, AgeEach(c, front, step), front, k, step, f);
      }
    }
  }

  /** After an aging pass the keys of each frequency stand in the order in which they were visited. */
  lemma AgedOrder<K(!new), V>(cfg: Config, c: Cache<K, V>, visit: seq<K>)
    requires WellFormed(c) && IsVisit(visit, c.entries.Keys) && Over(cfg, c.entries, c.totalFreq + 1)
    ensures InVisitOrder(IncreaseFreq(cfg, c, visit), visit)
  {
    hide WellFormed, AgeEach, LeastFreq, Waiting;
    var c1 := Average(c.(totalFreq := c.totalFreq + 1));
    SameForm(c, c1);
    var step := AgingStep(cfg.maxAvgFreq);
    AgeAll(c1, visit, step);
    AgedSoFar(c1, visit, step);
    var r := IncreaseFreq(cfg, c, visit);
    assert r.lists == AgeEach(c1, visit, step).lists && r.entries == AgedEntries(c1, step);
    forall f ensures ListAt(r, f) == Arrived(visit, r.entries, f) {
      ListedAreCached(c1, f);
      WaitingMembers(ListAt(c1, f), visit);
      assert ListAt(r, f) == ListAt(AgeEach(c1, visit, step), f);
    }
  }

  lemma ListedAreCached<K(!new), V>(c: Cache<K, V>, f: int)
    requires WellFormed(c)
    ensures forall k :: k in ListAt(c, f) ==> k in c.entries
  {
  }

  // ----- a hit -----

  /** The order of the key lists after a key was used with no aging: it is now the last of the next
      frequency, and everything else keeps its place. */
  ghost predicate MovedUp<K, V>(c: Cache<K, V>, k: K, r: Cache<K, V>)
    requires k in c.entries
  {
    var f := c.entries[k].freq;
    forall g :: ListAt(r, g) == if g == f then RemoveKey(ListAt(c, f), k)
                                else if g == f + 1 then ListAt(c, f + 1) + [k]
                                else ListAt(c, g)
  }

  lemma BumpMovesUp<K(!new), V>(c: Cache<K, V>, k: K)
    requires WellFormed(c) && k in c.entries
    ensures MovedUp(c, k, Bump(c, k)) && WellFormed(Bump(c, k))
    ensures Bump(c, k).entries == c.entries[k := Entry(c.entries[k].value, c.entries[k].freq + 1)]
    ensures Bump(c, k).totalFreq == c.totalFreq
  {
    hide WellFormed, RemoveKey;
    FreqsPositive(c);
    var f := c.entries[k].freq;
    MoveKeepsForm(c, k, f + 1);
    SameForm(Move(c, k, f + 1), Bump(c, k));
  }

  /** What a use of cached key `k` makes of the cache, with `v` as its value from now on. */
  ghost predicate Used<K(!new), V>(cfg: Config, c: Cache<K, V>, k: K, v: V, visit: seq<K>, r: Cache<K, V>)
    requires k in c.entries
  {
    && r.totalFreq == c.totalFreq + 1
    && r.entries == Settled(cfg, c.entries[k := Entry(v, c.entries[k].freq + 1)], c.totalFreq + 1)
    && r.avgFreq == (c.totalFreq + 1) / |c.entries|
    && (if Over(cfg, c.entries, c.totalFreq + 1) then InVisitOrder(r, visit) else MovedUp(c, k, r))
  }

  lemma SameSize<K, V>(m: map<K, V>, k: K, v: V)
    requires k in m
    ensures |m[k := v]| == |m| && m != map[]
  {
    assert m[k := v].Keys == m.Keys;
  }

  lemma UseCounts<K(!new), V>(cfg: Config, c: Cache<K, V>, k: K, visit: seq<K>)
    requires WellFormed(c) && k in c.entries && IsVisit(visit, c.entries.Keys)
    ensures Used(cfg, c, k, c.entries[k].value, visit, IncreaseFreq(cfg, Bump(c, k), visit))
    ensures WellFormed(IncreaseFreq(cfg, Bump(c, k), visit))
  {
    hide WellFormed, IsVisit, IncreaseFreq, Bump, InVisitOrder, MovedUp;
    BumpMovesUp(c, k);
    SameSize(c.entries, k, Entry(c.entries[k].value, c.entries[k].freq + 1));
    assert Bump(c, k).entries.Keys == c.entries.Keys;
    AgingLowers(cfg, Bump(c, k), visit);
    if Over(cfg, c.entries, c.totalFreq + 1) {
      AgedOrder(cfg, Bump(c, k), visit);
    } else {
      SameListsSameMove(c, k, Bump(c, k), IncreaseFreq(cfg, Bump(c, k), visit));
    }
  }

  lemma SameListsSameMove<K, V>(c: Cache<K, V>, k: K, a: Cache<K, V>, b: Cache<K, V>)
    requires k in c.entries && MovedUp(c, k, a) && a.lists == b.lists
    ensures MovedUp(c, k, b)
  {
    assert forall g :: ListAt(b, g) == ListAt(a, g);
  }

  /** A hit counts as one use. */
  lemma GetCounts<K(!new), V>(cfg: Config, c: Cache<K, V>, k: K, visit: seq<K>)
    requires WellFormed(c) && k in c.entries && IsVisit(visit, c.entries.Keys)
    ensures Used(cfg, c, k, c.entries[k].value, visit, Get(cfg, c, k, visit)) && WellFormed(Get(cfg, c, k, visit))
  {
    hide WellFormed, IsVisit, IncreaseFreq, Bump, Used;
    UseCounts(cfg, c, k, visit);
  }

  /** A put of a cached key counts as one use, and sets the value. */
  lemma PutCounts<K(!new), V>(cfg: Config, c: Cache<K, V>, k: K, v: V, visit: seq<K>)
    requires cfg.capacity != 0 && WellFormed(c) && k in c.entries && IsVisit(visit, c.entries.Keys)
    ensures Used(cfg, c, k, v, visit, Put(cfg, c, k, v, visit)) && WellFormed(Put(cfg, c, k, v, visit))
  {
    hide WellFormed, IsVisit, IncreaseFreq, Bump, Settled, RemoveKey;
    OverwriteKeepsForm(c, k, v);
    var c1 := Overwrite(c, k, v);
    SameSize(c.entries, k, c1.entries[k]);
    assert c1.entries.Keys == c.entries.Keys;
    UseCounts(cfg, c1, k, visit);
    assert c1.entries[k := Entry(v, c.entries[k].freq + 1)] == c.entries[k := Entry(v, c.entries[k].freq + 1)];
    assert forall g :: ListAt(c1, g) == ListAt(c, g);
  }

  /** The entries and the total without the one key a put of a new key into a full cache evicts. */
  ghost function Rest<K, V>(cfg: Config, c: Cache<K, V>): map<K, Entry<V>>
    requires |c.entries| == cfg.capacity ==> HasVictim(c)
  {
    if |c.entries| == cfg.capacity then c.entries - {ListAt(c, c.minFreq)[0]} else c.entries
  }

  ghost function RestTotal<K, V>(cfg: Config, c: Cache<K, V>): int
    requires |c.entries| == cfg.capacity ==> HasVictim(c)
  {
    if |c.entries| == cfg.capacity then c.totalFreq - c.entries[ListAt(c, c.minFreq)[0]].freq else c.totalFreq
  }

  /** The key lists without the evicted key, which is the first of the smallest frequency. */
  ghost function RestAt<K, V>(cfg: Config, c: Cache<K, V>, f: int): seq<K>
    requires |c.entries| == cfg.capacity ==> HasVictim(c)
  {
    if |c.entries| == cfg.capacity && f == c.minFreq then ListAt(c, f)[1..] else ListAt(c, f)
  }

  ghost predicate Appended<K, V>(cfg: Config, c: Cache<K, V>, k: K, r: Cache<K, V>)
    requires |c.entries| == cfg.capacity ==> HasVictim(c)
  {
    forall f :: ListAt(r, f) == RestAt(cfg, c, f) + if f == 1 then [k] else []
  }

  /** A put of a new key brings it in with frequency 1, as the last of that frequency; the frequency of an
      evicted key comes off the total. */
  lemma PutInserts<K(!new), V>(cfg: Config, c: Cache<K, V>, k: K, v: V, visit: seq<K>)
    requires cfg.capacity != 0 && WellFormed(c) && k !in c.entries && CanPut(cfg, c, k)
    requires IsVisit(visit, Put(cfg, c, k, v, visit).entries.Keys)
    ensures var r := Put(cfg, c, k, v, visit);
      var base := Rest(cfg, c)[k := Entry(v, 1)];
      var total := RestTotal(cfg, c) + 1;
      && WellFormed(r)
      && r.entries == Settled(cfg, base, total) && r.totalFreq == total && r.avgFreq == total / |base|
      && if Over(cfg, base, total) then InVisitOrder(r, visit) else Appended(cfg, c, k, r)
  {
    hide WellFormed, IsVisit, IncreaseFreq, Settled, Over, KickOut, Insert, LowerMinFreq;
    hide Rest, RestTotal, Appended, InVisitOrder;
    var c1 := if |c.entries| == cfg.capacity then KickOut(c) else c;
    var i := Insert(c1, k, v);
    Entered(cfg, c, k, v);
    KeysAfterPut(cfg, c, k, v, visit);
    EnteredCounts(cfg, i, visit);
    if !Over(cfg, i.entries, i.totalFreq + 1) {
      SameAppended(cfg, c, k, i, LowerMinFreq(IncreaseFreq(cfg, i, visit)));
    }
  }

  lemma EnteredCounts<K(!new), V>(cfg: Config, c: Cache<K, V>, visit: seq<K>)
    requires WellFormed(c) && c.entries != map[] && IsVisit(visit, c.entries.Keys)
    ensures var r := LowerMinFreq(IncreaseFreq(cfg, c, visit));
      var total := c.totalFreq + 1;
      && WellFormed(r)
      && r.entries == Settled(cfg, c.entries, total) && r.totalFreq == total && r.avgFreq == total / |c.entries|
      && if Over(cfg, c.entries, total) then InVisitOrder(r, visit) else r.lists == c.lists
  {
    hide WellFormed, IsVisit, IncreaseFreq, Settled, Over, InVisitOrder;
    AgingLowers(cfg, c, visit);
    var i := IncreaseFreq(cfg, c, visit);
    SameForm(i, LowerMinFreq(i));
    if Over(cfg, c.entries, c.totalFreq + 1) {
      AgedOrder(cfg, c, visit);
      SameOrder(i, LowerMinFreq(i), visit);
    }
  }

  lemma SameOrder<K, V>(a: Cache<K, V>, b: Cache<K, V>, visit: seq<K>)
    requires InVisitOrder(a, visit) && a.lists == b.lists && a.entries == b.entries
    ensures InVisitOrder(b, visit)
  {
    assert forall f :: ListAt(b, f) == ListAt(a, f);
  }

  lemma SameAppended<K, V>(cfg: Config, c: Cache<K, V>, k: K, a: Cache<K, V>, b: Cache<K, V>)
    requires |c.entries| == cfg.capacity ==> HasVictim(c)
    requires Appended(cfg, c, k, a) && a.lists == b.lists
    ensures Appended(cfg, c, k, b)
  {
    assert forall f :: ListAt(b, f) == ListAt(a, f);
  }

  lemma Entered<K(!new), V>(cfg: Config, c: Cache<K, V>, k: K, v: V)
    requires WellFormed(c) && k !in c.entries && (|c.entries| == cfg.capacity ==> HasVictim(c))
    ensures var c1 := if |c.entries| == cfg.capacity then KickOut(c) else c;
      var r := Insert(c1, k, v);
      && WellFormed(r) && r.entries.Keys == c1.entries.Keys + {k}
      && r.entries == Rest(cfg, c)[k := Entry(v, 1)] && r.totalFreq == RestTotal(cfg, c)
      && Appended(cfg, c, k, r)
  {
    hide WellFormed, Appended;
    Remains(cfg, c);
    var c1 := if |c.entries| == cfg.capacity then KickOut(c) else c;
    InsertKeeps(c1, k, v);
    ListsAfter(cfg, c, k, v);
  }

  lemma Remains<K(!new), V>(cfg: Config, c: Cache<K, V>)
    requires WellFormed(c) && (|c.entries| == cfg.capacity ==> HasVictim(c))
    ensures var r := if |c.entries| == cfg.capacity then KickOut(c) else c;
      WellFormed(r) && r.entries == Rest(cfg, c) && r.totalFreq == RestTotal(cfg, c)
    ensures Rest(cfg, c).Keys <= c.entries.Keys
  {
    hide WellFormed, KickOut;
    if |c.entries| == cfg.capacity {
      VictimIsLeast(c);
      KickOutKeeps(c);
      KickOutTotal(c);
    }
  }

  lemma KickOutTotal<K, V>(c: Cache<K, V>)
    requires HasVictim(c)
    ensures KickOut(c).totalFreq == c.totalFreq - c.entries[ListAt(c, c.minFreq)[0]].freq
  {
  }

  lemma ListsAfter<K(!new), V>(cfg: Config, c: Cache<K, V>, k: K, v: V)
    requires WellFormed(c) && (|c.entries| == cfg.capacity ==> HasVictim(c))
    ensures Appended(cfg, c, k, Insert(if |c.entries| == cfg.capacity then KickOut(c) else c, k, v))
  {
    hide WellFormed;
    if |c.entries| == cfg.capacity {
      VictimIsLeast(c);
    }
  }

  lemma VictimIsLeast<K(!new), V>(c: Cache<K, V>)
    requires WellFormed(c) && HasVictim(c)
    ensures c.entries[Victim(c)].freq == c.minFreq
  {
    assert Victim(c) in ListAt(c, c.minFreq);
  }

  /** A miss and a put into a cache of capacity 0 change nothing; a purge changes neither the total nor the
      average nor the cursor. */
  lemma NothingCounted<K(!new), V>(cfg: Config, c: Cache<K, V>, k: K, v: V, visit: seq<K>)
    ensures k !in c.entries ==> Get(cfg, c, k, visit) == c
    ensures cfg.capacity == 0 ==> Put(cfg, c, k, v, visit) == c
    ensures var r := Purge(c);
      r.entries == map[] && (r.totalFreq, r.avgFreq, r.minFreq) == (c.totalFreq, c.avgFreq, c.minFreq)
  {
  }

  // ----- whole runs -----

  /** A hit, or a put into a cache that can hold anything. */
  ghost predicate Counts<K, V>(cfg: Config, c: Cache<K, V>, op: Op<K, V>) {
    (op.OpGet? && op.key in c.entries) || (op.OpPut? && cfg.capacity != 0)
  }

  ghost predicate Inserts<K, V>(cfg: Config, c: Cache<K, V>, op: Op<K, V>) {
    op.OpPut? && cfg.capacity != 0 && op.key !in c.entries
  }

  ghost predicate Evicts<K, V>(cfg: Config, c: Cache<K, V>, op: Op<K, V>) {
    Inserts(cfg, c, op) && |c.entries| == cfg.capacity
  }

  /** The entries an operation leaves, but for the aging it may set off. */
  ghost function Marked<K, V>(cfg: Config, c: Cache<K, V>, op: Op<K, V>): map<K, Entry<V>>
    requires CanApply(cfg, c, op)
  {
    if op.OpPurge? then map[]
    else if !Counts(cfg, c, op) then c.entries
    else if Inserts(cfg, c, op) then Rest(cfg, c)[op.key := Entry(op.val, 1)]
    else c.entries[op.key := Entry(if op.OpPut? then op.val else c.entries[op.key].value, c.entries[op.key].freq + 1)]
  }

  ghost function NewTotal<K, V>(cfg: Config, c: Cache<K, V>, op: Op<K, V>): int
    requires CanApply(cfg, c, op)
  {
    if !Counts(cfg, c, op) then c.totalFreq
    else if Inserts(cfg, c, op) then RestTotal(cfg, c) + 1
    else c.totalFreq + 1
  }

  lemma StepLaw<K(!new), V>(cfg: Config, c: Cache<K, V>, op: Op<K, V>)
    requires WellFormed(c) && Legal(cfg, c, op)
    ensures var r := Apply(cfg, c, op);
      var base, total := Marked(cfg, c, op), NewTotal(cfg, c, op);
      && WellFormed(r)
      && r.entries == (if Counts(cfg, c, op) then Settled(cfg, base, total) else base)
      && r.totalFreq == total
  {
    hide WellFormed, IsVisit, GetInternal, PutInternal, Used, Settled, Over, Rest, RestTotal, Appended, InVisitOrder;
    match op
    case OpPurge =>
      PurgedForm(c);
    case OpGet(k, visit) =>
      if k in c.entries {
        GetInternalKeys(cfg, c, k, visit);
        GetCounts(cfg, c, k, visit);
        UsedEntries(cfg, c, k, c.entries[k].value, visit, Get(cfg, c, k, visit));
      }
    case OpPut(k, v, visit) =>
      if cfg.capacity != 0 {
        if k in c.entries {
          GetInternalKeys(cfg, Overwrite(c, k, v), k, visit);
          assert Overwrite(c, k, v).entries.Keys == c.entries.Keys;
          PutCounts(cfg, c, k, v, visit);
          UsedEntries(cfg, c, k, v, visit, Put(cfg, c, k, v, visit));
        } else {
          PutInserts(cfg, c, k, v, visit);
        }
      }
  }

  lemma UsedEntries<K(!new), V>(cfg: Config, c: Cache<K, V>, k: K, v: V, visit: seq<K>, r: Cache<K, V>)
    requires k in c.entries && Used(cfg, c, k, v, visit, r)
    ensures r.totalFreq == c.totalFreq + 1
    ensures r.entries == Settled(cfg, c.entries[k := Entry(v, c.entries[k].freq + 1)], c.totalFreq + 1)
  {
  }

  /** The same for one key, after the aging. */
  lemma StepFreq<K(!new), V>(cfg: Config, c: Cache<K, V>, op: Op<K, V>, k: K)
    requires WellFormed(c) && Legal(cfg, c, op) && k in Apply(cfg, c, op).entries
    ensures var r := Apply(cfg, c, op);
      && ((Counts(cfg, c, op) && op.key == k) || k in c.entries)
      && var f := if !Counts(cfg, c, op) || op.key != k then c.entries[k].freq
                  else if k in c.entries then c.entries[k].freq + 1
                  else 1;
         r.entries[k].freq
         == if Counts(cfg, c, op) && Over(cfg, r.entries, r.totalFreq) then Lowered(f, cfg.maxAvgFreq) else f
  {
    hide WellFormed, Apply, RestTotal, IsVisit, HasVictim;
    StepLaw(cfg, c, op);
    SettledKeys(cfg, Marked(cfg, c, op), NewTotal(cfg, c, op));
  }

  lemma SettledKeys<K, V>(cfg: Config, entries: map<K, Entry<V>>, total: int)
    ensures Settled(cfg, entries, total).Keys == entries.Keys
    ensures Over(cfg, Settled(cfg, entries, total), total) <==> Over(cfg, entries, total)
  {
    var r := Settled(cfg, entries, total);
    assert r.Keys == entries.Keys;
    assert |r| == |r.Keys| && |entries| == |entries.Keys|;
  }

  lemma StepTotal<K(!new), V>(cfg: Config, c: Cache<K, V>, op: Op<K, V>)
    requires WellFormed(c) && Legal(cfg, c, op)
    ensures Evicts(cfg, c, op) ==> HasVictim(c)
    ensures Apply(cfg, c, op).totalFreq
         == c.totalFreq + (if Counts(cfg, c, op) then 1 else 0) - if Evicts(cfg, c, op) then c.entries[Victim(c)].freq else 0
  {
    hide WellFormed, Apply, Settled, Marked;
    StepLaw(cfg, c, op);
  }

  /** In every run the key lists mirror the entries, whatever the configuration. */
  lemma {:induction false} RunForm<K(!new), V>(cfg: Config, ops: seq<Op<K, V>>)
    requires LegalRun(cfg, ops)
    ensures WellFormed(Run(cfg, ops))
    decreases |ops|
  {
    hide Legal, Apply, Counts, Marked, NewTotal, Settled;
    if ops == [] {
      assert Run(cfg, ops) == Empty<K, V>();
    } else {
      var front := ops[..|ops| - 1];
      RunForm(cfg, front);
      StepLaw(cfg, Run(cfg, front), ops[|ops| - 1]);
    }
  }

  /** The last operation of the run counted, and the average it led to is over the maximum. */
  ghost predicate WentOver<K(!new), V>(cfg: Config, ops: seq<Op<K, V>>)
    requires LegalRun(cfg, ops) && ops != []
  {
    && Counts(cfg, Run(cfg, ops[..|ops| - 1]), ops[|ops| - 1])
    && Over(cfg, Run(cfg, ops).entries, Run(cfg, ops).totalFreq)
  }

  /** The frequency of a key, from the operations of the run: the put that brings the key in makes it 1, each
      put or get of it adds 1, and whenever the average goes over the maximum it is lowered. */
  ghost function FreqOf<K(!new), V>(cfg: Config, ops: seq<Op<K, V>>, k: K): int
    requires LegalRun(cfg, ops)
    decreases |ops|
  {
    if ops == [] then 0
    else
      var front, op := ops[..|ops| - 1], ops[|ops| - 1];
      var f := if !Counts(cfg, Run(cfg, front), op) || op.key != k then FreqOf(cfg, front, k)
               else if k in Run(cfg, front).entries then FreqOf(cfg, front, k) + 1
               else 1;
      if WentOver(cfg, ops) then Lowered(f, cfg.maxAvgFreq) else f
  }

  /** The total, from the operations of the run: each one that counts adds 1, and an evicted key takes its
      frequency with it. */
  ghost function TotalOf<K(!new), V>(cfg: Config, ops: seq<Op<K, V>>): int
    requires LegalRun(cfg, ops)
    decreases |ops|
  {
    if ops == [] then 0
    else
      var front, op := ops[..|ops| - 1], ops[|ops| - 1];
      var c := Run(cfg, front);
      TotalOf(cfg, front) + (if Counts(cfg, c, op) then 1 else 0)
        - (if Evicts(cfg, c, op) then FreqOf(cfg, front, ListAt(c, c.minFreq)[0]) else 0)
  }

  /** After every run, each cached key has the frequency its own history gives it, and the total is what the
      counted operations less the evictions come to. */
  lemma {:induction false} RunCounts<K(!new), V>(cfg: Config, ops: seq<Op<K, V>>)
    requires LegalRun(cfg, ops)
    ensures forall k :: k in Run(cfg, ops).entries ==> Run(cfg, ops).entries[k].freq == FreqOf(cfg, ops, k)
    ensures Run(cfg, ops).totalFreq == TotalOf(cfg, ops)
    decreases |ops|
  {
    hide Legal, Apply, WellFormed, Counts, Over, Evicts;
    if ops == [] {
      assert Run(cfg, ops) == Empty<K, V>();
    } else {
      var front, op := ops[..|ops| - 1], ops[|ops| - 1];
      RunCounts(cfg, front);
      RunForm(cfg, front);
      StepTotal(cfg, Run(cfg, front), op);
      forall k | k in Run(cfg, ops).entries ensures Run(cfg, ops).entries[k].freq == FreqOf(cfg, ops, k) {
        StepFreq(cfg, Run(cfg, front), op, k);
      }
    }
  }

  /** The key's puts and gets since it was last brought in. */
  ghost function UsesSince<K(!new), V>(cfg: Config, ops: seq<Op<K, V>>, k: K): nat
    requires LegalRun(cfg, ops)
    decreases |ops|
  {
    if ops == [] then 0
    else
      var front, op := ops[..|ops| - 1], ops[|ops| - 1];
      if op.OpPurge? || op.key != k then UsesSince(cfg, front, k)
      else if op.OpPut? && k !in Run(cfg, front).entries then 1
      else UsesSince(cfg, front, k) + 1
  }

  ghost predicate NeverOver<K(!new), V>(cfg: Config, ops: seq<Op<K, V>>)
    requires LegalRun(cfg, ops)
    decreases |ops|
  {
    ops == [] || (NeverOver(cfg, ops[..|ops| - 1]) && !WentOver(cfg, ops))
  }

  /** As long as no average went over the maximum, a cached key's frequency is the number of puts and gets of
      it since it was last inserted. */
  lemma {:induction false} FreqIsUses<K(!new), V>(cfg: Config, ops: seq<Op<K, V>>, k: K)
    requires LegalRun(cfg, ops) && NeverOver(cfg, ops) && k in Run(cfg, ops).entries
    ensures Run(cfg, ops).entries[k].freq == UsesSince(cfg, ops, k)
    decreases |ops|
  {
    hide Legal, Apply, WellFormed, Over;
    if ops != [] {
      var front, op := ops[..|ops| - 1], ops[|ops| - 1];
      RunForm(cfg, front);
      StepFreq(cfg, Run(cfg, front), op, k);
      if k in Run(cfg, front).entries {
        FreqIsUses(cfg, front, k);
      }
      if cfg.capacity == 0 {
        NothingCached(cfg, front);
      }
    }
  }

  lemma StepSum<K(!new), V>(cfg: Config, c: Cache<K, V>, op: Op<K, V>)
    requires WellFormed(c) && Legal(cfg, c, op) && !op.OpPurge?
    requires Counts(cfg, c, op) ==> !Over(cfg, Apply(cfg, c, op).entries, Apply(cfg, c, op).totalFreq)
    ensures var r := Apply(cfg, c, op); r.totalFreq - SumFreq(r.entries) == c.totalFreq - SumFreq(c.entries)
  {
    hide WellFormed, Apply, IsVisit, SumFreq, Over;
    StepLaw(cfg, c, op);
    SettledKeys(cfg, Marked(cfg, c, op), NewTotal(cfg, c, op));
    if Inserts(cfg, c, op) {
      if |c.entries| == cfg.capacity {
        SumRemove(c.entries, Victim(c));
      }
      SumUpdate(Rest(cfg, c), op.key, Entry(op.val, 1));
    } else if Counts(cfg, c, op) {
      SumUpdate(c.entries, op.key, Marked(cfg, c, op)[op.key]);
    }
  }

  /** Without purges, and as long as no average went over the maximum, the total is the sum of the cached
      keys' frequencies. */
  lemma {:induction false} TotalIsSum<K(!new), V>(cfg: Config, ops: seq<Op<K, V>>)
    requires LegalRun(cfg, ops) && NeverOver(cfg, ops) && forall op :: op in ops ==> !op.OpPurge?
    ensures Run(cfg, ops).totalFreq == SumFreq(Run(cfg, ops).entries)
    decreases |ops|
  {
    hide Legal, Apply, WellFormed, Over, Counts;
    if ops == [] {
      assert Run(cfg, ops) == Empty<K, V>();
    } else {
      var front := ops[..|ops| - 1];
      RunForm(cfg, front);
      TotalIsSum(cfg, front);
      StepSum(cfg, Run(cfg, front), ops[|ops| - 1]);
    }
  }
}
