/** Properties of the LFU cache over single operations and over whole runs. */
module LfuTheorems {
  import opened Basics
  import opened LfuModel

  // ----- lists -----

  lemma {:induction false} RemoveKeyAt<K>(s: seq<K>, i: nat)
    requires Distinct(s) && i < |s|
    ensures RemoveKey(s, s[i]) == s[..i] + s[i + 1..]
  {
    if i > 0 {
      assert s[0] != s[i];
      RemoveKeyAt(s[1..], i - 1);
      assert s[..i] == [s[0]] + s[1..][..i - 1];
      assert s[1..][i..] == s[i + 1..];
    }
  }

  lemma RemoveKeyMembers<K>(s: seq<K>, k: K)
    requires Distinct(s) && k in s
    ensures Distinct(RemoveKey(s, k))
    ensures forall x :: x in RemoveKey(s, k) <==> x in s && x != k
  {
    var i :| 0 <= i < |s| && s[i] == k;
    RemoveKeyAt(s, i);
    var r := RemoveKey(s, k);
    forall x | x in s && x != k
      ensures x in r
    {
      var j :| 0 <= j < |s| && s[j] == x;
      assert r[if j < i then j else j - 1] == x;
    }
  }

  // ----- well-formedness -----

  lemma UnlinkKeepsForm<K(!new), V>(c: Cache<K, V>, k: K)
    requires WellFormed(c) && k in c.entries
    ensures WellFormedBut(Unlink(c, k), {k})
  {
    var f := c.entries[k].freq;
    var c1 := Unlink(c, k);
    RemoveKeyMembers(ListAt(c, f), k);
    assert forall g :: ListAt(c1, g) == if g == f then RemoveKey(ListAt(c, f), k) else ListAt(c, g);
  }

  lemma SetFreqKeepsForm<K(!new), V>(c: Cache<K, V>, k: K, f: int)
    requires WellFormedBut(c, {k}) && k in c.entries && f >= 1
    ensures WellFormedBut(SetFreq(c, k, f), {k})
  {
    var c1 := SetFreq(c, k, f);
    assert forall g :: ListAt(c1, g) == ListAt(c, g);
  }

  lemma LinkKeepsForm<K(!new), V>(c: Cache<K, V>, k: K)
    requires WellFormedBut(c, {k}) && k in c.entries
    ensures WellFormed(Link(c, k))
  {
    var f := c.entries[k].freq;
    var c1 := Link(c, k);
    forall g
      ensures ListAt(c1, g) == if g == f then ListAt(c, f) + [k] else ListAt(c, g)
      ensures Distinct(ListAt(c1, g))
      ensures forall x :: x in ListAt(c1, g) <==> x in ListAt(c, g) || (g == f && x == k)
    {
    }
  }

  /** Well-formedness is about the entries and the lists alone. */
  lemma SameForm<K(!new), V>(c: Cache<K, V>, c': Cache<K, V>)
    requires c.entries == c'.entries && c.lists == c'.lists && WellFormed(c)
    ensures WellFormed(c')
  {
    assert forall f :: ListAt(c', f) == ListAt(c, f);
  }

  lemma MoveKeepsForm<K(!new), V>(c: Cache<K, V>, k: K, f: int)
    requires WellFormed(c) && k in c.entries && f >= 1
    ensures WellFormed(Move(c, k, f))
    ensures Move(c, k, f).entries == c.entries[k := Entry(c.entries[k].value, f)]
    ensures Move(c, k, f).minFreq == c.minFreq && Move(c, k, f).totalFreq == c.totalFreq
  {
    hide WellFormed, WellFormedBut;
    UnlinkKeepsForm(c, k);
    SetFreqKeepsForm(Unlink(c, k), k, f);
    LinkKeepsForm(SetFreq(Unlink(c, k), k, f), k);
  }

  // ----- sums of frequencies -----

  lemma {:induction false} SumRemove<K, V>(m: map<K, Entry<V>>, k: K)
    requires k in m
    ensures SumFreq(m) == m[k].freq + SumFreq(m - {k})
  {
    var x :| x in m && SumFreq(m) == m[x].freq + SumFreq(m - {x});
    if x != k {
      SumRemove(m - {x}, k);
      SumRemove(m - {k}, x);
      assert m - {x} - {k} == m - {k} - {x};
    }
  }

  lemma SumUpdate<K, V>(m: map<K, Entry<V>>, k: K, e: Entry<V>)
    ensures SumFreq(m[k := e]) == SumFreq(m) + e.freq - if k in m then m[k].freq else 0
  {
    SumRemove(m[k := e], k);
    assert m[k := e] - {k} == m - {k};
    if k in m {
      SumRemove(m, k);
    } else {
      assert m - {k} == m;
    }
  }

  lemma Times(a: int, n: int)
    ensures a * n == a + a * (n - 1)
  {
  }

  lemma TimesMonotone(a: int, b: int, n: nat)
    requires a <= b
    ensures a * n <= b * n
  {
  }

  lemma {:induction false} SumAtLeast<K, V>(m: map<K, Entry<V>>, lo: int)
    requires forall k :: k in m ==> m[k].freq >= lo
    ensures SumFreq(m) >= lo * |m|
  {
    if m != map[] {
      var k :| k in m && SumFreq(m) == m[k].freq + SumFreq(m - {k});
      var rest := m - {k};
      SumAtLeast(rest, lo);
      assert rest.Keys == m.Keys - {k};
      assert |rest| == |m| - 1;
      Times(lo, |m|);
    }
  }

  lemma {:induction false} SumMonotone<K, V>(m: map<K, Entry<V>>, m': map<K, Entry<V>>)
    requires m.Keys == m'.Keys
    requires forall k :: k in m ==> m'[k].freq <= m[k].freq
    ensures SumFreq(m') <= SumFreq(m)
  {
    if m != map[] {
      var k :| k in m && SumFreq(m) == m[k].freq + SumFreq(m - {k});
      assert k in m'.Keys;
      SumRemove(m', k);
      SumMonotone(m - {k}, m' - {k});
    } else {
      assert m' == map[];
    }
  }

  // ----- aging -----

  ghost function AgedEntry<V>(e: Entry<V>, step: int): Entry<V> {
    Entry(e.value, Aged(e.freq, step))
  }

  lemma AgeOneKeeps<K(!new), V>(c: Cache<K, V>, k: K, step: int)
    requires WellFormed(c) && k in c.entries
    ensures WellFormed(AgeOne(c, k, step))
    ensures AgeOne(c, k, step) ==
            c.(entries := c.entries[k := AgedEntry(c.entries[k], step)], lists := AgeOne(c, k, step).lists)
  {
    MoveKeepsForm(c, k, Aged(c.entries[k].freq, step));
  }

  /** Aging touches each visited key once, whatever the order, and keeps the lists well formed. */
  lemma {:induction false} AgeEachVisited<K(!new), V>(c: Cache<K, V>, visit: seq<K>, step: int)
    requires WellFormed(c) && Distinct(visit) && forall k :: k in visit ==> k in c.entries
    ensures var r := AgeEach(c, visit, step);
      && WellFormed(r)
      && r.entries.Keys == c.entries.Keys
      && (forall k :: k in c.entries ==>
            r.entries[k] == if k in visit then AgedEntry(c.entries[k], step) else c.entries[k])
      && (r.minFreq, r.avgFreq, r.totalFreq) == (c.minFreq, c.avgFreq, c.totalFreq)
  {
    hide WellFormed, Move;
    if visit != [] {
      var n := |visit| - 1;
      var front, k := visit[..n], visit[n];
      assert visit == front + [k];
      assert k !in front;
      AgeEachVisited(c, front, step);
      AgeOneKeeps(AgeEach(c, front, step), k, step);
    }
  }

  /** Aging every cached key: each frequency is lowered by the step, but not below one. */
  lemma AgeAll<K(!new), V>(c: Cache<K, V>, visit: seq<K>, step: int)
    requires WellFormed(c) && IsVisit(visit, c.entries.Keys)
    ensures WellFormed(AgeEach(c, visit, step))
    ensures AgeEach(c, visit, step).totalFreq == c.totalFreq
    ensures AgeEach(c, visit, step).entries == map k | k in c.entries :: AgedEntry(c.entries[k], step)
  {
    AgeEachVisited(c, visit, step);
  }

  /** Aging keeps the order of the frequencies, so it keeps the smallest one smallest. */
  lemma AgedLeast<K, V>(entries: map<K, Entry<V>>, m: int, step: int)
    requires IsLeast(entries, m)
    ensures IsLeast(map k | k in entries :: AgedEntry(entries[k], step), Aged(m, step))
  {
    var r := map k | k in entries :: AgedEntry(entries[k], step);
    var k :| k in entries && entries[k].freq == m;
    assert k in r && r[k].freq == Aged(m, step);
  }

  /** The search over the lists finds the smallest frequency in use, capped at its start value. */
  lemma SearchFindsLeast<K(!new), V>(c: Cache<K, V>, m: int)
    requires WellFormed(c) && IsLeast(c.entries, m)
    ensures LeastFreq(c.lists) == Min(m, INT8_MAX)
  {
    var k :| k in c.entries && c.entries[k].freq == m;
    assert k in ListAt(c, m);
    var r := LeastFreq(c.lists);
    assert m in c.lists && c.lists[m] != [];
    if r < INT8_MAX {
      var x := c.lists[r][0];
      assert x in ListAt(c, r);
      assert x in c.entries && c.entries[x].freq == r;
    }
  }

  // ----- the invariant -----

  ghost predicate InRange(cfg: Config) {
    2 <= cfg.maxAvgFreq <= 250
  }

  /** What holds after every operation: the lists mirror the entries, the running total covers the
      sum of the frequencies, and `minFreq` is exact and never above the configured average. */
  ghost predicate Sane<K(!new), V>(cfg: Config, c: Cache<K, V>) {
    && WellFormed(c)
    && |c.entries| <= cfg.capacity
    && SumFreq(c.entries) <= c.totalFreq
    && c.minFreq >= 1
    && (c.entries != map[] ==> IsLeast(c.entries, c.minFreq) && c.minFreq <= cfg.maxAvgFreq)
  }

  lemma LeastAtMostAverage<K, V>(entries: map<K, Entry<V>>, m: int, total: int, bound: int)
    requires entries != map[] && IsLeast(entries, m) && SumFreq(entries) <= total
    requires total / |entries| <= bound
    ensures m <= bound
  {
    hide SumFreq;
    SumAtLeast(entries, m);
    BelowAverage(m, |entries|, total, bound);
  }

  lemma BelowAverage(m: int, n: nat, total: int, bound: int)
    requires n > 0 && m * n <= total && total / n <= bound
    ensures m <= bound
  {
    var q, r := total / n, total % n;
    assert total == q * n + r && r < n;
    TimesMonotone(q, bound, n);
    assert (bound + 1) * n == bound * n + n;
    CancelTimes(m, bound + 1, n);
  }

  lemma CancelTimes(a: int, b: int, n: nat)
    requires a * n < b * n
    ensures a < b
  {
    if a >= b {
      TimesMonotone(b, a, n);
    }
  }

  ghost predicate Overflows<K, V>(cfg: Config, c: Cache<K, V>) {
    c.entries != map[] && (c.totalFreq + 1) / |c.entries| > cfg.maxAvgFreq
  }

  /** Counting one access, with the aging it may set off. */
  lemma CountingKeeps<K(!new), V>(cfg: Config, c: Cache<K, V>, visit: seq<K>, m: int)
    requires InRange(cfg) && WellFormed(c) && IsVisit(visit, c.entries.Keys)
    requires IsLeast(c.entries, m) && 1 <= m <= cfg.maxAvgFreq + 1
    requires SumFreq(c.entries) <= c.totalFreq + 1
    ensures var r := IncreaseFreq(cfg, c, visit);
      var m' := if Overflows(cfg, c) then Aged(m, AgingStep(cfg.maxAvgFreq)) else m;
      && WellFormed(r)
      && r.entries.Keys == c.entries.Keys
      && SumFreq(r.entries) <= r.totalFreq
      && IsLeast(r.entries, m') && m' <= cfg.maxAvgFreq
      && r.minFreq == if Overflows(cfg, c) then m' else c.minFreq
  {
    hide WellFormed, IsVisit, AgeEach;
    var c1 := Average(c.(totalFreq := c.totalFreq + 1));
    SameForm(c, c1);
    if Overflows(cfg, c) {
      var step := AgingStep(cfg.maxAvgFreq);
      AgeAll(c1, visit, step);
      AgedLeast(c.entries, m, step);
      var c2 := AgeEach(c1, visit, step);
      assert c2.entries.Keys == c.entries.Keys;
      SumMonotone(c.entries, c2.entries);
      SearchFindsLeast(c2, Aged(m, step));
      SameForm(c2, UpdateMinFreq(c2));
    } else {
      LeastAtMostAverage(c.entries, m, c1.totalFreq, cfg.maxAvgFreq);
    }
  }

  // ----- a hit -----

  lemma EmptyListUnused<K(!new), V>(c: Cache<K, V>, f: int)
    requires WellFormed(c)
    ensures ListAt(c, f) == [] <==> forall k :: k in c.entries ==> c.entries[k].freq != f
  {
    if ListAt(c, f) != [] {
      var k := ListAt(c, f)[0];
      assert k in ListAt(c, f);
      assert k in c.entries && c.entries[k].freq == f;
    }
  }

  lemma LeastAfterBump<K, V>(entries: map<K, Entry<V>>, k: K, m: int, e: Entry<V>)
    requires k in entries && IsLeast(entries, m) && e.freq == entries[k].freq + 1
    ensures var r := entries[k := e];
      var alone := entries[k].freq == m && forall x :: x in r ==> r[x].freq != m;
      IsLeast(r, if alone then m + 1 else m)
  {
    var r := entries[k := e];
    assert k in r && r[k] == e;
    if entries[k].freq != m {
      var x :| x in entries && entries[x].freq == m;
      assert x in r && r[x].freq == m;
    }
  }

  /** Before the accounting, a hit leaves `minFreq` exact: it moves up by one just when the key was
      the last one of the smallest frequency. */
  lemma BumpKeeps<K(!new), V>(c: Cache<K, V>, k: K)
    requires WellFormed(c) && k in c.entries && IsLeast(c.entries, c.minFreq)
    ensures var r := Bump(c, k);
      && WellFormed(r)
      && r.entries == c.entries[k := Entry(c.entries[k].value, c.entries[k].freq + 1)]
      && r.totalFreq == c.totalFreq
      && IsLeast(r.entries, r.minFreq)
      && c.minFreq <= r.minFreq <= c.minFreq + 1
  {
    hide WellFormed, IsLeast, Move, ListAt;
    var f := c.entries[k].freq;
    FreqsPositive(c);
    var c1 := Move(c, k, f + 1);
    MoveKeepsForm(c, k, f + 1);
    SameForm(c1, Bump(c, k));
    EmptyListUnused(c1, f);
    LeastAfterBump(c.entries, k, c.minFreq, c1.entries[k]);
  }

  lemma GetInternalKeeps<K(!new), V>(cfg: Config, c: Cache<K, V>, k: K, visit: seq<K>)
    requires InRange(cfg) && Sane(cfg, c) && k in c.entries && IsVisit(visit, c.entries.Keys)
    ensures Sane(cfg, GetInternal(cfg, c, k, visit))
    ensures GetInternal(cfg, c, k, visit).entries.Keys == c.entries.Keys
  {
    hide WellFormed, IsVisit, IncreaseFreq, Bump, Overflows;
    BumpKeeps(c, k);
    var c1 := Bump(c, k);
    SumUpdate(c.entries, k, c1.entries[k]);
    assert c1.entries.Keys == c.entries.Keys;
    CountingKeeps(cfg, c1, visit, c1.minFreq);
  }

  // ----- a miss -----

  lemma VictimExists<K(!new), V>(c: Cache<K, V>)
    requires WellFormed(c) && IsLeast(c.entries, c.minFreq)
    ensures HasVictim(c)
    ensures c.entries[Victim(c)].freq == c.minFreq
  {
    var k :| k in c.entries && c.entries[k].freq == c.minFreq;
    assert k in ListAt(c, c.minFreq);
    assert ListAt(c, c.minFreq)[0] in ListAt(c, c.minFreq);
  }

  lemma EraseKeepsForm<K(!new), V>(c: Cache<K, V>, k: K)
    requires WellFormedBut(c, {k})
    ensures WellFormed(c.(entries := c.entries - {k}))
  {
    hide ListAt, Distinct;
    SameLists(c, c.(entries := c.entries - {k}));
  }

  lemma SameLists<K, V>(c: Cache<K, V>, c': Cache<K, V>)
    requires c.lists == c'.lists
    ensures forall f :: ListAt(c', f) == ListAt(c, f)
  {
  }

  lemma KickOutKeeps<K(!new), V>(c: Cache<K, V>)
    requires WellFormed(c) && HasVictim(c) && c.entries[Victim(c)].freq == c.minFreq
    ensures WellFormed(KickOut(c))
    ensures KickOut(c).entries == c.entries - {Victim(c)}
    ensures KickOut(c).totalFreq - SumFreq(KickOut(c).entries) == c.totalFreq - SumFreq(c.entries)
    ensures |KickOut(c).entries| == |c.entries| - 1
    ensures KickOut(c).minFreq == c.minFreq
  {
    hide WellFormed, WellFormedBut;
    var k := Victim(c);
    var c1 := Unlink(c, k);
    UnlinkKeepsForm(c, k);
    EraseKeepsForm(c1, k);
    SameForm(c1.(entries := c1.entries - {k}), KickOut(c));
    SumRemove(c.entries, k);
    assert KickOut(c).entries.Keys == c.entries.Keys - {k};
  }

  lemma InsertKeeps<K(!new), V>(c: Cache<K, V>, k: K, v: V)
    requires WellFormed(c) && k !in c.entries
    ensures WellFormed(Insert(c, k, v))
    ensures Insert(c, k, v).entries == c.entries[k := Entry(v, 1)]
    ensures IsLeast(Insert(c, k, v).entries, 1)
    ensures Insert(c, k, v).totalFreq == c.totalFreq && Insert(c, k, v).minFreq == c.minFreq
  {
    var c1 := c.(entries := c.entries[k := Entry(v, 1)]);
    assert forall f :: ListAt(c1, f) == ListAt(c, f);
    assert WellFormedBut(c1, {k});
    LinkKeepsForm(c1, k);
    assert Insert(c, k, v).entries[k].freq == 1;
  }

  lemma InsertAndCount<K(!new), V>(cfg: Config, c: Cache<K, V>, k: K, v: V, visit: seq<K>)
    requires InRange(cfg) && WellFormed(c) && k !in c.entries && |c.entries| < cfg.capacity
    requires SumFreq(c.entries) <= c.totalFreq && c.minFreq >= 1
    requires IsVisit(visit, c.entries.Keys + {k})
    ensures var r := IncreaseFreq(cfg, Insert(c, k, v), visit);
      && Sane(cfg, r.(minFreq := Min(r.minFreq, 1)))
      && r.entries.Keys == c.entries.Keys + {k}
  {
    hide WellFormed, IsVisit, IncreaseFreq, Insert, Overflows;
    var c1 := Insert(c, k, v);
    InsertKeeps(c, k, v);
    SumUpdate(c.entries, k, Entry(v, 1));
    assert c1.entries.Keys == c.entries.Keys + {k};
    assert Aged(1, AgingStep(cfg.maxAvgFreq)) == 1;
    CountingKeeps(cfg, c1, visit, 1);
    var r := IncreaseFreq(cfg, c1, visit);
    SameForm(r, r.(minFreq := Min(r.minFreq, 1)));
  }

  lemma PutInternalKeeps<K(!new), V>(cfg: Config, c: Cache<K, V>, k: K, v: V, visit: seq<K>)
    requires InRange(cfg) && Sane(cfg, c) && cfg.capacity != 0 && k !in c.entries
    ensures CanPut(cfg, c, k)
    ensures IsVisit(visit, PutInternal(cfg, c, k, v, visit).entries.Keys) ==>
            Sane(cfg, PutInternal(cfg, c, k, v, visit))
  {
    hide WellFormed, IsVisit, IncreaseFreq, Insert, KickOut;
    if |c.entries| == cfg.capacity {
      assert c.entries != map[];
      VictimExists(c);
      KickOutKeeps(c);
    }
    var c1 := if |c.entries| == cfg.capacity then KickOut(c) else c;
    KeysAfterPut(cfg, c, k, v, visit);
    if IsVisit(visit, c1.entries.Keys + {k}) {
      InsertAndCount(cfg, c1, k, v, visit);
    }
  }

  /** Neither the accounting nor the aging adds or drops a key or changes a value. */
  lemma {:induction false} AgeEachContents<K(!new), V>(c: Cache<K, V>, visit: seq<K>, step: int)
    ensures Values(AgeEach(c, visit, step)) == Values(c)
  {
    if visit != [] {
      AgeEachContents(c, visit[..|visit| - 1], step);
      var c1 := AgeEach(c, visit[..|visit| - 1], step);
      var k := visit[|visit| - 1];
      if k in c1.entries {
        assert Values(AgeOne(c1, k, step)) == Values(c1);
      }
    }
  }

  lemma IncreaseContents<K(!new), V>(cfg: Config, c: Cache<K, V>, visit: seq<K>)
    ensures Values(IncreaseFreq(cfg, c, visit)) == Values(c)
    ensures IncreaseFreq(cfg, c, visit).entries.Keys == c.entries.Keys
  {
    var c1 := Average(c.(totalFreq := c.totalFreq + 1));
    AgeEachContents(c1, visit, AgingStep(cfg.maxAvgFreq));
    assert forall d: Cache<K, V> :: Values(d).Keys == d.entries.Keys;
  }

  lemma KeysAfterPut<K(!new), V>(cfg: Config, c: Cache<K, V>, k: K, v: V, visit: seq<K>)
    requires |c.entries| == cfg.capacity ==> HasVictim(c)
    ensures var c1 := if |c.entries| == cfg.capacity then KickOut(c) else c;
      PutInternal(cfg, c, k, v, visit).entries.Keys == c1.entries.Keys + {k}
  {
    var c1 := if |c.entries| == cfg.capacity then KickOut(c) else c;
    IncreaseContents(cfg, Insert(c1, k, v), visit);
  }

  // ----- every run -----

  lemma ApplyKeeps<K(!new), V>(cfg: Config, c: Cache<K, V>, op: Op<K, V>)
    requires InRange(cfg) && Sane(cfg, c)
    ensures CanApply(cfg, c, op)
    ensures Legal(cfg, c, op) ==> Sane(cfg, Apply(cfg, c, op))
  {
    hide WellFormed, IsVisit, GetInternal, PutInternal, IsLeast;
    match op
    case OpPurge =>
      PurgeKeeps(cfg, c);
    case OpGet(k, visit) =>
      if k in c.entries {
        GetInternalKeys(cfg, c, k, visit);
        if IsVisit(visit, c.entries.Keys) {
          GetInternalKeeps(cfg, c, k, visit);
        }
      }
    case OpPut(k, v, visit) =>
      if cfg.capacity != 0 {
        if k in c.entries {
          var c1 := Overwrite(c, k, v);
          OverwriteKeeps(cfg, c, k, v);
          GetInternalKeys(cfg, c1, k, visit);
          if IsVisit(visit, c1.entries.Keys) {
            GetInternalKeeps(cfg, c1, k, visit);
          }
        } else {
          PutInternalKeeps(cfg, c, k, v, visit);
        }
      }
  }

  lemma FreqsPositive<K(!new), V>(c: Cache<K, V>)
    requires WellFormed(c)
    ensures forall k :: k in c.entries ==> c.entries[k].freq >= 1
  {
  }

  lemma PurgedForm<K(!new), V>(c: Cache<K, V>)
    ensures WellFormed(Purge(c))
  {
  }

  lemma PurgeKeeps<K(!new), V>(cfg: Config, c: Cache<K, V>)
    requires Sane(cfg, c)
    ensures Sane(cfg, Purge(c))
  {
    hide WellFormed, IsLeast;
    FreqsPositive(c);
    PurgedForm(c);
    SumAtLeast(c.entries, 0);
  }

  lemma GetInternalKeys<K(!new), V>(cfg: Config, c: Cache<K, V>, k: K, visit: seq<K>)
    requires k in c.entries
    ensures GetInternal(cfg, c, k, visit).entries.Keys == c.entries.Keys
  {
    IncreaseContents(cfg, Bump(c, k), visit);
  }

  lemma OverwriteKeepsForm<K(!new), V>(c: Cache<K, V>, k: K, v: V)
    requires WellFormed(c) && k in c.entries
    ensures WellFormed(Overwrite(c, k, v))
  {
    assert forall f :: ListAt(Overwrite(c, k, v), f) == ListAt(c, f);
  }

  lemma OverwriteKeeps<K(!new), V>(cfg: Config, c: Cache<K, V>, k: K, v: V)
    requires Sane(cfg, c) && k in c.entries
    ensures Sane(cfg, Overwrite(c, k, v))
  {
    hide WellFormed;
    OverwriteKeepsForm(c, k, v);
    var r := Overwrite(c, k, v);
    SumUpdate(c.entries, k, r.entries[k]);
    assert r.entries.Keys == c.entries.Keys;
    var x :| x in c.entries && c.entries[x].freq == c.minFreq;
    assert x in r.entries && r.entries[x].freq == c.minFreq;
  }

  /** With a maximum average between 2 and 250, after every run the lists mirror the entries, the
      total covers the sum, and `minFreq` is the exact smallest frequency; and no run gets stuck for
      want of a victim. */
  lemma {:induction false} RunIsSane<K(!new), V>(cfg: Config, ops: seq<Op<K, V>>, next: Op<K, V>)
    requires InRange(cfg) && LegalRun(cfg, ops)
    ensures Sane(cfg, Run(cfg, ops))
    ensures CanApply(cfg, Run(cfg, ops), next)
    decreases |ops|
  {
    hide WellFormed, IsVisit, Apply, CanApply, IsLeast;
    if ops == [] {
      EmptyIsSane<K, V>(cfg);
    } else {
      var front, last := ops[..|ops| - 1], ops[|ops| - 1];
      RunIsSane(cfg, front, last);
      ApplyKeeps(cfg, Run(cfg, front), last);
    }
    ApplyKeeps(cfg, Run(cfg, ops), next);
  }

  lemma EmptyIsSane<K(!new), V>(cfg: Config)
    ensures Sane(cfg, Empty<K, V>())
  {
  }

  // ----- where the invariant stops holding -----

  lemma OneVisit<K(!new)>(k: K)
    ensures IsVisit([k], {k})
  {
  }

  /** Counting one access in a cache that holds a single key. */
  lemma CountSingle<K(!new), V>(cfg: Config, c: Cache<K, V>, k: K, v: V, f: int)
    requires WellFormed(c) && c.entries == map[k := Entry(v, f)]
    ensures var r := IncreaseFreq(cfg, c, [k]);
      var ages := c.totalFreq + 1 > cfg.maxAvgFreq;
      var f' := if ages then Aged(f, AgingStep(cfg.maxAvgFreq)) else f;
      && WellFormed(r)
      && r.entries == map[k := Entry(v, f')]
      && r.totalFreq == c.totalFreq + 1
      && r.minFreq == if !ages then c.minFreq else if f' < INT8_MAX then f' else 1
  {
    hide WellFormed, IsVisit, AgeEach, LeastFreq;
    var step := AgingStep(cfg.maxAvgFreq);
    var c1 := Average(c.(totalFreq := c.totalFreq + 1));
    assert |c.entries| == 1;
    SameForm(c, c1);
    OneVisit(k);
    assert c.entries.Keys == {k};
    if c1.avgFreq > cfg.maxAvgFreq {
      AgeAll(c1, [k], step);
      var c2 := AgeEach(c1, [k], step);
      assert c2.entries == map[k := Entry(v, Aged(f, step))];
      assert k in c2.entries && c2.entries[k].freq == Aged(f, step);
      SearchFindsLeast(c2, Aged(f, step));
      SameForm(c2, UpdateMinFreq(c2));
    }
  }

  /** One put of `k`, then `n` gets of it. */
  ghost function OneKeyRun<K, V>(k: K, v: V, n: nat): seq<Op<K, V>> {
    if n == 0 then [OpPut(k, v, [k])] else OneKeyRun(k, v, n - 1) + [OpGet(k, [k])]
  }

  /** The cache holds just `k`, with frequency `f`, after `n` accesses. */
  ghost predicate Single<K(!new), V>(c: Cache<K, V>, k: K, v: V, f: int, min: int, n: int) {
    && WellFormed(c)
    && c.entries == map[k := Entry(v, f)]
    && c.minFreq == min
    && c.totalFreq == n
  }

  /** The frequency after an access that brings the total to `n`. */
  function Counted(cfg: Config, f: int, n: int): int {
    if n > cfg.maxAvgFreq then Aged(f, AgingStep(cfg.maxAvgFreq)) else f
  }

  /** The first key of an empty cache, inserted but not counted yet. */
  lemma FirstInserted<K(!new), V>(k: K, v: V)
    ensures var c := Insert(Empty(), k, v);
      WellFormed(c) && c.entries == map[k := Entry(v, 1)] && c.minFreq == INT8_MAX && c.totalFreq == 0
  {
    hide Insert;
    InsertKeeps(Empty(), k, v);
  }

  lemma FirstCounted<K(!new), V>(cfg: Config, k: K, v: V)
    ensures Single(LowerMinFreq(IncreaseFreq(cfg, Insert(Empty(), k, v), [k])), k, v, Counted(cfg, 1, 1), 1, 1)
  {
    hide IncreaseFreq, Insert, WellFormed;
    FirstInserted(k, v);
    var c := Insert(Empty(), k, v);
    CountSingle(cfg, c, k, v, 1);
    var r := IncreaseFreq(cfg, c, [k]);
    SameForm(r, LowerMinFreq(r));
  }

  lemma FirstPut<K(!new), V>(cfg: Config, k: K, v: V)
    requires cfg.capacity != 0
    ensures LegalRun(cfg, OneKeyRun(k, v, 0))
    ensures Single(Run(cfg, OneKeyRun(k, v, 0)), k, v, Counted(cfg, 1, 1), 1, 1)
  {
    hide IncreaseFreq, Insert, WellFormed, LowerMinFreq;
    var op := OpPut(k, v, [k]);
    FirstCounted(cfg, k, v);
    assert |Empty<K, V>().entries| == 0;
    assert Apply(cfg, Empty(), op) == LowerMinFreq(IncreaseFreq(cfg, Insert(Empty(), k, v), [k]));
    assert IsVisit([k], Apply(cfg, Empty(), op).entries.Keys);
    OneOp(cfg, op);
  }

  lemma OneOp<K(!new), V>(cfg: Config, op: Op<K, V>)
    requires Legal(cfg, Empty(), op)
    ensures LegalRun(cfg, [op]) && Run(cfg, [op]) == Apply(cfg, Empty(), op)
  {
    assert [op][..0] == [];
    assert LegalRun<K, V>(cfg, []);
  }

  lemma GetSingle<K(!new), V>(cfg: Config, c: Cache<K, V>, k: K, v: V, f: int, n: int)
    requires Single(c, k, v, f, f, n)
    ensures var f' := Counted(cfg, f + 1, n + 1);
      Single(Get(cfg, c, k, [k]), k, v, f',
             if n + 1 > cfg.maxAvgFreq && f' >= INT8_MAX then 1 else f', n + 1)
  {
    assert IsLeast(c.entries, f) by { assert k in c.entries && c.entries[k].freq == f; }
    BumpKeeps(c, k);
    hide WellFormed, Bump, IncreaseFreq;
    var c1 := Bump(c, k);
    assert c1.entries == map[k := Entry(v, f + 1)];
    assert c1.minFreq == f + 1;
    CountSingle(cfg, c1, k, v, f + 1);
  }

  lemma OneMoreGet<K(!new), V>(cfg: Config, k: K, v: V, n: nat, f: int)
    requires LegalRun(cfg, OneKeyRun(k, v, n))
    requires Single(Run(cfg, OneKeyRun(k, v, n)), k, v, f, f, n + 1)
    ensures LegalRun(cfg, OneKeyRun(k, v, n + 1))
    ensures var f' := Counted(cfg, f + 1, n + 2);
      Single(Run(cfg, OneKeyRun(k, v, n + 1)), k, v, f',
             if n + 2 > cfg.maxAvgFreq && f' >= INT8_MAX then 1 else f', n + 2)
  {
    hide WellFormed, Get;
    var ops := OneKeyRun(k, v, n + 1);
    var front := ops[..|ops| - 1];
    assert front == OneKeyRun(k, v, n);
    var c := Run(cfg, front);
    GetSingle(cfg, c, k, v, f, n + 1);
    assert Apply(cfg, c, OpGet(k, [k])).entries.Keys == {k};
  }

  /** Without aging, or with an aging step of zero, the one key just climbs. */
  lemma {:induction false} OneKeyClimbs<K(!new), V>(cfg: Config, k: K, v: V, n: nat)
    requires cfg.capacity != 0
    requires n < cfg.maxAvgFreq || (-1 <= cfg.maxAvgFreq <= 1 && n < 126)
    ensures LegalRun(cfg, OneKeyRun(k, v, n))
    ensures Single(Run(cfg, OneKeyRun(k, v, n)), k, v, n + 1, n + 1, n + 1)
    decreases n
  {
    hide Single, LegalRun, Run;
    if n == 0 {
      FirstPut(cfg, k, v);
    } else {
      OneKeyClimbs(cfg, k, v, n - 1);
      OneMoreGet(cfg, k, v, n - 1, n);
    }
  }

  /** The run that corrupts `minFreq` when the maximum average is out of range: its length. */
  function BreakingGets(maxAvgFreq: int): nat {
    if maxAvgFreq <= -2 then 0 else if maxAvgFreq <= 1 then 126 else maxAvgFreq
  }

  /** Out of range, a cache that can hold a key at all is corrupted by a single key: `minFreq` is 1
      although the key's frequency is larger, so an eviction would find an empty list. */
  lemma OneKeyBreaks<K(!new), V>(cfg: Config, k: K, v: V)
    requires cfg.capacity != 0 && !InRange(cfg)
    ensures var ops := OneKeyRun(k, v, BreakingGets(cfg.maxAvgFreq));
      && LegalRun(cfg, ops)
      && k in Run(cfg, ops).entries
      && Run(cfg, ops).minFreq == 1 < Run(cfg, ops).entries[k].freq
      && !HasVictim(Run(cfg, ops))
      && Run(cfg, ops).totalFreq == BreakingGets(cfg.maxAvgFreq) + 1
  {
    hide LegalRun, Run, WellFormed;
    var n := BreakingGets(cfg.maxAvgFreq);
    if n == 0 {
      FirstPut(cfg, k, v);
    } else {
      OneKeyClimbs(cfg, k, v, n - 1);
      OneMoreGet(cfg, k, v, n - 1, n);
    }
    EmptyListUnused(Run(cfg, OneKeyRun(k, v, n)), 1);
  }

  /** `minFreq` is exact after every run if and only if the cache can hold nothing or its maximum
      average lies between 2 and 250. */
  lemma MinFreqExactIff<K(!new), V>(cfg: Config, k: K, v: V)
    ensures (forall ops: seq<Op<K, V>> :: LegalRun(cfg, ops) ==> MinFreqExact(Run(cfg, ops)))
            <==> cfg.capacity == 0 || InRange(cfg)
  {
    if cfg.capacity == 0 {
      forall ops: seq<Op<K, V>> | LegalRun(cfg, ops)
        ensures MinFreqExact(Run(cfg, ops))
      {
        NothingCached(cfg, ops);
      }
    } else if InRange(cfg) {
      forall ops: seq<Op<K, V>> | LegalRun(cfg, ops)
        ensures MinFreqExact(Run(cfg, ops))
      {
        RunIsSane(cfg, ops, OpPurge);
      }
    } else {
      OneKeyBreaks(cfg, k, v);
      var ops := OneKeyRun(k, v, BreakingGets(cfg.maxAvgFreq));
      assert !MinFreqExact(Run(cfg, ops)) by {
        assert k in Run(cfg, ops).entries;
      }
    }
  }

  lemma {:induction false} NothingCached<K(!new), V>(cfg: Config, ops: seq<Op<K, V>>)
    requires cfg.capacity == 0 && LegalRun(cfg, ops)
    ensures Run(cfg, ops).entries == map[]
    decreases |ops|
  {
    if ops != [] {
      NothingCached(cfg, ops[..|ops| - 1]);
    }
  }

  // ----- a map with evictions -----

  lemma BumpContents<K(!new), V>(c: Cache<K, V>, k: K)
    requires k in c.entries
    ensures Values(Bump(c, k)) == Values(c)
  {
  }

  /** A get changes no value and neither adds nor drops a key. */
  lemma GetContents<K(!new), V>(cfg: Config, c: Cache<K, V>, k: K, visit: seq<K>)
    ensures Values(Get(cfg, c, k, visit)) == Values(c)
  {
    if k in c.entries {
      BumpContents(c, k);
      IncreaseContents(cfg, Bump(c, k), visit);
    }
  }

  /** A put maps the key to the value; the only other change is that a new key put into a full cache
      drops the victim. */
  lemma PutContents<K(!new), V>(cfg: Config, c: Cache<K, V>, k: K, v: V, visit: seq<K>)
    requires CanPut(cfg, c, k) && cfg.capacity != 0
    ensures var evicts := k !in c.entries && |c.entries| == cfg.capacity;
      Values(Put(cfg, c, k, v, visit)) == (if evicts then Values(c) - {Victim(c)} else Values(c))[k := v]
  {
    hide IncreaseFreq, Bump;
    if k in c.entries {
      var c1 := Overwrite(c, k, v);
      BumpContents(c1, k);
      IncreaseContents(cfg, Bump(c1, k), visit);
    } else {
      var c1 := if |c.entries| == cfg.capacity then KickOut(c) else c;
      IncreaseContents(cfg, Insert(c1, k, v), visit);
    }
  }

  lemma PutKeys<K(!new), V>(cfg: Config, c: Cache<K, V>, k: K, v: V, visit: seq<K>)
    requires CanPut(cfg, c, k)
    ensures Put(cfg, c, k, v, visit).entries.Keys <= c.entries.Keys + {k}
  {
    if cfg.capacity != 0 {
      hide Put;
      PutContents(cfg, c, k, v, visit);
      assert Values(c).Keys == c.entries.Keys;
      assert Values(Put(cfg, c, k, v, visit)).Keys == Put(cfg, c, k, v, visit).entries.Keys;
    }
  }

  /** A key leaves only by purge, or when a new key is put into a full cache; the one key that leaves
      then has the smallest frequency and is the first to have arrived there. */
  lemma OnlyTheLeastLeaves<K(!new), V>(cfg: Config, c: Cache<K, V>, op: Op<K, V>, x: K)
    requires InRange(cfg) && Sane(cfg, c) && CanApply(cfg, c, op)
    requires x in c.entries && x !in Apply(cfg, c, op).entries
    ensures op.OpPurge? ||
      (&& op.OpPut? && op.key !in c.entries && |c.entries| == cfg.capacity
       && ListAt(c, c.entries[x].freq)[..1] == [x]
       && forall y :: y in c.entries ==> c.entries[x].freq <= c.entries[y].freq)
  {
    hide WellFormed, Put, Get;
    assert x in Values(c) && x !in Values(Apply(cfg, c, op));
    if cfg.capacity != 0 {
      VictimExists(c);
    }
    match op
    case OpPurge =>
    case OpGet(k, visit) => GetContents(cfg, c, k, visit);
    case OpPut(k, v, visit) =>
      if cfg.capacity != 0 {
        PutContents(cfg, c, k, v, visit);
      }
  }

  /** The value of the last put of `k` that no purge followed. */
  ghost function LastPut<K, V>(ops: seq<Op<K, V>>, k: K): Option<V> {
    if ops == [] then None
    else
      match ops[|ops| - 1]
      case OpPurge => None
      case OpPut(x, v, _) => if x == k then Some(v) else LastPut(ops[..|ops| - 1], k)
      case OpGet(_, _) => LastPut(ops[..|ops| - 1], k)
  }

  /** After every run, a hit returns the value that was last put for its key. */
  lemma {:induction false} HitReturnsLastPut<K(!new), V>(cfg: Config, ops: seq<Op<K, V>>, k: K)
    requires LegalRun(cfg, ops) && k in Run(cfg, ops).entries
    ensures LastPut(ops, k) == Some(Run(cfg, ops).entries[k].value)
    decreases |ops|
  {
    hide Put, Get, IsVisit;
    assert ops != [];
    var front, last := ops[..|ops| - 1], ops[|ops| - 1];
    var c := Run(cfg, front);
    assert k in Values(Run(cfg, ops)) && Values(Run(cfg, ops))[k] == Run(cfg, ops).entries[k].value;
    match last
    case OpPurge =>
    case OpGet(x, visit) =>
      GetContents(cfg, c, x, visit);
      assert k in Values(c);
      HitReturnsLastPut(cfg, front, k);
    case OpPut(x, v, visit) =>
      if cfg.capacity == 0 {
        NothingCached(cfg, ops);
      } else {
        PutContents(cfg, c, x, v, visit);
        if x != k {
          assert k in Values(c);
          HitReturnsLastPut(cfg, front, k);
        }
      }
  }

  /** The running total never exceeds the number of operations, so a run shorter than 2^31 does not
      overflow the 32-bit counter. */
  lemma {:induction false} TotalWithinRunLength<K(!new), V>(cfg: Config, ops: seq<Op<K, V>>)
    requires InRange(cfg) && LegalRun(cfg, ops)
    ensures 0 <= Run(cfg, ops).totalFreq <= |ops|
    decreases |ops|
  {
    if ops != [] {
      var front, last := ops[..|ops| - 1], ops[|ops| - 1];
      TotalWithinRunLength(cfg, front);
      RunIsSane(cfg, front, last);
      RunIsSane(cfg, ops, last);
      hide IncreaseFreq, IsVisit;
      SumAtLeast(Run(cfg, ops).entries, 0);
      TotalStep(cfg, Run(cfg, front), last);
    }
  }

  lemma IncreaseTotal<K(!new), V>(cfg: Config, c: Cache<K, V>, visit: seq<K>)
    ensures IncreaseFreq(cfg, c, visit).totalFreq == c.totalFreq + 1
  {
    AgeEachTotal(Average(c.(totalFreq := c.totalFreq + 1)), visit, AgingStep(cfg.maxAvgFreq));
  }

  lemma {:induction false} AgeEachTotal<K(!new), V>(c: Cache<K, V>, visit: seq<K>, step: int)
    ensures AgeEach(c, visit, step).totalFreq == c.totalFreq
  {
    if visit != [] {
      AgeEachTotal(c, visit[..|visit| - 1], step);
    }
  }

  lemma TotalStep<K(!new), V>(cfg: Config, c: Cache<K, V>, op: Op<K, V>)
    requires InRange(cfg) && Sane(cfg, c) && CanApply(cfg, c, op)
    ensures Apply(cfg, c, op).totalFreq <= c.totalFreq + 1
  {
    hide IncreaseFreq;
    match op
    case OpPurge =>
    case OpGet(k, visit) =>
      if k in c.entries { IncreaseTotal(cfg, Bump(c, k), visit); }
    case OpPut(k, v, visit) =>
      if cfg.capacity != 0 {
        if k in c.entries {
          IncreaseTotal(cfg, Bump(Overwrite(c, k, v), k), visit);
        } else {
          var c1 := if |c.entries| == cfg.capacity then KickOut(c) else c;
          IncreaseTotal(cfg, Insert(c1, k, v), visit);
        }
      }
  }
}
