/** The cache split into slices by the hash of the key. */
module ShardedLfus {
  import opened Basics
  import opened LfuModel
  import opened FreqLists
  import opened LfuCaches
  import LfuTheorems

  /** `ceil(a / b)` for the slice size. */
  function CeilDiv(a: nat, b: nat): nat
    requires b > 0
  {
    (a + b - 1) / b
  }

  function SliceOf<K>(hash: K -> nat, n: nat, k: K): (i: nat)
    requires n > 0
    ensures i < n
  {
    hash(k) % n
  }

  /** The slice is what is left of the hash after whole multiples of the number of slices, so slice i takes
      every n-th hash from i on. */
  lemma SliceIsRemainder<K>(hash: K -> nat, n: nat, k: K, q: nat, i: nat)
    requires i < n
    ensures SliceOf(hash, n, k) == i <==> hash(k) / n * n + i == hash(k)
    ensures hash(k) == q * n + i ==> SliceOf(hash, n, k) == i
  {
    var h := hash(k);
    assert h == h / n * n + h % n;
    if h == q * n + i {
      SameQuotient(q, h / n, n, i, h % n);
    }
  }

  lemma SameQuotient(q: nat, p: nat, n: nat, i: nat, j: nat)
    requires q * n + i == p * n + j && i < n && j < n
    ensures q == p && i == j
  {
    if q < p {
      NextMultiple(q, p, n);
    } else if p < q {
      NextMultiple(p, q, n);
    }
  }

  lemma NextMultiple(q: nat, p: nat, n: nat)
    requires q < p
    ensures q * n + n <= p * n
  {
    assert (q + 1) * n <= p * n;
  }

  /** Every key lives only in the slice its hash selects, and every slice is sane. */
  ghost predicate Placed<K(!new), V>(hash: K -> nat, cfg: Config, views: seq<Cache<K, V>>) {
    && |views| > 0
    && (forall i :: 0 <= i < |views| ==> LfuTheorems.Sane(cfg, views[i]))
    && (forall i, k :: 0 <= i < |views| && k in views[i].entries ==> SliceOf(hash, |views|, k) == i)
  }

  /** The one map the slices stand for. */
  ghost function Lookup<K(!new), V>(hash: K -> nat, views: seq<Cache<K, V>>, k: K): Option<V>
    requires |views| > 0
  {
    var c := views[SliceOf(hash, |views|, k)];
    if k in c.entries then Some(c.entries[k].value) else None
  }

  ghost function TotalKeys<K, V>(views: seq<Cache<K, V>>): nat {
    if views == [] then 0 else |views[0].entries| + TotalKeys(views[1..])
  }

  lemma {:induction false} TotalAtMost<K(!new), V>(cfg: Config, views: seq<Cache<K, V>>)
    requires forall i :: 0 <= i < |views| ==> |views[i].entries| <= cfg.capacity
    ensures TotalKeys(views) <= |views| * cfg.capacity
  {
    if views != [] {
      TotalAtMost(cfg, views[1..]);
      LfuTheorems.Times(cfg.capacity, |views|);
    }
  }

  /** The slices together hold fewer than `capacity + n` keys, `n` being their number. */
  lemma TotalBounded<K(!new), V>(hash: K -> nat, cfg: Config, views: seq<Cache<K, V>>, capacity: nat)
    requires Placed(hash, cfg, views) && cfg.capacity == CeilDiv(capacity, |views|)
    ensures TotalKeys(views) <= |views| * CeilDiv(capacity, |views|) < capacity + |views|
  {
    hide WellFormed, SliceOf;
    TotalAtMost(cfg, views);
    CeilDivBound(capacity, |views|);
  }

  lemma CeilDivBound(a: nat, b: nat)
    requires b > 0
    ensures a <= b * CeilDiv(a, b) < a + b
  {
  }

  /** A put is seen by the next lookup of its key; another key keeps its value, unless it is the
      single victim of a full slice; and keys of other slices are never affected. */
  lemma PutLookup<K(!new), V>(hash: K -> nat, cfg: Config, views: seq<Cache<K, V>>, k: K, v: V, visit: seq<K>, x: K)
    requires LfuTheorems.InRange(cfg) && Placed(hash, cfg, views) && cfg.capacity != 0
    requires CanPut(cfg, views[SliceOf(hash, |views|, k)], k)
    ensures var i := SliceOf(hash, |views|, k);
      var views' := views[i := Put(cfg, views[i], k, v, visit)];
      var evicts := k !in views[i].entries && |views[i].entries| == cfg.capacity;
      && (x == k ==> Lookup(hash, views', x) == Some(v))
      && (x != k && !(evicts && x == Victim(views[i])) ==> Lookup(hash, views', x) == Lookup(hash, views, x))
      && (x != k && evicts && x == Victim(views[i]) ==> Lookup(hash, views', x) == None)
  {
    hide LfuTheorems.Sane, Put, CanPut, HasVictim;
    var i := SliceOf(hash, |views|, k);
    LfuTheorems.PutContents(cfg, views[i], k, v, visit);
    SameValue(views[i], x);
    SameValue(Put(cfg, views[i], k, v, visit), x);
    if k !in views[i].entries && |views[i].entries| == cfg.capacity {
      VictimCached(cfg, views[i], k);
    }
  }

  lemma VictimCached<K(!new), V>(cfg: Config, c: Cache<K, V>, k: K)
    requires cfg.capacity != 0 && CanPut(cfg, c, k) && k !in c.entries && |c.entries| == cfg.capacity
    ensures HasVictim(c) && Victim(c) in c.entries
  {
  }

  lemma SameValue<K(!new), V>(c: Cache<K, V>, x: K)
    ensures x in Values(c) <==> x in c.entries
    ensures x in c.entries ==> Values(c)[x] == c.entries[x].value
  {
  }

  // ----- runs of the sharded cache -----

  /** A put or a get is for the slice its key hashes to, a purge for all of them. */
  ghost predicate ShardedLegal<K(!new), V>(hash: K -> nat, cfg: Config, views: seq<Cache<K, V>>, op: Op<K, V>) {
    |views| > 0 && (op.OpPurge? || Legal(cfg, views[SliceOf(hash, |views|, op.key)], op))
  }

  ghost function ShardedApply<K(!new), V>(hash: K -> nat, cfg: Config, views: seq<Cache<K, V>>, op: Op<K, V>)
    : (r: seq<Cache<K, V>>)
    requires ShardedLegal(hash, cfg, views, op)
    ensures |r| == |views|
  {
    if op.OpPurge? then seq(|views|, i requires 0 <= i < |views| => Purge(views[i]))
    else
      var i := SliceOf(hash, |views|, op.key);
      views[i := Apply(cfg, views[i], op)]
  }

  ghost predicate ShardedLegalRun<K(!new), V>(hash: K -> nat, cfg: Config, n: nat, ops: seq<Op<K, V>>)
    decreases |ops|, 0
  {
    ops == [] ||
    (ShardedLegalRun(hash, cfg, n, ops[..|ops| - 1])
     && ShardedLegal(hash, cfg, ShardedRun(hash, cfg, n, ops[..|ops| - 1]), ops[|ops| - 1]))
  }

  ghost function ShardedRun<K(!new), V>(hash: K -> nat, cfg: Config, n: nat, ops: seq<Op<K, V>>): (r: seq<Cache<K, V>>)
    requires ShardedLegalRun(hash, cfg, n, ops)
    ensures |r| == n
    decreases |ops|, 1
  {
    if ops == [] then seq(n, i => Empty())
    else ShardedApply(hash, cfg, ShardedRun(hash, cfg, n, ops[..|ops| - 1]), ops[|ops| - 1])
  }

  /** The operations that reach slice i. */
  ghost function Project<K, V>(hash: K -> nat, n: nat, i: nat, ops: seq<Op<K, V>>): seq<Op<K, V>>
    requires n > 0
  {
    if ops == [] then []
    else
      var last := ops[|ops| - 1];
      Project(hash, n, i, ops[..|ops| - 1]) + if last.OpPurge? || SliceOf(hash, n, last.key) == i then [last] else []
  }

  /** Each slice has gone through exactly its own operations. */
  lemma {:induction false} SliceRun<K(!new), V>(hash: K -> nat, cfg: Config, n: nat, i: nat, ops: seq<Op<K, V>>)
    requires i < n && ShardedLegalRun(hash, cfg, n, ops)
    ensures LegalRun(cfg, Project(hash, n, i, ops))
    ensures ShardedRun(hash, cfg, n, ops)[i] == Run(cfg, Project(hash, n, i, ops))
    decreases |ops|
  {
    hide Apply, Purge, SliceOf, CanApply, IsVisit;
    if ops != [] {
      var front, last := ops[..|ops| - 1], ops[|ops| - 1];
      SliceRun(hash, cfg, n, i, front);
      if last.OpPurge? || SliceOf(hash, n, last.key) == i {
        RunSnoc(cfg, Project(hash, n, i, front), last);
        PurgeIsApply(cfg, Run(cfg, Project(hash, n, i, front)));
      } else {
        assert Project(hash, n, i, ops) == Project(hash, n, i, front);
      }
    }
  }

  lemma RunSnoc<K(!new), V>(cfg: Config, ops: seq<Op<K, V>>, op: Op<K, V>)
    requires LegalRun(cfg, ops) && Legal(cfg, Run(cfg, ops), op)
    ensures LegalRun(cfg, ops + [op]) && Run(cfg, ops + [op]) == Apply(cfg, Run(cfg, ops), op)
  {
    assert (ops + [op])[..|ops|] == ops;
  }

  lemma PurgeIsApply<K(!new), V>(cfg: Config, c: Cache<K, V>)
    ensures Legal(cfg, c, OpPurge) && Apply(cfg, c, OpPurge) == Purge(c)
  {
  }

  lemma {:induction false} LastPutProjected<K, V>(hash: K -> nat, n: nat, i: nat, ops: seq<Op<K, V>>, k: K)
    requires n > 0
    ensures LfuTheorems.LastPut(Project(hash, n, i, ops), k)
         == if SliceOf(hash, n, k) == i then LfuTheorems.LastPut(ops, k) else None
  {
    hide SliceOf;
    if ops != [] {
      var front, last := ops[..|ops| - 1], ops[|ops| - 1];
      LastPutProjected(hash, n, i, front, k);
      var p := Project(hash, n, i, front);
      assert (p + [last])[..|p|] == p;
      assert p + [] == p;
    }
  }

  /** After every run of the sharded cache a hit returns the value last put for its key. */
  lemma ShardedHitReturnsLastPut<K(!new), V>(hash: K -> nat, cfg: Config, n: nat, ops: seq<Op<K, V>>, k: K)
    requires n > 0 && ShardedLegalRun(hash, cfg, n, ops)
    ensures var hit := Lookup(hash, ShardedRun(hash, cfg, n, ops), k);
      hit.Some? ==> hit == LfuTheorems.LastPut(ops, k)
  {
    hide Run, LegalRun, ShardedRun, ShardedLegalRun, Project, SliceOf;
    var i := SliceOf(hash, n, k);
    SliceRun(hash, cfg, n, i, ops);
    LastPutProjected(hash, n, i, ops, k);
    if k in Run(cfg, Project(hash, n, i, ops)).entries {
      LfuTheorems.HitReturnsLastPut(cfg, Project(hash, n, i, ops), k);
    }
  }

  /** After every run each key is only in the slice its hash selects, and the slices are sane. */
  lemma ShardedRunPlaced<K(!new), V>(hash: K -> nat, cfg: Config, n: nat, ops: seq<Op<K, V>>)
    requires n > 0 && LfuTheorems.InRange(cfg) && ShardedLegalRun(hash, cfg, n, ops)
    ensures Placed(hash, cfg, ShardedRun(hash, cfg, n, ops))
  {
    hide Run, LegalRun, ShardedRun, ShardedLegalRun, Project, SliceOf, LfuTheorems.Sane;
    var views := ShardedRun(hash, cfg, n, ops);
    forall i | 0 <= i < n
      ensures LfuTheorems.Sane(cfg, views[i])
      ensures forall k :: k in views[i].entries ==> SliceOf(hash, n, k) == i
    {
      SliceRun(hash, cfg, n, i, ops);
      var p := Project(hash, n, i, ops);
      LfuTheorems.RunIsSane(cfg, p, OpPurge);
      forall k | k in views[i].entries ensures SliceOf(hash, n, k) == i {
        LfuTheorems.HitReturnsLastPut(cfg, p, k);
        LastPutProjected(hash, n, i, ops, k);
      }
    }
  }

  class HashLfuCache<K(0, ==, !new), V(0)> {
    const capacity: nat
    const hash: K -> nat
    const cfg: Config  // of every slice
    const slices: seq<LfuCache<K, V>>
    ghost var history: seq<Op<K, V>>  // the operations so far

    ghost function Nodes(): set<Node<K, V>>
      reads slices`nodes
    {
      set i, n | 0 <= i < |slices| && n in slices[i].nodes :: n
    }

    ghost function Lists(): set<FreqList<K, V>>
      reads slices`lists
    {
      set i, l | 0 <= i < |slices| && l in slices[i].lists :: l
    }

    ghost predicate Apart()
      reads slices`nodes, slices`lists
    {
      forall i, j :: 0 <= i < j < |slices| ==>
        slices[i] != slices[j] && slices[i].nodes !! slices[j].nodes && slices[i].lists !! slices[j].lists
    }

    constructor (capacity: nat, sliceNum: int, hardware: nat, maxAverageNum: int, hash: K -> nat)
      requires sliceNum > 0 || hardware > 0  // some slice to hash to
      ensures this.capacity == capacity && this.hash == hash && history == []
      ensures |slices| == if sliceNum > 0 then sliceNum else hardware
      ensures cfg == Config(CeilDiv(capacity, |slices|), maxAverageNum)
      ensures forall i :: 0 <= i < |slices| ==> fresh(slices[i]) && slices[i].cfg == cfg && slices[i].nodeMap == map[]
      ensures LfuTheorems.InRange(cfg) ==> Valid() && Tracked()
    {
      hide LfuCache.Valid, LfuCache.Healthy, LfuCache.View, LfuCache.State, SliceOf;
      var n := if sliceNum > 0 then sliceNum else hardware;
      this.capacity, this.hash := capacity, hash;
      var sliceSize := CeilDiv(capacity, n);
      cfg := Config(sliceSize, maxAverageNum);
      var built: seq<LfuCache<K, V>> := [];
      while |built| < n
        invariant |built| <= n
        invariant forall i :: 0 <= i < |built| ==>
          && fresh(built[i]) && built[i].nodes == {} && built[i].lists == {} && built[i].nodeMap == map[]
          && built[i].cfg == Config(sliceSize, maxAverageNum)
          && (LfuTheorems.InRange(built[i].cfg) ==> built[i].Healthy() && built[i].State() == Empty())
        invariant forall i, j :: 0 <= i < j < |built| ==> built[i] != built[j]
      {
        var slice := new LfuCache<K, V>(sliceSize, maxAverageNum);
        built := built + [slice];
      }
      slices := built;
      history := [];
    }

    ghost predicate Valid()
      reads slices, Nodes(), Lists()
    {
      && |slices| > 0 && cfg.capacity == CeilDiv(capacity, |slices|)
      && Apart()
      && (forall i :: 0 <= i < |slices| ==> slices[i].nodes <= Nodes() && slices[i].lists <= Lists())
      && (forall i :: 0 <= i < |slices| ==> slices[i].cfg == cfg && slices[i].Healthy())
      && (forall i, k :: 0 <= i < |slices| && k in slices[i].nodeMap ==> SliceOf(hash, |slices|, k) == i)
    }

    ghost function Views(): seq<Cache<K, V>>
      requires Valid()
      reads slices, Nodes(), Lists()
    {
      seq(|slices|, i requires 0 <= i < |slices| reads slices, Nodes(), Lists() requires Valid() => slices[i].State())
    }

    /** The slices are where the history has brought them. */
    ghost predicate Tracked()
      requires Valid()
      reads `history, slices, Nodes(), Lists()
    {
      ShardedLegalRun(hash, cfg, |slices|, history) && Views() == ShardedRun(hash, cfg, |slices|, history)
    }

    static lemma OneMore(hash: K -> nat, cfg: Config, n: nat, ops: seq<Op<K, V>>, op: Op<K, V>)
      requires ShardedLegalRun(hash, cfg, n, ops)
      requires ShardedLegal(hash, cfg, ShardedRun(hash, cfg, n, ops), op)
      ensures ShardedLegalRun(hash, cfg, n, ops + [op])
      ensures ShardedRun(hash, cfg, n, ops + [op]) == ShardedApply(hash, cfg, ShardedRun(hash, cfg, n, ops), op)
    {
      assert (ops + [op])[..|ops|] == ops;
    }

    /** The cache as a whole holds fewer than capacity + number of slices keys. */
    lemma SizeBounded()
      requires Valid()
      ensures TotalKeys(Views()) <= |slices| * CeilDiv(capacity, |slices|) < capacity + |slices|
    {
      hide LfuCache.Valid, LfuCache.Healthy, Placed, CeilDiv, Apart;
      ViewsPlaced();
      TotalBounded(hash, cfg, Views(), capacity);
    }

    lemma ViewsPlaced()
      requires Valid()
      ensures Placed(hash, cfg, Views()) && LfuTheorems.InRange(cfg)
    {
      hide LfuTheorems.Sane, LfuCache.Valid;
      assert slices[0].Healthy();
      forall i | 0 <= i < |slices|
        ensures LfuTheorems.Sane(cfg, Views()[i]) && Views()[i].entries.Keys == slices[i].nodeMap.Keys
      {
        assert slices[i].Healthy();
        slices[i].ViewSize();
      }
    }

    /** Puts into one slice; the others are untouched. */
    method PutAt(i: nat, key: K, value: V) returns (ghost visit: seq<K>)
      requires Valid() && i < |slices|
      modifies slices, Nodes(), Lists()
      ensures Apart()
      ensures forall j :: 0 <= j < |slices| ==> slices[j].Healthy()
      ensures forall j :: 0 <= j < |slices| && j != i ==> slices[j].nodeMap == old(slices[j].nodeMap)
      ensures forall j :: 0 <= j < |slices| && j != i ==> slices[j].State() == old(slices[j].State())
      ensures forall k :: k in slices[i].nodeMap ==> k in old(slices[i].nodeMap) || k == key
      ensures CanPut(cfg, old(slices[i].State()), key)
      ensures slices[i].State() == LfuModel.Put(cfg, old(slices[i].State()), key, value, visit)
      ensures IsVisit(visit, slices[i].State().entries.Keys)
    {
      hide LfuCache.Valid, LfuCache.Healthy, LfuCache.View, LfuCache.State, SliceOf, CanPut, LfuModel.Put, IsVisit;
      visit := slices[i].PutHealthy(key, value);
      slices[i].StateKeys();
    }

    /** Only the slice of the key changes; the key is found from now on, and at most one other is not. */
    method Put(key: K, value: V) returns (ghost visit: seq<K>)
      requires Valid() && Tracked()
      modifies slices, Nodes(), Lists(), `history
      ensures Valid() && Tracked() && history == old(history) + [OpPut(key, value, visit)]
      ensures ShardedLegal(hash, cfg, old(Views()), OpPut(key, value, visit))
      ensures Views() == ShardedApply(hash, cfg, old(Views()), OpPut(key, value, visit))
      ensures cfg.capacity != 0 ==> Lookup(hash, Views(), key) == Some(value)
      ensures forall x :: x != key && Lookup(hash, Views(), x) != Lookup(hash, old(Views()), x) ==>
                Evicts(old(Views()), key, x) && Lookup(hash, Views(), x) == None
    {
      hide LfuCache.Valid, LfuCache.Healthy, LfuCache.View, LfuCache.State, SliceOf, CanPut, LfuModel.Put, Apart,
        ShardedRun, ShardedLegalRun, Lookup, Evicts, Placed, IsVisit;
      ViewsPlaced();
      visit := PutHere(key, value);
      OneMore(hash, cfg, |slices|, history, OpPut(key, value, visit));
      history := history + [OpPut(key, value, visit)];
      PutSeen(old(Views()), key, value, visit);
    }

    /** A put of `key` drops `x`, the first of least frequency in a full slice. */
    ghost predicate Evicts(views: seq<Cache<K, V>>, key: K, x: K) {
      && |views| > 0
      && var c := views[SliceOf(hash, |views|, key)];
         key !in c.entries && |c.entries| == cfg.capacity && HasVictim(c) && x == Victim(c)
    }

    lemma PutSeen(views: seq<Cache<K, V>>, key: K, value: V, visit: seq<K>)
      requires LfuTheorems.InRange(cfg) && Placed(hash, cfg, views)
      requires ShardedLegal(hash, cfg, views, OpPut(key, value, visit))
      ensures var after := ShardedApply(hash, cfg, views, OpPut(key, value, visit));
        && (cfg.capacity != 0 ==> Lookup(hash, after, key) == Some(value))
        && forall x :: x != key && Lookup(hash, after, x) != Lookup(hash, views, x) ==>
             Evicts(views, key, x) && Lookup(hash, after, x) == None
    {
      hide SliceOf, LfuModel.Put, CanPut, Lookup, Placed, IsVisit, HasVictim, Victim;
      var i := SliceOf(hash, |views|, key);
      if cfg.capacity == 0 {
        assert views[i := views[i]] == views;
        PutNothing(cfg, views[i], key, value, visit);
      } else {
        PutLookup(hash, cfg, views, key, value, visit, key);
        forall x | x != key && Lookup(hash, ShardedApply(hash, cfg, views, OpPut(key, value, visit)), x) != Lookup(hash, views, x)
          ensures Evicts(views, key, x) && Lookup(hash, ShardedApply(hash, cfg, views, OpPut(key, value, visit)), x) == None
        {
          PutLookup(hash, cfg, views, key, value, visit, x);
          if key !in views[i].entries && |views[i].entries| == cfg.capacity {
            VictimCached(cfg, views[i], key);
          }
        }
      }
    }

    static lemma PutNothing(cfg: Config, c: Cache<K, V>, key: K, value: V, visit: seq<K>)
      requires cfg.capacity == 0
      ensures LfuModel.Put(cfg, c, key, value, visit) == c
    {
    }

    method PutHere(key: K, value: V) returns (ghost visit: seq<K>)
      requires Valid()
      modifies slices, Nodes(), Lists()
      ensures Valid()
      ensures ShardedLegal(hash, cfg, old(Views()), OpPut(key, value, visit))
      ensures Views() == ShardedApply(hash, cfg, old(Views()), OpPut(key, value, visit))
    {
      hide LfuCache.Valid, LfuCache.Healthy, LfuCache.View, LfuCache.State, SliceOf, CanPut, LfuModel.Put, Apart, IsVisit;
      var sliceIndex := SliceOf(hash, |slices|, key);
      visit := PutAt(sliceIndex, key, value);
    }

    method GetAt(i: nat, key: K) returns (found: bool, value: V, ghost visit: seq<K>)
      requires Valid() && i < |slices|
      modifies slices, Nodes(), Lists()
      ensures Apart()
      ensures forall j :: 0 <= j < |slices| ==> slices[j].Healthy() && slices[j].nodeMap == old(slices[j].nodeMap)
      ensures forall j :: 0 <= j < |slices| && j != i ==> slices[j].State() == old(slices[j].State())
      ensures slices[i].State() == LfuModel.Get(cfg, old(slices[i].State()), key, visit)
      ensures IsVisit(visit, slices[i].State().entries.Keys)
      ensures found == (key in old(slices[i].State()).entries)
      ensures found ==> value == old(slices[i].State()).entries[key].value
    {
      hide LfuCache.Valid, LfuCache.Healthy, LfuCache.View, LfuCache.State, SliceOf, LfuModel.Get, IsVisit;
      found, value, visit := slices[i].GetHealthy(key);
      slices[i].StateKeys();
    }

    /** A hit is exactly a key the sharded map holds, and yields the value last put for it. */
    method Get(key: K) returns (found: bool, value: V, ghost visit: seq<K>)
      requires Valid() && Tracked()
      modifies slices, Nodes(), Lists(), `history
      ensures Valid() && Tracked() && history == old(history) + [OpGet(key, visit)]
      ensures Lookup(hash, old(Views()), key) == if found then Some(value) else None
      ensures found ==> LfuTheorems.LastPut(old(history), key) == Some(value)
      ensures ShardedLegal(hash, cfg, old(Views()), OpGet(key, visit))
      ensures Views() == ShardedApply(hash, cfg, old(Views()), OpGet(key, visit))
    {
      hide LfuCache.Valid, LfuCache.Healthy, LfuCache.View, LfuCache.State, SliceOf, LfuModel.Get, Apart,
        ShardedRun, ShardedLegalRun, Lookup, IsVisit;
      ShardedHitReturnsLastPut(hash, cfg, |slices|, history, key);
      found, value, visit := GetHere(key);
      OneMore(hash, cfg, |slices|, history, OpGet(key, visit));
      history := history + [OpGet(key, visit)];
    }

    method GetHere(key: K) returns (found: bool, value: V, ghost visit: seq<K>)
      requires Valid()
      modifies slices, Nodes(), Lists()
      ensures Valid()
      ensures Lookup(hash, old(Views()), key) == if found then Some(value) else None
      ensures ShardedLegal(hash, cfg, old(Views()), OpGet(key, visit))
      ensures Views() == ShardedApply(hash, cfg, old(Views()), OpGet(key, visit))
    {
      hide LfuCache.Valid, LfuCache.Healthy, LfuCache.View, LfuCache.State, SliceOf, LfuModel.Get, Apart, IsVisit;
      var sliceIndex := SliceOf(hash, |slices|, key);
      found, value, visit := GetAt(sliceIndex, key);
    }

    method PurgeAt(i: nat)
      requires Valid() && i < |slices|
      modifies slices
      ensures Apart()
      ensures forall j :: 0 <= j < |slices| ==> slices[j].Healthy()
      ensures forall j :: 0 <= j < |slices| && j != i ==> slices[j].nodeMap == old(slices[j].nodeMap)
      ensures forall j :: 0 <= j < |slices| && j != i ==> slices[j].State() == old(slices[j].State())
      ensures forall k :: k !in slices[i].nodeMap
      ensures slices[i].State() == LfuModel.Purge(old(slices[i].State()))
    {
      hide LfuCache.Valid, LfuCache.Healthy, LfuCache.View, LfuCache.State, SliceOf, LfuModel.Purge;
      slices[i].PurgeHealthy();
    }

    /** Purges the slices one after the other. */
    method Purge()
      requires Valid() && Tracked()
      modifies slices, Nodes(), Lists(), `history
      ensures Valid() && Tracked() && history == old(history) + [OpPurge]
      ensures Views() == ShardedApply(hash, cfg, old(Views()), OpPurge)
      ensures forall x :: Lookup(hash, Views(), x) == None
    {
      hide LfuCache.Valid, LfuCache.Healthy, LfuCache.View, LfuCache.State, SliceOf, LfuModel.Purge, Apart,
        ShardedRun, ShardedLegalRun;
      PurgeAll();
      OneMore(hash, cfg, |slices|, history, OpPurge);
      history := history + [OpPurge];
      NothingLeft(old(Views()));
    }

    lemma NothingLeft(views: seq<Cache<K, V>>)
      requires |views| > 0
      ensures ShardedLegal(hash, cfg, views, OpPurge)
      ensures forall x :: Lookup(hash, ShardedApply(hash, cfg, views, OpPurge), x) == None
    {
    }

    method PurgeSlice(i: nat)
      requires Valid() && i < |slices|
      modifies slices
      ensures Valid() && i < |old(Views())| && Views() == old(Views())[i := LfuModel.Purge(old(Views())[i])]
    {
      hide LfuCache.Valid, LfuCache.Healthy, LfuCache.View, LfuCache.State, SliceOf, LfuModel.Purge, Apart;
      PurgeAt(i);
    }

    static ghost function PurgedTo(views: seq<Cache<K, V>>, i: nat): seq<Cache<K, V>> {
      seq(|views|, j requires 0 <= j < |views| => if j < i then LfuModel.Purge(views[j]) else views[j])
    }

    lemma PurgedFacts(views: seq<Cache<K, V>>, i: nat)
      requires |views| > 0
      ensures PurgedTo(views, 0) == views
      ensures i < |views| ==> PurgedTo(views, i)[i := LfuModel.Purge(PurgedTo(views, i)[i])] == PurgedTo(views, i + 1)
      ensures ShardedLegal(hash, cfg, views, OpPurge) && ShardedApply(hash, cfg, views, OpPurge) == PurgedTo(views, |views|)
    {
      hide LfuModel.Purge;
    }

    lemma OneViewEach()
      requires Valid()
      ensures |slices| > 0 && |Views()| == |slices|
    {
    }

    method PurgeAll()
      requires Valid()
      modifies slices
      ensures Valid() && Views() == ShardedApply(hash, cfg, old(Views()), OpPurge)
    {
      hide Valid, Views, PurgedTo, ShardedApply, ShardedLegal, LfuModel.Purge;
      OneViewEach();
      PurgedFacts(Views(), 0);
      var i := 0;
      while i < |slices|
        invariant 0 <= i <= |slices| == |old(Views())| && Valid()
        invariant Views() == PurgedTo(old(Views()), i)
      {
        PurgedFacts(old(Views()), i);
        PurgeSlice(i);
        i := i + 1;
      }
    }
  }
}
