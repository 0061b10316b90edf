/** The LFU cache as a value: every private step of the cache is a function on `Cache`, and a run is
    a sequence of operations.  The heap classes in LfuCache.dfy are proved to compute these
    functions; the properties of whole runs are proved in LfuTheorems.dfy. */
module LfuModel {
  import opened Basics

  /** The start value of the search for the smallest frequency. */
  const INT8_MAX := 127

  datatype Config = Config(capacity: nat, maxAvgFreq: int)

  datatype Entry<V> = Entry(value: V, freq: int)

  /** `lists[f]` holds the keys of frequency `f` in the order in which they arrived there.  A list
      that became empty stays in the map, as in the source. */
  datatype Cache<K, V> = Cache(
    entries: map<K, Entry<V>>,
    lists: map<int, seq<K>>,
    minFreq: int,
    avgFreq: int,
    totalFreq: int)

  ghost function Empty<K, V>(): Cache<K, V> {
    Cache(map[], map[], INT8_MAX, 0, 0)
  }

  /** Integer division by two, truncating toward zero. */
  function AgingStep(maxAvgFreq: int): int {
    if maxAvgFreq >= 0 then maxAvgFreq / 2 else -(-maxAvgFreq / 2)
  }

  function Aged(freq: int, step: int): int {
    if freq - step < 1 then 1 else freq - step
  }

  function Min(a: int, b: int): int {
    if a < b then a else b
  }

  function RemoveKey<K(==)>(s: seq<K>, k: K): seq<K> {
    if s == [] then [] else if s[0] == k then s[1..] else [s[0]] + RemoveKey(s[1..], k)
  }

  // ----- linking and unlinking -----

  ghost function ListAt<K, V>(c: Cache<K, V>, f: int): seq<K> {
    if f in c.lists then c.lists[f] else []
  }

  ghost function Unlink<K, V>(c: Cache<K, V>, k: K): Cache<K, V>
    requires k in c.entries
  {
    var f := c.entries[k].freq;
    c.(lists := c.lists[f := RemoveKey(ListAt(c, f), k)])
  }

  ghost function SetFreq<K, V>(c: Cache<K, V>, k: K, f: int): Cache<K, V>
    requires k in c.entries
  {
    c.(entries := c.entries[k := c.entries[k].(freq := f)])
  }

  ghost function Link<K, V>(c: Cache<K, V>, k: K): Cache<K, V>
    requires k in c.entries
  {
    var f := c.entries[k].freq;
    c.(lists := c.lists[f := ListAt(c, f) + [k]])
  }

  /** Takes `k` out of its list and appends it to the list of frequency `f`. */
  ghost function Move<K, V>(c: Cache<K, V>, k: K, f: int): Cache<K, V>
    requires k in c.entries
  {
    Link(SetFreq(Unlink(c, k), k, f), k)
  }

  // ----- aging -----

  ghost function AnyOf<T>(s: set<T>): (x: T)
    requires s != {}
    ensures x in s
  {
    var x :| x in s; x
  }

  /** The smallest frequency of a non-empty list, but never more than the start value. */
  ghost function LeastFreq<K>(lists: map<int, seq<K>>): (m: int)
    ensures m <= INT8_MAX
    ensures forall f :: f in lists && lists[f] != [] ==> m <= f
    ensures m == INT8_MAX || (m in lists && lists[m] != [])
  {
    if lists == map[] then INT8_MAX
    else
      var f := AnyOf(lists.Keys);
      var rest := LeastFreq(lists - {f});
      assert forall g :: g in lists && g != f ==> g in lists - {f} && (lists - {f})[g] == lists[g];
      if lists[f] != [] && f < rest then f else rest
  }

  ghost function UpdateMinFreq<K, V>(c: Cache<K, V>): Cache<K, V> {
    var m := LeastFreq(c.lists);
    c.(minFreq := if m == INT8_MAX then 1 else m)
  }

  ghost function AgeOne<K, V>(c: Cache<K, V>, k: K, step: int): Cache<K, V> {
    if k in c.entries then Move(c, k, Aged(c.entries[k].freq, step)) else c
  }

  /** Ages the keys in the order in which the hash map is iterated. */
  ghost function AgeEach<K, V>(c: Cache<K, V>, visit: seq<K>, step: int): Cache<K, V> {
    if visit == [] then c
    else AgeOne(AgeEach(c, visit[..|visit| - 1], step), visit[|visit| - 1], step)
  }

  ghost function HandleOverMax<K, V>(cfg: Config, c: Cache<K, V>, visit: seq<K>): Cache<K, V> {
    if c.entries == map[] then c
    else UpdateMinFreq(AgeEach(c, visit, AgingStep(cfg.maxAvgFreq)))
  }

  ghost function Average<K, V>(c: Cache<K, V>): Cache<K, V> {
    c.(avgFreq := if c.entries == map[] then 0 else c.totalFreq / |c.entries|)
  }

  ghost function IncreaseFreq<K, V>(cfg: Config, c: Cache<K, V>, visit: seq<K>): Cache<K, V> {
    var c1 := Average(c.(totalFreq := c.totalFreq + 1));
    if c1.avgFreq > cfg.maxAvgFreq then HandleOverMax(cfg, c1, visit) else c1
  }

  ghost function DecreaseFreq<K, V>(c: Cache<K, V>, num: int): Cache<K, V> {
    Average(c.(totalFreq := c.totalFreq - num))
  }

  // ----- the operations -----

  /** Moves the cursor up by one if it points at the list of `f` and that is empty. */
  ghost function RaiseMinFreq<K, V>(c: Cache<K, V>, f: int): Cache<K, V> {
    if f == c.minFreq && ListAt(c, f) == [] then c.(minFreq := c.minFreq + 1) else c
  }

  /** The part of a hit that precedes the accounting. */
  ghost function Bump<K, V>(c: Cache<K, V>, k: K): Cache<K, V>
    requires k in c.entries
  {
    var f := c.entries[k].freq;
    RaiseMinFreq(Move(c, k, f + 1), f)
  }

  ghost function GetInternal<K, V>(cfg: Config, c: Cache<K, V>, k: K, visit: seq<K>): Cache<K, V>
    requires k in c.entries
  {
    IncreaseFreq(cfg, Bump(c, k), visit)
  }

  /** The list `minFreq` points at has a first node, and that node is cached. */
  ghost predicate HasVictim<K, V>(c: Cache<K, V>) {
    ListAt(c, c.minFreq) != [] && ListAt(c, c.minFreq)[0] in c.entries
  }

  ghost function Victim<K, V>(c: Cache<K, V>): K
    requires HasVictim(c)
  {
    ListAt(c, c.minFreq)[0]
  }

  ghost function Forget<K, V>(c: Cache<K, V>, k: K): Cache<K, V> {
    c.(entries := c.entries - {k})
  }

  ghost function Drop<K, V>(c: Cache<K, V>, k: K): Cache<K, V>
    requires k in c.entries
  {
    DecreaseFreq(Forget(Unlink(c, k), k), c.entries[k].freq)
  }

  ghost function KickOut<K, V>(c: Cache<K, V>): Cache<K, V>
    requires HasVictim(c)
  {
    Drop(c, Victim(c))
  }

  ghost function MapNew<K, V>(c: Cache<K, V>, k: K, v: V): Cache<K, V> {
    c.(entries := c.entries[k := Entry(v, 1)])
  }

  ghost function Insert<K, V>(c: Cache<K, V>, k: K, v: V): Cache<K, V> {
    Link(MapNew(c, k, v), k)
  }

  ghost function LowerMinFreq<K, V>(c: Cache<K, V>): Cache<K, V> {
    c.(minFreq := Min(c.minFreq, 1))
  }

  ghost function PutInternal<K, V>(cfg: Config, c: Cache<K, V>, k: K, v: V, visit: seq<K>): Cache<K, V>
    requires |c.entries| == cfg.capacity ==> HasVictim(c)
  {
    var c1 := if |c.entries| == cfg.capacity then KickOut(c) else c;
    LowerMinFreq(IncreaseFreq(cfg, Insert(c1, k, v), visit))
  }

  /** A put of a new key into a full cache needs a victim; nothing else can go wrong. */
  ghost predicate CanPut<K, V>(cfg: Config, c: Cache<K, V>, k: K) {
    cfg.capacity != 0 && k !in c.entries && |c.entries| == cfg.capacity ==> HasVictim(c)
  }

  ghost function Overwrite<K, V>(c: Cache<K, V>, k: K, v: V): Cache<K, V>
    requires k in c.entries
  {
    c.(entries := c.entries[k := c.entries[k].(value := v)])
  }

  ghost function Put<K, V>(cfg: Config, c: Cache<K, V>, k: K, v: V, visit: seq<K>): Cache<K, V>
    requires CanPut(cfg, c, k)
  {
    if cfg.capacity == 0 then c
    else if k in c.entries then
      GetInternal(cfg, Overwrite(c, k, v), k, visit)
    else PutInternal(cfg, c, k, v, visit)
  }

  ghost function Get<K, V>(cfg: Config, c: Cache<K, V>, k: K, visit: seq<K>): Cache<K, V> {
    if k in c.entries then GetInternal(cfg, c, k, visit) else c
  }

  /** Purging drops the nodes and the lists and nothing else. */
  ghost function Purge<K, V>(c: Cache<K, V>): Cache<K, V> {
    c.(entries := map[], lists := map[])
  }

  // ----- runs -----

  /** The order in which an unordered map with these keys may be iterated. */
  ghost predicate IsVisit<K(!new)>(visit: seq<K>, keys: set<K>) {
    && Distinct(visit)
    && (forall k :: k in visit <==> k in keys)
  }

  ghost function AnyVisit<K(!new)>(keys: set<K>): (visit: seq<K>)
    ensures IsVisit(visit, keys)
  {
    if keys == {} then [] else var k :| k in keys; AnyVisit(keys - {k}) + [k]
  }

  datatype Op<K, V> =
    | OpPut(key: K, val: V, visit: seq<K>)
    | OpGet(key: K, visit: seq<K>)
    | OpPurge

  ghost predicate CanApply<K, V>(cfg: Config, c: Cache<K, V>, op: Op<K, V>) {
    op.OpPut? ==> CanPut(cfg, c, op.key)
  }

  ghost function Apply<K, V>(cfg: Config, c: Cache<K, V>, op: Op<K, V>): Cache<K, V>
    requires CanApply(cfg, c, op)
  {
    match op
    case OpPut(k, v, visit) => Put(cfg, c, k, v, visit)
    case OpGet(k, visit) => Get(cfg, c, k, visit)
    case OpPurge => Purge(c)
  }

  ghost predicate Legal<K(!new), V>(cfg: Config, c: Cache<K, V>, op: Op<K, V>) {
    && CanApply(cfg, c, op)
    && (!op.OpPurge? ==> IsVisit(op.visit, Apply(cfg, c, op).entries.Keys))
  }

  /** Every operation of the run is applicable where it is applied. */
  ghost predicate LegalRun<K(!new), V>(cfg: Config, ops: seq<Op<K, V>>)
    decreases |ops|, 0
  {
    ops == [] ||
    (LegalRun(cfg, ops[..|ops| - 1]) && Legal(cfg, Run(cfg, ops[..|ops| - 1]), ops[|ops| - 1]))
  }

  ghost function Run<K(!new), V>(cfg: Config, ops: seq<Op<K, V>>): Cache<K, V>
    requires LegalRun(cfg, ops)
    decreases |ops|, 1
  {
    if ops == [] then Empty() else Apply(cfg, Run(cfg, ops[..|ops| - 1]), ops[|ops| - 1])
  }

  // ----- what the cache should keep -----

  ghost predicate Distinct<K>(s: seq<K>) {
    forall i, j :: 0 <= i < j < |s| ==> s[i] != s[j]
  }

  /** Each cached key outside `loose` is in exactly one list, the one of its own frequency, once; no
      list holds any other key. */
  ghost predicate WellFormedBut<K(!new), V>(c: Cache<K, V>, loose: set<K>) {
    && (forall k :: k in c.entries ==> c.entries[k].freq >= 1)
    && (forall k :: k in c.entries && k !in loose ==> k in ListAt(c, c.entries[k].freq))
    && (forall f, k :: k in ListAt(c, f) ==> k in c.entries && k !in loose && c.entries[k].freq == f)
    && (forall f :: Distinct(ListAt(c, f)))
  }

  ghost predicate WellFormed<K(!new), V>(c: Cache<K, V>) {
    WellFormedBut(c, {})
  }

  /** `m` is the smallest frequency in use. */
  ghost predicate IsLeast<K, V>(entries: map<K, Entry<V>>, m: int) {
    && (exists k :: k in entries && entries[k].freq == m)
    && (forall k :: k in entries ==> m <= entries[k].freq)
  }

  ghost predicate MinFreqExact<K, V>(c: Cache<K, V>) {
    c.entries != map[] ==> IsLeast(c.entries, c.minFreq)
  }

  ghost function SumFreq<K, V>(entries: map<K, Entry<V>>): int {
    if entries == map[] then 0
    else var k :| k in entries; entries[k].freq + SumFreq(entries - {k})
  }

  ghost function Values<K, V>(c: Cache<K, V>): map<K, V> {
    map k | k in c.entries :: c.entries[k].value
  }
}
