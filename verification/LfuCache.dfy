/** The LFU cache over its hash maps and linked lists.  Each method is proved to compute the function
    of the same name in LfuModel. */
module LfuCaches {
  import opened Basics
  import opened LfuModel
  import opened FreqLists
  import LfuTheorems

  method Pick<T>(s: set<T>) returns (x: T)
    requires s != {}
    ensures x in s
  {
    x :| x in s;
  }

  lemma KeysWithout<K(0), V(0)>(nodes: seq<Node<K, V>>, j: nat)
    requires j < |nodes| && Distinct(FreqList<K, V>.KeysOf(nodes))
    ensures FreqList<K, V>.KeysOf(nodes[..j] + nodes[j + 1..]) ==
            RemoveKey(FreqList<K, V>.KeysOf(nodes), nodes[j].key)
  {
    LfuTheorems.RemoveKeyAt(FreqList<K, V>.KeysOf(nodes), j);
  }

  class LfuCache<K(0, ==, !new), V(0)> {
    const cfg: Config
    var minFreq: int
    var avgFreq: int
    var totalFreq: int
    var nodeMap: map<K, Node<K, V>>
    var freqToFreqList: map<int, FreqList<K, V>>
    ghost var nodes: set<Node<K, V>>       // every node ever linked here, sentinels included
    ghost var lists: set<FreqList<K, V>>

    // ----- what the structure stands for -----

    ghost function Entries(): map<K, Entry<V>>
      reads `nodeMap, nodeMap.Values`value, nodeMap.Values`freq
    {
      map k | k in nodeMap :: Entry(nodeMap[k].value, nodeMap[k].freq)
    }

    ghost function ListKeys(): map<int, seq<K>>
      reads `freqToFreqList, freqToFreqList.Values`spine
    {
      map f | f in freqToFreqList :: freqToFreqList[f].Keys()
    }

    ghost function View(): Cache<K, V>
      reads `minFreq, `avgFreq, `totalFreq, `nodeMap, `freqToFreqList
      reads nodeMap.Values`value, nodeMap.Values`freq, freqToFreqList.Values`spine
    {
      Cache(Entries(), ListKeys(), minFreq, avgFreq, totalFreq)
    }

    // ----- the structure -----

    /** List `l` holds exactly mapped nodes of frequency `f`. */
    ghost predicate Holds(l: FreqList<K, V>, f: int)
      reads `nodeMap, l`spine, l.spine`owner, l.spine`pre, l.spine`next, l.spine`freq
    {
      && l.Valid()
      && (forall n :: n in l.Nodes() ==> n.key in nodeMap && nodeMap[n.key] == n && n.freq == f)
    }

    ghost predicate ListsLinked()
      reads `nodeMap, `freqToFreqList, `nodes, `lists, lists`spine
      reads nodes`owner, nodes`pre, nodes`next, nodes`freq
    {
      forall f :: f in freqToFreqList ==>
        && freqToFreqList[f] in lists && freqToFreqList[f].freq == f
        && (forall n :: n in freqToFreqList[f].spine ==> n in nodes)
        && Holds(freqToFreqList[f], f)
    }

    ghost predicate InList(n: Node<K, V>)
      reads `freqToFreqList, `lists, n`freq, lists`spine
    {
      && n.freq in freqToFreqList && freqToFreqList[n.freq] in lists
      && n in freqToFreqList[n.freq].Nodes()
    }

    /** Each mapped node other than `loose` is in the list of its frequency, and no list holds
        anything else; `loose` is in no list. */
    ghost predicate LinkedBut(loose: Node?<K, V>)
      reads `nodeMap, `freqToFreqList, `nodes, `lists, lists`spine
      reads nodes`owner, nodes`pre, nodes`next, nodes`freq
    {
      && ListsLinked()
      && (forall k :: k in nodeMap ==> nodeMap[k] in nodes && nodeMap[k].key == k)
      && (forall k :: k in nodeMap && nodeMap[k] != loose ==> InList(nodeMap[k]))
      && (loose != null ==> loose in nodes && loose.owner == null)
    }

    ghost predicate Valid()
      reads `nodeMap, `freqToFreqList, `nodes, `lists, lists`spine
      reads nodes`owner, nodes`pre, nodes`next, nodes`freq
    {
      LinkedBut(null)
    }

    lemma ListFacts(node: Node<K, V>)
      requires LinkedBut(node) && node.freq in freqToFreqList
      ensures node in nodes && node.owner == null
      ensures freqToFreqList[node.freq] in lists && freqToFreqList[node.freq].Valid()
      ensures forall n :: n in freqToFreqList[node.freq].spine ==> n.owner == freqToFreqList[node.freq] && n in nodes
    {
      var f := node.freq;
      assert f in freqToFreqList && Holds(freqToFreqList[f], f);
    }

    lemma KeysDistinct(f: int)
      requires ListsLinked() && f in freqToFreqList
      ensures Distinct(freqToFreqList[f].Keys())
    {
      var l := freqToFreqList[f];
      forall i, j | 0 <= i < j < |l.Nodes()|
        ensures l.Nodes()[i].key != l.Nodes()[j].key
      {
        assert l.spine[i + 1] != l.spine[j + 1];
        assert l.Nodes()[i] in l.Nodes() && l.Nodes()[j] in l.Nodes();
      }
    }

    /** The maps refer to nodes and lists of this cache. */
    ghost predicate Contained()
      reads `nodeMap, `freqToFreqList, `nodes, `lists
    {
      nodeMap.Values <= nodes && freqToFreqList.Values <= lists
    }

    /** What the cache keeps when its maximum average is in range. */
    ghost predicate Healthy()
      reads this, nodes, lists
      ensures Healthy() ==> Contained()
    {
      && LfuTheorems.InRange(cfg) && Contained()
      && Valid() && LfuTheorems.Sane(cfg, State())
    }

    ghost function State(): Cache<K, V>
      reads this, nodes, lists
    {
      if Contained() then View() else Empty()
    }

    lemma ValidContained()
      requires Valid()
      ensures Contained()
    {
      hide Holds, InList;
      assert forall f :: f in freqToFreqList ==> freqToFreqList[f] in lists;
      assert freqToFreqList.Values <= lists;
    }

    constructor (capacity: nat, maxAverageNum: int)
      ensures Valid() && nodes == {} && lists == {}
      ensures cfg == Config(capacity, maxAverageNum) && View() == Empty() && nodeMap == map[]
      ensures LfuTheorems.InRange(cfg) ==> Healthy() && State() == Empty()
    {
      cfg := Config(capacity, maxAverageNum);
      minFreq, avgFreq, totalFreq := INT8_MAX, 0, 0;
      nodeMap, freqToFreqList := map[], map[];
      nodes, lists := {}, {};
    }

    // ----- frame lemmas for one list -----

    /** The maps, and what they hold apart from links, are as before. */
    twostate predicate SameEntries()
      reads this, nodeMap.Values, nodes, lists
    {
      && freqToFreqList == old(freqToFreqList) && nodeMap == old(nodeMap)
      && nodes == old(nodes) && lists == old(lists)
      && (forall k :: k in nodeMap ==>
            nodeMap[k].freq == old(nodeMap[k].freq) && nodeMap[k].value == old(nodeMap[k].value))
      && minFreq == old(minFreq) && avgFreq == old(avgFreq) && totalFreq == old(totalFreq)
    }

    twostate lemma EntriesKept()
      requires SameEntries()
      ensures View() == old(View()).(lists := ListKeys())
    {
      assert Entries() == old(Entries());
    }

    /** Only the links of `list`, of its nodes and of `node` changed. */
    twostate predicate OnlyTouches(list: FreqList<K, V>, node: Node<K, V>)
      reads this, nodes, lists
    {
      && (forall m :: m in lists && m in old(lists) && m != list ==> m.spine == old(m.spine))
      && (forall n :: n in nodes && n in old(nodes) && n != node && old(n.owner) != list ==> n.SameLinks())
    }

    /** `node` was taken out of, or put into, the list of its frequency; nothing else changed. */
    twostate predicate Relinked(node: Node<K, V>)
      reads this, node, nodeMap.Values, nodes, lists
    {
      && SameEntries()
      && node.freq == old(node.freq)
      && node.freq in freqToFreqList && freqToFreqList[node.freq] in lists
      && (old(node.owner) == null || old(node.owner) == freqToFreqList[node.freq])
      && OnlyTouches(freqToFreqList[node.freq], node)
      && (forall n :: n in freqToFreqList[node.freq].spine ==> n in nodes)
      && freqToFreqList[node.freq].Valid()
    }

    twostate lemma OthersKept(node: Node<K, V>)
      requires old(ListsLinked())
      requires Relinked(node)
      ensures forall f :: f in freqToFreqList && f != node.freq ==>
        && Holds(freqToFreqList[f], f)
        && forall n :: n in freqToFreqList[f].spine ==> n in nodes
    {
      forall f | f in freqToFreqList && f != node.freq
        ensures Holds(freqToFreqList[f], f)
        ensures forall n :: n in freqToFreqList[f].spine ==> n in nodes
      {
        var m := freqToFreqList[f];
        forall i | 0 <= i < |m.spine|
          ensures m.spine[i].SameLinks()
        {
          assert m.spine[i] in m.spine && old(m.spine[i].owner) == m;
        }
        m.Kept();
      }
    }

    twostate lemma OtherFreqKept(node: Node<K, V>)
      requires old(ListsLinked())
      requires Relinked(node)
      ensures forall k :: k in nodeMap && old(InList(nodeMap[k])) && nodeMap[k].freq != node.freq ==> InList(nodeMap[k])
    {
      hide Holds, FreqList.Valid;
    }

    twostate lemma OtherKeysKept(node: Node<K, V>)
      requires old(ListsLinked())
      requires Relinked(node)
      ensures forall f :: f in freqToFreqList && f != node.freq ==>
                freqToFreqList[f].Keys() == old(freqToFreqList[f].Keys())
    {
      hide Holds, FreqList.Valid;
    }

    /** If no link changed, every list there was is still well formed. */
    twostate lemma LinksKept()
      requires old(ListsLinked())
      requires forall m :: m in old(lists) ==> m.spine == old(m.spine)
      requires forall n :: n in old(nodes) ==> n.SameLinks()
      ensures forall f :: f in old(freqToFreqList) ==> old(freqToFreqList)[f].Valid()
      ensures forall f, n :: f in old(freqToFreqList) && n in old(freqToFreqList)[f].Nodes() ==>
                n.owner == old(freqToFreqList)[f]
    {
      forall f | f in old(freqToFreqList)
        ensures old(freqToFreqList)[f].Valid()
      {
        var m := old(freqToFreqList)[f];
        assert old(m.Valid());
        assert forall i :: 0 <= i < |m.spine| ==> m.spine[i] in m.spine && m.spine[i].SameLinks();
        m.Kept();
      }
      forall f, n | f in old(freqToFreqList) && n in old(freqToFreqList)[f].Nodes()
        ensures n.owner == old(freqToFreqList)[f]
      {
        assert n in old(freqToFreqList)[f].spine;
      }
    }

    // ----- taking a node out of its list -----

    twostate predicate Shortened(list: FreqList<K, V>, node: Node<K, V>, i: nat)
      reads list
    {
      && i < old(|list.Nodes()|) && old(list.Nodes()[i]) == node
      && list.Nodes() == old(list.Nodes()[..i] + list.Nodes()[i + 1..])
      && list.spine == old(list.spine[..i + 1] + list.spine[i + 2..])
    }

    twostate predicate IsTakenOut(node: Node<K, V>)
      reads this, node, nodeMap.Values, nodes, lists
    {
      && Relinked(node)
      && old(freqToFreqList[node.freq] in lists)
      && exists i: nat :: Shortened(freqToFreqList[node.freq], node, i)
    }

    twostate lemma ShortenedHolds(node: Node<K, V>)
      requires old(ListsLinked())
      requires IsTakenOut(node)
      ensures Holds(freqToFreqList[node.freq], node.freq)
      ensures forall n :: n in freqToFreqList[node.freq].spine ==> n in nodes
    {
      hide FreqList.Valid, OnlyTouches;
      var list := freqToFreqList[node.freq];
      var i: nat :| Shortened(list, node, i);
      forall n | n in list.Nodes()
        ensures n in old(list.Nodes())
      {
      }
    }

    twostate lemma ShortenedKeeps(node: Node<K, V>)
      requires old(ListsLinked())
      requires IsTakenOut(node)
      ensures forall k :: k in nodeMap && old(InList(nodeMap[k])) && nodeMap[k].freq == node.freq && nodeMap[k] != node
                ==> InList(nodeMap[k])
    {
      hide Holds, OnlyTouches, FreqList.Valid;
      var list := freqToFreqList[node.freq];
      var i: nat :| Shortened(list, node, i);
      forall k | k in nodeMap && old(InList(nodeMap[k])) && nodeMap[k].freq == node.freq && nodeMap[k] != node
        ensures InList(nodeMap[k])
      {
        var j :| 0 <= j < old(|list.Nodes()|) && old(list.Nodes()[j]) == nodeMap[k];
        assert list.Nodes()[if j < i then j else j - 1] == nodeMap[k];
      }
    }

    /** A node taken out of its list is loose, and all else stays linked. */
    twostate lemma TakenOut(node: Node<K, V>)
      requires old(Valid())
      requires IsTakenOut(node)
      requires node.key in nodeMap && nodeMap[node.key] == node && node.owner == null
      ensures LinkedBut(node)
    {
      hide Holds, FreqList.Valid, Shortened, OnlyTouches, InList;
      OthersKept(node);
      ShortenedHolds(node);
      assert ListsLinked();
      OtherFreqKept(node);
      ShortenedKeeps(node);
      assert forall k :: k in nodeMap ==> nodeMap[k] in nodes && nodeMap[k].key == k;
    }

    twostate lemma KeysShortened(node: Node<K, V>)
      requires IsTakenOut(node)
      requires Distinct(old(freqToFreqList[node.freq].Keys()))
      ensures old(freqToFreqList)[node.freq] == freqToFreqList[node.freq]
      ensures freqToFreqList[node.freq].Keys() == RemoveKey(old(freqToFreqList[node.freq].Keys()), node.key)
    {
      hide Holds, InList, FreqList.Valid, OnlyTouches;
      var list := freqToFreqList[node.freq];
      var i: nat :| Shortened(list, node, i);
      KeysWithout(old(list.Nodes()), i);
    }

    twostate lemma KeysTakenOut(node: Node<K, V>)
      requires old(Valid())
      requires IsTakenOut(node)
      requires node.key in nodeMap && nodeMap[node.key] == node
      requires Distinct(old(freqToFreqList[node.freq].Keys()))
      ensures View() == Unlink(old(View()), node.key)
    {
      hide Holds, InList, FreqList.Valid, OnlyTouches, Shortened, RemoveKey;
      KeysShortened(node);
      EntriesKept();
      OtherKeysKept(node);
      forall f | f in freqToFreqList
        ensures ListKeys()[f] == old(ListKeys())[node.freq := freqToFreqList[node.freq].Keys()][f]
      {
        assert f != node.freq ==> freqToFreqList[f].Keys() == old(freqToFreqList[f].Keys());
      }
      assert ListKeys() == old(ListKeys())[node.freq := freqToFreqList[node.freq].Keys()];
    }

    /** Where a linked node is. */
    lemma Locate(node: Node<K, V>) returns (i: nat)
      requires Valid() && node.key in nodeMap && nodeMap[node.key] == node
      ensures InList(node)
      ensures var list := freqToFreqList[node.freq];
        && list in lists
        && list.Valid()
        && Distinct(list.Keys())
        && i < |list.Nodes()| && list.Nodes()[i] == node
        && node == list.spine[i + 1]
        && list.Linked(node)
        && forall n :: n in list.spine ==> n.owner == list && n in nodes
    {
      var list := freqToFreqList[node.freq];
      assert Holds(list, node.freq) && list.Valid();
      i :| 0 <= i < |list.Nodes()| && list.Nodes()[i] == node;
      assert list.spine[i + 1] == node;
      assert list.spine[i + 1].pre == list.spine[i] && list.spine[i + 1].next == list.spine[i + 2];
      KeysDistinct(node.freq);
    }

    method TakeOut(node: Node<K, V>, ghost i: nat)
      requires node.freq in freqToFreqList && freqToFreqList[node.freq] in lists
      requires var list := freqToFreqList[node.freq];
        && list.Valid() && list.Linked(node)
        && i < |list.Nodes()| && list.Nodes()[i] == node && node == list.spine[i + 1]
        && (forall n :: n in list.spine ==> n.owner == list && n in nodes)
      modifies nodes`pre, nodes`next, nodes`owner, lists`spine
      ensures node.owner == null
      ensures IsTakenOut(node)
    {
      hide FreqList.Valid;
      var list := freqToFreqList[node.freq];
      assert node.owner == list;
      list.RemoveNode(node, i + 1);
      assert Shortened(list, node, i);
    }

    method RemoveFromFreqList(node: Node<K, V>)
      requires Valid() && node.key in nodeMap && nodeMap[node.key] == node
      modifies nodes`pre, nodes`next, nodes`owner, lists`spine
      ensures LinkedBut(node)
      ensures View() == Unlink(old(View()), node.key)
    {
      hide Valid, LinkedBut, ListsLinked, Holds, InList, FreqList.Valid, IsTakenOut;
      ghost var i := Locate(node);
      TakeOut(node, i);
      TakenOut(node);
      KeysTakenOut(node);
    }

    // ----- putting a node into its list -----

    twostate predicate Lengthened(list: FreqList<K, V>, node: Node<K, V>)
      reads list
    {
      && |list.spine| > 0 && |old(list.spine)| >= 2
      && list.Nodes() == old(list.Nodes()) + [node]
      && list.spine == old(list.spine[..|list.spine| - 1]) + [node, list.tail]
    }

    twostate predicate IsPutIn(node: Node<K, V>)
      reads this, node, nodeMap.Values, nodes, lists
    {
      && Relinked(node)
      && old(freqToFreqList[node.freq] in lists)
      && Lengthened(freqToFreqList[node.freq], node)
    }

    twostate lemma PutIn(node: Node<K, V>)
      requires old(LinkedBut(node))
      requires IsPutIn(node)
      requires node.key in nodeMap && nodeMap[node.key] == node
      ensures Valid()
    {
      hide FreqList.Valid, OnlyTouches;
      var list := freqToFreqList[node.freq];
      OthersKept(node);
      forall n | n in list.Nodes()
        ensures n in old(list.Nodes()) || n == node
      {
      }
      assert ListsLinked();
      OtherFreqKept(node);
      forall k | k in nodeMap && nodeMap[k].freq == node.freq
        ensures InList(nodeMap[k])
      {
        if nodeMap[k] == node {
          assert list.Nodes()[|list.Nodes()| - 1] == node;
        } else {
          assert old(InList(nodeMap[k]));
        }
      }
    }

    twostate lemma KeysPutIn(node: Node<K, V>)
      requires old(LinkedBut(node))
      requires IsPutIn(node)
      requires node.key in nodeMap && nodeMap[node.key] == node
      ensures View() == Link(old(View()), node.key)
    {
      hide Holds, InList, FreqList.Valid, OnlyTouches;
      var list := freqToFreqList[node.freq];
      assert list.Keys() == old(list.Keys()) + [node.key];
      EntriesKept();
      OtherKeysKept(node);
    }

    method Append(node: Node<K, V>)
      requires node.freq in freqToFreqList && freqToFreqList[node.freq] in lists
      requires node in nodes && node.owner == null
      requires var list := freqToFreqList[node.freq];
        && list.Valid() && (forall n :: n in list.spine ==> n.owner == list && n in nodes)
      modifies nodes`pre, nodes`next, nodes`owner, lists`spine
      ensures IsPutIn(node)
    {
      var list := freqToFreqList[node.freq];
      assert list.tail in list.spine;
      hide FreqList.Valid;
      list.AddNode(node);
    }

    // ----- a list for a new frequency -----

    /** The lists there were are unchanged, and `freq` has an empty one. */
    twostate predicate Grown(freq: int)
      reads this, nodeMap.Values, nodes, lists
    {
      && nodeMap == old(nodeMap)
      && old(nodes) <= nodes && old(lists) <= lists
      && freq !in old(freqToFreqList) && freq in freqToFreqList && freqToFreqList[freq] in lists
      && freqToFreqList == old(freqToFreqList)[freq := freqToFreqList[freq]]
      && (forall m :: m in old(lists) ==> m.spine == old(m.spine))
      && (forall n :: n in old(nodes) ==> unchanged(n))
      && freqToFreqList[freq].freq == freq
      && (forall n :: n in freqToFreqList[freq].spine ==> n in nodes)
      && freqToFreqList[freq].Valid() && freqToFreqList[freq].Nodes() == []
    }

    twostate lemma GrownHolds(freq: int)
      requires old(ListsLinked())
      requires Grown(freq)
      ensures ListsLinked()
    {
      LinksKept();
      hide FreqList.Valid;
      forall f | f in freqToFreqList && f != freq
        ensures Holds(freqToFreqList[f], f)
      {
        assert old(Holds(freqToFreqList[f], f));
        assert forall n :: n in freqToFreqList[f].Nodes() ==> n in freqToFreqList[f].spine;
      }
    }

    twostate lemma GrownKeeps(freq: int)
      requires old(ListsLinked())
      requires Grown(freq)
      ensures forall k :: k in nodeMap && nodeMap[k] in old(nodes) && old(InList(nodeMap[k])) ==> InList(nodeMap[k])
    {
      hide Holds, FreqList.Valid;
    }

    twostate lemma GrownKeys(freq: int)
      requires old(ListsLinked())
      requires Grown(freq)
      ensures ListKeys() == old(ListKeys())[freq := []]
    {
      hide Holds, FreqList.Valid;
      assert freqToFreqList[freq].Keys() == [];
      assert forall f :: f in freqToFreqList && f != freq ==> freqToFreqList[f].Keys() == old(freqToFreqList[f].Keys());
    }

    /** Creates the list of a frequency that has none. */
    method CreateList(freq: int)
      requires freq !in freqToFreqList
      modifies `freqToFreqList, `nodes, `lists
      ensures Grown(freq)
      ensures fresh(nodes - old(nodes)) && fresh(lists - old(lists))
    {
      var list := new FreqList<K, V>(freq);
      freqToFreqList := freqToFreqList[freq := list];
      nodes := nodes + {list.head, list.tail};
      lists := lists + {list};
      assert list.Nodes() == [];
    }

    method EnsureList(freq: int, ghost loose: Node<K, V>)
      requires LinkedBut(loose)
      modifies `freqToFreqList, `nodes, `lists
      ensures LinkedBut(loose)
      ensures freq in freqToFreqList
      ensures forall f :: f in old(freqToFreqList) ==> f in freqToFreqList
      ensures ListKeys() == if freq in old(freqToFreqList) then old(ListKeys()) else old(ListKeys())[freq := []]
      ensures fresh(nodes - old(nodes)) && fresh(lists - old(lists))
      ensures old(nodes) <= nodes && old(lists) <= lists
    {
      if freq !in freqToFreqList {
        CreateList(freq);
        hide ListsLinked, InList;
        GrownHolds(freq);
        GrownKeeps(freq);
        GrownKeys(freq);
      }
    }

    method LinkInto(node: Node<K, V>)
      requires LinkedBut(node) && node.key in nodeMap && nodeMap[node.key] == node
      requires node.freq in freqToFreqList
      modifies nodes`pre, nodes`next, nodes`owner, lists`spine
      ensures Valid()
      ensures View() == Link(old(View()), node.key)
    {
      hide Valid, LinkedBut, ListsLinked, Holds, InList, FreqList.Valid, IsPutIn;
      ListFacts(node);
      Append(node);
      PutIn(node);
      KeysPutIn(node);
    }

    method AddToFreqList(node: Node<K, V>)
      requires LinkedBut(node) && node.key in nodeMap && nodeMap[node.key] == node
      modifies `freqToFreqList, `nodes, `lists, nodes`pre, nodes`next, nodes`owner, lists`spine
      ensures Valid()
      ensures forall f :: f in old(freqToFreqList) ==> f in freqToFreqList
      ensures View() == Link(old(View()), node.key)
      ensures fresh(nodes - old(nodes)) && fresh(lists - old(lists))
      ensures old(nodes) <= nodes && old(lists) <= lists
    {
      hide Valid, LinkedBut;
      EnsureList(node.freq, node);
      assert Entries() == old(Entries());
      LinkInto(node);
    }

    // ----- changing a frequency -----

    lemma KeysInjective(loose: Node<K, V>)
      requires Valid() || LinkedBut(loose)
      ensures forall k :: k in nodeMap ==> nodeMap[k].key == k
    {
    }

    twostate predicate IsFreqSet(node: Node<K, V>)
      reads this, nodes, lists
    {
      && nodeMap == old(nodeMap) && freqToFreqList == old(freqToFreqList)
      && nodes == old(nodes) && lists == old(lists)
      && (forall m :: m in lists ==> m.spine == old(m.spine))
      && (forall n :: n in nodes ==> n.SameLinks())
      && (forall n :: n in nodes && n != node ==> n.freq == old(n.freq))
    }

    twostate lemma FreqSet(node: Node<K, V>)
      requires old(LinkedBut(node))
      requires IsFreqSet(node)
      ensures LinkedBut(node)
    {
      LinksKept();
      hide FreqList.Valid;
      assert ListsLinked();
      hide Holds;
      assert forall k :: k in nodeMap && nodeMap[k] != node ==> old(InList(nodeMap[k])) && nodeMap[k] in nodes;
    }

    method SetNodeFreq(node: Node<K, V>, freq: int)
      requires LinkedBut(node) && node.key in nodeMap && nodeMap[node.key] == node
      modifies node`freq
      ensures LinkedBut(node) && View() == SetFreq(old(View()), node.key, freq)
      ensures node.freq == freq
    {
      hide Valid, LinkedBut;
      KeysInjective(node);
      node.freq := freq;
      FreqSet(node);
      assert Entries() == old(Entries())[node.key := Entry(node.value, freq)];
    }

    /** Takes a node out of its list, changes its frequency and puts it into the list for that. */
    method Relocate(node: Node<K, V>, freq: int)
      requires Valid() && node.key in nodeMap && nodeMap[node.key] == node
      modifies `freqToFreqList, `nodes, `lists, nodes`pre, nodes`next, nodes`owner, nodes`freq, lists`spine
      ensures Valid() && View() == Move(old(View()), node.key, freq)
      ensures node.freq == freq && old(node.freq) in freqToFreqList
      ensures fresh(nodes - old(nodes)) && fresh(lists - old(lists))
      ensures old(nodes) <= nodes && old(lists) <= lists
    {
      hide Valid, LinkedBut, View, Unlink, SetFreq, Link;
      NodeFacts(node.key);
      RemoveFromFreqList(node);
      SetNodeFreq(node, freq);
      AddToFreqList(node);
    }

    // ----- accounting and aging -----

    lemma NodeFacts(k: K)
      requires Valid() && k in nodeMap
      ensures nodeMap[k] in nodes && nodeMap[k].key == k && nodeMap[k].freq in freqToFreqList
      ensures k in View().entries && View().entries[k] == Entry(nodeMap[k].value, nodeMap[k].freq)
    {
    }

    lemma ViewSize()
      ensures View().entries.Keys == nodeMap.Keys && |View().entries| == |nodeMap|
      ensures View().entries == map[] <==> nodeMap == map[]
    {
      assert Entries().Keys == nodeMap.Keys;
      assert |Entries()| == |Entries().Keys| && |nodeMap| == |nodeMap.Keys|;
    }

    /** A list of the view, and the list object behind it. */
    lemma StateKeys()
      requires Healthy()
      ensures State().entries.Keys == nodeMap.Keys
    {
      ViewSize();
    }

    lemma ListFound(f: int)
      requires Valid() && f in freqToFreqList
      ensures freqToFreqList[f] in lists && freqToFreqList[f].Valid()
      ensures f in ListKeys() && ListKeys()[f] == freqToFreqList[f].Keys()
      ensures freqToFreqList[f].Nodes() == [] <==> ListKeys()[f] == []
    {
    }

    static lemma LeastUnique(ls: map<int, seq<K>>, m: int)
      requires m <= INT8_MAX
      requires forall f :: f in ls && ls[f] != [] ==> m <= f
      requires m == INT8_MAX || (m in ls && ls[m] != [])
      ensures m == LeastFreq(ls)
    {
    }

    method IsEmptyList(f: int) returns (empty: bool)
      requires Valid() && f in freqToFreqList
      ensures f in ListKeys() && empty == (ListKeys()[f] == [])
    {
      hide Valid, FreqList.Valid, ListKeys;
      ListFound(f);
      empty := freqToFreqList[f].IsEmpty();
    }

    lemma ListKeysKeys()
      ensures ListKeys().Keys == freqToFreqList.Keys
    {
    }

    /** The loop over the lists. */
    method SearchLeast() returns (m: int)
      requires Valid()
      ensures m == LeastFreq(ListKeys())
    {
      hide Valid, ListKeys, LeastFreq;
      ghost var ls := ListKeys();
      ListKeysKeys();
      m := INT8_MAX;
      var todo := freqToFreqList.Keys;
      while todo != {}
        invariant ListKeys() == ls && todo <= freqToFreqList.Keys && m <= INT8_MAX
        invariant forall f :: f in ls && f !in todo && ls[f] != [] ==> m <= f
        invariant m == INT8_MAX || (m in ls && ls[m] != [])
        decreases todo
      {
        var f := Pick(todo);
        var empty := IsEmptyList(f);
        if !empty {
          m := Min(m, f);
        }
        todo := todo - {f};
      }
      LeastUnique(ls, m);
    }

    method UpdateMinFreq()
      requires Valid()
      modifies `minFreq
      ensures View() == LfuModel.UpdateMinFreq(old(View()))
    {
      hide Valid, Entries, ListKeys;
      minFreq := SearchLeast();
      if minFreq == INT8_MAX {
        minFreq := 1;
      }
    }

    static lemma VisitNone(keys: set<K>)
      ensures IsVisit([], keys - keys)
    {
    }

    static lemma NoneAged(c: Cache<K, V>, step: int)
      ensures AgeEach(c, [], step) == c
    {
    }

    static lemma OneMoreAged(c: Cache<K, V>, visit: seq<K>, k: K, step: int)
      ensures AgeEach(c, visit + [k], step) == AgeOne(AgeEach(c, visit, step), k, step)
    {
      assert (visit + [k])[..|visit|] == visit;
    }

    static lemma VisitOneMore(visit: seq<K>, keys: set<K>, todo: set<K>, k: K)
      requires IsVisit(visit, keys - todo) && todo <= keys && k in todo
      ensures IsVisit(visit + [k], keys - (todo - {k}))
    {
      assert forall x :: x in visit + [k] <==> x in visit || x == k;
    }

    method AgeNode(k: K, step: int)
      requires Valid() && k in nodeMap
      modifies `freqToFreqList, `nodes, `lists, nodes`pre, nodes`next, nodes`owner, nodes`freq, lists`spine
      ensures Valid() && View() == AgeOne(old(View()), k, step)
      ensures fresh(nodes - old(nodes)) && fresh(lists - old(lists))
      ensures old(nodes) <= nodes && old(lists) <= lists
    {
      hide Valid, View, Move;
      NodeFacts(k);
      var node := nodeMap[k];
      Relocate(node, Aged(node.freq, step));
    }

    /** Ages every node, in the order of the hash map, which is reported as `visit`. */
    method AgeNodes(step: int) returns (ghost visit: seq<K>)
      requires Valid()
      modifies `freqToFreqList, `nodes, `lists, nodes`pre, nodes`next, nodes`owner, nodes`freq, lists`spine
      ensures Valid() && View() == AgeEach(old(View()), visit, step)
      ensures IsVisit(visit, nodeMap.Keys)
      ensures fresh(nodes - old(nodes)) && fresh(lists - old(lists))
      ensures old(nodes) <= nodes && old(lists) <= lists
    {
      hide Valid, View, AgeOne, AgeEach, IsVisit;
      visit := [];
      var todo := nodeMap.Keys;
      NoneAged(View(), step);
      VisitNone(nodeMap.Keys);
      while todo != {}
        invariant Valid() && View() == AgeEach(old(View()), visit, step)
        invariant todo <= nodeMap.Keys && IsVisit(visit, nodeMap.Keys - todo)
        invariant fresh(nodes - old(nodes)) && fresh(lists - old(lists))
        invariant old(nodes) <= nodes && old(lists) <= lists
        decreases todo
      {
        var k := Pick(todo);
        AgeNode(k, step);
        OneMoreAged(old(View()), visit, k, step);
        VisitOneMore(visit, nodeMap.Keys, todo, k);
        visit := visit + [k];
        todo := todo - {k};
      }
      assert nodeMap.Keys - todo == nodeMap.Keys;
    }

    method HandleOverMaxAverageNum() returns (ghost visit: seq<K>)
      requires Valid()
      modifies `minFreq, `freqToFreqList, `nodes, `lists, nodes`pre, nodes`next, nodes`owner, nodes`freq, lists`spine
      ensures Valid() && View() == LfuModel.HandleOverMax(cfg, old(View()), visit)
      ensures IsVisit(visit, nodeMap.Keys)
      ensures fresh(nodes - old(nodes)) && fresh(lists - old(lists))
      ensures old(nodes) <= nodes && old(lists) <= lists
    {
      hide Valid, View, AgeEach;
      ViewSize();
      if nodeMap == map[] {
        visit := [];
        return;
      }
      visit := AgeNodes(AgingStep(cfg.maxAvgFreq));
      UpdateMinFreq();
    }

    /** Adds to the total and recomputes the average. */
    method Recount(change: int)
      modifies `totalFreq, `avgFreq
      ensures View() == Average(old(View()).(totalFreq := old(View()).totalFreq + change))
      ensures View().avgFreq == avgFreq
    {
      hide Entries, ListKeys;
      ViewSize();
      totalFreq := totalFreq + change;
      if nodeMap == map[] {
        avgFreq := 0;
      } else {
        avgFreq := totalFreq / |nodeMap|;
      }
    }

    method IncreaseFreq() returns (ghost visit: seq<K>)
      requires Valid()
      modifies this, nodes`pre, nodes`next, nodes`owner, nodes`freq, lists`spine
      ensures Valid() && View() == LfuModel.IncreaseFreq(cfg, old(View()), visit)
      ensures nodeMap == old(nodeMap) && IsVisit(visit, nodeMap.Keys)
      ensures fresh(nodes - old(nodes)) && fresh(lists - old(lists))
      ensures old(nodes) <= nodes && old(lists) <= lists
    {
      hide Valid, HandleOverMax, IsVisit, View;
      Recount(1);
      visit := AnyVisit(nodeMap.Keys);
      if avgFreq > cfg.maxAvgFreq {
        visit := HandleOverMaxAverageNum();
      }
    }

    // ----- hits -----

    lemma ListDomain()
      ensures ListKeys().Keys == freqToFreqList.Keys
    {
    }

    /** Moves the cursor up by one if the list it points at, that of `freq`, has become empty. */
    method RaiseMinFreq(freq: int)
      requires Valid() && freq in freqToFreqList
      modifies `minFreq
      ensures View() == LfuModel.RaiseMinFreq(old(View()), freq)
    {
      hide Valid, Entries, ListKeys;
      ListDomain();
      if freq == minFreq {
        var empty := IsEmptyList(freq);
        if empty {
          minFreq := minFreq + 1;
        }
      }
    }

    method BumpNode(node: Node<K, V>)
      requires Valid() && node.key in nodeMap && nodeMap[node.key] == node
      modifies `minFreq, `freqToFreqList, `nodes, `lists, nodes`pre, nodes`next, nodes`owner, nodes`freq, lists`spine
      ensures Valid() && View() == LfuModel.Bump(old(View()), node.key)
      ensures fresh(nodes - old(nodes)) && fresh(lists - old(lists))
      ensures old(nodes) <= nodes && old(lists) <= lists
    {
      hide Valid, View, Move, LfuModel.RaiseMinFreq;
      NodeFacts(node.key);
      Relocate(node, node.freq + 1);
      RaiseMinFreq(node.freq - 1);
    }

    method GetInternal(node: Node<K, V>) returns (value: V, ghost visit: seq<K>)
      requires Valid() && node.key in nodeMap && nodeMap[node.key] == node
      modifies this, nodes`pre, nodes`next, nodes`owner, nodes`freq, lists`spine
      ensures Valid() && View() == LfuModel.GetInternal(cfg, old(View()), node.key, visit)
      ensures value == old(node.value)
      ensures nodeMap == old(nodeMap) && IsVisit(visit, nodeMap.Keys)
      ensures fresh(nodes - old(nodes)) && fresh(lists - old(lists))
      ensures old(nodes) <= nodes && old(lists) <= lists
    {
      hide Valid, View, LfuModel.IncreaseFreq, Bump, IsVisit;
      value := node.value;
      BumpNode(node);
      visit := IncreaseFreq();
    }

    /** Looks a key up; a hit counts as an access. */
    method Get(key: K) returns (found: bool, value: V, ghost visit: seq<K>)
      requires Valid()
      modifies this, nodes`pre, nodes`next, nodes`owner, nodes`freq, lists`spine
      ensures Valid() && View() == LfuModel.Get(cfg, old(View()), key, visit)
      ensures found == (key in old(View()).entries)
      ensures found ==> value == old(View()).entries[key].value
      ensures nodeMap == old(nodeMap) && IsVisit(visit, nodeMap.Keys)
      ensures old(Healthy()) ==> Healthy()
      ensures fresh(nodes - old(nodes)) && fresh(lists - old(lists))
      ensures old(nodes) <= nodes && old(lists) <= lists
    {
      hide Valid, View, LfuModel.GetInternal, IsVisit, LfuTheorems.Sane;
      ViewSize();
      if key in nodeMap {
        NodeFacts(key);
        value, visit := GetInternal(nodeMap[key]);
        found := true;
      } else {
        value := *;
        visit := AnyVisit(nodeMap.Keys);
        found := false;
      }
      ViewSize();
      ValidContained();
      if old(Healthy()) {
        LfuTheorems.ApplyKeeps(cfg, old(View()), OpGet(key, visit));
      }
    }

    // ----- misses -----

    method DecreaseFreq(num: int)
      modifies `totalFreq, `avgFreq
      ensures View() == LfuModel.DecreaseFreq(old(View()), num)
    {
      hide View;
      Recount(-num);
    }

    /** Only the map changed, by the loss of `node`. */
    twostate predicate IsErased(node: Node<K, V>)
      reads this, nodes, lists
    {
      && node.key in old(nodeMap) && old(nodeMap)[node.key] == node
      && nodeMap == old(nodeMap) - {node.key} && freqToFreqList == old(freqToFreqList)
      && nodes == old(nodes) && lists == old(lists)
      && (forall m :: m in lists ==> m.spine == old(m.spine))
      && (forall n :: n in nodes ==> unchanged(n))
    }

    twostate lemma ErasedLists(node: Node<K, V>)
      requires old(LinkedBut(node))
      requires IsErased(node)
      ensures ListsLinked()
    {
      hide InList;
      LinksKept();
      hide FreqList.Valid;
    }

    twostate lemma Erased(node: Node<K, V>)
      requires old(LinkedBut(node))
      requires IsErased(node)
      ensures Valid()
    {
      ErasedLists(node);
      hide ListsLinked, Holds;
      assert forall k :: k in nodeMap ==> nodeMap[k] == old(nodeMap[k]) && nodeMap[k].key == k;
      forall k | k in nodeMap
        ensures InList(nodeMap[k])
      {
        assert nodeMap[k] != node && old(InList(nodeMap[k]));
      }
    }

    /** Forgets a node that is in no list. */
    method Erase(node: Node<K, V>)
      requires LinkedBut(node) && node.key in nodeMap && nodeMap[node.key] == node
      modifies `nodeMap
      ensures Valid()
      ensures nodeMap == old(nodeMap) - {node.key}
      ensures View() == LfuModel.Forget(old(View()), node.key)
    {
      hide Valid, LinkedBut;
      nodeMap := nodeMap - {node.key};
      Erased(node);
      assert Entries() == old(Entries()) - {node.key};
    }

    lemma FirstIsVictim()
      requires Valid() && HasVictim(View())
      ensures minFreq in freqToFreqList
      ensures var list := freqToFreqList[minFreq];
        && list in lists && list.Valid()
        && list.spine[1].key == Victim(View())
        && list.spine[1].key in nodeMap && nodeMap[list.spine[1].key] == list.spine[1]
        && list.spine[1] in nodes
    {
      hide Valid, FreqList.Valid;
      VictimListed();
      var list := freqToFreqList[minFreq];
      ListFound(minFreq);
      FirstListed(minFreq);
    }

    lemma VictimListed()
      requires Valid() && HasVictim(View())
      ensures minFreq in freqToFreqList && ListKeys()[minFreq] != [] && ListKeys()[minFreq][0] == Victim(View())
    {
    }

    lemma FirstListed(f: int)
      requires Valid() && f in freqToFreqList && freqToFreqList[f].Nodes() != []
      ensures var list := freqToFreqList[f];
        && list.Nodes()[0] == list.spine[1] && list.spine[1].key == list.Keys()[0]
        && list.spine[1] in nodes && list.spine[1].key in nodeMap && nodeMap[list.spine[1].key] == list.spine[1]
    {
      var list := freqToFreqList[f];
      assert list.Nodes()[0] in list.Nodes();
    }

    /** Drops a node altogether. */
    method DropNode(node: Node<K, V>)
      requires Valid() && node.key in nodeMap && nodeMap[node.key] == node
      modifies `nodeMap, `totalFreq, `avgFreq, nodes`pre, nodes`next, nodes`owner, lists`spine
      ensures Valid() && View() == LfuModel.Drop(old(View()), node.key)
      ensures nodeMap == old(nodeMap) - {node.key}
    {
      hide Valid, LinkedBut, View, Unlink, Forget, LfuModel.DecreaseFreq;
      NodeFacts(node.key);
      RemoveFromFreqList(node);
      Erase(node);
      DecreaseFreq(node.freq);
    }

    /** Evicts the oldest node of the lowest list. */
    method KickOut()
      requires Valid() && HasVictim(View())
      modifies `nodeMap, `totalFreq, `avgFreq, nodes`pre, nodes`next, nodes`owner, lists`spine
      ensures Valid() && View() == LfuModel.KickOut(old(View()))
      ensures forall k :: k in nodeMap ==> k in old(nodeMap)
    {
      hide Valid, FreqList.Valid, View, Drop, HasVictim;
      FirstIsVictim();
      var node := freqToFreqList[minFreq].GetFirstNode();
      DropNode(node);
    }

    /** Only the map and the set of nodes changed, by the new `node`. */
    twostate predicate IsMapped(new node: Node<K, V>)
      reads this, nodes, lists, node
    {
      && node.key !in old(nodeMap) && nodeMap == old(nodeMap)[node.key := node]
      && freqToFreqList == old(freqToFreqList)
      && nodes == old(nodes) + {node} && lists == old(lists)
      && node !in old(nodes) && node.owner == null
      && (forall m :: m in lists ==> m.spine == old(m.spine))
      && (forall n :: n in old(nodes) && n in nodes ==> n.SameLinks() && n.freq == old(n.freq))
    }

    twostate lemma MappedLists(new node: Node<K, V>)
      requires old(ListsLinked())
      requires IsMapped(node)
      ensures ListsLinked()
    {
      LinksKept();
      hide FreqList.Valid;
      forall f | f in freqToFreqList
        ensures Holds(freqToFreqList[f], f)
      {
        assert old(Holds(freqToFreqList[f], f));
        assert forall n :: n in freqToFreqList[f].Nodes() ==> n in freqToFreqList[f].spine;
      }
    }

    twostate lemma Mapped(new node: Node<K, V>)
      requires old(Valid())
      requires IsMapped(node)
      ensures LinkedBut(node)
    {
      hide Holds;
      MappedLists(node);
      assert forall k :: k in nodeMap ==> nodeMap[k] in nodes && nodeMap[k].key == k;
      forall k | k in nodeMap && nodeMap[k] != node
        ensures InList(nodeMap[k])
      {
        assert k in old(nodeMap) && old(InList(nodeMap[k]));
      }
    }

    /** Creates the node of a new key; it is mapped, but in no list yet. */
    method MapNewNode(key: K, value: V) returns (node: Node<K, V>)
      requires Valid() && key !in nodeMap
      modifies `nodeMap, `nodes
      ensures LinkedBut(node) && nodeMap == old(nodeMap)[key := node] && node.key == key
      ensures View() == MapNew(old(View()), key, value)
      ensures fresh(node) && nodes == old(nodes) + {node}
    {
      hide Valid, LinkedBut;
      node := new Node<K, V>(key, value);
      nodeMap := nodeMap[key := node];
      nodes := nodes + {node};
      Mapped(node);
      assert Entries() == old(Entries())[key := Entry(value, 1)];
    }

    method InsertNode(key: K, value: V)
      requires Valid() && key !in nodeMap
      modifies `nodeMap, `freqToFreqList, `nodes, `lists, nodes`pre, nodes`next, nodes`owner, lists`spine
      ensures Valid() && View() == Insert(old(View()), key, value)
      ensures fresh(nodes - old(nodes)) && fresh(lists - old(lists))
      ensures old(nodes) <= nodes && old(lists) <= lists
    {
      hide Valid, LinkedBut, View, MapNew, Link;
      var node := MapNewNode(key, value);
      AddToFreqList(node);
    }

    method CountNew() returns (ghost visit: seq<K>)
      requires Valid()
      modifies this, nodes`pre, nodes`next, nodes`owner, nodes`freq, lists`spine
      ensures Valid() && View() == LowerMinFreq(LfuModel.IncreaseFreq(cfg, old(View()), visit))
      ensures nodeMap == old(nodeMap) && IsVisit(visit, nodeMap.Keys)
      ensures fresh(nodes - old(nodes)) && fresh(lists - old(lists))
      ensures old(nodes) <= nodes && old(lists) <= lists
    {
      hide Valid, LfuModel.IncreaseFreq, Entries, ListKeys, IsVisit;
      visit := IncreaseFreq();
      minFreq := Min(minFreq, 1);
    }

    method PutInternal(key: K, value: V) returns (ghost visit: seq<K>)
      requires Valid() && key !in nodeMap
      requires |View().entries| == cfg.capacity ==> HasVictim(View())
      modifies this, nodes`pre, nodes`next, nodes`owner, nodes`freq, lists`spine
      ensures Valid() && View() == LfuModel.PutInternal(cfg, old(View()), key, value, visit)
      ensures IsVisit(visit, nodeMap.Keys)
      ensures fresh(nodes - old(nodes)) && fresh(lists - old(lists))
      ensures old(nodes) <= nodes && old(lists) <= lists
    {
      hide Valid, View, LfuModel.KickOut, Insert, LowerMinFreq, LfuModel.IncreaseFreq, IsVisit, HasVictim;
      ViewSize();
      if |nodeMap| == cfg.capacity {
        KickOut();
      }
      InsertNode(key, value);
      visit := CountNew();
    }

    method SetValue(node: Node<K, V>, value: V)
      requires Valid() && node.key in nodeMap && nodeMap[node.key] == node
      modifies node`value
      ensures View() == Overwrite(old(View()), node.key, value)
    {
      hide Valid, LinkedBut, ListKeys;
      KeysInjective(node);
      node.value := value;
      assert Entries() == old(Entries())[node.key := Entry(value, node.freq)];
    }

    /** Maps `key` to `value`; both a hit and a new key count as an access. */
    method Put(key: K, value: V) returns (ghost visit: seq<K>)
      requires Valid() && CanPut(cfg, View(), key)
      modifies this, nodes`pre, nodes`next, nodes`owner, nodes`freq, nodes`value, lists`spine
      ensures Valid() && View() == LfuModel.Put(cfg, old(View()), key, value, visit)
      ensures IsVisit(visit, nodeMap.Keys)
      ensures fresh(nodes - old(nodes)) && fresh(lists - old(lists))
      ensures old(nodes) <= nodes && old(lists) <= lists
    {
      hide Valid, View, LfuModel.PutInternal, LfuModel.GetInternal, Overwrite, IsVisit, HasVictim;
      ViewSize();
      if cfg.capacity == 0 {
        visit := AnyVisit(nodeMap.Keys);
        return;
      }
      if key in nodeMap {
        NodeFacts(key);
        SetValue(nodeMap[key], value);
        var v;
        v, visit := GetInternal(nodeMap[key]);
        return;
      }
      visit := PutInternal(key, value);
    }

    /** A put into a healthy cache always succeeds and leaves it healthy. */
    method PutHealthy(key: K, value: V) returns (ghost visit: seq<K>)
      requires Healthy()
      modifies this, nodes`pre, nodes`next, nodes`owner, nodes`freq, nodes`value, lists`spine
      ensures Healthy() && CanPut(cfg, old(State()), key)
      ensures State() == LfuModel.Put(cfg, old(State()), key, value, visit)
      ensures forall k :: k in nodeMap ==> k in old(nodeMap) || k == key
      ensures IsVisit(visit, nodeMap.Keys)
      ensures fresh(nodes - old(nodes)) && fresh(lists - old(lists))
      ensures old(nodes) <= nodes && old(lists) <= lists
    {
      hide Valid, View, LfuModel.Put, CanPut, IsVisit, LfuTheorems.Sane;
      ViewSize();
      LfuTheorems.ApplyKeeps(cfg, View(), OpPut(key, value, []));
      visit := Put(key, value);
      ViewSize();
      ValidContained();
      LfuTheorems.PutKeys(cfg, old(View()), key, value, visit);
      LfuTheorems.ApplyKeeps(cfg, old(View()), OpPut(key, value, visit));
    }

    method GetHealthy(key: K) returns (found: bool, value: V, ghost visit: seq<K>)
      requires Healthy()
      modifies this, nodes`pre, nodes`next, nodes`owner, nodes`freq, lists`spine
      ensures Healthy() && State() == LfuModel.Get(cfg, old(State()), key, visit)
      ensures found == (key in old(State()).entries)
      ensures found ==> value == old(State()).entries[key].value
      ensures nodeMap == old(nodeMap) && IsVisit(visit, nodeMap.Keys)
      ensures fresh(nodes - old(nodes)) && fresh(lists - old(lists))
      ensures old(nodes) <= nodes && old(lists) <= lists
    {
      hide Valid, View, LfuModel.Get, IsVisit, LfuTheorems.Sane;
      found, value, visit := Get(key);
    }

    /** Drops every node and every list, and nothing else. */
    method Purge()
      modifies `nodeMap, `freqToFreqList
      ensures Valid() && View() == LfuModel.Purge(old(View())) && nodeMap == map[]
    {
      nodeMap := map[];
      freqToFreqList := map[];
      assert Entries() == map[] && ListKeys() == map[];
    }

    method PurgeHealthy()
      requires Healthy()
      modifies `nodeMap, `freqToFreqList
      ensures Healthy() && State() == LfuModel.Purge(old(State())) && nodeMap == map[]
    {
      hide Valid, View, LfuTheorems.Sane, LfuModel.Purge;
      LfuTheorems.PurgeKeeps(cfg, View());
      Purge();
      ValidContained();
    }
  }
}
