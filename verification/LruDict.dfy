// The size-restricted dictionary as it is stored: a circular doubly linked list through a root node, and a dict
// of the list's nodes.  Every method is proved to act on the stored structure as the operation of the same name
// acts on the value in `LruCache`.

module LruDicts {
  import opened Common
  import LruCache

  class Node<K, V> {
    var prev: Node<K, V>
    var next_: Node<K, V>
    var key: Option<K>
    var value: Option<V>

    /** A node linked to itself. */
    constructor (key: Option<K>, value: Option<V>)
      ensures prev == this && next_ == this && this.key == key && this.value == value
    {
      this.prev, this.next_, this.key, this.value := this, this, key, value;
    }
  }

  /** Only the two ends may be the same node. */
  ghost predicate Distinct<K, V>(nodes: seq<Node<K, V>>) {
    forall i, j :: 0 <= i < j < |nodes| && nodes[i] == nodes[j] ==> i == 0 && j == |nodes| - 1
  }

  /** A stretch of the list: consecutive nodes point at each other. */
  ghost predicate Chain<K, V>(nodes: seq<Node<K, V>>)
    reads nodes
  {
    && Distinct(nodes)
    && (forall i :: 0 <= i < |nodes| - 1 ==> nodes[i].next_ == nodes[i + 1])
    && (forall i :: 0 < i < |nodes| ==> nodes[i].prev == nodes[i - 1])
  }

  lemma DistinctRemove<K, V>(before: seq<Node<K, V>>, node: Node<K, V>, after: seq<Node<K, V>>)
    requires before != [] && after != [] && Distinct(before + [node] + after)
    ensures Distinct(before + after)
  {
    var was, now, b := before + [node] + after, before + after, |before|;
    forall i, j | 0 <= i < j < |now| && now[i] == now[j] ensures i == 0 && j == |now| - 1 {
      var k, l := if i < b then i else i + 1, if j < b then j else j + 1;
      assert was[k] == now[i] && was[l] == now[j];
    }
  }

  lemma DistinctInsert<K, V>(before: seq<Node<K, V>>, node: Node<K, V>, after: seq<Node<K, V>>)
    requires before != [] && after != [] && Distinct(before + after) && node !in before + after
    ensures Distinct(before + [node] + after)
  {
    var was, now, b := before + after, before + [node] + after, |before|;
    forall i, j | 0 <= i < j < |now| && now[i] == now[j] ensures i == 0 && j == |now| - 1 {
      var k, l := if i < b then i else i - 1, if j < b then j else j - 1;
      assert i != b ==> now[i] == was[k];
      assert j != b ==> now[j] == was[l];
    }
  }

  method RemoveNode<K, V>(node: Node<K, V>, ghost before: seq<Node<K, V>>, ghost after: seq<Node<K, V>>)
    requires before != [] && after != [] && Chain(before + [node] + after)
    modifies node.next_`prev, node.prev`next_
    ensures Chain(before + after)
  {
    ghost var was, now, b := before + [node] + after, before + after, |before|;
    assert was[b - 1] == before[b - 1] && was[b] == node && was[b + 1] == after[0];
    node.next_.prev := node.prev;
    node.prev.next_ := node.next_;
    DistinctRemove(before, node, after);
    forall i | 0 <= i < |now| - 1 ensures now[i].next_ == now[i + 1] {
      var k := if i < b then i else i + 1;
      assert now[i] == was[k] && now[i + 1] == was[if i + 1 < b then i + 1 else i + 2];
      assert k == b - 1 || was[k] != was[b - 1];
    }
    forall i | 0 < i < |now| ensures now[i].prev == now[i - 1] {
      var k := if i < b then i else i + 1;
      assert now[i] == was[k] && now[i - 1] == was[if i - 1 < b then i - 1 else i];
      assert k == b + 1 || was[k] != was[b + 1];
    }
  }

  method InsertNode<K, V>(at: Node<K, V>, node: Node<K, V>, ghost before: seq<Node<K, V>>, ghost after: seq<Node<K, V>>)
    requires after != [] && Chain(before + [at] + after) && node !in before + [at] + after
    modifies node`next_, node`prev, at`next_, at.next_`prev
    ensures Chain(before + [at] + [node] + after)
  {
    ghost var was, now, b := before + [at] + after, before + [at] + [node] + after, |before|;
    assert was[b] == at && was[b + 1] == after[0];
    node.next_ := at.next_;
    node.next_.prev := node;
    node.prev := at;
    at.next_ := node;
    DistinctInsert(before + [at], node, after);
    forall i | 0 <= i < |now| - 1 ensures now[i].next_ == now[i + 1] {
      if i != b + 1 {
        var k := if i <= b then i else i - 1;
        assert now[i] == was[k] && was[k] != node;
        assert now[i + 1] == if i < b then was[i + 1] else if i == b then node else was[i];
        assert k == b || was[k] != was[b];
      }
    }
    forall i | 0 < i < |now| ensures now[i].prev == now[i - 1] {
      if i != b + 1 {
        var k := if i <= b then i else i - 1;
        assert now[i] == was[k] && was[k] != node;
        assert now[i - 1] == if i - 1 <= b then was[i - 1] else if i - 1 == b + 1 then node else was[i - 2];
        assert k == b + 1 || was[k] != was[b + 1];
      }
    }
  }

  /** Node by node: the key, the dict's entry for it, and the value. */
  ghost predicate Stored<K, V>(links: map<K, Node<K, V>>, nodes: seq<Node<K, V>>, values: map<K, V>, keys: seq<K>)
    reads nodes
  {
    && |nodes| == |keys|
    && (forall i :: 0 <= i < |nodes| ==> keys[i] in links && keys[i] in values)
    && (forall i :: 0 <= i < |nodes| ==> links[keys[i]] == nodes[i])
    && (forall i :: 0 <= i < |nodes| ==> nodes[i].key == Some(keys[i]) && nodes[i].value == Some(values[keys[i]]))
  }

  lemma StoredToFront<K, V>(links: map<K, Node<K, V>>, nodes: seq<Node<K, V>>, values: map<K, V>, keys: seq<K>, i: nat)
    requires Stored(links, nodes, values, keys) && i < |nodes|
    ensures Stored(links, [nodes[i]] + (nodes[..i] + nodes[i + 1..]), values, [keys[i]] + (keys[..i] + keys[i + 1..]))
  {
  }

  lemma StoredDropped<K, V>(links: map<K, Node<K, V>>, nodes: seq<Node<K, V>>, values: map<K, V>, keys: seq<K>, i: nat)
    requires Stored(links, nodes, values, keys) && i < |nodes| && NoDup(keys)
    ensures Stored(links - {keys[i]}, nodes[..i] + nodes[i + 1..], values - {keys[i]}, keys[..i] + keys[i + 1..])
  {
  }

  lemma StoredAdded<K, V>(links: map<K, Node<K, V>>, nodes: seq<Node<K, V>>, values: map<K, V>, keys: seq<K>,
                          node: Node<K, V>, k: K, v: V)
    requires Stored(links, nodes, values, keys) && k !in keys
    requires node.key == Some(k) && node.value == Some(v)
    ensures Stored(links[k := node], [node] + nodes, values[k := v], [k] + keys)
  {
    assert forall i :: 0 <= i < |keys| ==> keys[i] in keys;
  }

  class LRUDict<K(==, !new), V(!new)> {
    var links: map<K, Node<K, V>>
    var root: Node<K, V>
    var maxsize: Option<nat>

    /** The nodes from `root.next_` round to `root.prev`. */
    ghost var ring: seq<Node<K, V>>
    /** The value stored. */
    ghost var cache: LruCache.Cache<K, V>

    /**
     * The links run from the root through `ring` and back, both ways, and node by node the ring is the recency
     * sequence; the dict has exactly those nodes.
     */
    ghost predicate Tied()
      reads this, root, ring
    {
      && Chain([root] + ring + [root])
      && maxsize == cache.maxsize
      && links.Keys == cache.values.Keys
      && Stored(links, ring, cache.values, cache.recency)
    }

    ghost predicate Valid()
      reads this, root, ring
    {
      Tied() && LruCache.Wf(cache)
    }

    constructor ()
      ensures Valid() && fresh(root) && cache == LruCache.Empty() && ring == []
    {
      links := map[];
      maxsize := Some(1);
      ring := [];
      cache := LruCache.Empty();
      var node: Node<K, V> := new Node(None, None);
      root := node;
    }

    /** Finds the key's place in the ring. */
    lemma Place(k: K) returns (i: nat)
      requires Valid() && k in links
      ensures i < |ring| && i < |cache.recency| && cache.recency[i] == k && links[k] == ring[i]
      ensures ring[i].value == Some(cache.values[k])
    {
      assert k in cache.recency;
      i :| 0 <= i < |cache.recency| && cache.recency[i] == k;
    }

    /** Takes the node at place `i` out of the list; no node's key or value changes. */
    method Unlink(node: Node<K, V>, ghost i: nat, ghost l: map<K, Node<K, V>>, ghost values: map<K, V>,
        ghost keys: seq<K>)
      requires Chain([root] + ring + [root]) && i < |ring| && node == ring[i]
      requires Stored(l, ring, values, keys)
      modifies root`prev, root`next_, ring
      ensures Chain([root] + (ring[..i] + ring[i + 1..]) + [root])
      ensures Stored(l, ring, values, keys) && node.value == old(node.value)
      ensures node !in ring[..i] + ring[i + 1..] && node != root
    {
      ghost var all, before, after := [root] + ring + [root], [root] + ring[..i], ring[i + 1..] + [root];
      ghost var rest := ring[..i] + ring[i + 1..];
      assert all == before + [node] + after;
      assert all[i + 1] == node && all[i] == before[|before| - 1] && all[i + 2] == after[0] && all[0] == root;
      assert node.prev in [root] + ring && node.next_ in ring + [root];
      forall j | 0 <= j < |rest| ensures rest[j] != node {
        assert rest[j] == all[if j < i then j + 1 else j + 2];
      }
      RemoveNode(node, before, after);
      assert before + after == [root] + rest + [root];
    }

    /** Puts a node at the front of the list. */
    method LinkFront(node: Node<K, V>, ghost rest: seq<Node<K, V>>, ghost values: map<K, V>, ghost keys: seq<K>)
      requires Chain([root] + rest + [root]) && node !in rest && node != root
      requires Stored(links, [node] + rest, values, keys)
      modifies node`prev, node`next_, root`prev, root`next_, rest
      ensures Chain([root] + ([node] + rest) + [root])
      ensures Stored(links, [node] + rest, values, keys) && node.value == old(node.value)
    {
      ghost var all := [root] + rest + [root];
      assert all == [] + [root] + (rest + [root]);
      assert all[0].next_ == all[1];
      InsertNode(root, node, [], rest + [root]);
      assert [] + [root] + [node] + (rest + [root]) == [root] + ([node] + rest) + [root];
    }

    method Length() returns (n: nat)
      requires Valid()
      ensures n == |cache.recency|
    {
      LruCache.KeyCount(cache.recency, links);
      n := |links|;
    }

    /** Records the ring and the value that the links, the dict and the limit now show. */
    ghost method Settle(nodes: seq<Node<K, V>>, c: LruCache.Cache<K, V>)
      requires Chain([root] + nodes + [root]) && Stored(links, nodes, c.values, c.recency)
      requires maxsize == c.maxsize && links.Keys == c.values.Keys
      modifies `ring, `cache
      ensures ring == nodes && cache == c && Tied()
    {
      hide Stored, Chain;
      ring, cache := nodes, c;
    }

    /** Moves the node at place `i` to the front. */
    method MoveToFront(node: Node<K, V>, ghost i: nat)
      requires Tied() && i < |ring| && i < |cache.recency| && node == ring[i]
      modifies root`prev, root`next_, ring
      ensures Chain([root] + ([node] + (ring[..i] + ring[i + 1..])) + [root])
      ensures Stored(links, [node] + (ring[..i] + ring[i + 1..]), cache.values,
                     [cache.recency[i]] + (cache.recency[..i] + cache.recency[i + 1..]))
      ensures node.value == old(node.value)
    {
      hide Stored, Chain;
      ghost var rest, keys := ring[..i] + ring[i + 1..], cache.recency[..i] + cache.recency[i + 1..];
      Unlink(node, i, links, cache.values, cache.recency);
      StoredToFront(links, ring, cache.values, cache.recency, i);
      LinkFront(node, rest, cache.values, [cache.recency[i]] + keys);
    }

    method GetItem(k: K) returns (r: Option<V>)
      requires Valid()
      modifies this, root, ring
      ensures Valid() && root == old(root)
      ensures match LruCache.Get(old(cache), k)
        case None => r == None && cache == old(cache)
        case Some((v, after)) => r == Some(v) && cache == after
      ensures r == if k in old(cache).values then Some(old(cache).values[k]) else None
    {
      hide Stored, Chain, NoDup, LruCache.Wf;
      if k !in links {
        return None;
      }
      var link := links[k];
      ghost var i := Place(k);
      MoveToFront(link, i);
      LruCache.AtPlace(cache, i);
      Settle([link] + (ring[..i] + ring[i + 1..]), LruCache.Get(cache, k).value.1);
      r := link.value;
    }

    /** Well-formed except that there may be more keys than the limit allows. */
    ghost predicate Overfull()
      reads this, root, ring
    {
      Tied() && LruCache.Wf(cache.(maxsize := None))
    }

    lemma Counts()
      requires Overfull()
      ensures |links| == |ring| == |cache.recency| && maxsize == cache.maxsize
    {
      LruCache.KeyCount(cache.recency, links);
    }

    lemma WithinLimit()
      requires Overfull() && (maxsize.Some? ==> 0 < maxsize.value && |links| <= maxsize.value)
      ensures Valid()
    {
      Counts();
    }

    method Purge()
      requires Overfull() && (maxsize.Some? ==> 0 < maxsize.value)
      modifies this, root, ring
      ensures Valid() && root == old(root) && cache == LruCache.Purge(old(cache)) && ring <= old(ring)
    {
      hide Tied, LruCache.Wf, Overfull, Valid;
      Counts();
      if maxsize.None? {
        WithinLimit();
        return;
      }
      ghost var start, limit, nodes := cache, maxsize.value, ring;
      while |links| > maxsize.value
        invariant Overfull() && maxsize == Some(limit) && root == old(root)
        invariant |links| == |ring| <= |nodes| && ring == nodes[..|ring|]
        invariant |ring| >= limit || ring == nodes
        invariant cache == LruCache.Keep(start, |ring|)
      {
        hide LruCache.Keep;
        ghost var n := |ring|;
        PurgeOne();
        LruCache.KeepTwice(start, n, n - 1);
      }
      WithinLimit();
    }

    method PurgeOne()
      requires Overfull() && ring != []
      modifies this, root, ring
      ensures Overfull() && root == old(root) && maxsize == old(maxsize)
      ensures ring == old(ring)[..|old(ring)| - 1]
      ensures |links| == |ring|
      ensures cache == LruCache.Keep(old(cache), |old(ring)| - 1)
    {
      hide Chain, Stored, LruCache.Keep;
      Counts();
      ghost var n := |ring| - 1;
      LastIsPrev();
      var link := root.prev;
      Unlink(link, n, links, cache.values, cache.recency);
      assert ring[..n] + ring[n + 1..] == ring[..n];
      Forget(link);
      Counts();
    }

    lemma LastIsPrev()
      requires Overfull() && ring != []
      ensures root.prev == ring[|ring| - 1]
    {
      var all := [root] + ring + [root];
      assert all[|ring|] == ring[|ring| - 1] && all[|ring| + 1] == root;
    }

    lemma LastKey() returns (k: K)
      requires Stored(links, ring, cache.values, cache.recency) && ring != []
      ensures |cache.recency| == |ring| && k == cache.recency[|ring| - 1] && ring[|ring| - 1].key == Some(k)
    {
      k := cache.recency[|ring| - 1];
    }

    /** Drops the dict's entry for the last node, which is no longer linked. */
    method Forget(link: Node<K, V>)
      requires ring != [] && link == ring[|ring| - 1] && LruCache.Wf(cache.(maxsize := None))
      requires Chain([root] + ring[..|ring| - 1] + [root])
      requires Stored(links, ring, cache.values, cache.recency)
      requires maxsize == cache.maxsize && links.Keys == cache.values.Keys
      modifies `links, `ring, `cache
      ensures Overfull()
      ensures ring == old(ring)[..|old(ring)| - 1]
      ensures cache == LruCache.Keep(old(cache), |old(ring)| - 1)
    {
      hide Stored, Chain, LruCache.Keep;
      ghost var n := |ring| - 1;
      ghost var k := LastKey();
      StoredDropped(links, ring, cache.values, cache.recency, n);
      assert ring[..n] + ring[n + 1..] == ring[..n]
          && cache.recency[..n] + cache.recency[n + 1..] == cache.recency[..n];
      LruCache.KeepAllButOne(cache);
      links := links - {link.key.value};
      Settle(ring[..n], LruCache.Keep(cache, n));
    }

    method SetMaxsize(value: Option<int>) returns (ok: bool)
      requires Valid()
      modifies this, root, ring
      ensures Valid() && root == old(root) && ring <= old(ring)
      ensures match LruCache.SetMaxsize(old(cache), value)
        case None => !ok && cache == old(cache)
        case Some(after) => ok && cache == after
      ensures ok <==> value.None? || value.value > 0
      ensures ok ==> (maxsize.None? <==> value.None?) && (value.Some? ==> maxsize == Some(value.value))
    {
      if value.Some? && value.value <= 0 {
        return false;
      }
      maxsize := if value.Some? then Some(value.value) else None;
      cache := cache.(maxsize := maxsize);
      Purge();
      ok := true;
    }

    method SetItem(k: K, v: V)
      requires Valid()
      modifies this, root, ring
      ensures Valid() && root == old(root) && cache == LruCache.Set(old(cache), k, v)
      ensures k in cache.values && cache.values[k] == v
      ensures forall node :: node in ring ==> node in old(ring) || fresh(node)
    {
      LruCache.SetWf(cache, k, v);
      if k in links {
        Overwrite(k, v);
      } else {
        Add(k, v);
        Purge();
      }
    }

    method Overwrite(k: K, v: V)
      requires Valid() && k in links
      modifies `cache, ring
      ensures Valid() && cache == LruCache.Set(old(cache), k, v)
    {
      ghost var i := Place(k);
      LruCache.SetWf(cache, k, v);
      links[k].value := Some(v);
      cache := LruCache.Set(cache, k, v);
    }

    method Add(k: K, v: V)
      requires Valid() && k !in links
      modifies this, root, ring
      ensures Tied() && root == old(root) && maxsize == old(maxsize) && LruCache.Wf(cache.(maxsize := None))
      ensures ring != [] && fresh(ring[0]) && ring == [ring[0]] + old(ring)
      ensures cache == old(cache).(recency := [k] + old(cache).recency, values := old(cache).values[k := v])
    {
      hide Stored, Chain;
      var link := new Node(Some(k), Some(v));
      StoredAdded(links, ring, cache.values, cache.recency, link, k, v);
      links := links[k := link];
      LinkFront(link, ring, cache.values[k := v], [k] + cache.recency);
      NoDupConcat([k], cache.recency);
      Settle([link] + ring, cache.(recency := [k] + cache.recency, values := cache.values[k := v]));
    }

    method DelItem(k: K) returns (ok: bool)
      requires Valid()
      modifies this, root, ring
      ensures Valid() && root == old(root)
      ensures match LruCache.Delete(old(cache), k)
        case None => !ok && cache == old(cache)
        case Some(after) => ok && cache == after
      ensures ok <==> k in old(cache).values
      ensures cache.values == old(cache).values - {k}
    {
      hide Stored, Chain, NoDup, LruCache.Wf;
      if k !in links {
        return false;
      }
      var link := links[k];
      ghost var i := Place(k);
      ghost var was := links;
      ghost var rest, keys := ring[..i] + ring[i + 1..], cache.recency[..i] + cache.recency[i + 1..];
      links := links - {k};
      Unlink(link, i, was, cache.values, cache.recency);
      LruCache.AtPlace(cache, i);
      StoredDropped(was, ring, cache.values, cache.recency, i);
      Settle(rest, LruCache.Delete(cache, k).value);
      ok := true;
    }

    method Clear()
      requires Valid()
      modifies this
      ensures Valid() && fresh(root) && cache == LruCache.Clear(old(cache))
      ensures cache.values == map[] && maxsize == old(maxsize)
    {
      links := map[];
      root := new Node(None, None);
      ring := [];
      cache := LruCache.Clear(cache);
    }
  }
}
