// The size-restricted dictionary as a value: the keys in order of recency, and their values.

module LruCache {
  import opened Common

  datatype Cache<K, V> = Cache(recency: seq<K>, values: map<K, V>, maxsize: Option<nat>)

  ghost predicate Wf<K(!new), V>(c: Cache<K, V>) {
    && NoDup(c.recency)
    && (forall k :: k in c.recency <==> k in c.values)
    && (c.maxsize.Some? ==> 0 < c.maxsize.value && |c.recency| <= c.maxsize.value)
  }

  function Empty<K, V>(): Cache<K, V> {
    Cache([], map[], Some(1))
  }

  function Without<K(==)>(s: seq<K>, k: K): seq<K> {
    if s == [] then [] else if s[0] == k then Without(s[1..], k) else [s[0]] + Without(s[1..], k)
  }

  /** The first `n` keys and their values. */
  function Keep<K, V>(c: Cache<K, V>, n: nat): Cache<K, V> {
    if n >= |c.recency| then c
    else c.(recency := c.recency[..n], values := map k | k in c.values && k in c.recency[..n] :: c.values[k])
  }

  function Purge<K, V>(c: Cache<K, V>): Cache<K, V> {
    match c.maxsize
    case None => c
    case Some(m) => Keep(c, m)
  }

  /** None is the KeyError. */
  function Get<K, V>(c: Cache<K, V>, k: K): Option<(V, Cache<K, V>)> {
    if k in c.values then Some((c.values[k], c.(recency := [k] + Without(c.recency, k)))) else None
  }

  function Set<K, V>(c: Cache<K, V>, k: K, v: V): Cache<K, V> {
    if k in c.values then c.(values := c.values[k := v])
    else Purge(c.(recency := [k] + c.recency, values := c.values[k := v]))
  }

  function Delete<K, V>(c: Cache<K, V>, k: K): Option<Cache<K, V>> {
    if k in c.values then Some(c.(recency := Without(c.recency, k), values := c.values - {k})) else None
  }

  function Clear<K, V>(c: Cache<K, V>): Cache<K, V> {
    c.(recency := [], values := map[])
  }

  /** None is the ValueError for a limit which is not positive. */
  function SetMaxsize<K, V>(c: Cache<K, V>, value: Option<int>): Option<Cache<K, V>> {
    match value
    case None => Some(c.(maxsize := None))
    case Some(m) => if m <= 0 then None else Some(Purge(c.(maxsize := Some(m))))
  }

  // ---------------------------------------------------------------- sequences of keys

  lemma {:induction false} WithoutShape<K(!new)>(s: seq<K>, k: K)
    requires NoDup(s)
    ensures NoDup(Without(s, k)) && k !in Without(s, k)
    ensures forall x :: x in Without(s, k) <==> x in s && x != k
    ensures |Without(s, k)| == if k in s then |s| - 1 else |s|
  {
    if s != [] {
      var rest := s[1..];
      assert forall i, j :: 0 <= i < j < |rest| ==> rest[i] == s[i + 1] && rest[j] == s[j + 1];
      WithoutShape(rest, k);
      assert s == [s[0]] + rest;
      assert s[0] !in rest by {
        assert forall j :: 0 <= j < |rest| ==> rest[j] == s[j + 1] != s[0];
      }
    }
  }

  lemma {:induction false} WithoutAt<K(!new)>(s: seq<K>, i: nat)
    requires NoDup(s) && i < |s|
    ensures Without(s, s[i]) == s[..i] + s[i + 1..]
  {
    var rest := s[1..];
    assert forall a, b :: 0 <= a < b < |rest| ==> rest[a] == s[a + 1] && rest[b] == s[b + 1];
    if i == 0 {
      WithoutAbsent(rest, s[0]);
    } else {
      WithoutAt(rest, i - 1);
      assert rest[i - 1] == s[i];
      assert [s[0]] + (rest[..i - 1] + rest[i..]) == s[..i] + s[i + 1..];
    }
  }

  lemma {:induction false} WithoutAbsent<K>(s: seq<K>, k: K)
    requires k !in s
    ensures Without(s, k) == s
  {
    if s != [] {
      WithoutAbsent(s[1..], k);
    }
  }

  lemma {:induction false} KeySetCount<K(!new)>(keys: seq<K>, all: set<K>)
    requires NoDup(keys) && forall k :: k in keys <==> k in all
    ensures |all| == |keys|
  {
    if keys == [] {
      assert all == {};
    } else {
      var k, rest := keys[0], keys[1..];
      assert forall j :: 0 <= j < |rest| ==> rest[j] == keys[j + 1] != k;
      assert keys == [k] + rest;
      NoDupConcat([k], rest);
      KeySetCount(rest, all - {k});
    }
  }

  lemma KeyCount<K(!new), X>(keys: seq<K>, m: map<K, X>)
    requires NoDup(keys) && forall k :: k in keys <==> k in m
    ensures |m| == |keys|
  {
    KeySetCount(keys, m.Keys);
  }

  /** Keeping all but the last key drops exactly that key. */
  lemma KeepAllButOne<K(!new), V>(c: Cache<K, V>)
    requires Wf(c.(maxsize := None)) && c.recency != []
    ensures var n := |c.recency| - 1;
      Keep(c, n) == c.(recency := c.recency[..n], values := c.values - {c.recency[n]})
  {
    var n := |c.recency| - 1;
    assert c.recency == c.recency[..n] + [c.recency[n]];
    assert Keep(c, n).values == c.values - {c.recency[n]};
  }

  lemma KeepTwice<K(!new), V>(c: Cache<K, V>, n: nat, m: nat)
    requires m <= n
    ensures Keep(Keep(c, n), m) == Keep(c, m)
  {
    if n < |c.recency| {
      assert c.recency[..n][..m] == c.recency[..m];
      assert forall k :: k in c.recency[..m] ==> k in c.recency[..n];
    }
  }

  // ---------------------------------------------------------------- every operation keeps the cache well-formed

  lemma PurgeWf<K(!new), V>(c: Cache<K, V>)
    requires NoDup(c.recency) && (forall k :: k in c.recency <==> k in c.values)
    requires c.maxsize.Some? ==> 0 < c.maxsize.value
    ensures Wf(Purge(c))
  {
    if c.maxsize.Some? && c.maxsize.value < |c.recency| {
      var kept := c.recency[..c.maxsize.value];
      assert forall k :: k in kept ==> k in c.recency;
    }
  }

  lemma GetWf<K(!new), V>(c: Cache<K, V>, k: K)
    requires Wf(c) && Get(c, k).Some?
    ensures Wf(Get(c, k).value.1)
  {
    WithoutShape(c.recency, k);
    NoDupConcat([k], Without(c.recency, k));
  }

  lemma SetWf<K(!new), V>(c: Cache<K, V>, k: K, v: V)
    requires Wf(c)
    ensures Wf(Set(c, k, v)) && k in Set(c, k, v).values && Set(c, k, v).values[k] == v
  {
    if k !in c.values {
      NoDupConcat([k], c.recency);
      PurgeWf(c.(recency := [k] + c.recency, values := c.values[k := v]));
    }
  }

  lemma DeleteWf<K(!new), V>(c: Cache<K, V>, k: K)
    requires Wf(c) && Delete(c, k).Some?
    ensures Wf(Delete(c, k).value)
  {
    WithoutShape(c.recency, k);
  }

  /** Fetching and deleting, given the key's place. */
  lemma AtPlace<K(!new), V>(c: Cache<K, V>, i: nat)
    requires Wf(c) && i < |c.recency|
    ensures var k, rest := c.recency[i], c.recency[..i] + c.recency[i + 1..];
      && k in c.values && NoDup(c.recency)
      && Get(c, k) == Some((c.values[k], c.(recency := [k] + rest))) && Wf(Get(c, k).value.1)
      && Delete(c, k) == Some(c.(recency := rest, values := c.values - {k})) && Wf(Delete(c, k).value)
  {
    var k := c.recency[i];
    assert k in c.recency;
    WithoutAt(c.recency, i);
    GetWf(c, k);
    DeleteWf(c, k);
  }

  // ---------------------------------------------------------------- histories

  datatype Op<K, V> =
    | DoGet(key: K) | DoSet(key: K, value: V) | DoDelete(key: K) | DoClear | DoMaxsize(limit: Option<int>)

  function Apply<K, V>(c: Cache<K, V>, op: Op<K, V>): Cache<K, V> {
    match op
    case DoGet(k) => (match Get(c, k) case Some((_, d)) => d case None => c)
    case DoSet(k, v) => Set(c, k, v)
    case DoDelete(k) => (match Delete(c, k) case Some(d) => d case None => c)
    case DoClear => Clear(c)
    case DoMaxsize(m) => (match SetMaxsize(c, m) case Some(d) => d case None => c)
  }

  /** An operation touches a key if it fetches its entry or creates it; overwriting does not count. */
  predicate Touches<K(==), V>(c: Cache<K, V>, op: Op<K, V>, k: K) {
    match op
    case DoGet(q) => q == k && k in c.values
    case DoSet(q, _) => q == k && k !in c.values
    case _ => false
  }

  function After<K, V>(history: seq<Op<K, V>>): Cache<K, V>
    decreases |history|
  {
    if history == [] then Empty() else Apply(After(history[..|history| - 1]), history[|history| - 1])
  }

  /** When the key was last touched; 0 if never. */
  function LastTouch<K(==), V>(history: seq<Op<K, V>>, k: K): (t: nat)
    ensures t <= |history|
    decreases |history|
  {
    if history == [] then 0
    else
      var before := history[..|history| - 1];
      if Touches(After(before), history[|history| - 1], k) then |history| else LastTouch(before, k)
  }

  ghost predicate ByRecency<K, V>(history: seq<Op<K, V>>, keys: seq<K>) {
    forall i, j :: 0 <= i < j < |keys| ==> LastTouch(history, keys[i]) > LastTouch(history, keys[j])
  }

  lemma ApplyWf<K(!new), V>(c: Cache<K, V>, op: Op<K, V>)
    requires Wf(c)
    ensures Wf(Apply(c, op))
  {
    match op
    case DoGet(k) => if k in c.values { GetWf(c, k); }
    case DoSet(k, v) => SetWf(c, k, v);
    case DoDelete(k) => if k in c.values { DeleteWf(c, k); }
    case DoClear =>
    case DoMaxsize(m) => if m.Some? && m.value > 0 { PurgeWf(c.(maxsize := Some(m.value))); }
  }

  lemma {:induction false} AfterWf<K(!new), V>(history: seq<Op<K, V>>)
    ensures Wf(After(history))
    decreases |history|
  {
    if history != [] {
      AfterWf(history[..|history| - 1]);
      ApplyWf(After(history[..|history| - 1]), history[|history| - 1]);
    }
  }

  // ---------------------------------------------------------------- least recently used, over whole histories

  lemma AfterOne<K, V>(history: seq<Op<K, V>>, op: Op<K, V>)
    ensures After(history + [op]) == Apply(After(history), op)
    ensures forall k :: LastTouch(history + [op], k)
                     == (if Touches(After(history), op, k) then |history| + 1 else LastTouch(history, k))
  {
    assert (history + [op])[..|history|] == history;
  }

  /** What a purge is about to shorten: the entries right after the operation proper. */
  function Unpurged<K, V>(c: Cache<K, V>, op: Op<K, V>): seq<K> {
    match op
    case DoGet(k) => if k in c.values then [k] + Without(c.recency, k) else c.recency
    case DoSet(k, _) => if k in c.values then c.recency else [k] + c.recency
    case DoDelete(k) => if k in c.values then Without(c.recency, k) else c.recency
    case DoClear => []
    case DoMaxsize(_) => c.recency
  }

  lemma ApplyShortens<K(!new), V>(c: Cache<K, V>, op: Op<K, V>)
    requires Wf(c)
    ensures var d := Apply(c, op);
      && |d.recency| <= |Unpurged(c, op)|
      && d.recency == Unpurged(c, op)[..|d.recency|]
      && (|d.recency| < |Unpurged(c, op)| ==> d.maxsize == Some(|d.recency|))
  {
    if op.DoGet? && op.key in c.values {
      WithoutShape(c.recency, op.key);
    }
  }

  lemma OrderedWithout<K(!new), V>(history: seq<Op<K, V>>, keys: seq<K>, k: K)
    requires NoDup(keys) && k in keys && ByRecency(history, keys)
    ensures ByRecency(history, Without(keys, k))
  {
    var i :| 0 <= i < |keys| && keys[i] == k;
    WithoutAt(keys, i);
    var w := Without(keys, k);
    assert forall a :: 0 <= a < |w| ==> w[a] == keys[if a < i then a else a + 1];
  }

  lemma OrderedLater<K(!new), V>(history: seq<Op<K, V>>, op: Op<K, V>, keys: seq<K>)
    requires ByRecency(history, keys)
    requires forall k :: k in keys ==> !Touches(After(history), op, k)
    ensures ByRecency(history + [op], keys)
  {
    AfterOne(history, op);
    forall i, j | 0 <= i < j < |keys|
      ensures LastTouch(history + [op], keys[i]) > LastTouch(history + [op], keys[j])
    {
      assert keys[i] in keys && keys[j] in keys;
    }
  }

  lemma OrderedInFront<K(!new), V>(history: seq<Op<K, V>>, op: Op<K, V>, k: K, keys: seq<K>)
    requires ByRecency(history, keys) && k !in keys
    requires Touches(After(history), op, k)
    ensures ByRecency(history + [op], [k] + keys)
  {
    OrderedLater(history, op, keys);
    AfterOne(history, op);
    var all := [k] + keys;
    forall i, j | 0 <= i < j < |all|
      ensures LastTouch(history + [op], all[i]) > LastTouch(history + [op], all[j])
    {
      assert all[j] == keys[j - 1] && keys[j - 1] in keys;
    }
  }

  lemma UnpurgedOrdered<K(!new), V>(history: seq<Op<K, V>>, op: Op<K, V>)
    requires Wf(After(history)) && ByRecency(history, After(history).recency)
    ensures ByRecency(history + [op], Unpurged(After(history), op))
  {
    var c := After(history);
    match op
    case DoGet(k) =>
      if k in c.values {
        WithoutShape(c.recency, k);
        OrderedWithout(history, c.recency, k);
        OrderedInFront(history, op, k, Without(c.recency, k));
      } else {
        OrderedLater(history, op, c.recency);
      }
    case DoSet(k, _) =>
      if k in c.values {
        OrderedLater(history, op, c.recency);
      } else {
        OrderedInFront(history, op, k, c.recency);
      }
    case DoDelete(k) =>
      if k in c.values {
        OrderedWithout(history, c.recency, k);
        OrderedLater(history, op, Without(c.recency, k));
      } else {
        OrderedLater(history, op, c.recency);
      }
    case DoClear =>
    case DoMaxsize(_) => OrderedLater(history, op, c.recency);
  }

  /** After any history, the keys are strictly ordered by when they were last touched, and the limit holds. */
  lemma {:induction false} RecencyIsLastTouch<K(!new), V>(history: seq<Op<K, V>>)
    ensures var c := After(history);
      Wf(c) && ByRecency(history, c.recency) && (c.maxsize.Some? ==> |c.recency| <= c.maxsize.value)
    decreases |history|
  {
    AfterWf(history);
    if history != [] {
      var before, op := history[..|history| - 1], history[|history| - 1];
      assert history == before + [op];
      RecencyIsLastTouch(before);
      UnpurgedOrdered(before, op);
      AfterOne(before, op);
      ApplyShortens(After(before), op);
    }
  }

  /**
   * Whatever an operation purges was touched before everything it keeps, it purges only down to the limit,
   * and a key just written is never purged.
   */
  lemma PurgesLeastRecent<K(!new), V>(history: seq<Op<K, V>>, op: Op<K, V>, gone: K, kept: K)
    requires gone in Unpurged(After(history), op) && gone !in After(history + [op]).values
    requires kept in After(history + [op]).values
    ensures LastTouch(history + [op], gone) < LastTouch(history + [op], kept)
    ensures After(history + [op]).maxsize == Some(|After(history + [op]).recency|)
    ensures op.DoSet? ==> gone != op.key
  {
    RecencyIsLastTouch(history);
    RecencyIsLastTouch(history + [op]);
    UnpurgedOrdered(history, op);
    AfterOne(history, op);
    ApplyShortens(After(history), op);
    var all, left := Unpurged(After(history), op), After(history + [op]).recency;
    assert kept in left && gone !in left;
    var i :| 0 <= i < |left| && left[i] == kept;
    var j :| 0 <= j < |all| && all[j] == gone;
    assert all[i] == kept;
    assert left == all[..|left|] && all[j] !in left;
    assert i < |left| <= j;
    if op.DoSet? {
      SetWf(After(history), op.key, op.value);
    }
  }

  /** Overwriting a value leaves the order alone: a key written again is purged as if it had not been. */
  lemma OverwritingIsNoUse<K(!new), V>(history: seq<Op<K, V>>, k: K, v: V)
    requires k in After(history).values
    ensures After(history + [DoSet(k, v)]).recency == After(history).recency
    ensures After(history + [DoSet(k, v)]).values == After(history).values[k := v]
    ensures forall q :: LastTouch(history + [DoSet(k, v)], q) == LastTouch(history, q)
  {
    AfterOne(history, DoSet(k, v));
  }

  /** The value last written to a key, unless it was lost since. */
  function LastWrite<K(==), V>(history: seq<Op<K, V>>, k: K): Option<V>
    decreases |history|
  {
    if history == [] then None
    else
      var before := history[..|history| - 1];
      match history[|history| - 1]
      case DoSet(q, v) => if q == k then Some(v) else LastWrite(before, k)
      case DoDelete(q) => if q == k then None else LastWrite(before, k)
      case DoClear => None
      case _ => LastWrite(before, k)
  }

  /** A key that is held has the value last written to it; so this is what fetching it returns. */
  lemma {:induction false} HeldIsLastWritten<K(!new), V>(history: seq<Op<K, V>>, k: K)
    requires k in After(history).values
    ensures LastWrite(history, k) == Some(After(history).values[k])
    ensures Get(After(history), k).Some? && LastWrite(history, k) == Some(Get(After(history), k).value.0)
    decreases |history|
  {
    var before, op := history[..|history| - 1], history[|history| - 1];
    ApplyKeepsValue(After(before), op, k);
    if k in After(before).values {
      HeldIsLastWritten(before, k);
    }
  }

  lemma ApplyKeepsValue<K(!new), V>(c: Cache<K, V>, op: Op<K, V>, k: K)
    requires k in Apply(c, op).values
    ensures if op.DoSet? && op.key == k then Apply(c, op).values[k] == op.value
            else k in c.values && Apply(c, op).values[k] == c.values[k]
    ensures !op.DoClear? && !(op.DoDelete? && op.key == k)
  {
  }

  /** The limit in force: one at first, afterwards the last one that was asked for and could be granted. */
  function LimitOf<K, V>(history: seq<Op<K, V>>): Option<nat>
    decreases |history|
  {
    if history == [] then Some(1)
    else
      match history[|history| - 1]
      case DoMaxsize(None) => None
      case DoMaxsize(Some(m)) => if m > 0 then Some(m) else LimitOf(history[..|history| - 1])
      case _ => LimitOf(history[..|history| - 1])
  }

  /** The cache has the limit that was set, and never more keys than that. */
  lemma {:induction false} LimitIsKept<K(!new), V>(history: seq<Op<K, V>>)
    ensures After(history).maxsize == LimitOf(history)
    ensures LimitOf(history).Some? ==> |After(history).recency| <= LimitOf(history).value
    ensures LimitOf(history).Some? ==> |After(history).values| <= LimitOf(history).value
    decreases |history|
  {
    RecencyIsLastTouch(history);
    KeyCount(After(history).recency, After(history).values);
    if history != [] {
      LimitIsKept(history[..|history| - 1]);
    }
  }

  ghost predicate Held<K(!new), V>(history: seq<Op<K, V>>, k: K) {
    k in After(history).values
  }

  ghost predicate Full<K(!new), V>(history: seq<Op<K, V>>) {
    LimitOf(history).Some? && |After(history).values| >= LimitOf(history).value
  }

  /** The key that was touched longest ago. */
  ghost predicate Oldest<K(!new), V>(history: seq<Op<K, V>>, k: K) {
    Held(history, k) && forall q :: Held(history, q) && q != k ==> LastTouch(history, q) > LastTouch(history, k)
  }

  lemma OldestIsLast<K(!new), V>(history: seq<Op<K, V>>, k: K)
    ensures var keys := After(history).recency; Oldest(history, k) <==> keys != [] && k == keys[|keys| - 1]
  {
    RecencyIsLastTouch(history);
    var keys := After(history).recency;
    if keys != [] {
      assert keys[|keys| - 1] in keys;
      var last := keys[|keys| - 1];
      assert Held(history, last);
      forall q | Held(history, q) && q != last ensures LastTouch(history, q) > LastTouch(history, last) {
        var i :| 0 <= i < |keys| && keys[i] == q;
      }
    }
  }

  /** Only deleting, clearing, and creating a key in a full cache lose a key; the last one loses exactly the oldest. */
  lemma HeldAfter<K(!new), V>(history: seq<Op<K, V>>, op: Op<K, V>, k: K)
    ensures op.DoGet? ==> (Held(history + [op], k) <==> Held(history, k))
    ensures op.DoDelete? ==> (Held(history + [op], k) <==> Held(history, k) && k != op.key)
    ensures op.DoClear? ==> !Held(history + [op], k)
    ensures op.DoMaxsize? && (op.limit == None || op.limit.value <= 0)
      ==> (Held(history + [op], k) <==> Held(history, k))
    ensures op.DoSet? && (Held(history, op.key) || !Full(history))
      ==> (Held(history + [op], k) <==> Held(history, k) || k == op.key)
    ensures op.DoSet? && !Held(history, op.key) && Full(history)
      ==> (Held(history + [op], k) <==> (Held(history, k) && !Oldest(history, k)) || k == op.key)
  {
    AfterOne(history, op);
    LimitIsKept(history);
    RecencyIsLastTouch(history);
    var c := After(history);
    KeyCount(c.recency, c.values);
    if op.DoSet? && !Held(history, op.key) && Full(history) {
      OldestIsLast(history, k);
      LastIsDropped(c, op.key, op.value, k);
    }
  }

  /** Setting a new limit keeps as many of the keys as it allows, those touched last. */
  lemma HeldAfterLimit<K(!new), V>(history: seq<Op<K, V>>, m: nat, k: K)
    requires m > 0
    ensures Held(history + [DoMaxsize(Some(m))], k)
      <==> exists i :: 0 <= i < m && i < |After(history).recency| && After(history).recency[i] == k
  {
    AfterOne(history, DoMaxsize(Some(m)));
    RecencyIsLastTouch(history);
  }

  lemma LastIsDropped<K(!new), V>(c: Cache<K, V>, k: K, v: V, q: K)
    requires Wf(c) && k !in c.values && c.maxsize == Some(|c.recency|)
    ensures q in Set(c, k, v).values
      <==> q == k || (q in c.values && q != c.recency[|c.recency| - 1])
  {
    var n := |c.recency|;
    var all := [k] + c.recency;
    assert c.recency == c.recency[..n - 1] + [c.recency[n - 1]];
    assert all[..n] == [k] + c.recency[..n - 1];
  }
}
