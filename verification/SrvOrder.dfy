// Ordering of SRV records: ascending priority, and a weighted random order within one priority.

module SrvOrder {

  type Address = string

  datatype Record = Record(priority: nat, weight: nat, address: Address)

  predicate NotAfter(a: Record, b: Record) {
    a.priority < b.priority || (a.priority == b.priority && a.weight <= b.weight)
  }

  // ---------------------------------------------------------------- sorting by priority and weight

  function Insert(r: Record, s: seq<Record>): seq<Record> {
    if s == [] || NotAfter(r, s[0]) then [r] + s else [s[0]] + Insert(r, s[1..])
  }

  /** The stable sort. */
  function Sort(s: seq<Record>): seq<Record> {
    if s == [] then [] else Insert(s[0], Sort(s[1..]))
  }

  /** By ascending priority, and within one priority by ascending weight. */
  ghost predicate Sorted(s: seq<Record>) {
    forall i, j :: 0 <= i < j < |s| ==>
      s[i].priority <= s[j].priority && (s[i].priority == s[j].priority ==> s[i].weight <= s[j].weight)
  }

  lemma {:induction false} InsertPermutes(r: Record, s: seq<Record>)
    ensures multiset(Insert(r, s)) == multiset([r] + s)
  {
    if s != [] && !NotAfter(r, s[0]) {
      InsertPermutes(r, s[1..]);
      assert s == [s[0]] + s[1..];
    }
  }

  lemma {:induction false} InsertSorts(r: Record, s: seq<Record>)
    requires Sorted(s)
    ensures Sorted(Insert(r, s))
    ensures forall i :: 0 <= i < |Insert(r, s)| ==> Insert(r, s)[i] == r || Insert(r, s)[i] in s
  {
    if s != [] && !NotAfter(r, s[0]) {
      InsertSorts(r, s[1..]);
      var rest := Insert(r, s[1..]);
      forall i | 0 <= i < |rest|
        ensures s[0].priority <= rest[i].priority
        ensures s[0].priority == rest[i].priority ==> s[0].weight <= rest[i].weight
      {
        assert rest[i] == r || rest[i] in s[1..];
      }
    }
  }

  lemma {:induction false} SortSorts(s: seq<Record>)
    ensures Sorted(Sort(s)) && multiset(Sort(s)) == multiset(s) && |Sort(s)| == |s|
  {
    if s != [] {
      SortSorts(s[1..]);
      InsertSorts(s[0], Sort(s[1..]));
      InsertPermutes(s[0], Sort(s[1..]));
      assert s == [s[0]] + s[1..];
    }
    assert |multiset(Sort(s))| == |Sort(s)| && |multiset(s)| == |s|;
  }

  /** The records of one priority and weight, in order. */
  function Only(s: seq<Record>, priority: nat, weight: nat): seq<Record> {
    if s == [] then []
    else (if s[0].priority == priority && s[0].weight == weight then [s[0]] else []) + Only(s[1..], priority, weight)
  }

  lemma {:induction false} InsertKeepsOrder(r: Record, s: seq<Record>, priority: nat, weight: nat)
    ensures Only(Insert(r, s), priority, weight) == Only([r] + s, priority, weight)
  {
    assert ([r] + s)[1..] == s;
    if s != [] && !NotAfter(r, s[0]) {
      InsertKeepsOrder(r, s[1..], priority, weight);
      assert ([r] + s[1..])[1..] == s[1..];
      assert Insert(r, s)[1..] == Insert(r, s[1..]);
    }
  }

  /** Records of one priority and weight stay in the order in which they came. */
  lemma {:induction false} SortIsStable(s: seq<Record>, priority: nat, weight: nat)
    ensures Only(Sort(s), priority, weight) == Only(s, priority, weight)
  {
    if s != [] {
      SortIsStable(s[1..], priority, weight);
      InsertKeepsOrder(s[0], Sort(s[1..]), priority, weight);
      assert ([s[0]] + Sort(s[1..]))[1..] == Sort(s[1..]);
    }
  }

  // ---------------------------------------------------------------- one draw

  function Total(records: seq<Record>): (t: nat) {
    if records == [] then 0 else records[0].weight + Total(records[1..])
  }

  lemma {:induction false} TotalSplits(a: seq<Record>, b: seq<Record>)
    ensures Total(a + b) == Total(a) + Total(b)
  {
    if a == [] {
      assert a + b == b;
    } else {
      assert (a + b)[1..] == a[1..] + b;
      TotalSplits(a[1..], b);
    }
  }

  lemma TotalParts(before: seq<Record>, r: Record, after: seq<Record>)
    ensures Total(before + [r]) == Total(before) + r.weight
    ensures Total(before + [r] + after) == Total(before) + r.weight + Total(after)
    ensures Total(before + after) == Total(before) + Total(after)
  {
    TotalOne(r);
    hide Total;
    TotalSplits(before, [r]);
    TotalSplits(before + [r], after);
    TotalSplits(before, after);
  }

  lemma TotalOne(r: Record)
    ensures Total([r]) == r.weight
  {
    assert [r][1..] == [];
  }

  lemma TotalAt(records: seq<Record>, i: nat)
    requires i < |records|
    ensures Total(records[..i + 1]) == Total(records[..i]) + records[i].weight
    ensures Total(records) == Total(records[..i]) + records[i].weight + Total(records[i + 1..])
    ensures Total(records[..i] + records[i + 1..]) == Total(records) - records[i].weight
  {
    hide Total;
    assert records[..i + 1] == records[..i] + [records[i]] && records == records[..i + 1] + records[i + 1..];
    TotalParts(records[..i], records[i], records[i + 1..]);
  }

  /** The first place at which the running sum of the weights reaches the value. */
  ghost predicate PickedBy(records: seq<Record>, value: nat, i: nat) {
    && i < |records|
    && value <= Total(records[..i + 1])
    && (i > 0 ==> Total(records[..i]) < value)
  }

  lemma {:induction false} TotalGrows(records: seq<Record>, i: nat, j: nat)
    requires i <= j <= |records|
    ensures Total(records[..i]) <= Total(records[..j])
  {
    assert records[..j] == records[..i] + records[i..j];
    TotalSplits(records[..i], records[i..j]);
  }

  lemma OnePlace(records: seq<Record>, value: nat, i: nat, j: nat)
    requires PickedBy(records, value, i) && PickedBy(records, value, j)
    ensures i == j
  {
    if i < j {
      TotalGrows(records, i + 1, j);
    } else if j < i {
      TotalGrows(records, j + 1, i);
    }
  }

  function Range(low: nat, high: nat): (r: set<nat>)
    requires low <= high
    ensures forall v :: v in r <==> low <= v < high
    ensures |r| == high - low
    decreases high
  {
    if low == high then {} else Range(low, high - 1) + {high - 1}
  }

  /** The values that pick the i-th record are as many as its weight says; for the first there is one more. */
  lemma PickingValues(records: seq<Record>, i: nat) returns (low: nat, high: nat)
    requires i < |records|
    ensures low <= high <= Total(records) + 1
    ensures high - low == records[i].weight + if i == 0 then 1 else 0
    ensures forall v: nat :: low <= v < high <==> PickedBy(records, v, i)
  {
    TotalAt(records, i);
    assert records[..0] == [];
    low, high := if i == 0 then 0 else Total(records[..i]) + 1, Total(records[..i + 1]) + 1;
  }

  /** Of the values that can be drawn, a record is picked by as many as its weight says; the first by one more. */
  lemma PickedInProportion(records: seq<Record>, i: nat)
    requires i < |records|
    ensures |set v | v in Range(0, Total(records) + 1) && PickedBy(records, v, i)|
      == records[i].weight + if i == 0 then 1 else 0
  {
    hide PickedBy;
    var low, high := PickingValues(records, i);
    var picking := set v | v in Range(0, Total(records) + 1) && PickedBy(records, v, i);
    forall v: nat ensures v in picking <==> v in Range(low, high) {
      assert low <= v < high <==> PickedBy(records, v, i);
    }
    assert picking == Range(low, high);
  }

  method Pick(records: seq<Record>, value: nat) returns (i: nat)
    requires records != [] && value <= Total(records)
    ensures PickedBy(records, value, i)
  {
    assert records[..|records|] == records;
    i := 0;
    var runningWeightSum := 0;
    while true
      invariant i < |records| && runningWeightSum == Total(records[..i])
      invariant i > 0 ==> Total(records[..i]) < value
      decreases |records| - i
    {
      TotalAt(records, i);
      runningWeightSum := runningWeightSum + records[i].weight;
      if runningWeightSum >= value {
        return;
      }
      i := i + 1;
    }
  }

  // ---------------------------------------------------------------- one priority

  /** The generator of random numbers: the k-th number drawn, from 0 up to and including the given bound. */
  type Rng = (nat, nat) -> nat

  ghost predicate InRange(rng: Rng) {
    forall k: nat, bound: nat :: rng(k, bound) <= bound
  }

  /** `picked` is what the k-th draw and those after it make of a group. */
  ghost predicate Drawn(group: seq<Record>, picked: seq<Record>, rng: Rng, k: nat)
    decreases |group|
  {
    if |group| <= 1 then picked == group
    else picked != [] && exists i: nat :: DrawnFrom(group, picked, rng, k, i)
  }

  ghost predicate DrawnFrom(group: seq<Record>, picked: seq<Record>, rng: Rng, k: nat, i: nat)
    decreases |group|, 0
  {
    && picked != [] && PickedBy(group, rng(k, Total(group)), i) && picked[0] == group[i]
    && Drawn(group[..i] + group[i + 1..], picked[1..], rng, k + 1)
  }

  lemma {:induction false} DrawnPermutes(group: seq<Record>, picked: seq<Record>, rng: Rng, k: nat)
    requires Drawn(group, picked, rng, k)
    ensures multiset(picked) == multiset(group) && |picked| == |group|
    decreases |group|
  {
    if |group| > 1 {
      var i: nat :| DrawnFrom(group, picked, rng, k, i);
      DrawnPermutes(group[..i] + group[i + 1..], picked[1..], rng, k + 1);
      assert picked == [picked[0]] + picked[1..];
      assert group == group[..i] + [group[i]] + group[i + 1..];
    }
  }

  /** The numbers drawn determine the order. */
  lemma {:induction false} DrawnOnce(group: seq<Record>, p: seq<Record>, q: seq<Record>, rng: Rng, k: nat)
    requires Drawn(group, p, rng, k) && Drawn(group, q, rng, k)
    ensures p == q
    decreases |group|
  {
    if |group| > 1 {
      var i: nat :| DrawnFrom(group, p, rng, k, i);
      var j: nat :| DrawnFrom(group, q, rng, k, j);
      OnePlace(group, rng(k, Total(group)), i, j);
      DrawnOnce(group[..i] + group[i + 1..], p[1..], q[1..], rng, k + 1);
      assert p == [p[0]] + p[1..] && q == [q[0]] + q[1..];
    }
  }

  function Addresses(records: seq<Record>): (a: seq<Address>)
    ensures |a| == |records|
    ensures forall i :: 0 <= i < |a| ==> a[i] == records[i].address
  {
    if records == [] then [] else [records[0].address] + Addresses(records[1..])
  }

  /** What was picked so far, before what the draws make of the rest. */
  ghost predicate DrawnSoFar(group: seq<Record>, picked: seq<Record>, rng: Rng, k: nat, left: seq<Record>, l: nat) {
    forall rest :: Drawn(left, rest, rng, l) ==> Drawn(group, picked + rest, rng, k)
  }

  lemma DrawnNext(group: seq<Record>, picked: seq<Record>, rng: Rng, k: nat, left: seq<Record>, l: nat, i: nat)
    requires DrawnSoFar(group, picked, rng, k, left, l) && |left| > 1 && PickedBy(left, rng(l, Total(left)), i)
    ensures DrawnSoFar(group, picked + [left[i]], rng, k, left[..i] + left[i + 1..], l + 1)
  {
    forall rest | Drawn(left[..i] + left[i + 1..], rest, rng, l + 1)
      ensures Drawn(group, picked + [left[i]] + rest, rng, k)
    {
      var all := [left[i]] + rest;
      assert all[1..] == rest && DrawnFrom(left, all, rng, l, i);
      assert picked + [left[i]] + rest == picked + all;
    }
  }

  method OrderGroup(group: seq<Record>, rng: Rng, k: nat) returns (yielded: seq<Address>, ghost picked: seq<Record>)
    requires group != [] && InRange(rng)
    ensures Drawn(group, picked, rng, k) && yielded == Addresses(picked)
  {
    var records, totalWeight, draws := group, Total(group), k;
    yielded, picked := [], [];
    assert forall rest: seq<Record> :: [] + rest == rest;
    while records != []
      invariant totalWeight == Total(records)
      invariant records != [] && DrawnSoFar(group, picked, rng, k, records, draws)
      invariant yielded == Addresses(picked)
      decreases |records|
    {
      if |records| == 1 {
        yielded := yielded + [records[0].address];
        AddressesMore(picked, records[0]);
        assert records == [records[0]] && Drawn(records, records, rng, draws);
        picked := picked + records;
        break;
      }
      var value := rng(draws, totalWeight);
      var i := Pick(records, value);
      yielded := yielded + [records[i].address];
      AddressesMore(picked, records[i]);
      DrawnNext(group, picked, rng, k, records, draws, i);
      TotalAt(records, i);
      picked := picked + [records[i]];
      totalWeight := totalWeight - records[i].weight;
      records := records[..i] + records[i + 1..];
      draws := draws + 1;
    }
  }

  lemma AddressesMore(records: seq<Record>, r: Record)
    ensures Addresses(records + [r]) == Addresses(records) + [r.address]
  {
  }

  // ---------------------------------------------------------------- all priorities

  /** How many records at the front share the first priority. */
  function GroupSize(s: seq<Record>): (n: nat)
    requires s != []
    ensures 0 < n <= |s|
    ensures forall i :: 0 <= i < n ==> s[i].priority == s[0].priority
    ensures n < |s| ==> s[n].priority != s[0].priority
  {
    if |s| == 1 || s[1].priority != s[0].priority then 1 else 1 + GroupSize(s[1..])
  }

  ghost predicate Ordered(s: seq<Record>, picked: seq<Record>, rng: Rng, k: nat)
    decreases |s|
  {
    if s == [] then picked == []
    else
      var n := GroupSize(s);
      && n <= |picked|
      && Drawn(s[..n], picked[..n], rng, k)
      && Ordered(s[n..], picked[n..], rng, k + n - 1)
  }

  ghost predicate Ascending(s: seq<Record>) {
    forall i, j :: 0 <= i < j < |s| ==> s[i].priority <= s[j].priority
  }

  lemma {:induction false} OrderedPermutes(s: seq<Record>, picked: seq<Record>, rng: Rng, k: nat)
    requires Ordered(s, picked, rng, k)
    ensures multiset(picked) == multiset(s) && |picked| == |s|
    decreases |s|
  {
    if s != [] {
      var n := GroupSize(s);
      DrawnPermutes(s[..n], picked[..n], rng, k);
      OrderedPermutes(s[n..], picked[n..], rng, k + n - 1);
      assert s == s[..n] + s[n..] && picked == picked[..n] + picked[n..];
    }
  }

  lemma AscendingTogether(a: seq<Record>, b: seq<Record>, c: seq<Record>, d: seq<Record>)
    requires multiset(a) == multiset(c) && multiset(b) == multiset(d) && Ascending(b)
    requires forall i, j :: 0 <= i < |c| && 0 <= j < |c| ==> c[i].priority == c[j].priority
    requires forall i, j :: 0 <= i < |c| && 0 <= j < |d| ==> c[i].priority <= d[j].priority
    ensures Ascending(a + b)
  {
    forall i, j | 0 <= i < j < |a + b| ensures (a + b)[i].priority <= (a + b)[j].priority {
      if i < |a| {
        assert a[i] in multiset(a) && a[i] in c;
        if j < |a| {
          assert a[j] in multiset(a) && a[j] in c;
        } else {
          assert b[j - |a|] in multiset(b) && b[j - |a|] in d;
        }
      }
    }
  }

  lemma SortedSplits(s: seq<Record>)
    requires Sorted(s) && s != []
    ensures var c, d := s[..GroupSize(s)], s[GroupSize(s)..];
      && Sorted(d)
      && (forall i, j :: 0 <= i < |c| && 0 <= j < |c| ==> c[i].priority == c[j].priority)
      && (forall i, j :: 0 <= i < |c| && 0 <= j < |d| ==> c[i].priority <= d[j].priority)
  {
  }

  lemma {:induction false} OrderedAscends(s: seq<Record>, picked: seq<Record>, rng: Rng, k: nat)
    requires Ordered(s, picked, rng, k) && Sorted(s)
    ensures Ascending(picked)
    decreases |s|
  {
    hide Drawn, Sorted, Ascending;
    if s != [] {
      var n := GroupSize(s);
      SortedSplits(s);
      DrawnPermutes(s[..n], picked[..n], rng, k);
      OrderedPermutes(s[n..], picked[n..], rng, k + n - 1);
      OrderedAscends(s[n..], picked[n..], rng, k + n - 1);
      AscendingTogether(picked[..n], picked[n..], s[..n], s[n..]);
      assert picked == picked[..n] + picked[n..];
    } else {
      NoneAscend(picked);
    }
  }

  lemma NoneAscend(picked: seq<Record>)
    requires picked == []
    ensures Ascending(picked)
  {
  }

  ghost predicate OrderedSoFar(s: seq<Record>, picked: seq<Record>, rng: Rng, left: seq<Record>, l: nat) {
    forall rest :: Ordered(left, rest, rng, l) ==> Ordered(s, picked + rest, rng, 0)
  }

  lemma OrderedNext(s: seq<Record>, picked: seq<Record>, rng: Rng, left: seq<Record>, l: nat, more: seq<Record>)
    requires OrderedSoFar(s, picked, rng, left, l) && left != []
    requires Drawn(left[..GroupSize(left)], more, rng, l)
    ensures OrderedSoFar(s, picked + more, rng, left[GroupSize(left)..], l + GroupSize(left) - 1)
  {
    var n := GroupSize(left);
    DrawnPermutes(left[..n], more, rng, l);
    forall rest | Ordered(left[n..], rest, rng, l + n - 1)
      ensures Ordered(s, picked + more + rest, rng, 0)
    {
      assert (more + rest)[..n] == more && (more + rest)[n..] == rest;
      assert picked + more + rest == picked + (more + rest);
    }
  }

  lemma OrderedStart(s: seq<Record>, rng: Rng)
    ensures OrderedSoFar(s, [], rng, s, 0)
  {
    assert forall rest: seq<Record> :: [] + rest == rest;
  }

  lemma OrderedEnd(s: seq<Record>, picked: seq<Record>, rng: Rng, l: nat)
    requires OrderedSoFar(s, picked, rng, [], l)
    ensures Ordered(s, picked, rng, 0)
  {
    assert Ordered([], [], rng, l);
    assert picked + [] == picked;
  }

  lemma NoAddresses()
    ensures Addresses([]) == []
  {
  }

  lemma {:induction false} AddressesTogether(a: seq<Record>, b: seq<Record>)
    ensures Addresses(a + b) == Addresses(a) + Addresses(b)
  {
  }

  /** Every record once, by ascending priority, and within one priority as the numbers drawn decide. */
  ghost predicate YieldedFrom(allRecords: seq<Record>, rng: Rng, picked: seq<Record>) {
    Ordered(Sort(allRecords), picked, rng, 0) && multiset(picked) == multiset(allRecords) && Ascending(picked)
  }

  method GroupAndOrder(allRecords: seq<Record>, rng: Rng) returns (yielded: seq<Address>)
    requires InRange(rng)
    ensures exists picked :: YieldedFrom(allRecords, rng, picked) && yielded == Addresses(picked)
  {
    hide Ordered, OrderedSoFar, Drawn, InRange, YieldedFrom, Sort, Addresses;
    NoAddresses();
    var records := Sort(allRecords);
    var draws := 0;
    ghost var sorted := records;
    ghost var picked := [];
    yielded := [];
    OrderedStart(sorted, rng);
    while records != []
      invariant OrderedSoFar(sorted, picked, rng, records, draws)
      invariant yielded == Addresses(picked)
      decreases |records|
    {
      var n := GroupSize(records);
      var some, more := OrderGroup(records[..n], rng, draws);
      OrderedNext(sorted, picked, rng, records, draws, more);
      AddressesTogether(picked, more);
      yielded, picked := yielded + some, picked + more;
      records, draws := records[n..], draws + n - 1;
    }
    AllYielded(allRecords, rng, picked, draws);
  }

  lemma AllYielded(allRecords: seq<Record>, rng: Rng, picked: seq<Record>, l: nat)
    requires OrderedSoFar(Sort(allRecords), picked, rng, [], l)
    ensures YieldedFrom(allRecords, rng, picked)
  {
    hide Ordered, OrderedSoFar, Sorted, Ascending;
    SortSorts(allRecords);
    OrderedEnd(Sort(allRecords), picked, rng, l);
    OrderedPermutes(Sort(allRecords), picked, rng, 0);
    OrderedAscends(Sort(allRecords), picked, rng, 0);
  }

  /** What is yielded does not depend on anything but the records and the numbers drawn. */
  lemma YieldedOnce(allRecords: seq<Record>, rng: Rng, p: seq<Record>, q: seq<Record>)
    requires YieldedFrom(allRecords, rng, p) && YieldedFrom(allRecords, rng, q)
    ensures p == q
  {
    OrderedOnce(Sort(allRecords), p, q, rng, 0);
  }

  lemma {:induction false} OrderedOnce(s: seq<Record>, p: seq<Record>, q: seq<Record>, rng: Rng, k: nat)
    requires Ordered(s, p, rng, k) && Ordered(s, q, rng, k)
    ensures p == q
    decreases |s|
  {
    if s != [] {
      var n := GroupSize(s);
      DrawnOnce(s[..n], p[..n], q[..n], rng, k);
      OrderedOnce(s[n..], p[n..], q[n..], rng, k + n - 1);
      assert p == p[..n] + p[n..] && q == q[..n] + q[n..];
    }
  }
}
