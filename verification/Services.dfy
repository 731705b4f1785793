// Service classes as the metaclass registers them, and a client's summoning of services.

module Services {
  import opened Common
  import opened ServiceGraph

  /** A set that is shared by the calls of one search. */
  class Visited {
    var seen: set<Class>

    constructor ()
      ensures seen == {}
    {
      seen := {};
    }
  }

  /** All service classes defined so far, with their PATCHED_ORDER_AFTER. */
  class Registry {
    var patched: Graph

    constructor ()
      ensures patched == map[] && IsGraph(patched) && Acyclic(patched)
    {
      patched := map[];
    }

    /**
     * Whether the search found a way to `other`; if not, it has visited everything its new classes lead to, and
     * met nothing of `other` past the start.
     */
    method Search(self: Class, other: set<Class>, visited: Visited) returns (found: bool)
      requires IsGraph(patched) && self in patched && visited.seen <= patched.Keys
      modifies visited
      ensures old(visited.seen) <= visited.seen <= patched.Keys
      ensures found ==> exists y :: y in other - old(visited.seen) - {self} && Reaches(patched, self, y)
      ensures !found && other != {} ==> self in visited.seen
      ensures !found ==> (visited.seen - old(visited.seen) - {self}) * other == {}
      ensures !found ==> forall x, y :: x in visited.seen - old(visited.seen) && y in patched[x] ==> y in visited.seen
      decreases patched.Keys - visited.seen
    {
      if other == {} {
        return false;
      }
      if self in visited.seen {
        return false;
      }
      ghost var before := visited.seen;
      visited.seen := visited.seen + {self};
      var todo := patched[self];
      while todo != {}
        invariant todo <= patched[self]
        invariant before + {self} <= visited.seen <= patched.Keys
        invariant patched[self] - todo <= visited.seen
        invariant (visited.seen - before - {self}) * other == {}
        invariant forall x, y :: x in visited.seen - before - {self} && y in patched[x] ==> y in visited.seen
        decreases todo
      {
        var item :| item in todo;
        todo := todo - {item};
        if item in visited.seen {
          continue;
        }
        Edge(patched, self, item);
        if item in other {
          return true;
        }
        ghost var sofar := visited.seen;
        found := Search(item, other, visited);
        if found {
          ghost var y :| y in other - sofar - {item} && Reaches(patched, item, y);
          Transitive(patched, self, item, y);
          return true;
        }
      }
      found := false;
    }

    /** With a fresh set of visited classes the search is exact, but for never looking for its own start. */
    method OrdersAfterAny(self: Class, other: set<Class>) returns (r: bool)
      requires IsGraph(patched) && self in patched
      ensures r <==> ReachesAny(patched, self, other - {self})
      ensures Acyclic(patched) ==> (r <==> ReachesAny(patched, self, other))
    {
      var visited := new Visited();
      r := Search(self, other, visited);
      if !r && ReachesAny(patched, self, other - {self}) {
        var y :| y in other - {self} && Reaches(patched, self, y);
        StaysInside(patched, visited.seen, self, y);
        assert false;
      }
    }

    method OrdersAfter(self: Class, other: Class) returns (r: bool)
      requires IsGraph(patched) && self in patched
      ensures r <==> self != other && Reaches(patched, self, other)
    {
      r := OrdersAfterAny(self, {other});
    }

    method IndependentFrom(self: Class, other: Class) returns (r: bool)
      requires IsGraph(patched) && self in patched && other in patched
      ensures r <==> self != other && !Reaches(patched, self, other) && !Reaches(patched, other, self)
    {
      if self == other {
        return false;
      }
      r := OrdersAfter(self, other);
      if !r {
        r := OrdersAfter(other, self);
      }
      r := !r;
    }

    /** One search after the other, over the same set of visited classes. */
    method NoLoop(orderBefore: set<Class>, orderAfter: set<Class>) returns (ok: bool)
      requires IsGraph(patched) && orderAfter <= patched.Keys && orderBefore != {}
      ensures !ok ==> ClosesLoop(patched, orderBefore, orderAfter)
      ensures orderBefore * orderAfter == {} ==> (ok <==> !ClosesLoop(patched, orderBefore, orderAfter))
    {
      var visited := new Visited();
      var todo := orderAfter;
      while todo != {}
        invariant fresh(visited) && todo <= orderAfter && visited.seen <= patched.Keys
        invariant orderAfter - todo <= visited.seen && Closed(patched, visited.seen)
        invariant orderBefore * orderAfter == {} ==> visited.seen * orderBefore == {}
        decreases todo
      {
        var item :| item in todo;
        todo := todo - {item};
        var found := Search(item, orderBefore, visited);
        if found {
          return false;
        }
      }
      if ClosesLoop(patched, orderBefore, orderAfter) {
        var a :| a in orderAfter && ReachesAny(patched, a, orderBefore);
        var b :| b in orderBefore && Reaches(patched, a, b);
        StaysInside(patched, visited.seen, a, b);
        assert b in visited.seen * orderBefore;
      }
      ok := true;
    }

    /** The metaclass: refuses a dependency loop, else enters the class and patches those it comes before. */
    method Define(n: Class, orderBefore: set<Class>, orderAfter: set<Class>) returns (ok: bool)
      requires Definable(patched, n, orderBefore, orderAfter)
      modifies this
      ensures patched == if ok then Extended(old(patched), n, orderBefore, orderAfter) else old(patched)
      ensures !ok ==> ClosesLoop(old(patched), orderBefore, orderAfter)
      ensures orderBefore * orderAfter == {} ==> (ok <==> !ClosesLoop(old(patched), orderBefore, orderAfter))
      ensures IsGraph(patched)
      ensures ok && old(Acyclic(patched)) ==> (Acyclic(patched) <==> orderBefore * orderAfter == {})
    {
      hide Acyclic, Extended;
      ok := true;
      if orderBefore != {} && orderAfter != {} {
        ok := NoLoop(orderBefore, orderAfter);
      }
      if !ok {
        return;
      }
      ghost var was := patched;
      Enter(n, orderBefore, orderAfter);
      ExtendedIsGraph(was, n, orderBefore, orderAfter);
      if Acyclic(was) {
        ExtendedAcyclicIff(was, n, orderBefore, orderAfter);
      }
    }

    method Enter(n: Class, orderBefore: set<Class>, orderAfter: set<Class>)
      requires Definable(patched, n, orderBefore, orderAfter)
      modifies this
      ensures patched == Extended(old(patched), n, orderBefore, orderAfter)
    {
      patched := patched[n := orderAfter];
      var todo := orderBefore;
      while todo != {}
        invariant todo <= orderBefore
        invariant patched == Extended(old(patched), n, orderBefore - todo, orderAfter)
        decreases todo
      {
        var class_ :| class_ in todo;
        todo := todo - {class_};
        patched := patched[class_ := patched[class_] + {n}];
      }
    }
  }

  // ---------------------------------------------------------------- summoning

  datatype Instance = Instance(class_: Class, dependencies: map<Class, Instance>, index: nat)

  /** The dependencies among classes not yet summoned. */
  function Unsummoned(g: Graph, summoned: set<Class>): Graph {
    map x | x in g && x !in summoned :: g[x] - summoned
  }

  ghost predicate LeadsToCycle(g: Graph, start: Class) {
    exists x :: Leads(g, start, x) && Reaches(g, x, x)
  }

  /** The instance was made for the class as the `i`-th one, from the instances of all its dependencies. */
  ghost predicate BuiltAs(g: Graph, services: map<Class, Instance>, order: seq<Class>, i: nat)
    requires i < |order|
  {
    var c := order[i];
    && c in services && c in g
    && services[c].class_ == c && services[c].index == i
    && services[c].dependencies.Keys == g[c]
    && (forall d :: d in g[c] ==> d in services && services[c].dependencies[d] == services[d] && services[d].index < i)
  }

  /** `order` lists the summoned classes once each, as they were instantiated, dependencies first. */
  ghost predicate Built(g: Graph, services: map<Class, Instance>, order: seq<Class>) {
    && |order| == |services|
    && (forall c :: c in services ==> services[c].index < |order| && order[services[c].index] == c)
    && (forall i :: 0 <= i < |order| ==> BuiltAs(g, services, order, i))
  }

  lemma BuiltOneMore(g: Graph, services: map<Class, Instance>, order: seq<Class>, instance: Instance)
    requires Built(g, services, order)
    requires instance.class_ !in services && instance.class_ in g && instance.index == |services|
    requires instance.dependencies.Keys == g[instance.class_]
    requires forall d :: d in g[instance.class_] ==> d in services && instance.dependencies[d] == services[d]
    ensures Built(g, services[instance.class_ := instance], order + [instance.class_])
  {
    var services', order' := services[instance.class_ := instance], order + [instance.class_];
    forall i | 0 <= i < |order'| ensures BuiltAs(g, services', order', i) {
      if i < |order| {
        assert BuiltAs(g, services, order, i);
      }
    }
  }

  /** Ways out of a summoned class stay among summoned classes and lead to ever lower indices. */
  lemma {:induction false} IndicesFall(g: Graph, h: Graph, services: map<Class, Instance>, order: seq<Class>,
                                       x: Class, y: Class, n: nat)
    requires Built(g, services, order) && x in services && ReachesIn(h, x, y, n)
    requires forall c :: c in h ==> c in g && h[c] <= g[c]
    ensures y in services && services[y].index < services[x].index
    decreases n
  {
    assert BuiltAs(g, services, order, services[x].index);
    if n > 1 {
      var z :| z in h[x] && ReachesIn(h, z, y, n - 1);
      IndicesFall(g, h, services, order, z, y, n - 1);
    }
  }

  lemma SummonedLeadsToNoCycle(g: Graph, services: map<Class, Instance>, order: seq<Class>, s: set<Class>, c: Class)
    requires Built(g, services, order) && c in services
    ensures !LeadsToCycle(Unsummoned(g, s), c)
    ensures forall x :: Leads(Unsummoned(g, s), c, x) ==> x in services
  {
    var h := Unsummoned(g, s);
    forall x | Leads(h, c, x) ensures x in services && !Reaches(h, x, x) {
      if x != c {
        var n: nat :| ReachesIn(h, c, x, n);
        IndicesFall(g, h, services, order, c, x, n);
      }
      if Reaches(h, x, x) {
        var n: nat :| ReachesIn(h, x, x, n);
        IndicesFall(g, h, services, order, x, x, n);
      }
    }
  }

  /** No instance is ever replaced. */
  ghost predicate Grown(s: map<Class, Instance>, t: map<Class, Instance>) {
    forall c :: c in s ==> c in t && t[c] == s[c]
  }

  /** What is summoned on the way is led to from the class, and was not being summoned already. */
  ghost predicate NewFrom(h: Graph, s: map<Class, Instance>, t: map<Class, Instance>, seen: set<Class>, class_: Class) {
    forall c :: c in t && c !in s ==> c !in seen && Leads(h, class_, c)
  }

  /** The classes being summoned all lead to the class. */
  ghost predicate Stacked(h: Graph, services: map<Class, Instance>, seen: set<Class>, class_: Class) {
    class_ !in services ==> forall v :: v in seen && v !in services ==> Reaches(h, v, class_)
  }

  /** What a call needs to know of the classes visited: whatever it visits, it summons. */
  ghost predicate Settled(services: map<Class, Instance>, before: set<Class>, seen: set<Class>) {
    before <= seen && forall v :: v in seen && v !in before ==> v in services
  }

  lemma NothingNew(h: Graph, s: map<Class, Instance>, seen: set<Class>, c: Class)
    ensures NewFrom(h, s, s, seen, c)
  {
  }

  lemma AlreadyOnStack(g: Graph, base: set<Class>, s: map<Class, Instance>, seen: set<Class>, c: Class)
    requires Stacked(Unsummoned(g, base), s, seen, c) && c in seen && c !in s
    ensures LeadsToCycle(Unsummoned(g, base), c)
  {
    assert Leads(Unsummoned(g, base), c, c);
  }

  lemma StackedBelow(g: Graph, base: set<Class>, s: map<Class, Instance>, t: map<Class, Instance>,
                     before: set<Class>, seen: set<Class>, c: Class, d: Class)
    requires c in g && d in g[c] && c !in s && base <= s.Keys && Grown(s, t)
    requires Stacked(Unsummoned(g, base), s, before, c) && Settled(t, before + {c}, seen)
    ensures Stacked(Unsummoned(g, base), t, seen, d)
  {
    var h := Unsummoned(g, base);
    if d !in t {
      Edge(h, c, d);
      forall v | v in seen && v !in t ensures Reaches(h, v, d) {
        if v != c {
          assert v in before && v !in s;
          Transitive(h, v, c, d);
        }
      }
    }
  }

  lemma NewFromBelow(g: Graph, base: set<Class>, s: map<Class, Instance>, t: map<Class, Instance>, u: map<Class,
      Instance>,
                     before: set<Class>, seen: set<Class>, c: Class, d: Class)
    requires c in g && d in g[c] && c !in s && c !in t && base <= s.Keys && Grown(s, t) && Grown(t, u)
    requires before + {c} <= seen
    requires NewFrom(Unsummoned(g, base), s, t, before, c) && NewFrom(Unsummoned(g, base), t, u, seen, d)
    ensures NewFrom(Unsummoned(g, base), s, u, before, c) && c !in u && Grown(s, u)
  {
    var h := Unsummoned(g, base);
    forall x | x in u && x !in s ensures x !in before && Leads(h, c, x) {
      if x !in t {
        if d !in base {
          Edge(h, c, d);
          Transitive(h, c, d, x);
        } else {
          assert d in t;
          var z := FirstStep(h, d, x);
          assert false;
        }
      }
    }
  }

  lemma CycleBelow(g: Graph, base: set<Class>, c: Class, d: Class)
    requires c in g && d in g[c] && c !in base && LeadsToCycle(Unsummoned(g, base), d)
    ensures LeadsToCycle(Unsummoned(g, base), c)
  {
    var h := Unsummoned(g, base);
    var x :| Leads(h, d, x) && Reaches(h, x, x);
    var z := FirstStep(h, d, if d == x then d else x);
    Edge(h, c, d);
    Transitive(h, c, d, x);
  }

  lemma {:induction false} FewerEdges(h: Graph, g: Graph, x: Class, y: Class, n: nat)
    requires ReachesIn(h, x, y, n) && forall c :: c in h ==> c in g && h[c] <= g[c]
    ensures ReachesIn(g, x, y, n)
    decreases n
  {
    if n > 1 {
      var z :| z in h[x] && ReachesIn(h, z, y, n - 1);
      FewerEdges(h, g, z, y, n - 1);
      assert z in g[x];
    }
  }

  /** Over an acyclic graph no summoning fails. */
  lemma AcyclicNeverFails(g: Graph, summoned: set<Class>, c: Class)
    requires IsGraph(g) && Acyclic(g)
    ensures !LeadsToCycle(Unsummoned(g, summoned), c)
  {
    var h := Unsummoned(g, summoned);
    if LeadsToCycle(h, c) {
      var x :| Leads(h, c, x) && Reaches(h, x, x);
      var n: nat :| ReachesIn(h, x, x, n);
      FewerEdges(h, g, x, x, n);
    }
  }

  /**
   * A class defined to come both before and after another is accepted, although the check exists to refuse loops;
   * after that a client cannot summon either of the two.
   */
  lemma SharedMemberIsAccepted(g: Graph, n: Class, m: Class)
    requires Definable(g, n, {m}, {m}) && Acyclic(g)
    ensures !ClosesLoop(g, {m}, {m})
    ensures LeadsToCycle(Unsummoned(Extended(g, n, {m}, {m}), {}), n)
    ensures LeadsToCycle(Unsummoned(Extended(g, n, {m}, {m}), {}), m)
  {
    var h := Unsummoned(Extended(g, n, {m}, {m}), {});
    Edge(h, n, m);
    Edge(h, m, n);
    Transitive(h, n, m, n);
    Transitive(h, m, n, m);
    assert Leads(h, n, n) && Leads(h, m, m);
  }

  class Client {
    var services: map<Class, Instance>
    ghost var order: seq<Class>

    constructor (g: Graph)
      ensures services == map[] && Built(g, services, order)
    {
      services, order := map[], [];
    }

    /** `_summon`; None is the ValueError for a dependency loop. */
    method SummonWith(g: Graph, class_: Class, visited: Visited, ghost base: set<Class>) returns (r: Option<Instance>)
      requires IsGraph(g) && class_ in g && Built(g, services, order)
      requires visited.seen <= g.Keys && base <= services.Keys
      requires Stacked(Unsummoned(g, base), services, visited.seen, class_)
      modifies this, visited
      ensures Built(g, services, order) && old(order) <= order && Grown(old(services), services)
      ensures old(visited.seen) <= visited.seen <= g.Keys
      ensures NewFrom(Unsummoned(g, base), old(services), services, old(visited.seen), class_)
      ensures r.Some? ==> class_ in services && services[class_] == r.value
      ensures r.Some? ==> Settled(services, old(visited.seen), visited.seen)
      ensures r.None? ==> LeadsToCycle(Unsummoned(g, base), class_)
      decreases g.Keys - visited.seen, 1
    {
      hide Built, Stacked, Unsummoned, LeadsToCycle;
      if class_ in services {
        return Some(services[class_]);
      }
      if class_ in visited.seen {
        AlreadyOnStack(g, base, services, visited.seen, class_);
        return None;
      }
      ghost var before := visited.seen;
      visited.seen := visited.seen + {class_};
      var dependencies := SummonDependencies(g, class_, visited, base, before);
      if dependencies.None? {
        return None;
      }
      var instance := Instance(class_, dependencies.value, |services|);
      BuiltOneMore(g, services, order, instance);
      services := services[class_ := instance];
      order := order + [class_];
      r := Some(instance);
    }

    /** The dict of dependencies, each of them summoned. */
    method SummonDependencies(g: Graph, class_: Class, visited: Visited, ghost base: set<Class>,
        ghost before: set<Class>)
      returns (r: Option<map<Class, Instance>>)
      requires IsGraph(g) && class_ in g && class_ !in services && Built(g, services, order)
      requires visited.seen == before + {class_} <= g.Keys && base <= services.Keys && class_ !in before
      requires Stacked(Unsummoned(g, base), services, before, class_)
      modifies this, visited
      ensures Built(g, services, order) && old(order) <= order && Grown(old(services), services) && class_ !in services
      ensures before + {class_} <= visited.seen <= g.Keys
      ensures NewFrom(Unsummoned(g, base), old(services), services, before, class_)
      ensures r.Some? ==> r.value.Keys == g[class_]
      ensures r.Some? ==> forall d :: d in g[class_] ==> d in services && r.value[d] == services[d]
      ensures r.Some? ==> Settled(services, before + {class_}, visited.seen)
      ensures r.None? ==> LeadsToCycle(Unsummoned(g, base), class_)
      decreases g.Keys - visited.seen, 2
    {
      hide Built, Stacked, NewFrom, Unsummoned, LeadsToCycle;
      var dependencies: map<Class, Instance> := map[];
      var todo := g[class_];
      NothingNew(Unsummoned(g, base), services, before, class_);
      while todo != {}
        invariant todo <= g[class_] && Built(g, services, order) && old(order) <= order
        invariant before + {class_} <= visited.seen <= g.Keys
        invariant Grown(old(services), services) && class_ !in services
        invariant NewFrom(Unsummoned(g, base), old(services), services, before, class_)
        invariant Settled(services, before + {class_}, visited.seen)
        invariant dependencies.Keys == g[class_] - todo
        invariant Grown(dependencies, services)
        decreases todo
      {
        var depclass :| depclass in todo;
        todo := todo - {depclass};
        ghost var s, seen := services, visited.seen;
        StackedBelow(g, base, old(services), services, before, visited.seen, class_, depclass);
        var dep := SummonWith(g, depclass, visited, base);
        NewFromBelow(g, base, old(services), s, services, before, seen, class_, depclass);
        if dep.None? {
          CycleBelow(g, base, class_, depclass);
          return None;
        }
        dependencies := dependencies[depclass := dep.value];
      }
      r := Some(dependencies);
    }

    /**
     * Fails exactly if a cycle of unsummoned classes can be reached; otherwise instantiates exactly the unsummoned
     * classes that can be reached, once each and after their dependencies.
     */
    method Summon(g: Graph, class_: Class) returns (r: Option<Instance>)
      requires IsGraph(g) && class_ in g && Built(g, services, order)
      modifies this
      ensures Built(g, services, order) && old(order) <= order && Grown(old(services), services)
      ensures r.None? <==> LeadsToCycle(Unsummoned(g, old(services).Keys), class_)
      ensures r.Some? ==> class_ in services && services[class_] == r.value
      ensures r.Some? ==>
        forall c :: c in services <==> c in old(services) || Leads(Unsummoned(g, old(services).Keys), class_, c)
      ensures forall c :: c in services && c !in old(services) ==> Leads(Unsummoned(g, old(services).Keys), class_, c)
    {
      var visited := new Visited();
      r := SummonWith(g, class_, visited, services.Keys);
      if r.Some? {
        SummonedLeadsToNoCycle(g, services, order, old(services).Keys, class_);
      }
    }
  }
}
