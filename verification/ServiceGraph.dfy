// The dependency graph of service classes: which classes must be instantiated before which.

module ServiceGraph {

  type Class = nat

  /** For every service class its PATCHED_ORDER_AFTER: the classes it comes after. */
  type Graph = map<Class, set<Class>>

  ghost predicate IsGraph(g: Graph) {
    forall x :: x in g ==> g[x] <= g.Keys
  }

  ghost predicate ReachesIn(g: Graph, x: Class, y: Class, steps: nat)
    decreases steps
  {
    && x in g && steps > 0
    && (if steps == 1 then y in g[x] else exists z :: z in g[x] && ReachesIn(g, z, y, steps - 1))
  }

  /** By one or more edges. */
  ghost predicate Reaches(g: Graph, x: Class, y: Class) {
    exists steps: nat :: ReachesIn(g, x, y, steps)
  }

  /** By any number of edges. */
  ghost predicate Leads(g: Graph, x: Class, y: Class) {
    x == y || Reaches(g, x, y)
  }

  ghost predicate ReachesAny(g: Graph, x: Class, other: set<Class>) {
    exists y :: y in other && Reaches(g, x, y)
  }

  ghost predicate Acyclic(g: Graph) {
    forall x :: x in g ==> !Reaches(g, x, x)
  }

  lemma Edge(g: Graph, x: Class, y: Class)
    requires x in g && y in g[x]
    ensures Reaches(g, x, y)
  {
    assert ReachesIn(g, x, y, 1);
  }

  lemma {:induction false} ReachesInThen(g: Graph, x: Class, y: Class, z: Class, n: nat, m: nat)
    requires ReachesIn(g, x, y, n) && ReachesIn(g, y, z, m)
    ensures ReachesIn(g, x, z, n + m)
    decreases n
  {
    if n == 1 {
      assert y in g[x] && ReachesIn(g, y, z, m);
    } else {
      var w :| w in g[x] && ReachesIn(g, w, y, n - 1);
      ReachesInThen(g, w, y, z, n - 1, m);
    }
  }

  lemma Transitive(g: Graph, x: Class, y: Class, z: Class)
    requires (Reaches(g, x, y) && Leads(g, y, z)) || (Leads(g, x, y) && Reaches(g, y, z))
    ensures Reaches(g, x, z)
  {
    if x != y && y != z {
      var n: nat :| ReachesIn(g, x, y, n);
      var m: nat :| ReachesIn(g, y, z, m);
      ReachesInThen(g, x, y, z, n, m);
    }
  }

  /** The first edge of a way. */
  lemma FirstStep(g: Graph, x: Class, y: Class) returns (z: Class)
    requires Reaches(g, x, y)
    ensures x in g && z in g[x] && Leads(g, z, y)
  {
    var n: nat :| ReachesIn(g, x, y, n);
    if n == 1 {
      z := y;
    } else {
      z :| z in g[x] && ReachesIn(g, z, y, n - 1);
    }
  }

  /** A set that no edge leaves is not left by any way. */
  ghost predicate Closed(g: Graph, s: set<Class>) {
    forall x, y :: x in s && x in g && y in g[x] ==> y in s
  }

  lemma {:induction false} ClosedInside(g: Graph, s: set<Class>, x: Class, y: Class, n: nat)
    requires Closed(g, s) && x in s && ReachesIn(g, x, y, n)
    ensures y in s
    decreases n
  {
    if n > 1 {
      var z :| z in g[x] && ReachesIn(g, z, y, n - 1);
      ClosedInside(g, s, z, y, n - 1);
    }
  }

  lemma StaysInside(g: Graph, s: set<Class>, x: Class, y: Class)
    requires Closed(g, s) && x in s && Leads(g, x, y)
    ensures y in s
  {
    if x != y {
      var n: nat :| ReachesIn(g, x, y, n);
      ClosedInside(g, s, x, y, n);
    }
  }

  // ---------------------------------------------------------------- defining a class

  /** The graph once a new class comes after the classes in `after` and before those in `before`. */
  function Extended(g: Graph, n: Class, before: set<Class>, after: set<Class>): Graph {
    map x | x in g.Keys + {n} :: if x == n then after else if x in before then g[x] + {n} else g[x]
  }

  ghost predicate Definable(g: Graph, n: Class, before: set<Class>, after: set<Class>) {
    IsGraph(g) && n !in g && before <= g.Keys && after <= g.Keys
  }

  lemma ExtendedIsGraph(g: Graph, n: Class, before: set<Class>, after: set<Class>)
    requires Definable(g, n, before, after)
    ensures IsGraph(Extended(g, n, before, after))
  {
  }

  /** The new class would complete a cycle through classes it comes after and before. */
  ghost predicate ClosesLoop(g: Graph, before: set<Class>, after: set<Class>) {
    exists a :: a in after && ReachesAny(g, a, before)
  }

  lemma {:induction false} OldWaysRemain(g: Graph, n: Class, before: set<Class>, after: set<Class>, x: Class,
      y: Class, k: nat)
    requires Definable(g, n, before, after) && ReachesIn(g, x, y, k)
    ensures ReachesIn(Extended(g, n, before, after), x, y, k)
    decreases k
  {
    if k > 1 {
      var z :| z in g[x] && ReachesIn(g, z, y, k - 1);
      OldWaysRemain(g, n, before, after, z, y, k - 1);
      assert z in Extended(g, n, before, after)[x];
    }
  }

  /** Whether there is an old way from `x` to `y`, or one through the new class. */
  ghost predicate OldOrThrough(g: Graph, before: set<Class>, after: set<Class>, x: Class, y: Class) {
    Reaches(g, x, y) || exists a, b :: Link(g, before, after, x, y, a, b)
  }

  ghost predicate Link(g: Graph, before: set<Class>, after: set<Class>, x: Class, y: Class, a: Class, b: Class) {
    a in after && b in before && Leads(g, x, b) && Leads(g, a, y)
  }

  /** A new way between old classes is an old way, or goes from an old class in `before` on to one in `after`. */
  lemma {:induction false} NewWays(g: Graph, n: Class, before: set<Class>, after: set<Class>, x: Class, y: Class,
      k: nat)
    requires Definable(g, n, before, after) && x in g && y in g
    requires ReachesIn(Extended(g, n, before, after), x, y, k)
    ensures OldOrThrough(g, before, after, x, y)
    decreases k
  {
    var e := Extended(g, n, before, after);
    if k == 1 {
      Edge(g, x, y);
      return;
    }
    var z :| z in e[x] && ReachesIn(e, z, y, k - 1);
    if z == n {
      WayFromNew(g, n, before, after, x, y, k - 1);
    } else {
      NewWays(g, n, before, after, z, y, k - 1);
      Edge(g, x, z);
      Precede(g, before, after, x, z, y);
    }
  }

  lemma {:induction false} WayFromNew(g: Graph, n: Class, before: set<Class>, after: set<Class>, x: Class, y: Class,
      k: nat)
    requires Definable(g, n, before, after) && x in before && y in g
    requires ReachesIn(Extended(g, n, before, after), n, y, k)
    ensures OldOrThrough(g, before, after, x, y)
    decreases k
  {
    var e := Extended(g, n, before, after);
    if k == 1 {
      assert Link(g, before, after, x, y, y, x);
    } else {
      var a :| a in e[n] && ReachesIn(e, a, y, k - 1);
      NewWays(g, n, before, after, a, y, k - 1);
      if Reaches(g, a, y) {
        assert Link(g, before, after, x, y, a, x);
      } else {
        var a', b' :| Link(g, before, after, a, y, a', b');
        assert Link(g, before, after, x, y, a', x);
      }
    }
  }

  lemma Precede(g: Graph, before: set<Class>, after: set<Class>, x: Class, z: Class, y: Class)
    requires Reaches(g, x, z) && OldOrThrough(g, before, after, z, y)
    ensures OldOrThrough(g, before, after, x, y)
  {
    if Reaches(g, z, y) {
      Transitive(g, x, z, y);
    } else {
      var a, b :| Link(g, before, after, z, y, a, b);
      Transitive(g, x, z, b);
      assert Link(g, before, after, x, y, a, b);
    }
  }

  /** An old class on a new cycle is on the way from a class in `after` to one in `before`. */
  lemma OldOnCycle(g: Graph, n: Class, before: set<Class>, after: set<Class>, x: Class)
    requires Definable(g, n, before, after) && Acyclic(g) && x in g
    requires Reaches(Extended(g, n, before, after), x, x)
    ensures before * after != {} || ClosesLoop(g, before, after)
  {
    var k: nat :| ReachesIn(Extended(g, n, before, after), x, x, k);
    NewWays(g, n, before, after, x, x, k);
    var a, b :| Link(g, before, after, x, x, a, b);
    if a == b {
      assert a in before * after;
    } else {
      if a == x {
        assert Reaches(g, a, b);
      } else {
        Transitive(g, a, x, b);
      }
      assert ReachesAny(g, a, before);
    }
  }

  lemma CycleNeedsLoop(g: Graph, n: Class, before: set<Class>, after: set<Class>)
    requires Definable(g, n, before, after) && Acyclic(g)
    requires !Acyclic(Extended(g, n, before, after))
    ensures before * after != {} || ClosesLoop(g, before, after)
  {
    var e := Extended(g, n, before, after);
    var x :| x in e && Reaches(e, x, x);
    if x in g {
      OldOnCycle(g, n, before, after, x);
    } else {
      var a := FirstStep(e, n, n);
      Edge(e, n, a);
      Transitive(e, a, n, a);
      OldOnCycle(g, n, before, after, a);
    }
  }

  lemma LoopMakesCycle(g: Graph, n: Class, before: set<Class>, after: set<Class>)
    requires Definable(g, n, before, after)
    requires before * after != {} || ClosesLoop(g, before, after)
    ensures !Acyclic(Extended(g, n, before, after))
  {
    var e := Extended(g, n, before, after);
    var a, b;
    if before * after != {} {
      a :| a in before * after;
      b := a;
    } else {
      a :| a in after && ReachesAny(g, a, before);
      b :| b in before && Reaches(g, a, b);
    }
    if a != b {
      var k: nat :| ReachesIn(g, a, b, k);
      OldWaysRemain(g, n, before, after, a, b, k);
    }
    Edge(e, n, a);
    Edge(e, b, n);
    Transitive(e, n, a, b);
    Transitive(e, n, b, n);
  }

  /** Exactly when adding a class keeps an acyclic graph acyclic. */
  lemma ExtendedAcyclicIff(g: Graph, n: Class, before: set<Class>, after: set<Class>)
    requires Definable(g, n, before, after) && Acyclic(g)
    ensures Acyclic(Extended(g, n, before, after)) <==> before * after == {} && !ClosesLoop(g, before, after)
  {
    if !Acyclic(Extended(g, n, before, after)) {
      CycleNeedsLoop(g, n, before, after);
    }
    if before * after != {} || ClosesLoop(g, before, after) {
      LoopMakesCycle(g, n, before, after);
    }
  }
}
