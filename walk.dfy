/**
 * The order in which the recursive statistics walks visit a value tree:
 * the converter's `analyzeStructure`, the parser's `analyzeJSONStructure`
 * and the tree view's `analyzeNode` each look at a value, then recurse into
 * its children (`forEach` over an array, `Object.values` of an object) one
 * level deeper. Each walk updates its statistics record once per visit, so
 * what it computes is a fold of its one-visit update over this preorder.
 */
module ValueWalk {
  import opened JsValues

  /** A visited value and the depth at which the walk meets it. */
  type Visit = (Value, nat)

  /** Preorder: the value itself, then the visits of its children, one level deeper. */
  function Visits(v: Value, depth: nat): (r: seq<Visit>)
    ensures |r| > 0 && r[0] == (v, depth)
    decreases v, 1
  {
    [(v, depth)] + ChildVisits(v, ChildCount(v), depth + 1)
  }

  /** The visits of the first `n` children of `v`, each child met at `depth`. */
  function ChildVisits(v: Value, n: nat, depth: nat): seq<Visit>
    requires n <= ChildCount(v)
    decreases v, 0, n
  {
    if n == 0 then [] else ChildVisits(v, n - 1, depth) + Visits(Child(v, n - 1), depth)
  }

  /** A walk's statistics after the given visits, one `step` per visit in order. */
  function Fold<S>(step: (S, Visit) -> S, s: S, visits: seq<Visit>): S
  {
    if visits == [] then s else step(Fold(step, s, visits[..|visits| - 1]), visits[|visits| - 1])
  }

  lemma {:induction false} FoldAppend<S>(step: (S, Visit) -> S, s: S, a: seq<Visit>, b: seq<Visit>)
    ensures Fold(step, s, a + b) == Fold(step, Fold(step, s, a), b)
    decreases |b|
  {
    if b == [] {
      assert a + b == a;
    } else {
      var b' := b[..|b| - 1];
      assert (a + b)[..|a + b| - 1] == a + b';
      FoldAppend(step, s, a, b');
    }
  }

  // ---------------------------------------------------------------------
  // Reference measures of a tree, defined on the tree itself

  /** The number of values in a tree, the root included. */
  function Size(v: Value): nat
    decreases v, 1
  {
    1 + ChildrenSize(v, ChildCount(v))
  }

  function ChildrenSize(v: Value, n: nat): nat
    requires n <= ChildCount(v)
    decreases v, 0, n
  {
    if n == 0 then 0 else ChildrenSize(v, n - 1) + Size(Child(v, n - 1))
  }

  /** The number of levels below the root: 0 for a scalar or an empty container. */
  function Height(v: Value): nat
    decreases v, 1
  {
    if ChildCount(v) == 0 then 0 else 1 + ChildrenHeight(v, ChildCount(v))
  }

  function ChildrenHeight(v: Value, n: nat): nat
    requires n <= ChildCount(v)
    decreases v, 0, n
  {
    if n == 0 then 0 else Max(ChildrenHeight(v, n - 1), Height(Child(v, n - 1)))
  }

  function Max(a: int, b: int): int { if a < b then b else a }

  /** The deepest level among some visits, 0 when there are none. */
  function Deepest(visits: seq<Visit>): nat
  {
    if visits == [] then 0 else Max(Deepest(visits[..|visits| - 1]), visits[|visits| - 1].1)
  }

  lemma {:induction false} DeepestAppend(a: seq<Visit>, b: seq<Visit>)
    ensures Deepest(a + b) == Max(Deepest(a), Deepest(b))
    decreases |b|
  {
    if b == [] {
      assert a + b == a;
    } else {
      var b' := b[..|b| - 1];
      assert (a + b)[..|a + b| - 1] == a + b';
      DeepestAppend(a, b');
    }
  }

  /** A walk started at `depth` counts one visit per value of the tree. */
  lemma {:induction false} VisitCount(v: Value, depth: nat)
    ensures |Visits(v, depth)| == Size(v)
    decreases v, 1
  {
    ChildVisitCount(v, ChildCount(v), depth + 1);
  }

  lemma {:induction false} ChildVisitCount(v: Value, n: nat, depth: nat)
    requires n <= ChildCount(v)
    ensures |ChildVisits(v, n, depth)| == ChildrenSize(v, n)
    decreases v, 0, n
  {
    if n > 0 {
      ChildVisitCount(v, n - 1, depth);
      VisitCount(Child(v, n - 1), depth);
    }
  }

  /** A walk started at `depth` reaches exactly `depth` plus the height of the tree. */
  lemma {:induction false} DeepestVisit(v: Value, depth: nat)
    ensures Deepest(Visits(v, depth)) == depth + Height(v)
    decreases v, 1
  {
    var n := ChildCount(v);
    assert Deepest([(v, depth)]) == depth by {
      assert [(v, depth)][..0] == [];
    }
    DeepestAppend([(v, depth)], ChildVisits(v, n, depth + 1));
    DeepestChildVisits(v, n, depth + 1);
  }

  lemma {:induction false} DeepestChildVisits(v: Value, n: nat, depth: nat)
    requires n <= ChildCount(v)
    ensures n == 0 ==> Deepest(ChildVisits(v, n, depth)) == 0
    ensures n > 0 ==> Deepest(ChildVisits(v, n, depth)) == depth + ChildrenHeight(v, n)
    decreases v, 0, n
  {
    if n > 0 {
      DeepestChildVisits(v, n - 1, depth);
      DeepestVisit(Child(v, n - 1), depth);
      DeepestAppend(ChildVisits(v, n - 1, depth), Visits(Child(v, n - 1), depth));
    }
  }

  /** Every visit of a walk started at `depth` is at `depth` or deeper, and only the root is at `depth`. */
  lemma {:induction false} VisitDepths(v: Value, depth: nat, k: nat)
    requires k < |Visits(v, depth)|
    ensures Visits(v, depth)[k].1 >= depth
    ensures k > 0 ==> Visits(v, depth)[k].1 > depth
    decreases v, 1
  {
    if k > 0 {
      ChildVisitDepths(v, ChildCount(v), depth + 1, k - 1);
    }
  }

  lemma {:induction false} ChildVisitDepths(v: Value, n: nat, depth: nat, k: nat)
    requires n <= ChildCount(v) && k < |ChildVisits(v, n, depth)|
    ensures ChildVisits(v, n, depth)[k].1 >= depth
    decreases v, 0, n
  {
    var before := ChildVisits(v, n - 1, depth);
    if k < |before| {
      ChildVisitDepths(v, n - 1, depth, k);
    } else {
      VisitDepths(Child(v, n - 1), depth, k - |before|);
    }
  }

  /** The visits of a walk that are containers met below its starting depth. */
  predicate NestedVisit(visit: Visit, depth: nat)
  {
    visit.1 > depth && IsContainer(visit.0)
  }

  /**
   * Some array or object lies below the root exactly when some child of the
   * root is one: only containers have children.
   */
  lemma {:induction false} NestedVisitExists(v: Value, depth: nat)
    ensures (exists k :: 0 < k < |Visits(v, depth)| && IsContainer(Visits(v, depth)[k].0))
        <==> (exists i :: 0 <= i < ChildCount(v) && IsContainer(Child(v, i)))
  {
    var visits := Visits(v, depth);
    if exists k :: 0 < k < |visits| && IsContainer(visits[k].0) {
      var k :| 0 < k < |visits| && IsContainer(visits[k].0);
      NestedVisitChild(v, depth, k);
    }
    if exists i :: 0 <= i < ChildCount(v) && IsContainer(Child(v, i)) {
      var i :| 0 <= i < ChildCount(v) && IsContainer(Child(v, i));
      ChildNestedVisit(v, depth, i);
    }
  }

  lemma NestedVisitChild(v: Value, depth: nat, k: nat)
    requires 0 < k < |Visits(v, depth)| && IsContainer(Visits(v, depth)[k].0)
    ensures exists i :: 0 <= i < ChildCount(v) && IsContainer(Child(v, i))
  {
    var below := ChildVisits(v, ChildCount(v), depth + 1);
    assert Visits(v, depth)[k] == below[k - 1];
    var i := ContainerVisitHasContainerChild(v, ChildCount(v), depth + 1, k - 1);
  }

  lemma ChildNestedVisit(v: Value, depth: nat, i: nat)
    requires i < ChildCount(v) && IsContainer(Child(v, i))
    ensures exists k :: 0 < k < |Visits(v, depth)| && IsContainer(Visits(v, depth)[k].0)
  {
    var below := ChildVisits(v, ChildCount(v), depth + 1);
    var k := ChildVisitStart(v, ChildCount(v), depth + 1, i);
    assert Visits(v, depth)[1 + k] == below[k];
  }

  /** A container visited among the children's visits is, or lies inside, a container child. */
  lemma {:induction false} ContainerVisitHasContainerChild(v: Value, n: nat, depth: nat, k: nat) returns (i: nat)
    requires n <= ChildCount(v) && k < |ChildVisits(v, n, depth)|
    requires IsContainer(ChildVisits(v, n, depth)[k].0)
    ensures i < n && IsContainer(Child(v, i))
    decreases n
  {
    var before := ChildVisits(v, n - 1, depth);
    if k < |before| {
      i := ContainerVisitHasContainerChild(v, n - 1, depth, k);
    } else {
      var c := Child(v, n - 1);
      assert ChildCount(c) == 0 ==> Visits(c, depth) == [(c, depth)];
      i := n - 1;
    }
  }

  /** Where child `i`'s visit stands among the children's visits. */
  lemma {:induction false} ChildVisitStart(v: Value, n: nat, depth: nat, i: nat) returns (k: nat)
    requires i < n <= ChildCount(v)
    ensures k < |ChildVisits(v, n, depth)| && ChildVisits(v, n, depth)[k] == (Child(v, i), depth)
    decreases n
  {
    if i == n - 1 {
      k := |ChildVisits(v, n - 1, depth)|;
    } else {
      k := ChildVisitStart(v, n - 1, depth, i);
    }
  }
}
