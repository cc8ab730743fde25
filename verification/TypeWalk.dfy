/**
 The encoder's warning about lower-case fields, a walk over the type graph.

 Types refer to each other in cycles; the walk marks every type it has seen in
 a set that outlives the call, so that each struct is complained about once per
 run of the program.
 */
module TypeWalk {
  type TypeId = nat

  datatype Field = Field(upper: bool, ty: TypeId)

  datatype Shape =
    | Struct(fields: seq<Field>)
    | Elem(elem: TypeId)                  // slice, array or pointer
    | MapOf(elem: TypeId, key: TypeId)
    | Basic

  type Graph = map<TypeId, Shape>

  function Children(s: Shape): set<TypeId> {
    match s
    case Struct(fields) => set i | 0 <= i < |fields| :: fields[i].ty
    case Elem(e) => {e}
    case MapOf(e, k) => {e, k}
    case Basic => {}
  }

  /** Every type mentioned by a type is a type. */
  predicate WellFormed(g: Graph) {
    forall t <- g :: Children(g[t]) <= g.Keys
  }

  predicate IsPath(g: Graph, p: seq<TypeId>) {
    && p != []
    && (forall t <- p :: t in g)
    && forall i :: 0 <= i < |p| - 1 ==> p[i + 1] in Children(g[p[i]])
  }

  /** All the types that a type of this shape is made of are in the set. */
  predicate PartsIn(sh: Shape, s: set<TypeId>) {
    match sh
    case Struct(fields) => forall i :: 0 <= i < |fields| ==> fields[i].ty in s
    case Elem(e) => e in s
    case MapOf(e, k) => e in s && k in s
    case Basic => true
  }

  lemma PartsExact(sh: Shape, s: set<TypeId>)
    ensures PartsIn(sh, s) <==> Children(sh) <= s
  {
    if sh.Struct? && Children(sh) <= s {
      forall i | 0 <= i < |sh.fields| ensures sh.fields[i].ty in s { assert sh.fields[i].ty in Children(sh); }
    }
  }

  ghost predicate Reaches(g: Graph, a: TypeId, b: TypeId) {
    exists p :: IsPath(g, p) && p[0] == a && p[|p| - 1] == b
  }

  predicate Closed(g: Graph, s: set<TypeId>) {
    s <= g.Keys && forall t <- s :: PartsIn(g[t], s)
  }

  /** The lower-case fields of the structs in a set of types. */
  function LowerFields(g: Graph, s: set<TypeId>): set<(TypeId, nat)>
    requires s <= g.Keys
  {
    set t, i | t in s && g[t].Struct? && 0 <= i < |g[t].fields| && !g[t].fields[i].upper :: (t, i)
  }

  // ---- reachability -----------------------------------------------------------------------

  lemma ReachesSelf(g: Graph, a: TypeId)
    requires a in g
    ensures Reaches(g, a, a)
  {
    assert IsPath(g, [a]);
  }

  lemma ReachesChild(g: Graph, a: TypeId, b: TypeId, c: TypeId)
    requires WellFormed(g) && a in g && b in Children(g[a]) && Reaches(g, b, c)
    ensures Reaches(g, a, c)
  {
    var p :| IsPath(g, p) && p[0] == b && p[|p| - 1] == c;
    var q := [a] + p;
    forall i | 0 <= i < |q| - 1 ensures q[i + 1] in Children(g[q[i]]) {
      if i > 0 { assert p[i] in Children(g[p[i - 1]]); }
    }
    assert IsPath(g, q);
  }

  lemma {:induction false} ClosedUnderPaths(g: Graph, s: set<TypeId>, p: seq<TypeId>)
    requires Closed(g, s) && IsPath(g, p) && p[0] in s
    ensures p[|p| - 1] in s
  {
    if |p| > 1 {
      assert p[1] in Children(g[p[0]]);
      PartsExact(g[p[0]], s);
      var rest := p[1..];
      forall i | 0 <= i < |rest| - 1 ensures rest[i + 1] in Children(g[rest[i]]) {
        assert p[i + 2] in Children(g[p[i + 1]]);
      }
      ClosedUnderPaths(g, s, rest);
    }
  }

  // ---- the walk ------------------------------------------------------------------------------

  /**
   What one call has done, even in the middle of an outer one: it marked `t`, and
   every type it newly marked is reachable from `t` and has all its children marked.
   */
  ghost predicate Walked(g: Graph, before: set<TypeId>, after: set<TypeId>, t: TypeId) {
    && before <= after && t in after && after <= g.Keys
    && forall v <- after - before :: PartsIn(g[v], after) && Reaches(g, t, v)
  }

  /** The same while the parts of `t` itself are still being visited. */
  ghost predicate Walking(g: Graph, before: set<TypeId>, now: set<TypeId>, t: TypeId) {
    && before <= now && t in now && now <= g.Keys
    && forall v <- now - before :: Reaches(g, t, v) && (v == t || Children(g[v]) <= now)
  }

  lemma WalkedWhole(g: Graph, before: set<TypeId>, after: set<TypeId>, t: TypeId)
    requires Walking(g, before, after, t) && PartsIn(g[t], after)
    ensures Walked(g, before, after, t)
  {
    forall v <- after - before ensures PartsIn(g[v], after) { PartsExact(g[v], after); }
  }

  /** Visiting a part of `t` on the way. */
  lemma WalkedPart(g: Graph, before: set<TypeId>, now: set<TypeId>, after: set<TypeId>, t: TypeId, part: TypeId)
    requires WellFormed(g) && Walking(g, before, now, t) && Walked(g, now, after, part) && part in Children(g[t])
    ensures Walking(g, before, after, t)
  {
    forall v <- after - before ensures Reaches(g, t, v) && (v == t || Children(g[v]) <= after) {
      PartsExact(g[v], after);
      if v !in now { ReachesChild(g, t, part, v); }
    }
  }

  lemma LowerFieldsAdd(g: Graph, a: set<TypeId>, b: set<TypeId>)
    requires a <= g.Keys && b <= g.Keys && a !! b
    ensures |LowerFields(g, a + b)| == |LowerFields(g, a)| + |LowerFields(g, b)|
  {
    assert LowerFields(g, a + b) == LowerFields(g, a) + LowerFields(g, b);
  }

  lemma WalkCount(g: Graph, before: set<TypeId>, mid: set<TypeId>, after: set<TypeId>)
    requires before <= mid <= after <= g.Keys
    ensures |LowerFields(g, after - before)| == |LowerFields(g, mid - before)| + |LowerFields(g, after - mid)|
  {
    LowerFieldsAdd(g, mid - before, after - mid);
    assert (mid - before) + (after - mid) == after - before;
  }

  lemma CountGrows(g: Graph, before: set<TypeId>, after: set<TypeId>)
    requires before <= after <= g.Keys
    ensures |LowerFields(g, after)| == |LowerFields(g, before)| + |LowerFields(g, after - before)|
  {
    LowerFieldsAdd(g, before, after - before);
    assert before + (after - before) == after;
  }

  /** Lower-case fields among the first `n`. */
  function LowerUpTo(fields: seq<Field>, n: nat): nat
    requires n <= |fields|
  {
    if n == 0 then 0 else LowerUpTo(fields, n - 1) + (if fields[n - 1].upper then 0 else 1)
  }

  lemma {:induction false} LowerUpToCounts(fields: seq<Field>, n: nat, t: TypeId)
    requires n <= |fields|
    ensures LowerUpTo(fields, n) == |set i: nat | i < n && !fields[i].upper :: (t, i)|
  {
    var s := set i: nat | i < n && !fields[i].upper :: (t, i);
    if n == 0 {
      assert s == {};
    } else {
      LowerUpToCounts(fields, n - 1, t);
      var s0 := set i: nat | i < n - 1 && !fields[i].upper :: (t, i);
      assert s == s0 + (if fields[n - 1].upper then {} else {(t, n - 1)});
    }
  }

  lemma OwnFields(g: Graph, t: TypeId)
    requires t in g
    ensures |LowerFields(g, {t})| == if g[t].Struct? then LowerUpTo(g[t].fields, |g[t].fields|) else 0
  {
    if g[t].Struct? {
      var fields := g[t].fields;
      LowerUpToCounts(fields, |fields|, t);
      assert LowerFields(g, {t}) == set i: nat | i < |fields| && !fields[i].upper :: (t, i);
    } else {
      assert LowerFields(g, {t}) == {};
    }
  }

  predicate ClosedAround(g: Graph, u: set<TypeId>, before: set<TypeId>, t: TypeId) {
    Closed(g, u) && before <= u && t in u
  }

  /** No smaller set holds the old marks, `t`, and every part of what it holds. */
  ghost predicate Least(g: Graph, before: set<TypeId>, after: set<TypeId>, t: TypeId) {
    forall u: set<TypeId> {:trigger ClosedAround(g, u, before, t)} :: ClosedAround(g, u, before, t) ==> after <= u
  }

  class Encoder {
    const graph: Graph
    var checked: set<TypeId>
    var errorCount: nat

    constructor (graph: Graph)
      ensures this.graph == graph && checked == {} && errorCount == 0
    {
      this.graph := graph;
      checked := {};
      errorCount := 0;
    }

    /** Holds at any depth of the recursion, whatever is already marked. */
    method Walk(t: TypeId)
      requires WellFormed(graph) && t in graph && checked <= graph.Keys
      modifies this`checked, this`errorCount
      ensures Walked(graph, old(checked), checked, t)
      ensures errorCount == old(errorCount) + |LowerFields(graph, checked - old(checked))|
      decreases graph.Keys - checked, 0
    {
      if t in checked {
        assert checked - checked == {};
        return;
      }
      checked := checked + {t};
      ghost var start := old(checked);
      ReachesSelf(graph, t);
      OwnFields(graph, t);
      assert checked - start == {t};
      match graph[t]
      case Struct(fields) => WalkFields(t, fields, start);
      case Elem(e) => WalkChild(t, e, start);
      case MapOf(e, k) =>
        WalkChild(t, e, start);
        WalkChild(t, k, start);
      case Basic =>
      WalkedWhole(graph, start, checked, t);
    }

    /** Visiting one part of a marked type. */
    method WalkChild(t: TypeId, child: TypeId, ghost start: set<TypeId>)
      requires WellFormed(graph) && t in graph && child in Children(graph[t]) && Walking(graph, start, checked, t)
      modifies this`checked, this`errorCount
      ensures old(checked) <= checked && child in checked && Walking(graph, start, checked, t)
      ensures errorCount - |LowerFields(graph, checked - start)|
           == old(errorCount) - |LowerFields(graph, old(checked) - start)|
      decreases graph.Keys - checked, 1
    {
      ghost var mid := checked;
      Walk(child);
      WalkCount(graph, start, mid, checked);
      WalkedPart(graph, start, mid, checked, t, child);
    }

    /** Complains about the lower-case fields of a struct and visits every field's type. */
    method WalkFields(t: TypeId, fields: seq<Field>, ghost start: set<TypeId>)
      requires WellFormed(graph) && t in graph && graph[t] == Struct(fields)
      requires t !in start && checked == start + {t} && Walking(graph, start, checked, t)
      modifies this`checked, this`errorCount
      ensures old(checked) <= checked && Walking(graph, start, checked, t)
      ensures forall j :: 0 <= j < |fields| ==> fields[j].ty in checked
      ensures errorCount == old(errorCount) + |LowerFields(graph, checked - start)|
      decreases graph.Keys - checked, 2
    {
      OwnFields(graph, t);
      assert checked - start == {t};
      for i := 0 to |fields|
        invariant old(checked) <= checked && Walking(graph, start, checked, t)
        invariant forall j :: 0 <= j < i ==> fields[j].ty in checked
        invariant errorCount + LowerUpTo(fields, |fields|) - LowerUpTo(fields, i)
               == old(errorCount) + |LowerFields(graph, checked - start)|
      {
        if !fields[i].upper { errorCount := errorCount + 1; }
        WalkChild(t, fields[i].ty, start);
      }
    }

    /**
     A call from outside: the marked types grow by exactly what `t` reaches, stay
     closed, and each newly reached struct is complained about, field by field.
     */
    method CheckType(t: TypeId)
      requires WellFormed(graph) && t in graph && Closed(graph, checked)
      modifies this`checked, this`errorCount
      ensures Closed(graph, checked)
      ensures Least(graph, old(checked), checked, t)
      ensures forall v :: v in checked <==> v in old(checked) || Reaches(graph, t, v)
      ensures errorCount == old(errorCount) + |LowerFields(graph, checked - old(checked))|
    {
      Walk(t);
      WalkedExact(graph, old(checked), checked, t);
      WalkedLeast(graph, old(checked), checked, t);
    }

    /** One more root of a run that began with no marks. */
    method CheckNext(ghost roots: seq<TypeId>, t: TypeId)
      requires WellFormed(graph) && t in graph && Closed(graph, checked)
      requires ReachedFrom(graph, checked, roots) && errorCount == |LowerFields(graph, checked)|
      modifies this`checked, this`errorCount
      ensures Closed(graph, checked)
      ensures ReachedFrom(graph, checked, roots + [t]) && errorCount == |LowerFields(graph, checked)|
    {
      ghost var before := checked;
      CheckType(t);
      CountGrows(graph, before, checked);
      ReachedNext(graph, before, checked, roots, t);
    }

    /** Over a whole run, from no marks: every struct reached from any root is counted once. */
    method CheckAll(roots: seq<TypeId>)
      requires WellFormed(graph) && checked == {} && errorCount == 0
      requires forall t <- roots :: t in graph
      modifies this`checked, this`errorCount
      ensures ReachedFrom(graph, checked, roots)
      ensures checked <= graph.Keys && errorCount == |LowerFields(graph, checked)|
    {
      assert LowerFields(graph, {}) == {};
      for i := 0 to |roots|
        invariant Closed(graph, checked)
        invariant ReachedFrom(graph, checked, roots[..i]) && errorCount == |LowerFields(graph, checked)|
      {
        assert roots[i] in roots && roots[..i + 1] == roots[..i] + [roots[i]];
        CheckNext(roots[..i], roots[i]);
      }
      assert roots[..|roots|] == roots;
    }
  }

  /** The set is what the roots reach. */
  ghost predicate ReachedFrom(g: Graph, s: set<TypeId>, roots: seq<TypeId>) {
    forall v :: v in s <==> exists t <- roots :: Reaches(g, t, v)
  }

  lemma ReachedNext(g: Graph, before: set<TypeId>, after: set<TypeId>, roots: seq<TypeId>, t: TypeId)
    requires ReachedFrom(g, before, roots)
    requires forall v :: v in after <==> v in before || Reaches(g, t, v)
    ensures ReachedFrom(g, after, roots + [t])
  {
    forall v ensures v in after <==> exists r <- roots + [t] :: Reaches(g, r, v) {
      if v in before {
        var r :| r in roots && Reaches(g, r, v);
        assert r in roots + [t];
      }
      if Reaches(g, t, v) { assert t in roots + [t]; }
    }
  }

  lemma WalkedExact(g: Graph, before: set<TypeId>, after: set<TypeId>, t: TypeId)
    requires WellFormed(g) && Closed(g, before) && Walked(g, before, after, t)
    ensures Closed(g, after)
    ensures forall v :: v in after <==> v in before || Reaches(g, t, v)
  {
    forall v | Reaches(g, t, v) ensures v in after {
      var p :| IsPath(g, p) && p[0] == t && p[|p| - 1] == v;
      ClosedUnderPaths(g, after, p);
    }
  }

  /** The marks are the least set that holds the old ones and `t` and every part of what it holds. */
  lemma WalkedLeast(g: Graph, before: set<TypeId>, after: set<TypeId>, t: TypeId)
    requires Walked(g, before, after, t)
    ensures Least(g, before, after, t)
  {
    forall u: set<TypeId> | ClosedAround(g, u, before, t) ensures after <= u {
      forall v | v in after ensures v in u {
        if v !in before {
          var p :| IsPath(g, p) && p[0] == t && p[|p| - 1] == v;
          ClosedUnderPaths(g, u, p);
        }
      }
    }
  }
}
