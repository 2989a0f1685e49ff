/** What a schema means over one snapshot of tuples.

    A node's rewrite either names edges to other nodes or subjects directly.
    `Holds` is one step of that meaning over an assumed set of granted nodes.
    For schemas without exclusion the meaning is the least fixpoint, which is
    defined on any data, cycles included; for the full language it is the only
    solution wherever the dependency graph descends. */
module Semantics {
  import opened Names
  import opened Schemas
  import opened Storage

  datatype Edge = Plain(subject: Subject) | To(node: Node)

  /** One subject asking over one snapshot. */
  datatype Scene = Scene(schema: Schema, view: seq<Tuple>, subject: Subject)

  /** What is left of a computation at a node: another node to ask, a rewrite to
      apply, the rest of a list of children (until one answers `stop`), or the
      rest of a list of edges read from the store. */
  datatype Task =
    | Ask(target: Node)
    | Apply(rw: Rewrite)
    | Children(rws: seq<Rewrite>, stop: bool)
    | Edges(edges: seq<Edge>)
  {
    function Load(): nat {
      match this
      case Ask(_) => 0
      case Apply(rw) => 1 + Weight(rw)
      case Children(rws, _) => WeightAll(rws)
      case Edges(_) => 1
    }

    function Length(): nat { if Edges? then |edges| else 0 }
  }

  function DirectEdge(t: Tuple): Edge {
    if t.subject.IsUserset() then To(Node(t.subject.obj, t.subject.relation)) else Plain(t.subject)
  }

  /** The edges stored directly on a node. */
  function DirectEdges(view: seq<Tuple>, n: Node): seq<Edge> {
    var ts := Read(view, n.obj, n.relation);
    seq(|ts|, i requires 0 <= i < |ts| => DirectEdge(ts[i]))
  }

  /** The edges of tupleset->computed: the far side of every stored tuple. */
  function WalkEdges(view: seq<Tuple>, n: Node, tupleset: string, computed: string): seq<Edge> {
    var ts := Read(view, n.obj, tupleset);
    seq(|ts|, i requires 0 <= i < |ts| => To(Node(ts[i].subject.obj, computed)))
  }

  /** What applying a rewrite (other than an exclusion) comes down to; an empty
      intersection grants nothing, like an empty union. */
  function Unfold(view: seq<Tuple>, n: Node, rw: Rewrite): (t: Task)
    requires !rw.Exclusion?
    ensures t.Load() < Apply(rw).Load() && !t.Apply?
  {
    match rw
    case This => Edges(DirectEdges(view, n))
    case ComputedUserset(r) => Ask(Node(n.obj, r))
    case TupleToUserset(ts, cu) => Edges(WalkEdges(view, n, ts, cu))
    case Union(cs) => Children(cs, true)
    case Intersection(cs) => Children(cs, cs == [])
  }

  /** Edge e is named somewhere in `task`; with `all` false, only where it can
      help to grant (the subtracted side of an exclusion cannot). */
  ghost predicate Occurs(view: seq<Tuple>, n: Node, task: Task, e: Edge, all: bool)
    decreases task.Load(), task.Length()
  {
    match task
    case Ask(m) => e == To(m)
    case Apply(rw) =>
      if rw.Exclusion? then
        Occurs(view, n, Apply(rw.base), e, all) || (all && Occurs(view, n, Apply(rw.subtract), e, all))
      else Occurs(view, n, Unfold(view, n, rw), e, all)
    case Children(rws, stop) =>
      rws != [] && (Occurs(view, n, Apply(rws[0]), e, all) || Occurs(view, n, Children(rws[1..], stop), e, all))
    case Edges(es) => e in es
  }

  /** The edges of one leaf of a rewrite. */
  ghost predicate LeafEdge(view: seq<Tuple>, n: Node, leaf: Rewrite, e: Edge) {
    match leaf
    case This => e in DirectEdges(view, n)
    case ComputedUserset(r) => e == To(Node(n.obj, r))
    case TupleToUserset(ts, cu) => e in WalkEdges(view, n, ts, cu)
    case _ => false
  }

  lemma {:induction false} OccursAtLeaf(view: seq<Tuple>, n: Node, rw: Rewrite, e: Edge, all: bool) returns (leaf: Rewrite)
    requires Occurs(view, n, Apply(rw), e, all)
    ensures Mentions(rw, leaf, all) && LeafEdge(view, n, leaf, e)
    decreases Weight(rw)
  {
    match rw
    case Union(cs) => leaf := OccursAtSomeLeaf(view, n, cs, true, e, all);
    case Intersection(cs) => leaf := OccursAtSomeLeaf(view, n, cs, cs == [], e, all);
    case Exclusion(b, s) =>
      if Occurs(view, n, Apply(b), e, all) {
        leaf := OccursAtLeaf(view, n, b, e, all);
      } else {
        leaf := OccursAtLeaf(view, n, s, e, all);
      }
    case _ => leaf := rw;
  }

  lemma {:induction false} OccursAtSomeLeaf(view: seq<Tuple>, n: Node, rws: seq<Rewrite>, stop: bool, e: Edge, all: bool)
    returns (leaf: Rewrite)
    requires Occurs(view, n, Children(rws, stop), e, all)
    ensures MentionsAny(rws, leaf, all) && LeafEdge(view, n, leaf, e)
    decreases WeightAll(rws)
  {
    if Occurs(view, n, Apply(rws[0]), e, all) {
      leaf := OccursAtLeaf(view, n, rws[0], e, all);
    } else {
      leaf := OccursAtSomeLeaf(view, n, rws[1..], stop, e, all);
    }
  }

  ghost predicate PartOf(view: seq<Tuple>, n: Node, part: Task, task: Task, all: bool) {
    forall e :: Occurs(view, n, part, e, all) ==> Occurs(view, n, task, e, all)
  }

  /** The steps of a task are parts of it. */
  lemma Parts(view: seq<Tuple>, n: Node, task: Task, all: bool)
    ensures task.Apply? && task.rw.Exclusion? ==>
              PartOf(view, n, Apply(task.rw.base), task, all) &&
              (all ==> PartOf(view, n, Apply(task.rw.subtract), task, all))
    ensures task.Apply? && !task.rw.Exclusion? ==> PartOf(view, n, Unfold(view, n, task.rw), task, all)
    ensures task.Children? && task.rws != [] ==>
              PartOf(view, n, Apply(task.rws[0]), task, all) &&
              PartOf(view, n, Children(task.rws[1..], task.stop), task, all)
    ensures task.Edges? && task.edges != [] ==>
              PartOf(view, n, Edges(task.edges[1..]), task, all) &&
              (task.edges[0].To? ==> PartOf(view, n, Ask(task.edges[0].node), task, all))
  {
  }

  ghost predicate Fires(s: Scene, X: iset<Node>, e: Edge) {
    e == Plain(s.subject) || (e.To? && e.node in X)
  }

  /** The meaning of a task when exactly the nodes of X are granted. With
      `subtract` false an exclusion means its base alone. */
  ghost predicate Sem(s: Scene, X: iset<Node>, n: Node, task: Task, subtract: bool)
    decreases task.Load(), task.Length()
  {
    match task
    case Ask(m) => m in X
    case Apply(rw) =>
      if rw.Exclusion? then
        Sem(s, X, n, Apply(rw.base), subtract) && (subtract ==> !Sem(s, X, n, Apply(rw.subtract), subtract))
      else Sem(s, X, n, Unfold(s.view, n, rw), subtract)
    case Children(rws, stop) =>
      if rws == [] then !stop
      else if stop then Sem(s, X, n, Apply(rws[0]), subtract) || Sem(s, X, n, Children(rws[1..], stop), subtract)
      else Sem(s, X, n, Apply(rws[0]), subtract) && Sem(s, X, n, Children(rws[1..], stop), subtract)
    case Edges(es) => exists e :: e in es && Fires(s, X, e)
  }

  ghost predicate Holds(s: Scene, X: iset<Node>, n: Node, subtract: bool) {
    Rule(s.schema, n).Ok? && Sem(s, X, n, Apply(Rule(s.schema, n).value), subtract)
  }

  predicate MonotoneTask(task: Task, intersections: bool) {
    match task
    case Apply(rw) => Monotone(rw, intersections)
    case Children(rws, stop) => MonotoneAll(rws, intersections) && (stop || intersections)
    case _ => true
  }

  // ---- Least fixpoints ------------------------------------------------------------

  /** X already contains whatever holds over X, nodes of `cut` aside. */
  ghost predicate Closed(s: Scene, cut: set<Node>, X: iset<Node>, subtract: bool) {
    forall m :: m !in cut && Holds(s, X, m, subtract) ==> m in X
  }

  /** The nodes in every closed set: the least fixpoint with `cut` denied. */
  ghost function Lfp(s: Scene, cut: set<Node>): iset<Node> {
    iset n | InEvery(s, cut, n)
  }

  ghost predicate InEvery(s: Scene, cut: set<Node>, n: Node) {
    forall X: iset<Node> :: Closed(s, cut, X, true) ==> n in X
  }

  /** The nodes the schema grants. */
  ghost function Granted(s: Scene): iset<Node> { Lfp(s, {}) }

  lemma {:induction false} SemMonotone(s: Scene, X: iset<Node>, Y: iset<Node>, n: Node, task: Task)
    requires X <= Y && MonotoneTask(task, true) && Sem(s, X, n, task, true)
    ensures Sem(s, Y, n, task, true)
    decreases task.Load(), task.Length()
  {
    match task
    case Ask(_) =>
    case Apply(rw) => if !rw.Exclusion? { SemMonotone(s, X, Y, n, Unfold(s.view, n, rw)); }
    case Children(rws, stop) =>
      if rws != [] {
        if Sem(s, X, n, Apply(rws[0]), true) { SemMonotone(s, X, Y, n, Apply(rws[0])); }
        if Sem(s, X, n, Children(rws[1..], stop), true) { SemMonotone(s, X, Y, n, Children(rws[1..], stop)); }
      }
    case Edges(es) =>
      var e :| e in es && Fires(s, X, e);
      assert Fires(s, Y, e);
  }

  lemma HoldsMonotone(s: Scene, X: iset<Node>, Y: iset<Node>, n: Node)
    requires ExclusionFree(s.schema) && X <= Y && Holds(s, X, n, true)
    ensures Holds(s, Y, n, true)
  {
    SemMonotone(s, X, Y, n, Apply(Rule(s.schema, n).value));
  }

  lemma LfpClosed(s: Scene, cut: set<Node>)
    requires ExclusionFree(s.schema)
    ensures Closed(s, cut, Lfp(s, cut), true)
  {
    var L := Lfp(s, cut);
    forall m, X: iset<Node> | m !in cut && Holds(s, L, m, true) && Closed(s, cut, X, true) ensures m in X {
      assert L <= X;
      HoldsMonotone(s, L, X, m);
    }
  }

  /** Removing a node from play changes nothing about what grants it: a node is in
      the least fixpoint exactly when its rewrite holds over the least fixpoint
      with the node itself denied. */
  lemma LfpWithoutSelf(s: Scene, cut: set<Node>, n: Node)
    requires ExclusionFree(s.schema) && n !in cut
    ensures n in Lfp(s, cut) <==> Holds(s, Lfp(s, cut + {n}), n, true)
  {
    var L, M := Lfp(s, cut), Lfp(s, cut + {n});
    LfpClosed(s, cut);
    assert M <= L by {
      assert Closed(s, cut + {n}, L, true);
    }
    LfpClosed(s, cut + {n});
    if Holds(s, M, n, true) {
      HoldsMonotone(s, M, L, n);
    } else {
      assert n !in M by {
        var Y := iset m | m in M && m != n;
        forall m | m !in cut + {n} && Holds(s, Y, m, true) ensures m in Y {
          HoldsMonotone(s, Y, M, m);
        }
        assert Closed(s, cut + {n}, Y, true);
      }
      assert Closed(s, cut, M, true);
    }
  }

  lemma LfpAvoidsCut(s: Scene, cut: set<Node>, n: Node)
    requires ExclusionFree(s.schema)
    ensures n in Lfp(s, cut) ==> n !in cut && Rule(s.schema, n).Ok?
  {
    LfpClosed(s, cut);
    var L := Lfp(s, cut);
    var Y := iset m | m in L && m !in cut && Rule(s.schema, m).Ok?;
    forall m | m !in cut && Holds(s, Y, m, true) ensures m in Y {
      HoldsMonotone(s, Y, L, m);
    }
    assert Closed(s, cut, Y, true);
  }

  /** The least fixpoint is a fixpoint. */
  lemma GrantedIsFixpoint(s: Scene, n: Node)
    requires ExclusionFree(s.schema)
    ensures n in Granted(s) <==> Holds(s, Granted(s), n, true)
  {
    LfpClosed(s, {});
    LfpWithoutSelf(s, {}, n);
    if n in Granted(s) {
      assert Closed(s, {} + {n}, Granted(s), true);
      HoldsMonotone(s, Lfp(s, {} + {n}), Granted(s), n);
    }
  }

  // ---- Exclusion as its base -------------------------------------------------------

  lemma {:induction false} SameWithoutExclusion(s: Scene, X: iset<Node>, n: Node, task: Task)
    requires MonotoneTask(task, true)
    ensures Sem(s, X, n, task, true) == Sem(s, X, n, task, false)
    decreases task.Load(), task.Length()
  {
    match task
    case Apply(rw) => if !rw.Exclusion? { SameWithoutExclusion(s, X, n, Unfold(s.view, n, rw)); }
    case Children(rws, stop) =>
      if rws != [] {
        SameWithoutExclusion(s, X, n, Apply(rws[0]));
        SameWithoutExclusion(s, X, n, Children(rws[1..], stop));
      }
    case _ =>
  }

  /** Whatever grants a task does so through an edge on its granting side. */
  lemma {:induction false} GrantingEdge(s: Scene, X: iset<Node>, n: Node, task: Task) returns (e: Edge)
    requires Sem(s, X, n, task, false) && task != Children([], false)
    ensures Occurs(s.view, n, task, e, false) && Fires(s, X, e)
    decreases task.Load(), task.Length()
  {
    match task
    case Ask(m) => e := To(m);
    case Apply(rw) => e := GrantingEdge(s, X, n, if rw.Exclusion? then Apply(rw.base) else Unfold(s.view, n, rw));
    case Children(rws, stop) =>
      if Sem(s, X, n, Apply(rws[0]), false) {
        e := GrantingEdge(s, X, n, Apply(rws[0]));
      } else {
        e := GrantingEdge(s, X, n, Children(rws[1..], stop));
      }
    case Edges(es) => e :| e in es && Fires(s, X, e);
  }

  /** With unions only, any edge that fires grants. */
  lemma {:induction false} AnyEdgeGrants(s: Scene, X: iset<Node>, n: Node, task: Task, e: Edge)
    requires MonotoneTask(task, false) && Occurs(s.view, n, task, e, true) && Fires(s, X, e)
    ensures Sem(s, X, n, task, true)
    decreases task.Load(), task.Length()
  {
    match task
    case Apply(rw) => if !rw.Exclusion? { AnyEdgeGrants(s, X, n, Unfold(s.view, n, rw), e); }
    case Children(rws, stop) =>
      if Occurs(s.view, n, Apply(rws[0]), e, true) {
        AnyEdgeGrants(s, X, n, Apply(rws[0]), e);
      } else {
        AnyEdgeGrants(s, X, n, Children(rws[1..], stop), e);
      }
    case _ =>
  }

  /** The granting side of a task is part of it. */
  lemma {:induction false} OccursWeaken(view: seq<Tuple>, n: Node, task: Task, e: Edge)
    requires Occurs(view, n, task, e, false)
    ensures Occurs(view, n, task, e, true)
    decreases task.Load(), task.Length()
  {
    match task
    case Apply(rw) => OccursWeaken(view, n, if rw.Exclusion? then Apply(rw.base) else Unfold(view, n, rw), e);
    case Children(rws, stop) =>
      if Occurs(view, n, Apply(rws[0]), e, false) {
        OccursWeaken(view, n, Apply(rws[0]), e);
      } else {
        OccursWeaken(view, n, Children(rws[1..], stop), e);
      }
    case _ =>
  }

  // ---- Reachability -----------------------------------------------------------------

  /** A path of at most k granting edges leads from n to a stored tuple that names
      the subject. */
  ghost predicate Reach(s: Scene, n: Node, k: nat)
    decreases k, 1
  {
    Rule(s.schema, n).Ok? &&
    exists e :: Occurs(s.view, n, Apply(Rule(s.schema, n).value), e, false) && EdgeReach(s, e, k)
  }

  ghost predicate EdgeReach(s: Scene, e: Edge, k: nat)
    decreases k, 0
  {
    e == Plain(s.subject) || (k > 0 && e.To? && Reach(s, e.node, k - 1))
  }

  /** The same, as a path: each node's rewrite names the next, the last one's a
      tuple for the subject. */
  ghost predicate GrantPath(s: Scene, path: seq<Node>) {
    && path != []
    && (forall i :: 0 <= i < |path| ==> Rule(s.schema, path[i]).Ok?)
    && (forall i :: 0 <= i < |path| - 1 ==>
          Occurs(s.view, path[i], Apply(Rule(s.schema, path[i]).value), To(path[i + 1]), false))
    && Occurs(s.view, path[|path| - 1], Apply(Rule(s.schema, path[|path| - 1]).value), Plain(s.subject), false)
  }

  lemma {:induction false} ReachHasPath(s: Scene, n: Node, k: nat) returns (path: seq<Node>)
    requires Reach(s, n, k)
    ensures GrantPath(s, path) && path[0] == n && |path| <= k + 1
    decreases k
  {
    var e :| Occurs(s.view, n, Apply(Rule(s.schema, n).value), e, false) && EdgeReach(s, e, k);
    if e == Plain(s.subject) {
      path := [n];
    } else {
      var rest := ReachHasPath(s, e.node, k - 1);
      path := [n] + rest;
    }
  }

  lemma {:induction false} ReachMonotone(s: Scene, n: Node, k: nat, k': nat)
    requires Reach(s, n, k) && k <= k'
    ensures Reach(s, n, k')
    decreases k
  {
    var e :| Occurs(s.view, n, Apply(Rule(s.schema, n).value), e, false) && EdgeReach(s, e, k);
    if e != Plain(s.subject) {
      ReachMonotone(s, e.node, k - 1, k' - 1);
    }
    assert EdgeReach(s, e, k');
  }

  ghost predicate Reachable(s: Scene, n: Node) { exists k: nat :: Reach(s, n, k) }

  ghost function Backed(s: Scene): iset<Node> { iset n | Reachable(s, n) }

  /** Reachability is closed under every rule, reading exclusions as their base. */
  lemma ReachableClosed(s: Scene)
    ensures Closed(s, {}, Backed(s), false)
  {
    var X := Backed(s);
    forall m | Holds(s, X, m, false) ensures m in X {
      var e := GrantingEdge(s, X, m, Apply(Rule(s.schema, m).value));
      if e == Plain(s.subject) {
        assert EdgeReach(s, e, 0);
        assert Reach(s, m, 0);
      } else {
        var k: nat :| Reach(s, e.node, k);
        assert EdgeReach(s, e, k + 1);
        assert Reach(s, m, k + 1);
      }
    }
  }

  /** In schemas of direct tuples, computed usersets, walks and unions, granted
      means reachable. */
  lemma GrantedIsReachable(s: Scene, n: Node)
    requires UnionOnly(s.schema)
    ensures n in Granted(s) <==> Reachable(s, n)
  {
    UnionOnlyIsExclusionFree(s.schema);
    if n in Granted(s) {
      var X := Backed(s);
      ReachableClosed(s);
      forall m | Holds(s, X, m, true) ensures m in X {
        SameWithoutExclusion(s, X, m, Apply(Rule(s.schema, m).value));
      }
      assert Closed(s, {}, X, true);
    } else if k: nat :| Reach(s, n, k) {
      ReachIsGranted(s, n, k);
    }
  }

  lemma {:induction false} ReachIsGranted(s: Scene, n: Node, k: nat)
    requires UnionOnly(s.schema) && Reach(s, n, k)
    ensures n in Granted(s)
    decreases k
  {
    UnionOnlyIsExclusionFree(s.schema);
    LfpClosed(s, {});
    var rule := Apply(Rule(s.schema, n).value);
    var e :| Occurs(s.view, n, rule, e, false) && EdgeReach(s, e, k);
    if e != Plain(s.subject) {
      ReachIsGranted(s, e.node, k - 1);
    }
    OccursWeaken(s.view, n, rule, e);
    AnyEdgeGrants(s, Granted(s), n, rule, e);
  }

  lemma UnionOnlyIsExclusionFree(schema: Schema)
    requires UnionOnly(schema)
    ensures ExclusionFree(schema)
  {
    forall n | Rule(schema, n).Ok? ensures Monotone(Rule(schema, n).value, true) {
      MonotoneWeaken(Rule(schema, n).value);
    }
  }

  lemma {:induction false} MonotoneWeaken(rw: Rewrite)
    requires Monotone(rw, false)
    ensures Monotone(rw, true)
  {
    match rw
    case Union(cs) => MonotoneAllWeaken(cs);
    case _ =>
  }

  lemma {:induction false} MonotoneAllWeaken(rws: seq<Rewrite>)
    requires MonotoneAll(rws, false)
    ensures MonotoneAll(rws, true)
  {
    if rws != [] {
      MonotoneWeaken(rws[0]);
      MonotoneAllWeaken(rws[1..]);
    }
  }

  // ---- Acyclic regions -----------------------------------------------------------------

  /** Below the nodes of `rank` every dependency goes strictly down: the part of
      the dependency graph they span is acyclic. */
  ghost predicate Descends(schema: Schema, view: seq<Tuple>, rank: map<Node, nat>) {
    forall n, m :: n in rank && Rule(schema, n).Ok? && Occurs(view, n, Apply(Rule(schema, n).value), To(m), true) ==>
      m in rank && rank[m] < rank[n]
  }

  ghost predicate Solves(s: Scene, rank: map<Node, nat>, X: iset<Node>) {
    forall n :: n in rank ==> (n in X <==> Holds(s, X, n, true))
  }

  /** The plain recursive meaning, unrolled k times: no memo, no cache, no cut. */
  ghost function Unrolled(s: Scene, k: nat): iset<Node> {
    if k == 0 then iset{} else OneStep(s, Unrolled(s, k - 1))
  }

  ghost function OneStep(s: Scene, X: iset<Node>): iset<Node> {
    iset n | Holds(s, X, n, true)
  }

  lemma {:induction false} SemLocal(s: Scene, X: iset<Node>, Y: iset<Node>, n: Node, task: Task)
    requires forall m :: Occurs(s.view, n, task, To(m), true) ==> (m in X <==> m in Y)
    ensures Sem(s, X, n, task, true) == Sem(s, Y, n, task, true)
    decreases task.Load(), task.Length()
  {
    match task
    case Ask(m) => assert Occurs(s.view, n, task, To(m), true);
    case Apply(rw) =>
      if rw.Exclusion? {
        SemLocal(s, X, Y, n, Apply(rw.base));
        SemLocal(s, X, Y, n, Apply(rw.subtract));
      } else {
        SemLocal(s, X, Y, n, Unfold(s.view, n, rw));
      }
    case Children(rws, stop) =>
      if rws != [] {
        SemLocal(s, X, Y, n, Apply(rws[0]));
        SemLocal(s, X, Y, n, Children(rws[1..], stop));
      }
    case Edges(es) =>
      forall e | e in es ensures Fires(s, X, e) == Fires(s, Y, e) {
        if e.To? { assert Occurs(s.view, n, task, To(e.node), true); }
      }
  }

  /** Past its rank, unrolling a node further does not change its meaning. */
  lemma {:induction false} UnrolledSettles(s: Scene, rank: map<Node, nat>, n: Node, k: nat)
    requires Descends(s.schema, s.view, rank) && n in rank && rank[n] < k
    ensures n in Unrolled(s, k) <==> n in Unrolled(s, k + 1)
    decreases k
  {
    if Rule(s.schema, n).Ok? {
      var rule := Apply(Rule(s.schema, n).value);
      forall m | Occurs(s.view, n, rule, To(m), true)
        ensures m in Unrolled(s, k - 1) <==> m in Unrolled(s, k)
      {
        UnrolledSettles(s, rank, m, k - 1);
      }
      SemLocal(s, Unrolled(s, k - 1), Unrolled(s, k), n, rule);
    }
  }

  /** On an acyclic region every solution is the plain recursive meaning. */
  lemma {:induction false} SolutionIsUnrolled(s: Scene, rank: map<Node, nat>, X: iset<Node>, n: Node, k: nat)
    requires Descends(s.schema, s.view, rank) && Solves(s, rank, X) && n in rank && rank[n] < k
    ensures n in X <==> n in Unrolled(s, k)
    decreases k
  {
    if Rule(s.schema, n).Ok? {
      var rule := Apply(Rule(s.schema, n).value);
      forall m | Occurs(s.view, n, rule, To(m), true) ensures m in X <==> m in Unrolled(s, k - 1) {
        SolutionIsUnrolled(s, rank, X, m, k - 1);
      }
      SemLocal(s, X, Unrolled(s, k - 1), n, rule);
    }
  }

  /** ... and one exists. */
  lemma {:induction false} UnrolledSolves(s: Scene, rank: map<Node, nat>, k: nat)
    requires Descends(s.schema, s.view, rank) && forall n :: n in rank ==> rank[n] < k
    ensures Solves(s, rank, Unrolled(s, k))
  {
    forall n | n in rank ensures n in Unrolled(s, k) <==> Holds(s, Unrolled(s, k), n, true) {
      UnrolledSettles(s, rank, n, k);
    }
  }
}
