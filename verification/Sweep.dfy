/** The walk backwards from a subject, as a function of the snapshot and of the order in
    which each pass over the schema's maps goes; and exactly what it finds.

    Nodes are found level by level: a stored tuple names the subject, or the userset of
    something found one level before; and whatever inherits through a walk of the schema
    from a node found through a stored tuple is found at the same level. */
module Sweeps {
  import opened Names
  import opened Schemas
  import opened Storage
  import opened Semantics
  import opened Reverses

  datatype Item = Item(subject: Subject, depth: nat)

  /** What is asked, and the order that the pass over the schema made for each node takes. */
  datatype Query = Query(scene: Scene, maxDepth: nat, kind: string, permission: string, ranges: Node -> Ranges)

  ghost predicate Legal(q: Query) { forall n :: Ranging(q.scene.schema, q.ranges(n)) }

  /** The state of the walk; `dist` is the level each node was found at. */
  datatype Sweep = Sweep(frontier: seq<Item>, dist: map<Node, nat>, out: set<Object>)

  /** The relation is one that can make the permission true on its own object. */
  ghost predicate Contributes(s: Schema, kind: string, permission: string, relation: string) {
    kind in s.definitions &&
    forall D: set<string> :: LinkClosed(s.definitions[kind], D) && permission in D ==> relation in D
  }

  ghost predicate Candidate(q: Query, n: Node) {
    n.obj.kind == q.kind && Contributes(q.scene.schema, q.kind, q.permission, n.relation)
  }

  // ---- The walk -----------------------------------------------------------------------

  /** Finds a node, unless it was found before: proposes its object if it can matter, and
      queues it. */
  ghost function Add(q: Query, w: Sweep, n: Node, depth: nat): Sweep {
    if n in w.dist then w
    else Sweep(w.frontier + [Item(n.AsUserset(), depth)], w.dist[n := depth],
               if Candidate(q, n) then w.out + {n.obj} else w.out)
  }

  /** Whatever points at a node through the walk's tupleset, as the tuples `ts` say. */
  ghost function Inherit(q: Query, w: Sweep, v: Walk, ts: seq<Tuple>, depth: nat): Sweep
    decreases |ts|
  {
    if ts == [] then w
    else Inherit(q, if ts[0].obj.kind == v.kind then Add(q, w, Node(ts[0].obj, v.permission), depth) else w,
                 v, ts[1..], depth)
  }

  ghost function Pointing(q: Query, n: Node, v: Walk): seq<Tuple> {
    ReadBySubject(q.scene.view, Subject(n.obj, ""), v.tupleset)
  }

  ghost function InheritAll(q: Query, w: Sweep, n: Node, vs: seq<Walk>, depth: nat): Sweep
    decreases |vs|
  {
    if vs == [] then w
    else InheritAll(q, Inherit(q, w, vs[0], Pointing(q, n, vs[0]), depth), n, vs[1..], depth)
  }

  ghost function WalksFrom(q: Query, n: Node): seq<Walk>
    requires Legal(q)
  {
    WalkList(q.scene.schema, n.relation, q.ranges(n))
  }

  /** One node named by a stored tuple. */
  ghost function Visit(q: Query, w: Sweep, n: Node, depth: nat): Sweep
    requires Legal(q)
  {
    if n in w.dist then w else InheritAll(q, Add(q, w, n, depth), n, WalksFrom(q, n), depth)
  }

  ghost function VisitAll(q: Query, w: Sweep, ts: seq<Tuple>, depth: nat): Sweep
    requires Legal(q)
    decreases |ts|
  {
    if ts == [] then w else VisitAll(q, Visit(q, w, NodeOf(ts[0]), depth), ts[1..], depth)
  }

  ghost function Naming(q: Query, subject: Subject): seq<Tuple> { ReadBySubject(q.scene.view, subject, "") }

  /** The first item of the frontier. */
  ghost function Explore(q: Query, w: Sweep): Sweep
    requires Legal(q) && w.frontier != []
  {
    var item, popped := w.frontier[0], w.(frontier := w.frontier[1..]);
    if item.depth > q.maxDepth then popped else VisitAll(q, popped, Naming(q, item.subject), item.depth + 1)
  }

  ghost function Drain(q: Query, w: Sweep): Sweep
    requires Legal(q) && w.dist.Keys <= Universe(q.scene)
    decreases Measure(q, w)
  {
    if w.frontier == [] then w else
    ExploreShrinks(q, w);
    Drain(q, Explore(q, w))
  }

  ghost function Start(q: Query): Sweep { Sweep([Item(q.scene.subject, 0)], map[], {}) }

  ghost function Candidates(q: Query): set<Object>
    requires Legal(q)
  {
    Drain(q, Start(q)).out
  }

  // ---- It ends --------------------------------------------------------------------------

  ghost function Permissions(s: Schema): set<string> {
    set kind, p | kind in s.definitions && p in s.definitions[kind].relations :: p
  }

  /** Every node the walk can ever find. */
  ghost function Universe(s: Scene): set<Node> {
    (set t | t in s.view :: NodeOf(t)) + (set t, p | t in s.view && p in Permissions(s.schema) :: Node(t.obj, p))
  }

  ghost function Measure(q: Query, w: Sweep): nat { 2 * |Universe(q.scene) - w.dist.Keys| + |w.frontier| }

  lemma InTheView(view: seq<Tuple>, subject: Subject, relation: string, t: Tuple)
    requires t in ReadBySubject(view, subject, relation)
    ensures t in view
  {
    OfRelationOf(Bucket(view, Reverse, subject.String()), relation, t);
    BucketOf(view, Reverse, subject.String(), t);
  }

  /** The tuple points at node m's object through a walk of the schema into m. */
  ghost predicate Inherits(s: Scene, m: Node, v: Walk, t: Tuple) {
    IsWalkInto(s.schema, m.relation, v) && t.obj.kind == v.kind &&
    t in ReadBySubject(s.view, Subject(m.obj, ""), v.tupleset)
  }

  lemma HeirIsPermission(s: Scene, m: Node, v: Walk, t: Tuple)
    requires Inherits(s, m, v, t)
    ensures Node(t.obj, v.permission) in Universe(s) && IsPermission(s.schema, Node(t.obj, v.permission))
  {
    InTheView(s.view, Subject(m.obj, ""), v.tupleset, t);
    assert v.permission in Permissions(s.schema);
  }

  lemma NamedIsKnown(s: Scene, t: Tuple)
    requires t in s.view
    ensures NodeOf(t) in Universe(s)
  {
  }

  // ---- All that a step does is find nodes -------------------------------------------------

  ghost function AddAll(q: Query, w: Sweep, ns: seq<Node>, depth: nat): Sweep
    decreases |ns|
  {
    if ns == [] then w else AddAll(q, Add(q, w, ns[0], depth), ns[1..], depth)
  }

  lemma {:induction false} AddAllInTwo(q: Query, w: Sweep, a: seq<Node>, b: seq<Node>, depth: nat)
    ensures AddAll(q, w, a + b, depth) == AddAll(q, AddAll(q, w, a, depth), b, depth)
    decreases |a|
  {
    hide Add;
    if a == [] {
      assert a + b == b;
    } else {
      assert (a + b)[1..] == a[1..] + b;
      AddAllInTwo(q, Add(q, w, a[0], depth), a[1..], b, depth);
    }
  }

  /** n inherits from m. */
  ghost predicate Heir(s: Scene, m: Node, n: Node) {
    exists v, t :: Inherits(s, m, v, t) && n == Node(t.obj, v.permission)
  }

  lemma {:induction false} InheritAdds(q: Query, w: Sweep, m: Node, v: Walk, ts: seq<Tuple>, depth: nat)
    returns (ns: seq<Node>)
    requires IsWalkInto(q.scene.schema, m.relation, v)
    requires forall t :: t in ts ==> t in Pointing(q, m, v)
    ensures Inherit(q, w, v, ts, depth) == AddAll(q, w, ns, depth)
    ensures forall n :: n in ns ==> Heir(q.scene, m, n)
    ensures forall t :: t in ts && t.obj.kind == v.kind ==> Node(t.obj, v.permission) in ns
    decreases |ts|
  {
    hide Add;
    hide IsWalkInto;
    if ts == [] {
      ns := [];
    } else {
      var t, child := ts[0], Node(ts[0].obj, v.permission);
      var w1 := if t.obj.kind == v.kind then Add(q, w, child, depth) else w;
      var rest := InheritAdds(q, w1, m, v, ts[1..], depth);
      if t.obj.kind == v.kind {
        assert t in ts;
        assert Inherits(q.scene, m, v, t);
        ns := [child] + rest;
        assert ns[1..] == rest;
      } else {
        ns := rest;
      }
    }
  }

  lemma {:induction false} InheritAllAdds(q: Query, w: Sweep, m: Node, vs: seq<Walk>, depth: nat) returns (ns: seq<Node>)
    requires forall v :: v in vs ==> IsWalkInto(q.scene.schema, m.relation, v)
    ensures InheritAll(q, w, m, vs, depth) == AddAll(q, w, ns, depth)
    ensures forall n :: n in ns ==> Heir(q.scene, m, n)
    ensures forall v, t :: v in vs && Inherits(q.scene, m, v, t) ==> Node(t.obj, v.permission) in ns
    decreases |vs|
  {
    hide Add;
    hide IsWalkInto;
    hide Heir;
    if vs == [] {
      ns := [];
    } else {
      var ts := Pointing(q, m, vs[0]);
      var first := InheritAdds(q, w, m, vs[0], ts, depth);
      var rest := InheritAllAdds(q, Inherit(q, w, vs[0], ts, depth), m, vs[1..], depth);
      ns := first + rest;
      AddAllInTwo(q, w, first, rest, depth);
      forall v, t | v in vs && Inherits(q.scene, m, v, t) ensures Node(t.obj, v.permission) in ns {
        if v == vs[0] {
          assert t in ts;
        } else {
          assert v in vs[1..];
        }
      }
    }
  }

  /** Visiting a new node finds it and everything that inherits from it. */
  lemma VisitAdds(q: Query, w: Sweep, n: Node, depth: nat) returns (ns: seq<Node>)
    requires Legal(q)
    ensures Visit(q, w, n, depth) == AddAll(q, w, ns, depth)
    ensures forall x :: x in ns ==> x == n || Heir(q.scene, n, x)
    ensures n in w.dist || n in ns
    ensures n !in w.dist ==> forall v, t :: Inherits(q.scene, n, v, t) ==> Node(t.obj, v.permission) in ns
  {
    if n in w.dist {
      ns := [];
    } else {
      var vs := WalksFrom(q, n);
      forall v ensures v in vs <==> IsWalkInto(q.scene.schema, n.relation, v) {
        WalkListIsExact(q.scene.schema, n.relation, q.ranges(n), v);
      }
      hide WalkList;
      hide IsWalkInto;
      hide Add;
      hide Heir;
      var rest := InheritAllAdds(q, Add(q, w, n, depth), n, vs, depth);
      ns := [n] + rest;
      assert ns[1..] == rest;
      forall v, t | Inherits(q.scene, n, v, t) ensures Node(t.obj, v.permission) in ns {
        assert v in vs;
      }
    }
  }

  /** x is named by one of the tuples, or inherits from a node that is. */
  ghost predicate Behind(s: Scene, ts: seq<Tuple>, x: Node) {
    exists t :: t in ts && (x == NodeOf(t) || Heir(s, NodeOf(t), x))
  }

  lemma {:induction false} VisitAllAdds(q: Query, w: Sweep, ts: seq<Tuple>, depth: nat) returns (ns: seq<Node>)
    requires Legal(q)
    ensures VisitAll(q, w, ts, depth) == AddAll(q, w, ns, depth)
    ensures forall x :: x in ns ==> Behind(q.scene, ts, x)
    decreases |ts|
  {
    hide Heir;
    hide Visit;
    hide Legal;
    if ts == [] {
      ns := [];
    } else {
      var first := VisitAdds(q, w, NodeOf(ts[0]), depth);
      var rest := VisitAllAdds(q, Visit(q, w, NodeOf(ts[0]), depth), ts[1..], depth);
      ns := first + rest;
      AddAllInTwo(q, w, first, rest, depth);
      forall x | x in ns ensures Behind(q.scene, ts, x) {
        if x in first {
          assert ts[0] in ts;
        } else {
          var t :| t in ts[1..] && (x == NodeOf(t) || Heir(q.scene, NodeOf(t), x));
          assert t in ts;
        }
      }
    }
  }

  lemma OneFewer(U: set<Node>, found: set<Node>, n: Node)
    requires n in U && n !in found
    ensures |U - (found + {n})| == |U - found| - 1
  {
    assert U - (found + {n}) == (U - found) - {n};
  }

  lemma AddShrinks(q: Query, w: Sweep, n: Node, depth: nat)
    requires w.dist.Keys <= Universe(q.scene) && n in Universe(q.scene)
    ensures var w' := Add(q, w, n, depth);
            w'.dist.Keys <= Universe(q.scene) && Measure(q, w') <= Measure(q, w)
  {
    hide Universe;
    hide Candidate;
    if n !in w.dist {
      OneFewer(Universe(q.scene), w.dist.Keys, n);
      assert Add(q, w, n, depth).dist.Keys == w.dist.Keys + {n};
    }
  }

  lemma {:induction false} AddAllShrinks(q: Query, w: Sweep, ns: seq<Node>, depth: nat)
    requires w.dist.Keys <= Universe(q.scene) && forall n :: n in ns ==> n in Universe(q.scene)
    ensures var w' := AddAll(q, w, ns, depth);
            w'.dist.Keys <= Universe(q.scene) && Measure(q, w') <= Measure(q, w)
    decreases |ns|
  {
    hide Add;
    hide Measure;
    hide Universe;
    if ns != [] {
      assert ns[0] in ns;
      AddShrinks(q, w, ns[0], depth);
      AddAllShrinks(q, Add(q, w, ns[0], depth), ns[1..], depth);
    }
  }

  lemma BehindIsKnown(s: Scene, subject: Subject, x: Node)
    requires Behind(s, ReadBySubject(s.view, subject, ""), x)
    ensures x in Universe(s)
  {
    hide Universe;
    var t :| t in ReadBySubject(s.view, subject, "") && (x == NodeOf(t) || Heir(s, NodeOf(t), x));
    InTheView(s.view, subject, "", t);
    NamedIsKnown(s, t);
    if Heir(s, NodeOf(t), x) {
      var v, t' :| Inherits(s, NodeOf(t), v, t') && x == Node(t'.obj, v.permission);
      HeirIsPermission(s, NodeOf(t), v, t');
    }
  }

  lemma PopShrinks(q: Query, w: Sweep)
    requires w.frontier != []
    ensures Measure(q, w.(frontier := w.frontier[1..])) < Measure(q, w)
  {
    hide Universe;
  }

  lemma ExploreShrinks(q: Query, w: Sweep)
    requires Legal(q) && w.dist.Keys <= Universe(q.scene) && w.frontier != []
    ensures var w' := Explore(q, w);
            w'.dist.Keys <= Universe(q.scene) && Measure(q, w') < Measure(q, w)
  {
    hide Measure;
    hide Universe;
    hide Legal;
    hide Behind;
    hide ReadBySubject;
    hide VisitAll;
    var item, popped := w.frontier[0], w.(frontier := w.frontier[1..]);
    PopShrinks(q, w);
    if item.depth <= q.maxDepth {
      var ns := VisitAllAdds(q, popped, Naming(q, item.subject), item.depth + 1);
      forall x | x in ns ensures x in Universe(q.scene) {
        BehindIsKnown(q.scene, item.subject, x);
      }
      hide Naming;
      hide AddAll;
      AddAllShrinks(q, popped, ns, item.depth + 1);
    }
  }

  // ---- Step by step ------------------------------------------------------------------------

  ghost function Popped(w: Sweep): Sweep
    requires w.frontier != []
  {
    w.(frontier := w.frontier[1..])
  }

  lemma ExploreIs(q: Query, w: Sweep)
    requires Legal(q) && w.frontier != []
    ensures var item := w.frontier[0];
            Explore(q, w) == if item.depth > q.maxDepth then Popped(w)
                             else VisitAll(q, Popped(w), Naming(q, item.subject), item.depth + 1)
  {
  }

  lemma StartsKnown(q: Query)
    ensures Start(q).dist.Keys <= Universe(q.scene)
    ensures Legal(q) ==> Candidates(q) == Drain(q, Start(q)).out
  {
  }

  lemma DrainStep(q: Query, w: Sweep)
    requires Legal(q) && w.dist.Keys <= Universe(q.scene) && w.frontier != []
    ensures Explore(q, w).dist.Keys <= Universe(q.scene) && Drain(q, w) == Drain(q, Explore(q, w))
  {
    ExploreShrinks(q, w);
    hide Explore;
  }

  lemma Drained(q: Query, w: Sweep)
    requires Legal(q) && w.dist.Keys <= Universe(q.scene) && w.frontier == []
    ensures Drain(q, w) == w
  {
  }

  lemma {:induction false} AddAllFinds(q: Query, w: Sweep, ns: seq<Node>, depth: nat)
    ensures var w' := AddAll(q, w, ns, depth);
            w.out <= w'.out && forall n :: n in w.dist || n in ns ==> n in w'.dist
    decreases |ns|
  {
    hide Candidate;
    if ns != [] {
      AddAllFinds(q, Add(q, w, ns[0], depth), ns[1..], depth);
      assert forall n :: n in ns ==> n == ns[0] || n in ns[1..];
    }
  }

  lemma VisitAllKeepsProposals(q: Query, w: Sweep, ts: seq<Tuple>, depth: nat)
    requires Legal(q)
    ensures w.out <= VisitAll(q, w, ts, depth).out
  {
    hide Legal;
    hide Behind;
    var ns := VisitAllAdds(q, w, ts, depth);
    hide VisitAll;
    AddAllFinds(q, w, ns, depth);
    hide AddAll;
  }

  lemma ExploreKeepsProposals(q: Query, w: Sweep)
    requires Legal(q) && w.frontier != []
    ensures w.out <= Explore(q, w).out
  {
    hide VisitAll;
    hide Naming;
    hide Legal;
    hide Universe;
    var item, popped := w.frontier[0], w.(frontier := w.frontier[1..]);
    if item.depth <= q.maxDepth {
      VisitAllKeepsProposals(q, popped, Naming(q, item.subject), item.depth + 1);
    }
  }

  /** Nothing that was proposed is withdrawn. */
  lemma {:induction false} DrainKeepsProposals(q: Query, w: Sweep)
    requires Legal(q) && w.dist.Keys <= Universe(q.scene)
    ensures w.out <= Drain(q, w).out
    decreases Measure(q, w)
  {
    hide Explore;
    hide Legal;
    hide Universe;
    if w.frontier != [] {
      ExploreShrinks(q, w);
      ExploreKeepsProposals(q, w);
      hide Measure;
      DrainKeepsProposals(q, Explore(q, w));
    }
  }

  /** Meeting the same heir again adds nothing. */
  lemma {:induction false} InheritsOnce(q: Query, w: Sweep, v: Walk, ts: seq<Tuple>, n: Node, depth: nat)
    requires forall t :: t in ts && t.obj.kind == v.kind ==> Node(t.obj, v.permission) == n
    ensures Inherit(q, w, v, ts, depth) ==
            if exists t :: t in ts && t.obj.kind == v.kind then Add(q, w, n, depth) else w
    decreases |ts|
  {
    if ts != [] {
      hide Candidate;
      var w1 := if ts[0].obj.kind == v.kind then Add(q, w, n, depth) else w;
      assert ts[0] in ts;
      InheritsOnce(q, w1, v, ts[1..], n, depth);
      assert forall t :: t in ts <==> t == ts[0] || t in ts[1..];
      assert Add(q, w1, n, depth) == if n in w1.dist then w1 else Add(q, w, n, depth);
    }
  }

  /** Being named by the same node again adds nothing. */
  lemma {:induction false} VisitsOnce(q: Query, w: Sweep, ts: seq<Tuple>, n: Node, depth: nat)
    requires Legal(q) && forall t :: t in ts ==> NodeOf(t) == n
    ensures VisitAll(q, w, ts, depth) == if ts == [] then w else Visit(q, w, n, depth)
    decreases |ts|
  {
    if ts != [] {
      assert ts[0] in ts;
      var ns := VisitAdds(q, w, n, depth);
      AddAllFinds(q, w, ns, depth);
      hide Legal;
      var w1 := Visit(q, w, n, depth);
      assert n in w1.dist && Visit(q, w1, n, depth) == w1;
      hide Visit;
      VisitsOnce(q, w1, ts[1..], n, depth);
    }
  }
}
