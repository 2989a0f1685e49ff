/** Exactly what the walk backwards finds. */
module Finding {
  import opened Names
  import opened Schemas
  import opened Storage
  import opened Semantics
  import opened Reverses
  import opened Sweeps

  /** The tuple names the subject, or the userset of something found a level before. */
  ghost predicate NamedBy(s: Scene, t: Tuple, k: nat)
    decreases k, 0
  {
    t in ReadBySubject(s.view, s.subject, "") ||
    (k > 0 && exists m :: Found(s, m, k - 1) && t in ReadBySubject(s.view, m.AsUserset(), ""))
  }

  ghost predicate Named(s: Scene, n: Node, k: nat)
    decreases k, 1
  {
    exists t :: NodeOf(t) == n && NamedBy(s, t, k)
  }

  /** Found at most k levels further out than what names the subject itself: a stored
      tuple on n says so, or n inherits from a node of which one does. The inheritance
      is looked for nowhere else. */
  ghost predicate Found(s: Scene, n: Node, k: nat)
    decreases k, 2
  {
    Named(s, n, k) || exists m :: Named(s, m, k) && Heir(s, m, n)
  }

  /** Tuples are stored only on relations, never on permissions. */
  ghost predicate TuplesOnRelations(s: Scene) { forall t :: t in s.view ==> !IsPermission(s.schema, NodeOf(t)) }

  /** Some relation that contributes to the permission is found on the object. */
  ghost predicate Proposes(s: Scene, maxDepth: nat, kind: string, permission: string, o: Object) {
    exists r :: Proposing(s, maxDepth, kind, permission, o, r)
  }

  ghost predicate Proposing(s: Scene, maxDepth: nat, kind: string, permission: string, o: Object, r: string) {
    o.kind == kind && Contributes(s.schema, kind, permission, r) && Found(s, Node(o, r), maxDepth)
  }

  lemma {:induction false} NamedByGrows(s: Scene, t: Tuple, k: nat, k': nat)
    requires NamedBy(s, t, k) && k <= k'
    ensures NamedBy(s, t, k')
    decreases k, 0
  {
    hide ReadBySubject;
    if t !in ReadBySubject(s.view, s.subject, "") {
      var m :| Found(s, m, k - 1) && t in ReadBySubject(s.view, m.AsUserset(), "");
      FoundGrows(s, m, k - 1, k' - 1);
      hide Found;
      assert Found(s, m, k' - 1);
    }
  }

  lemma {:induction false} NamedGrows(s: Scene, n: Node, k: nat, k': nat)
    requires Named(s, n, k) && k <= k'
    ensures Named(s, n, k')
    decreases k, 1
  {
    var t :| NodeOf(t) == n && NamedBy(s, t, k);
    NamedByGrows(s, t, k, k');
  }

  lemma {:induction false} FoundGrows(s: Scene, n: Node, k: nat, k': nat)
    requires Found(s, n, k) && k <= k'
    ensures Found(s, n, k')
    decreases k, 2
  {
    hide Named;
    if Named(s, n, k) {
      NamedGrows(s, n, k, k');
    } else {
      var m :| Named(s, m, k) && Heir(s, m, n);
      NamedGrows(s, m, k, k');
    }
  }

  lemma NamedIsStored(s: Scene, n: Node, k: nat) returns (t: Tuple)
    requires Named(s, n, k)
    ensures t in s.view && NodeOf(t) == n && NamedBy(s, t, k)
  {
    t :| NodeOf(t) == n && NamedBy(s, t, k);
    if t in ReadBySubject(s.view, s.subject, "") {
      InTheView(s.view, s.subject, "", t);
    } else {
      var m :| Found(s, m, k - 1) && t in ReadBySubject(s.view, m.AsUserset(), "");
      InTheView(s.view, m.AsUserset(), "", t);
    }
  }

  lemma HeirsArePermissions(s: Scene, m: Node, n: Node)
    requires Heir(s, m, n)
    ensures IsPermission(s.schema, n)
  {
    var v, t :| Inherits(s, m, v, t) && n == Node(t.obj, v.permission);
    HeirIsPermission(s, m, v, t);
  }

  // ---- The invariant of the walk ------------------------------------------------------

  /** First in, first out: the frontier is sorted and spans two levels, and nothing was
      found beyond the next. */
  ghost predicate Layered(w: Sweep, level: nat) {
    && (forall n :: n in w.dist ==> 0 < w.dist[n] <= level + 1)
    && (forall i :: 0 <= i < |w.frontier| ==> level <= w.frontier[i].depth <= level + 1)
    && (forall i, j :: 0 <= i < j < |w.frontier| ==> w.frontier[i].depth <= w.frontier[j].depth)
  }

  ghost predicate ItemFound(s: Scene, item: Item) {
    (item.depth == 0 && item.subject == s.subject) ||
    (item.depth > 0 && exists n :: Found(s, n, item.depth - 1) && item.subject == n.AsUserset())
  }

  /** Nothing was found, queued or proposed that should not be. */
  ghost predicate Justified(q: Query, w: Sweep) {
    && (forall n :: n in w.dist ==> 0 < w.dist[n] <= q.maxDepth + 1 && Found(q.scene, n, w.dist[n] - 1))
    && (forall i :: 0 <= i < |w.frontier| ==> ItemFound(q.scene, w.frontier[i]))
    && (forall o :: o in w.out <==> exists n :: n in w.dist && n.obj == o && Candidate(q, n))
  }

  /** Everything stored for the subject was found, at most one level after d. */
  ghost predicate Spent(q: Query, dist: map<Node, nat>, subject: Subject, d: nat) {
    d <= q.maxDepth ==> forall t :: t in Naming(q, subject) ==> NodeOf(t) in dist && dist[NodeOf(t)] <= d + 1
  }

  ghost predicate Awaits(q: Query, w: Sweep, busy: set<Item>, item: Item) {
    item in w.frontier || item in busy || Spent(q, w.dist, item.subject, item.depth)
  }

  /** Whatever was found is queued or spent. */
  ghost predicate Awaiting(q: Query, w: Sweep, busy: set<Item>) {
    Awaits(q, w, busy, Item(q.scene.subject, 0)) &&
    forall n :: n in w.dist ==> Awaits(q, w, busy, Item(n.AsUserset(), w.dist[n]))
  }

  /** Everything that inherits from n was found, no further out than n. */
  ghost predicate Inherited(s: Scene, dist: map<Node, nat>, n: Node) {
    n in dist && forall x :: Heir(s, n, x) ==> x in dist && dist[x] <= dist[n]
  }

  ghost predicate Passed(q: Query, w: Sweep) {
    forall n :: n in w.dist && !IsPermission(q.scene.schema, n) ==> Inherited(q.scene, w.dist, n)
  }

  ghost predicate Good(q: Query, w: Sweep, level: nat) {
    Layered(w, level) && Justified(q, w) && Awaiting(q, w, {}) && (TuplesOnRelations(q.scene) ==> Passed(q, w))
  }

  // ---- What finding nodes changes ---------------------------------------------------------

  ghost predicate NewItem(w: Sweep, ns: seq<Node>, depth: nat, item: Item) {
    exists n :: n in ns && n !in w.dist && item == Item(n.AsUserset(), depth)
  }

  ghost predicate NewlyProposed(q: Query, w: Sweep, ns: seq<Node>, o: Object) {
    exists n :: n in ns && n !in w.dist && n.obj == o && Candidate(q, n)
  }

  /** w' is w with exactly the nodes of ns found, at this depth. */
  ghost predicate Extends(q: Query, w: Sweep, ns: seq<Node>, depth: nat, w': Sweep) {
    && w.frontier <= w'.frontier
    && (forall n :: n in w'.dist <==> n in w.dist || n in ns)
    && (forall n :: n in w'.dist ==> w'.dist[n] == if n in w.dist then w.dist[n] else depth)
    && (forall n :: n in ns && n !in w.dist ==> Item(n.AsUserset(), depth) in w'.frontier)
    && (forall i :: |w.frontier| <= i < |w'.frontier| ==> NewItem(w, ns, depth, w'.frontier[i]))
    && (forall o :: o in w'.out <==> o in w.out || NewlyProposed(q, w, ns, o))
  }

  lemma AddExtends(q: Query, w: Sweep, n: Node, depth: nat)
    ensures Extends(q, w, [n], depth, Add(q, w, n, depth))
  {
    hide Candidate;
    var w' := Add(q, w, n, depth);
    assert forall x :: x in [n] <==> x == n;
    if n !in w.dist {
      assert w'.frontier[|w.frontier|] == Item(n.AsUserset(), depth);
    }
  }

  lemma NewThroughBoth(q: Query, w: Sweep, n: Node, rest: seq<Node>, depth: nat, w1: Sweep)
    requires forall x :: x in w1.dist <==> x in w.dist || x in [n]
    ensures forall item :: NewItem(w, [n] + rest, depth, item) <== NewItem(w, [n], depth, item) || NewItem(w1, rest, depth, item)
    ensures forall o :: NewlyProposed(q, w, [n] + rest, o) <==> NewlyProposed(q, w, [n], o) || NewlyProposed(q, w1, rest, o)
  {
    hide Candidate;
    assert forall x :: x in [n] + rest <==> x in [n] || x in rest;
  }

  lemma ExtendsMore(q: Query, w: Sweep, n: Node, rest: seq<Node>, depth: nat, w1: Sweep, w2: Sweep)
    requires Extends(q, w, [n], depth, w1) && Extends(q, w1, rest, depth, w2)
    ensures Extends(q, w, [n] + rest, depth, w2)
  {
    NewThroughBoth(q, w, n, rest, depth, w1);
    hide Candidate;
    hide NewItem;
    hide NewlyProposed;
    var ns := [n] + rest;
    assert forall x :: x in ns <==> x in [n] || x in rest;
    assert forall i :: 0 <= i < |w1.frontier| ==> w2.frontier[i] == w1.frontier[i];
    forall x | x in ns && x !in w.dist ensures Item(x.AsUserset(), depth) in w2.frontier {
      if x in [n] {
        assert Item(x.AsUserset(), depth) in w1.frontier;
      }
    }
  }

  lemma ExtendsByNone(q: Query, w: Sweep, depth: nat)
    ensures Extends(q, w, [], depth, w)
  {
  }

  lemma {:induction false} AddAllExtends(q: Query, w: Sweep, ns: seq<Node>, depth: nat)
    ensures Extends(q, w, ns, depth, AddAll(q, w, ns, depth))
    decreases |ns|
  {
    hide Extends;
    hide Add;
    if ns == [] {
      ExtendsByNone(q, w, depth);
    } else {
      var w1 := Add(q, w, ns[0], depth);
      AddExtends(q, w, ns[0], depth);
      AddAllExtends(q, w1, ns[1..], depth);
      ExtendsMore(q, w, ns[0], ns[1..], depth, w1, AddAll(q, w, ns, depth));
      assert [ns[0]] + ns[1..] == ns;
    }
  }

  lemma ExtendsKeepsLayers(q: Query, w: Sweep, ns: seq<Node>, level: nat, w': Sweep)
    requires Extends(q, w, ns, level + 1, w') && Layered(w, level)
    ensures Layered(w', level)
  {
    hide Candidate;
  }

  lemma ExtendsKeepsJustified(q: Query, w: Sweep, ns: seq<Node>, level: nat, w': Sweep)
    requires Extends(q, w, ns, level + 1, w') && Justified(q, w) && level <= q.maxDepth
    requires forall n :: n in ns ==> Found(q.scene, n, level)
    ensures Justified(q, w')
  {
    hide Candidate;
    hide Found;
    forall o ensures o in w'.out <==> exists n :: n in w'.dist && n.obj == o && Candidate(q, n) {
    }
    forall i | 0 <= i < |w'.frontier| ensures ItemFound(q.scene, w'.frontier[i]) {
      if i < |w.frontier| {
        assert w'.frontier[i] == w.frontier[i];
      }
    }
  }

  lemma ExtendsKeepsAwaiting(q: Query, w: Sweep, ns: seq<Node>, level: nat, w': Sweep, busy: set<Item>)
    requires Extends(q, w, ns, level + 1, w') && Awaiting(q, w, busy)
    ensures Awaiting(q, w', busy)
  {
    hide Candidate;
    hide Naming;
    forall item | Awaits(q, w, busy, item) ensures Awaits(q, w', busy, item) {
      if item in w.frontier {
        var i :| 0 <= i < |w.frontier| && w.frontier[i] == item;
        assert w'.frontier[i] == item;
      }
    }
  }

  /** Finding n with everything that inherits from it leaves nothing behind. */
  lemma ExtendsPasses(q: Query, w: Sweep, n: Node, ns: seq<Node>, level: nat, w': Sweep)
    requires Extends(q, w, ns, level + 1, w') && Layered(w, level) && Passed(q, w) && n !in w.dist && n in ns
    requires forall x :: x in ns <==> x == n || (x in ns && Heir(q.scene, n, x))
    requires forall x :: Heir(q.scene, n, x) ==> x in ns
    ensures Passed(q, w')
  {
    hide Candidate;
    hide IsPermission;
    hide NewItem;
    hide NewlyProposed;
    forall m | m in w'.dist && !IsPermission(q.scene.schema, m) ensures Inherited(q.scene, w'.dist, m) {
      if m in w.dist {
        hide Heir;
        assert Inherited(q.scene, w.dist, m);
      } else {
        if m != n { HeirsArePermissions(q.scene, n, m); }
        hide Heir;
        assert w'.dist[m] == level + 1;
      }
    }
  }

  /** Visiting a node named by a tuple leaves nothing behind that inherits. */
  lemma VisitPasses(q: Query, w: Sweep, n: Node, level: nat)
    requires Legal(q) && Layered(w, level) && Passed(q, w)
    ensures Passed(q, Visit(q, w, n, level + 1)) && Layered(Visit(q, w, n, level + 1), level)
  {
    hide Passed;
    hide Layered;
    hide Legal;
    hide AddAll;
    hide Extends;
    hide Inherits;
    if n !in w.dist {
      var ns := VisitAdds(q, w, n, level + 1);
      var w' := Visit(q, w, n, level + 1);
      AddAllExtends(q, w, ns, level + 1);
      ExtendsKeepsLayers(q, w, ns, level, w');
      ExtendsPasses(q, w, n, ns, level, w');
    }
  }

  lemma {:induction false} VisitAllPasses(q: Query, w: Sweep, ts: seq<Tuple>, level: nat)
    requires Legal(q) && Layered(w, level) && Passed(q, w)
    ensures Passed(q, VisitAll(q, w, ts, level + 1))
    decreases |ts|
  {
    hide Layered;
    hide Passed;
    hide Visit;
    hide Legal;
    if ts != [] {
      VisitPasses(q, w, NodeOf(ts[0]), level);
      VisitAllPasses(q, Visit(q, w, NodeOf(ts[0]), level + 1), ts[1..], level);
    }
  }

  // ---- The whole walk ------------------------------------------------------------------------

  lemma NamedFromItem(s: Scene, item: Item, t: Tuple)
    requires ItemFound(s, item) && t in ReadBySubject(s.view, item.subject, "")
    ensures NamedBy(s, t, item.depth) && Named(s, NodeOf(t), item.depth)
  {
    hide ReadBySubject;
  }

  lemma BehindIsFound(q: Query, item: Item, x: Node)
    requires ItemFound(q.scene, item) && Behind(q.scene, Naming(q, item.subject), x)
    ensures Found(q.scene, x, item.depth)
  {
    var t :| t in Naming(q, item.subject) && (x == NodeOf(t) || Heir(q.scene, NodeOf(t), x));
    NamedFromItem(q.scene, item, t);
  }

  lemma PopKeepsLayers(w: Sweep, level: nat)
    requires w.frontier != [] && Layered(w, level)
    ensures Layered(Popped(w), w.frontier[0].depth)
  {
  }

  lemma PopKeepsJustified(q: Query, w: Sweep)
    requires w.frontier != [] && Justified(q, w)
    ensures ItemFound(q.scene, w.frontier[0]) && Justified(q, Popped(w))
  {
    hide Candidate;
    hide ItemFound;
    hide Found;
    assert forall i :: 0 <= i < |Popped(w).frontier| ==> Popped(w).frontier[i] == w.frontier[i + 1];
  }

  lemma PopKeepsAwaiting(q: Query, w: Sweep)
    requires w.frontier != [] && Awaiting(q, w, {})
    ensures Awaiting(q, Popped(w), {w.frontier[0]})
  {
    hide Spent;
    assert forall x :: x in w.frontier ==> x == w.frontier[0] || x in Popped(w).frontier;
  }

  lemma SkippedIsSpent(q: Query, w: Sweep, item: Item)
    requires Awaiting(q, w, {item}) && Spent(q, w.dist, item.subject, item.depth)
    ensures Awaiting(q, w, {})
  {
    hide Spent;
  }

  /** Everything stored for an item that was taken off the frontier. */
  lemma VisitAllKeeps(q: Query, w: Sweep, item: Item)
    requires Legal(q) && item.depth <= q.maxDepth && ItemFound(q.scene, item)
    requires Layered(w, item.depth) && Justified(q, w) && Awaiting(q, w, {item})
    ensures var w' := VisitAll(q, w, Naming(q, item.subject), item.depth + 1);
            Layered(w', item.depth) && Justified(q, w') && Awaiting(q, w', {})
  {
    hide Candidate;
    hide Layered;
    hide Justified;
    hide Awaiting;
    hide ItemFound;
    hide Naming;
    hide Spent;
    hide Extends;
    hide Behind;
    hide Legal;
    hide Found;
    var ts, d := Naming(q, item.subject), item.depth;
    var ns := VisitAllAdds(q, w, ts, d + 1);
    var w' := VisitAll(q, w, ts, d + 1);
    forall x | x in ns ensures Found(q.scene, x, d) { BehindIsFound(q, item, x); }
    AddAllExtends(q, w, ns, d + 1);
    hide VisitAll;
    ExtendsKeepsLayers(q, w, ns, d, w');
    ExtendsKeepsJustified(q, w, ns, d, w');
    ExtendsKeepsAwaiting(q, w, ns, d, w', {item});
    VisitAllSpends(q, w, ts, item, w');
    SkippedIsSpent(q, w', item);
  }

  lemma ExploreKeeps(q: Query, w: Sweep, level: nat)
    requires Legal(q) && w.frontier != [] && Good(q, w, level)
    ensures Good(q, Explore(q, w), w.frontier[0].depth)
  {
    hide *;
    var item, popped, w' := w.frontier[0], Popped(w), Explore(q, w);
    GoodParts(q, w, level);
    ExploreIs(q, w);
    PastIsSpent(q, popped, item);
    PopKeepsLayers(w, level);
    PopKeepsJustified(q, w);
    PopKeepsAwaiting(q, w);
    if item.depth <= q.maxDepth {
      VisitAllKeeps(q, popped, item);
      if TuplesOnRelations(q.scene) { VisitAllPasses(q, popped, Naming(q, item.subject), item.depth); }
    } else {
      SkippedIsSpent(q, popped, item);
    }
    AllGood(q, w', item.depth);
  }

  lemma PastIsSpent(q: Query, w: Sweep, item: Item)
    ensures item.depth > q.maxDepth ==> Spent(q, w.dist, item.subject, item.depth)
  {
  }

  lemma GoodParts(q: Query, w: Sweep, level: nat)
    requires Good(q, w, level)
    ensures Layered(w, level) && Justified(q, w) && Awaiting(q, w, {})
    ensures w.frontier != [] && TuplesOnRelations(q.scene) ==> Passed(q, Popped(w))
  {
    hide Layered;
    hide Justified;
    hide Awaiting;
  }

  lemma AllGood(q: Query, w: Sweep, level: nat)
    requires Layered(w, level) && Justified(q, w) && Awaiting(q, w, {}) && (TuplesOnRelations(q.scene) ==> Passed(q, w))
    ensures Good(q, w, level)
  {
  }

  lemma {:induction false} VisitAllFinds(q: Query, w: Sweep, ts: seq<Tuple>, level: nat)
    requires Legal(q) && Layered(w, level)
    ensures var w' := VisitAll(q, w, ts, level + 1);
            Layered(w', level) && (forall n :: n in w.dist ==> n in w'.dist) && forall t :: t in ts ==> NodeOf(t) in w'.dist
    decreases |ts|
  {
    hide Legal;
    hide Visit;
    if ts != [] {
      var n := NodeOf(ts[0]);
      var ns := VisitAdds(q, w, n, level + 1);
      var w1 := Visit(q, w, n, level + 1);
      AddAllExtends(q, w, ns, level + 1);
      ExtendsKeepsLayers(q, w, ns, level, w1);
      hide Layered;
      VisitAllFinds(q, w1, ts[1..], level);
      assert forall t :: t in ts ==> t == ts[0] || t in ts[1..];
    }
  }

  lemma VisitAllSpends(q: Query, w: Sweep, ts: seq<Tuple>, item: Item, w': Sweep)
    requires Legal(q) && Layered(w, item.depth) && ts == Naming(q, item.subject)
    requires w' == VisitAll(q, w, ts, item.depth + 1)
    ensures Spent(q, w'.dist, item.subject, item.depth)
  {
    VisitAllFinds(q, w, ts, item.depth);
  }

  lemma StartIsGood(q: Query)
    ensures Good(q, Start(q), 0)
  {
  }

  lemma {:induction false} DrainKeeps(q: Query, w: Sweep, level: nat) returns (last: nat)
    requires Legal(q) && w.dist.Keys <= Universe(q.scene) && Good(q, w, level)
    ensures var w' := Drain(q, w); w'.frontier == [] && Good(q, w', last)
    decreases Measure(q, w)
  {
    hide Good;
    hide Legal;
    hide Explore;
    hide Universe;
    if w.frontier == [] {
      last := level;
    } else {
      ExploreShrinks(q, w);
      ExploreKeeps(q, w, level);
      hide Measure;
      last := DrainKeeps(q, Explore(q, w), w.frontier[0].depth);
    }
  }

  // ---- Exactly what is found ---------------------------------------------------------------------

  lemma {:induction false} FoundIsSwept(q: Query, w: Sweep, n: Node, k: nat)
    requires w.frontier == [] && Awaiting(q, w, {}) && Passed(q, w) && TuplesOnRelations(q.scene)
    requires Found(q.scene, n, k) && k <= q.maxDepth
    ensures n in w.dist && w.dist[n] <= k + 1
    decreases k, 1
  {
    if Named(q.scene, n, k) {
      NamedIsSwept(q, w, n, k);
    } else {
      var m :| Named(q.scene, m, k) && Heir(q.scene, m, n);
      var t := NamedIsStored(q.scene, m, k);
      NamedIsSwept(q, w, m, k);
      assert Inherited(q.scene, w.dist, m);
    }
  }

  lemma {:induction false} NamedIsSwept(q: Query, w: Sweep, n: Node, k: nat)
    requires w.frontier == [] && Awaiting(q, w, {}) && Passed(q, w) && TuplesOnRelations(q.scene)
    requires Named(q.scene, n, k) && k <= q.maxDepth
    ensures n in w.dist && w.dist[n] <= k + 1
    decreases k, 0
  {
    hide *;
    var t, m := WhoNames(q.scene, n, k);
    if t in ReadBySubject(q.scene.view, q.scene.subject, "") {
      SubjectIsSpent(q, w, t);
    } else {
      FoundIsSwept(q, w, m, k - 1);
      FoundIsSpent(q, w, m, t);
    }
  }

  lemma WhoNames(s: Scene, n: Node, k: nat) returns (t: Tuple, m: Node)
    requires Named(s, n, k)
    ensures NodeOf(t) == n
    ensures t in ReadBySubject(s.view, s.subject, "") ||
            (k > 0 && Found(s, m, k - 1) && t in ReadBySubject(s.view, m.AsUserset(), ""))
  {
    t := NamedIsStored(s, n, k);
    m := n;
    hide ReadBySubject;
    if t !in ReadBySubject(s.view, s.subject, "") {
      m :| Found(s, m, k - 1) && t in ReadBySubject(s.view, m.AsUserset(), "");
    }
  }

  lemma SubjectIsSpent(q: Query, w: Sweep, t: Tuple)
    requires w.frontier == [] && Awaiting(q, w, {}) && t in ReadBySubject(q.scene.view, q.scene.subject, "")
    ensures NodeOf(t) in w.dist && w.dist[NodeOf(t)] <= 1
  {
    hide ReadBySubject;
    assert t in Naming(q, q.scene.subject);
  }

  lemma FoundIsSpent(q: Query, w: Sweep, m: Node, t: Tuple)
    requires w.frontier == [] && Awaiting(q, w, {}) && m in w.dist && w.dist[m] <= q.maxDepth
    requires t in ReadBySubject(q.scene.view, m.AsUserset(), "")
    ensures NodeOf(t) in w.dist && w.dist[NodeOf(t)] <= w.dist[m] + 1
  {
    hide ReadBySubject;
    assert Awaits(q, w, {}, Item(m.AsUserset(), w.dist[m]));
    assert t in Naming(q, m.AsUserset());
  }

  /** On any data, whatever order the schema's maps are passed over in, only what is
      found within the depth limit is proposed. */
  lemma CandidatesAreFound(q: Query, o: Object)
    requires Legal(q) && o in Candidates(q)
    ensures Proposes(q.scene, q.maxDepth, q.kind, q.permission, o)
  {
    var w := Drain(q, Start(q));
    StartIsGood(q);
    hide Drain;
    hide Good;
    hide Proposes;
    var last := DrainKeeps(q, Start(q), 0);
    GoodParts(q, w, last);
    JustifiedIsFound(q, w, o);
  }

  lemma JustifiedIsFound(q: Query, w: Sweep, o: Object)
    requires Justified(q, w) && o in w.out
    ensures Proposes(q.scene, q.maxDepth, q.kind, q.permission, o)
  {
    hide Found;
    hide Contributes;
    hide ItemFound;
    var n :| n in w.dist && n.obj == o && Candidate(q, n);
    FoundGrows(q.scene, n, w.dist[n] - 1, q.maxDepth);
    assert Proposing(q.scene, q.maxDepth, q.kind, q.permission, o, n.relation);
  }

  /** When tuples are stored only on relations, exactly what is found within the depth
      limit is proposed. */
  lemma CandidatesExactly(q: Query, o: Object)
    requires Legal(q) && TuplesOnRelations(q.scene)
    ensures o in Candidates(q) <==> Proposes(q.scene, q.maxDepth, q.kind, q.permission, o)
  {
    if o in Candidates(q) {
      CandidatesAreFound(q, o);
    }
    if Proposes(q.scene, q.maxDepth, q.kind, q.permission, o) {
      FoundAreCandidates(q, o);
    }
  }

  lemma FoundAreCandidates(q: Query, o: Object)
    requires Legal(q) && TuplesOnRelations(q.scene) && Proposes(q.scene, q.maxDepth, q.kind, q.permission, o)
    ensures o in Candidates(q)
  {
    StartIsGood(q);
    var last := DrainKeeps(q, Start(q), 0);
    var w := Drain(q, Start(q));
    hide Drain;
    hide Contributes;
    hide Awaiting;
    hide Found;
    hide Layered;
    hide Passed;
    var r :| Proposing(q.scene, q.maxDepth, q.kind, q.permission, o, r);
    FoundIsSwept(q, w, Node(o, r), q.maxDepth);
    assert Candidate(q, Node(o, r));
  }

  /** ... so there the order of the schema's maps does not matter. */
  lemma OrderDoesNotMatter(q: Query, q': Query)
    requires Legal(q) && Legal(q') && TuplesOnRelations(q.scene)
    requires q'.scene == q.scene && q'.maxDepth == q.maxDepth && q'.kind == q.kind && q'.permission == q.permission
    ensures Candidates(q) == Candidates(q')
  {
    hide Candidates;
    hide Proposes;
    hide Legal;
    forall o ensures o in Candidates(q) <==> o in Candidates(q') {
      CandidatesExactly(q, o);
      CandidatesExactly(q', o);
    }
  }
}
