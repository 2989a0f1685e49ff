/** The reverse query: candidates found walking backwards from the subject, then
    each verified with a real check, in order. */
module Listers {
  import opened Names
  import opened Schemas
  import opened Storage
  import opened MemoryStore
  import opened Snapshots
  import opened Semantics
  import opened Checks
  import opened Engines
  import opened Reverses
  import opened Sweeps
  import opened Finding
  import opened Listing
  import opened Coherence
  import Concurrency
  import Depths
  import Grants
  import Work

  // ---- The walk itself -----------------------------------------------------------------

  class ReverseWalk {
    const at: Snapshot
    const schema: Schema
    const subject: Subject
    const kind: string
    const maxDepth: nat
    const contributing: set<string>
    const ranges: Node -> Ranges
    ghost const permission: string
    var frontier: seq<Item>
    var seen: set<Node>
    var out: set<Object>
    ghost var dist: map<Node, nat>

    ghost function Q(): Query { Query(Scene(schema, at.view, subject), maxDepth, kind, permission, ranges) }

    ghost function Now(): Sweep
      reads this
    {
      Sweep(frontier, dist, out)
    }

    /** The parts of the walk that never change are those of the query. */
    ghost predicate Fixed() {
      Legal(Q()) && forall r :: r in contributing <==> Contributes(schema, kind, permission, r)
    }

    ghost predicate Valid()
      reads this
    {
      seen == dist.Keys && Fixed()
    }

    constructor (at: Snapshot, schema: Schema, subject: Subject, kind: string, maxDepth: nat,
                 contributing: set<string>, ghost permission: string, ranges: Node -> Ranges)
      requires forall n :: Ranging(schema, ranges(n))
      requires forall r :: r in contributing <==> Contributes(schema, kind, permission, r)
      ensures Valid() && this.at == at && Now() == Start(Q())
      ensures Q() == Query(Scene(schema, at.view, subject), maxDepth, kind, permission, ranges)
    {
      this.at, this.schema, this.subject, this.kind := at, schema, subject, kind;
      this.maxDepth, this.contributing, this.permission, this.ranges := maxDepth, contributing, permission, ranges;
      frontier, seen, out, dist := [Item(subject, 0)], {}, {}, map[];
    }

    /** Marks a node found, proposes its object if it can matter, and queues it. */
    method Add(n: Node, depth: nat)
      requires Valid() && n !in seen
      modifies this
      ensures Valid() && Now() == Sweeps.Add(Q(), old(Now()), n, depth)
    {
      hide Legal;
      seen := seen + {n};
      dist := dist[n := depth];
      if n.obj.kind == kind && n.relation in contributing {
        out := out + {n.obj};
      }
      frontier := frontier + [Item(n.AsUserset(), depth)];
    }

    /** Inheritance backwards: whatever points at the node through the walk's tupleset. */
    method Inherit(node: Node, v: Walk, depth: nat)
      requires at.Pinned() && Valid()
      modifies this, at.store
      ensures at.Pinned() && Valid()
      ensures Now() == Sweeps.Inherit(Q(), old(Now()), v, Pointing(Q(), node, v), depth)
    {
      var parents := at.ReadBySubject(Subject(node.obj, ""), v.tupleset);
      assert parents == Pointing(Q(), node, v);
      hide Snapshot.Pinned;
      hide Valid;
      hide ReadBySubject;
      hide Sweeps.Add;
      assert parents[0..] == parents;
      for j := 0 to |parents|
        invariant at.Pinned() && Valid()
        invariant Sweeps.Inherit(Q(), Now(), v, parents[j..], depth) == Sweeps.Inherit(Q(), old(Now()), v, parents, depth)
      {
        var pt := parents[j];
        assert parents[j..][0] == pt && parents[j..][1..] == parents[j + 1..];
        if pt.obj.kind != v.kind {
          continue;
        }
        var child := Node(pt.obj, v.permission);
        if Seen(child) {
          continue;
        }
        Add(child, depth);
      }
    }

    predicate Seen(n: Node)
      requires Valid()
      reads this
      ensures Seen(n) <==> n in Now().dist
      ensures Seen(n) ==> forall depth :: Sweeps.Add(Q(), Now(), n, depth) == Now()
    {
      n in seen
    }

    /** One node named by a tuple: every walk of the schema into it is followed. */
    method Visit(node: Node, depth: nat)
      requires at.Pinned() && Valid()
      modifies this, at.store
      ensures at.Pinned() && Valid() && Now() == Sweeps.Visit(Q(), old(Now()), node, depth)
    {
      if node in seen {
        return;
      }
      Add(node, depth);
      ghost var added := Now();
      var walks := WalksInto(schema, node.relation, ranges(node));
      assert walks == WalksFrom(Q(), node);
      hide Valid;
      hide Snapshot.Pinned;
      hide WalksFrom;
      hide Legal;
      hide Sweeps.Add;
      hide Sweeps.Inherit;
      assert walks[0..] == walks;
      for i := 0 to |walks|
        invariant at.Pinned() && Valid()
        invariant InheritAll(Q(), Now(), node, walks[i..], depth) == InheritAll(Q(), added, node, walks, depth)
      {
        assert walks[i..][0] == walks[i] && walks[i..][1..] == walks[i + 1..];
        Inherit(node, walks[i], depth);
      }
    }

    /** Every tuple naming the item being explored. */
    method VisitAll(item: Item)
      requires at.Pinned() && Valid()
      modifies this, at.store
      ensures at.Pinned() && Valid()
      ensures Now() == Sweeps.VisitAll(Q(), old(Now()), Naming(Q(), item.subject), item.depth + 1)
    {
      var tuples := at.ReadBySubject(item.subject, "");
      assert tuples == Naming(Q(), item.subject);
      hide Snapshot.Pinned;
      hide Valid;
      hide ReadBySubject;
      hide Sweeps.Visit;
      assert Legal(Q()) by { IsLegal(); }
      hide Legal;
      assert tuples[0..] == tuples;
      for i := 0 to |tuples|
        invariant at.Pinned() && Valid()
        invariant Sweeps.VisitAll(Q(), Now(), tuples[i..], item.depth + 1) ==
                  Sweeps.VisitAll(Q(), old(Now()), tuples, item.depth + 1)
      {
        assert tuples[i..][0] == tuples[i] && tuples[i..][1..] == tuples[i + 1..];
        Visit(NodeOf(tuples[i]), item.depth + 1);
      }
    }

    lemma IsLegal()
      requires Valid()
      ensures Legal(Q())
    {
    }

    /** Takes items off the frontier until it is empty. */
    method Run()
      requires at.Pinned() && Valid() && Now() == Start(Q())
      modifies this, at.store
      ensures at.Pinned() && out == Sweeps.Candidates(Q())
    {
      IsLegal();
      hide Snapshot.Pinned;
      hide Legal;
      hide Universe;
      hide Measure;
      hide Explore;
      hide Drain;
      hide Sweeps.Candidates;
      hide Contributes;
      StartsKnown(Q());
      while frontier != []
        invariant at.Pinned() && Valid() && Now().dist.Keys <= Universe(Q().scene)
        invariant Drain(Q(), Now()) == Drain(Q(), Start(Q()))
        decreases Measure(Q(), Now())
      {
        ghost var before := Now();
        ExploreShrinks(Q(), before);
        DrainStep(Q(), before);
        Step();
        IsLegal();
      }
      Drained(Q(), Now());
    }

    /** Takes one item off the frontier; past the depth limit nothing is read for it. */
    method Step()
      requires at.Pinned() && Valid() && frontier != []
      modifies this, at.store
      ensures at.Pinned() && Valid() && Now() == Explore(Q(), old(Now()))
    {
      IsLegal();
      hide Snapshot.Pinned;
      hide Fixed;
      hide Legal;
      hide Sweeps.VisitAll;
      hide Naming;
      ghost var before := Now();
      ExploreIs(Q(), before);
      hide Explore;
      var item := frontier[0];
      frontier := frontier[1..];
      assert Now() == Popped(before);
      if item.depth <= maxDepth {
        VisitAll(item);
      }
    }
  }

  // ---- In order --------------------------------------------------------------------------

  /** The position before which o belongs. */
  method Place(s: seq<Object>, o: Object) returns (i: nat)
    requires Ascending(s) && o !in s
    ensures i <= |s| && (forall j :: 0 <= j < i ==> Before(s[j], o)) && forall j :: i <= j < |s| ==> Before(o, s[j])
  {
    i := 0;
    while i < |s| && Before(s[i], o)
      invariant i <= |s| && forall j :: 0 <= j < i ==> Before(s[j], o)
    {
      i := i + 1;
    }
    forall j | i <= j < |s| ensures Before(o, s[j]) {
      BeforeOrders(s[i], o, s[i]);
      BeforeOrders(o, s[i], s[j]);
    }
  }

  /** The candidates in strictly increasing (type, id) order, which is unique. */
  method Ordered(objects: set<Object>) returns (s: seq<Object>)
    ensures Ascending(s) && |s| == |objects| && forall o :: o in s <==> o in objects
  {
    s := [];
    var rest := objects;
    while rest != {}
      invariant rest <= objects && Ascending(s) && |s| + |rest| == |objects|
      invariant forall o :: o in s <==> o in objects && o !in rest
      decreases rest
    {
      var o :| o in rest;
      var i := Place(s, o);
      s := s[..i] + [o] + s[i..];
      rest := rest - {o};
    }
  }

  lemma FirstOnlyOnce(a: seq<Object>)
    requires a != [] && Ascending(a)
    ensures a[0] !in a[1..] && a == [a[0]] + a[1..]
  {
    BeforeOrders(a[0], a[0], a[0]);
    assert forall k :: 0 <= k < |a[1..]| ==> a[1..][k] == a[k + 1];
  }

  lemma {:induction false} OrderIsUnique(a: seq<Object>, b: seq<Object>)
    requires Ascending(a) && Ascending(b) && forall o :: o in a <==> o in b
    ensures a == b
  {
    if b != [] {
      assert b[0] in b;
      assert a != [];
    }
    if a != [] {
      assert a[0] in b;
      var i :| 0 <= i < |b| && b[i] == a[0];
      assert b[0] in a;
      var j :| 0 <= j < |a| && a[j] == b[0];
      BeforeOrders(a[0], b[0], a[0]);
      assert a[0] == b[0];
      FirstOnlyOnce(a);
      FirstOnlyOnce(b);
      forall o ensures o in a[1..] <==> o in b[1..] {
        assert (o in a <==> o == a[0] || o in a[1..]) && (o in b <==> o == b[0] || o in b[1..]);
      }
      OrderIsUnique(a[1..], b[1..]);
    }
  }

  // ---- Listing ---------------------------------------------------------------------------

  datatype ListRequest = ListRequest(subject: Subject, permission: string, kind: string, revision: nat, limit: int)

  datatype ListResult = ListResult(objects: seq<Object>, candidates: nat, revision: nat)

  datatype ListFailure = Incomplete | CheckFailed(why: Failure)

  ghost function QueryOf(c: Context, req: ListRequest, ranges: Node -> Ranges): Query {
    Query(c.scene, c.maxDepth, req.kind, req.permission, ranges)
  }

  /** Exactly the objects of the asked type that a check allows, in order. */
  ghost predicate Agrees(c: Context, req: ListRequest, objects: seq<Object>) {
    Ascending(objects) && forall o :: o in objects <==> o.kind == req.kind && Allowed(c, o, req.permission)
  }

  /** The first entries of that list, up to the limit. */
  ghost predicate IsPage(c: Context, req: ListRequest, objects: seq<Object>) {
    exists all :: Agrees(c, req, all) && objects == Capped(req.limit, all)
  }

  /** The candidates in order, for one order of the schema's maps. */
  ghost predicate Ordering(c: Context, req: ListRequest, ranges: Node -> Ranges, ordered: seq<Object>) {
    && Legal(QueryOf(c, req, ranges))
    && Ascending(ordered)
    && forall o :: o in ordered <==> o in Candidates(QueryOf(c, req, ranges))
  }

  // ---- What is proposed --------------------------------------------------------------------

  /** When tuples are stored only on relations, two listings of one snapshot propose the
      same candidates in the same order, whatever order the schema's maps are passed over
      in, and whatever their caches hold. */
  lemma SameCandidates(c: Context, c': Context, req: ListRequest, ranges: Node -> Ranges, ranges': Node -> Ranges,
                       ordered: seq<Object>, ordered': seq<Object>)
    requires c'.scene == c.scene && c'.maxDepth == c.maxDepth && TuplesOnRelations(c.scene)
    requires Ordering(c, req, ranges, ordered) && Ordering(c', req, ranges', ordered')
    ensures ordered == ordered'
  {
    OrderDoesNotMatter(QueryOf(c, req, ranges), QueryOf(c', req, ranges'));
    hide Candidates;
    OrderIsUnique(ordered, ordered');
  }

  /** ... so limited pages and unlimited answers of separate uncached calls fit together:
      a page that succeeds is a prefix of an answer that succeeds. */
  lemma PagesFitTogether(c: Context, req: ListRequest, ranges: Node -> Ranges, ranges': Node -> Ranges,
                         ordered: seq<Object>, ordered': seq<Object>, page: seq<Object>, all: seq<Object>)
    requires !c.cached && TuplesOnRelations(c.scene)
    requires Ordering(c, req, ranges, ordered) && Ordering(c, req, ranges', ordered')
    requires Verified(c, map[], ordered, req.permission, req.limit, []).0 == Ok(page)
    requires Verified(c, map[], ordered', req.permission, 0, []).0 == Ok(all)
    ensures page == Capped(req.limit, all)
  {
    SameCandidates(c, c, req, ranges, ranges', ordered, ordered');
    hide Ordering;
    hide Verified;
    var kept := Kept(c, ordered, req.permission);
    assert [] + kept == kept;
    VerifiedIsCapped(c, ordered, req.permission, req.limit, []);
    VerifiedIsCapped(c, ordered, req.permission, 0, []);
  }

  /** The hypotheses under which the walk backwards misses nothing that reaches. */
  ghost predicate WellShaped(s: Scene, req: ListRequest) {
    Shaped(s) && PlainData(s) && ':' !in req.kind && '#' !in req.permission
  }

  /** On data of that shape every object whose permission reaches the subject within the
      depth limit is proposed, cached or not. */
  lemma ReachingAreCandidates(c: Context, req: ListRequest, ranges: Node -> Ranges, o: Object)
    requires WellShaped(c.scene, req) && Legal(QueryOf(c, req, ranges))
    requires o.kind == req.kind && Reach(c.scene, Node(o, req.permission), c.maxDepth)
    ensures o in Candidates(QueryOf(c, req, ranges))
  {
    var n := Node(o, req.permission);
    assert Contributes(c.scene.schema, req.kind, req.permission, req.permission);
    ReachedIsProposed(c.scene, req.kind, req.permission, n, c.maxDepth);
    hide Candidates;
    hide Proposes;
    CandidatesExactly(QueryOf(c, req, ranges), o);
  }

  /** Every object that an uncached check allows is a candidate on such data: its allow
      has a granting path no longer than the depth limit. */
  lemma AllowedAreCandidates(c: Context, req: ListRequest, ranges: Node -> Ranges, o: Object)
    requires !c.cached && WellShaped(c.scene, req) && Legal(QueryOf(c, req, ranges))
    requires o.kind == req.kind && Allowed(c, o, req.permission)
    ensures o in Candidates(QueryOf(c, req, ranges))
  {
    var _ := Grants.AllowHasShortWitness(c, map[], Node(o, req.permission));
    hide Exec;
    ReachingAreCandidates(c, req, ranges, o);
  }

  // ---- Agreement with Check ------------------------------------------------------------------

  /** When no allowed object is missing from the ordered candidates, a listing that
      succeeds returns the first entries of exactly what Check allows, and it
      succeeds whenever the unlimited listing does. */
  lemma ListingAgreesWithCheck(c: Context, req: ListRequest, ordered: seq<Object>)
    requires !c.cached && Ascending(ordered)
    requires forall o :: o in ordered ==> o.kind == req.kind
    requires forall o: Object :: o.kind == req.kind && Allowed(c, o, req.permission) ==> o in ordered
    ensures var r := Verified(c, map[], ordered, req.permission, req.limit, []).0;
            (r.Ok? ==> IsPage(c, req, r.value)) &&
            (Verified(c, map[], ordered, req.permission, 0, []).0.Ok? ==> r.Ok?)
  {
    hide Allowed;
    hide Verified;
    var all := Kept(c, ordered, req.permission);
    assert [] + all == all;
    KeptAreTheAllowed(c, ordered, req.permission);
    assert Agrees(c, req, all);
    VerifiedIsCapped(c, ordered, req.permission, req.limit, []);
    if Verified(c, map[], ordered, req.permission, 0, []).0.Ok? {
      LimitedSucceeds(c, ordered, req.permission, req.limit, []);
    }
  }

  /** When tuples are stored only on relations, an unlimited uncached listing that
      succeeds is exactly what Check allows if and only if every allowed object has a
      contributing relation that the walk finds. */
  lemma ListingAgreesExactlyWhenFound(c: Context, req: ListRequest, ranges: Node -> Ranges, ordered: seq<Object>)
    requires !c.cached && TuplesOnRelations(c.scene) && Ordering(c, req, ranges, ordered)
    requires Verified(c, map[], ordered, req.permission, 0, []).0.Ok?
    ensures Agrees(c, req, Verified(c, map[], ordered, req.permission, 0, []).0.value) <==>
            forall o: Object :: o.kind == req.kind && Allowed(c, o, req.permission) ==>
              Proposes(c.scene, c.maxDepth, req.kind, req.permission, o)
  {
    var q, all := QueryOf(c, req, ranges), Kept(c, ordered, req.permission);
    assert [] + all == all;
    hide Allowed;
    hide Verified;
    hide Proposes;
    hide Candidates;
    VerifiedIsCapped(c, ordered, req.permission, 0, []);
    KeptAreTheAllowed(c, ordered, req.permission);
    forall o ensures o in ordered <==> Proposes(c.scene, c.maxDepth, req.kind, req.permission, o) {
      CandidatesExactly(q, o);
    }
    forall o | o in ordered ensures o.kind == req.kind { ProposedKind(c.scene, c.maxDepth, req.kind, req.permission, o); }
    hide Ordering;
  }

  lemma ProposedKind(s: Scene, maxDepth: nat, kind: string, permission: string, o: Object)
    requires Proposes(s, maxDepth, kind, permission, o)
    ensures o.kind == kind && s.view != []
  {
    hide Contributes;
    hide Named;
    hide Heir;
    var r :| Proposing(s, maxDepth, kind, permission, o, r);
    var n := Node(o, r);
    var m := n;
    if !Named(s, n, maxDepth) {
      m :| Named(s, m, maxDepth) && Heir(s, m, n);
    }
    var t := NamedIsStored(s, m, maxDepth);
  }

  // ---- Within the limit ----------------------------------------------------------------------

  /** What the depth limit means for a listing: a candidate has a contributing relation
      found within it, and where tuples are stored only on relations every such object is
      a candidate; candidates with no more pairs below them than the limit cannot make it
      fail on depth, nor fail at all if those are defined; and what an uncached listing
      returns has a granting path within the limit. */
  ghost predicate Bounded(s: Scene, limit: nat, req: ListRequest, uncached: bool, ordered: seq<Object>,
                          r: Result<ListResult, ListFailure>)
  {
    && (forall o :: o in ordered ==> Proposes(s, limit, req.kind, req.permission, o))
    && (TuplesOnRelations(s) ==> forall o :: Proposes(s, limit, req.kind, req.permission, o) ==> o in ordered)
    && ((forall o :: o in ordered ==> Work.Enclosed(s, Node(o, req.permission), limit)) ==>
          r != Err(CheckFailed(DepthExceeded)))
    && ((forall o :: o in ordered ==> Work.Manageable(s, Node(o, req.permission), limit)) ==> r.Ok?)
    && (uncached && r.Ok? ==> forall o :: o in r.value.objects ==> Depths.ShortPath(s, Node(o, req.permission), limit))
  }

  lemma ListingIsBounded(c: Context, maxDepth: int, cache: map<CacheKey, bool>, req: ListRequest, ranges: Node -> Ranges,
                         ordered: seq<Object>, r: Result<ListResult, ListFailure>)
    requires c.maxDepth == EffectiveDepth(maxDepth) && (!c.cached ==> cache == map[]) && Ordering(c, req, ranges, ordered)
    requires var verified := Verified(c, cache, ordered, req.permission, req.limit, []).0;
             if verified.Ok? then r.Ok? && r.value.objects == verified.value else r == Err(CheckFailed(verified.error))
    ensures Bounded(c.scene, if maxDepth > 0 then maxDepth else 32, req, !c.cached, ordered, r)
  {
    var q := QueryOf(c, req, ranges);
    ManageableSucceeds(c, cache, ordered, req.permission, req.limit, []);
    if !c.cached && r.Ok? {
      ListedHaveShortPaths(c, ordered, req.permission, req.limit);
    }
    hide Candidates;
    hide Proposes;
    hide Verified;
    hide Work.Enclosed;
    hide Work.Manageable;
    hide Depths.ShortPath;
    hide TuplesOnRelations;
    forall o | o in ordered ensures Proposes(c.scene, c.maxDepth, req.kind, req.permission, o) { CandidatesAreFound(q, o); }
    if TuplesOnRelations(c.scene) {
      forall o | Proposes(c.scene, c.maxDepth, req.kind, req.permission, o) ensures o in ordered { CandidatesExactly(q, o); }
    }
  }

  lemma ListedHaveShortPaths(c: Context, ordered: seq<Object>, permission: string, limit: int)
    requires !c.cached && Ascending(ordered) && Verified(c, map[], ordered, permission, limit, []).0.Ok?
    ensures forall o :: o in Verified(c, map[], ordered, permission, limit, []).0.value ==>
              Depths.ShortPath(c.scene, Node(o, permission), c.maxDepth)
  {
    var kept := Kept(c, ordered, permission);
    assert [] + kept == kept;
    VerifiedIsCapped(c, ordered, permission, limit, []);
    KeptAreTheAllowed(c, ordered, permission);
    hide Verified;
    hide Kept;
    hide Depths.ShortPath;
    forall o | o in Capped(limit, kept) ensures Depths.ShortPath(c.scene, Node(o, permission), c.maxDepth) {
      assert o in kept;
      ShortlyAllowed(c, o, permission);
    }
  }

  lemma ShortlyAllowed(c: Context, o: Object, permission: string)
    requires !c.cached && Allowed(c, o, permission)
    ensures Depths.ShortPath(c.scene, Node(o, permission), c.maxDepth)
  {
    var path := Grants.AllowHasShortWitness(c, map[], Node(o, permission));
  }

  // ---- The whole call ---------------------------------------------------------------------------

  /** What a listing returns is fixed by the snapshot, the cache it starts with and the
      order of the schema's maps, however many writes land meanwhile. */
  method ListObjects(engine: Engine, req: ListRequest, ranges: Node -> Ranges)
    returns (r: Result<ListResult, ListFailure>, ghost ordered: seq<Object>)
    requires engine.store.Valid() && forall n :: Ranging(engine.schema, ranges(n))
    modifies engine.Shared()
    ensures engine.store.Valid() && Grown(old(engine.store.Contents()), engine.store)
    ensures r == Err(Incomplete) <==> req.kind == "" || req.permission == ""
    ensures r == Err(Incomplete) ==> engine.Cached() == old(engine.Cached())
    ensures var revision := if req.revision == 0 then old(engine.store.head) else req.revision;
            var c := old(engine.ContextAt(req.subject, revision));
            var (objects, cache) := Verified(c, old(engine.Cached()), ordered, req.permission, req.limit, []);
            req.kind != "" && req.permission != "" ==>
              Ordering(c, req, ranges, ordered) && engine.Cached() == cache &&
              (r == match objects
                    case Ok(objects) => Ok(ListResult(objects, |ordered|, revision))
                    case Err(e) => Err(CheckFailed(e))) &&
              (!c.cached && WellShaped(c.scene, req) ==>
                 (forall o: Object :: o.kind == req.kind && Allowed(c, o, req.permission) ==> o in ordered) &&
                 (r.Ok? ==> IsPage(c, req, r.value.objects)))
    ensures var revision := if req.revision == 0 then old(engine.store.head) else req.revision;
            var s := old(engine.ContextAt(req.subject, revision)).scene;
            req.kind != "" && req.permission != "" ==>
              Bounded(s, if engine.maxDepth > 0 then engine.maxDepth else 32, req, engine.cache == null, ordered, r)
    ensures var revision := if req.revision == 0 then old(engine.store.head) else req.revision;
            var s := old(engine.ContextAt(req.subject, revision)).scene;
            engine.cache != null && old(engine.CacheIsRight()) && PlainSubject(req.subject) &&
            revision <= old(engine.store.head) ==>
              engine.CacheIsRight() &&
              (r.Ok? ==> exists k: nat :: RightPage(s, req.permission, req.limit, ordered, k, r.value.objects))
  {
    hide Coherent;
    hide Verified;
    hide Ordering;
    hide View;
    hide WellShaped;
    hide Bounded;
    hide RightPage;
    hide IsPage;
    hide Allowed;
    hide Memory.Valid;
    hide PlainSubject;
    ordered := [];
    if req.kind == "" || req.permission == "" {
      return Err(Incomplete), [];
    }
    var revision := req.revision;
    if revision == 0 {
      revision := engine.store.Head();
    }
    ghost var c, before := engine.ContextAt(req.subject, revision), engine.Cached();
    ghost var sys := System(engine.store.Contents(), before);
    r, ordered := ListAt(engine, req, ranges, revision);
    ListedAsChecked(c, req, ranges, ordered);
    ListingIsBounded(c, engine.maxDepth, before, req, ranges, ordered, r);
    if engine.cache != null && Coherent(c.scene.schema, sys) && Settled(c, sys.log) {
      ListedRightly(c, sys, engine.store.Contents(), req, ranges, ordered);
    }
  }

  /** At a revision already chosen. */
  method ListAt(engine: Engine, req: ListRequest, ranges: Node -> Ranges, revision: nat)
    returns (r: Result<ListResult, ListFailure>, ghost ordered: seq<Object>)
    requires engine.store.Valid() && forall n :: Ranging(engine.schema, ranges(n))
    requires revision == 0 ==> engine.store.head == 0
    modifies engine.Shared()
    ensures engine.store.Valid() && Grown(old(engine.store.Contents()), engine.store)
    ensures var c := old(engine.ContextAt(req.subject, revision));
            var (objects, cache) := Verified(c, old(engine.Cached()), ordered, req.permission, req.limit, []);
            Ordering(c, req, ranges, ordered) && engine.Cached() == cache &&
            r == match objects
                 case Ok(objects) => Ok(ListResult(objects, |ordered|, revision))
                 case Err(e) => Err(CheckFailed(e))
  {
    ghost var c := engine.ContextAt(req.subject, revision);
    var at := new Snapshot(engine.store, revision);
    var candidates := FindCandidates(engine, at, req, ranges, c);
    var list := Ordered(candidates);
    ordered := list;
    if revision == 0 {
      NothingAtZero(engine.store.rows, engine.store.head);
    }
    OnlyOfTheKind(QueryOf(c, req, ranges));
    if list != [] {
      assert list[0] in list;
      assert c.scene.view != [];
    }
    r := Verify(engine, at, req, list, c);
  }

  lemma ListedAsChecked(c: Context, req: ListRequest, ranges: Node -> Ranges, ordered: seq<Object>)
    requires Ordering(c, req, ranges, ordered)
    ensures !c.cached && WellShaped(c.scene, req) ==>
              (forall o: Object :: o.kind == req.kind && Allowed(c, o, req.permission) ==> o in ordered) &&
              var r := Verified(c, map[], ordered, req.permission, req.limit, []).0;
              (r.Ok? ==> IsPage(c, req, r.value))
  {
    OnlyOfTheKind(QueryOf(c, req, ranges));
    hide Candidates;
    hide Allowed;
    hide Verified;
    if !c.cached && WellShaped(c.scene, req) {
      forall o: Object | o.kind == req.kind && Allowed(c, o, req.permission) ensures o in ordered {
        AllowedAreCandidates(c, req, ranges, o);
      }
      ListingAgreesWithCheck(c, req, ordered);
    }
  }

  lemma ListedRightly(c: Context, sys: System, log: Log, req: ListRequest, ranges: Node -> Ranges, ordered: seq<Object>)
    requires Coherent(c.scene.schema, sys) && Settled(c, sys.log) && Ordering(c, req, ranges, ordered)
    requires log.head >= sys.log.head
    requires forall rev: nat :: rev <= sys.log.head ==> View(log.rows, rev) == View(sys.log.rows, rev)
    ensures var (r, cache) := Verified(c, sys.cache, ordered, req.permission, req.limit, []);
            Coherent(c.scene.schema, System(log, cache)) &&
            (r.Ok? ==> exists k: nat :: RightPage(c.scene, req.permission, req.limit, ordered, k, r.value))
  {
    var k := VerifiedIsRight(c, sys, ordered, req.permission, req.limit);
    hide Coherent;
    hide RightPage;
    hide Verified;
    hide View;
    GrowthKeepsCoherence(c.scene.schema, sys.(cache := Verified(c, sys.cache, ordered, req.permission, req.limit, []).1), log);
  }

  lemma OnlyOfTheKind(q: Query)
    requires Legal(q)
    ensures forall o :: o in Candidates(q) ==> o.kind == q.kind && q.scene.view != []
  {
    hide Candidates;
    hide Proposes;
    forall o | o in Candidates(q) ensures o.kind == q.kind && q.scene.view != [] {
      CandidatesAreFound(q, o);
      ProposedKind(q.scene, q.maxDepth, q.kind, q.permission, o);
    }
  }

  method FindCandidates(engine: Engine, at: Snapshot, req: ListRequest, ranges: Node -> Ranges, ghost c: Context)
    returns (out: set<Object>)
    requires at.Pinned() && at.store == engine.store && forall n :: Ranging(engine.schema, ranges(n))
    requires c.scene == Scene(engine.schema, at.view, req.subject) && c.maxDepth == EffectiveDepth(engine.maxDepth)
    modifies engine.store
    ensures at.Pinned() && Legal(QueryOf(c, req, ranges)) && out == Candidates(QueryOf(c, req, ranges))
  {
    hide Snapshot.Pinned;
    var names := Contributors(engine.schema, req.kind, req.permission);
    var contributing := set r | r in names;
    var walk := new ReverseWalk(at, engine.schema, req.subject, req.kind, EffectiveDepth(engine.maxDepth),
                                contributing, req.permission, ranges);
    walk.Run();
    out := walk.out;
  }

  /** No other check records anything while a listing runs. */
  const NOBODY: Concurrency.Others := (i: nat) => map[]

  /** Checks each candidate at the same revision, keeping those allowed. */
  method Verify(engine: Engine, at: Snapshot, req: ListRequest, ordered: seq<Object>, ghost c: Context)
    returns (r: Result<ListResult, ListFailure>)
    requires at.Pinned() && at.store == engine.store && (ordered == [] || at.revision != 0)
    requires c == Context(Scene(engine.schema, at.view, req.subject), at.revision, EffectiveDepth(engine.maxDepth),
                          engine.cache != null)
    modifies engine.Shared()
    ensures at.Pinned()
    ensures var (objects, cache) := Verified(c, old(engine.Cached()), ordered, req.permission, req.limit, []);
            engine.Cached() == cache &&
            r == match objects
                 case Ok(objects) => Ok(ListResult(objects, |ordered|, at.revision))
                 case Err(e) => Err(CheckFailed(e))
  {
    hide Work.Enclosed;
    hide Work.Manageable;
    hide Depths.ShortPath;
    hide Coherent;
    hide Right;
    hide PlainSubject;
    hide Memory.Valid;
    assert ordered[0..] == ordered;
    var objects: seq<Object> := [];
    for i := 0 to |ordered|
      invariant at.Pinned()
      invariant Verified(c, old(engine.Cached()), ordered, req.permission, req.limit, []) ==
                Verified(c, engine.Cached(), ordered[i..], req.permission, req.limit, objects)
    {
      assert ordered[i..][0] == ordered[i] && ordered[i..][1..] == ordered[i + 1..];
      assert engine.ContextAt(req.subject, at.revision) == c;
      if engine.cache == null {
        UncachedRun(c, engine.Cached(), Node(ordered[i], req.permission));
      }
      var res := engine.Check(Request(ordered[i], req.permission, req.subject, at.revision, MinimizeLatency, 0), NOBODY);
      if res.Err? {
        return Err(CheckFailed(res.error));
      }
      if res.value.allowed {
        objects := objects + [ordered[i]];
        if req.limit > 0 && |objects| >= req.limit {
          return Ok(ListResult(objects, |ordered|, at.revision));
        }
      }
    }
    r := Ok(ListResult(objects, |ordered|, at.revision));
  }
}
