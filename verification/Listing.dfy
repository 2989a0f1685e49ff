/** Listing objects: why the walk backwards proposes every object it should on data of
    the right shape, and what verifying the candidates in order returns. */
module Listing {
  import opened Names
  import opened Schemas
  import opened Storage
  import opened Semantics
  import opened Checks
  import opened Coherence
  import opened Reverses
  import opened Sweeps
  import opened Finding
  import Expands
  import Work

  // ---- The shape of the data ---------------------------------------------------------

  /** Tuples are stored on relations, never on permissions; a stored userset names a
      relation; and what a granting walk finds beyond its tupleset is a concrete
      object on which it asks a relation. */
  ghost predicate Shaped(s: Scene) {
    && TuplesOnRelations(s)
    && (forall t :: t in s.view && t.subject.IsUserset() ==>
          !IsPermission(s.schema, Node(t.subject.obj, t.subject.relation)))
    && (forall n, ts, cu, t ::
          Rule(s.schema, n).Ok? && Mentions(Rule(s.schema, n).value, TupleToUserset(ts, cu), false) &&
          t in s.view && NodeOf(t) == Node(n.obj, ts) ==>
            !t.subject.IsUserset() && !IsPermission(s.schema, Node(t.subject.obj, cu)))
  }

  /** Names the index keys tell apart. */
  ghost predicate PlainData(s: Scene) {
    Expands.PlainNames(s.schema, s.view) && PlainTuples(s.view)
  }

  // ---- What reaches is found --------------------------------------------------------------

  lemma {:induction false} MentionsWeaken(rw: Rewrite, leaf: Rewrite)
    requires Mentions(rw, leaf, false)
    ensures Mentions(rw, leaf, true)
  {
    match rw
    case Union(cs) => MentionsAnyWeaken(cs, leaf);
    case Intersection(cs) => MentionsAnyWeaken(cs, leaf);
    case Exclusion(b, _) => MentionsWeaken(b, leaf);
    case _ =>
  }

  lemma {:induction false} MentionsAnyWeaken(rws: seq<Rewrite>, leaf: Rewrite)
    requires MentionsAny(rws, leaf, false)
    ensures MentionsAny(rws, leaf, true)
  {
    if Mentions(rws[0], leaf, false) {
      MentionsWeaken(rws[0], leaf);
    } else {
      MentionsAnyWeaken(rws[1..], leaf);
    }
  }

  /** The tuple behind an edge read from the store. */
  lemma TupleBehind(s: Scene, n: Node, leaf: Rewrite, e: Edge) returns (t: Tuple)
    requires PlainData(s) && PlainNode(n) && PlainLeaf(leaf) && (leaf.This? || leaf.TupleToUserset?)
    requires LeafEdge(s.view, n, leaf, e)
    ensures t in s.view && NodeOf(t) == Node(n.obj, if leaf.This? then n.relation else leaf.tupleset)
    ensures e == if leaf.This? then DirectEdge(t) else To(Node(t.subject.obj, leaf.computedUserset))
  {
    var relation := if leaf.This? then n.relation else leaf.tupleset;
    var ts := Read(s.view, n.obj, relation);
    var edges := if leaf.This? then DirectEdges(s.view, n) else WalkEdges(s.view, n, leaf.tupleset, leaf.computedUserset);
    var i :| 0 <= i < |edges| && edges[i] == e;
    t := ts[i];
    ReadIsExact(s.view, n.obj, relation, t);
  }

  lemma FoundBySubject(s: Scene, t: Tuple, relation: string)
    requires t in s.view && (relation == "" || t.relation == relation)
    ensures t in ReadBySubject(s.view, t.subject, relation)
  {
    BucketOf(s.view, Reverse, t.subject.String(), t);
    OfRelationOf(Bucket(s.view, Reverse, t.subject.String()), relation, t);
  }

  /** A relation that reaches the subject in k granting edges is named at most k levels
      further out than what names the subject. */
  lemma {:induction false} ReachedIsNamed(s: Scene, n: Node, k: nat)
    requires Shaped(s) && PlainData(s) && PlainNode(n) && !IsPermission(s.schema, n) && Reach(s, n, k)
    ensures Named(s, n, k)
    decreases k
  {
    hide PlainNode;
    var e :| Occurs(s.view, n, Apply(Rule(s.schema, n).value), e, false) && EdgeReach(s, e, k);
    assert Rule(s.schema, n).value == This && LeafEdge(s.view, n, This, e);
    var t := TupleBehind(s, n, This, e);
    FoundBySubject(s, t, "");
    if t.subject.IsUserset() {
      var m := Node(t.subject.obj, t.subject.relation);
      assert e == To(m) && t.subject == m.AsUserset() && !IsPermission(s.schema, m);
      assert PlainNode(m) by { PlainSubjectNode(s, t); }
      ReachedIsNamed(s, m, k - 1);
      assert Found(s, m, k - 1);
    }
    hide ReadBySubject;
    assert NamedBy(s, t, k);
  }

  lemma PlainSubjectNode(s: Scene, t: Tuple)
    requires PlainData(s) && t in s.view
    ensures PlainNode(Node(t.subject.obj, t.subject.relation))
    ensures forall r :: '#' !in r ==> PlainNode(Node(t.subject.obj, r))
  {
  }

  lemma ContributesFurther(s: Schema, kind: string, permission: string, r: string, r': string)
    requires Contributes(s, kind, permission, r) && Links(s.definitions[kind], r, r')
    ensures Contributes(s, kind, permission, r')
  {
  }

  /** An object of which a contributing relation reaches the subject in k granting edges
      is proposed within k levels. */
  lemma {:induction false} ReachedIsProposed(s: Scene, kind: string, permission: string, n: Node, k: nat)
    requires Shaped(s) && PlainData(s) && PlainNode(n) && Reach(s, n, k)
    requires n.obj.kind == kind && Contributes(s.schema, kind, permission, n.relation)
    ensures Proposes(s, k, kind, permission, n.obj)
    decreases k
  {
    hide Contributes;
    if !IsPermission(s.schema, n) {
      ReachedIsNamed(s, n, k);
      assert Proposing(s, k, kind, permission, n.obj, n.relation);
    } else {
      var rw := Rule(s.schema, n).value;
      var e :| Occurs(s.view, n, Apply(rw), e, false) && EdgeReach(s, e, k);
      var leaf := OccursAtLeaf(s.view, n, rw, e, false);
      MentionsWeaken(rw, leaf);
      assert PlainLeaf(leaf);
      if leaf.This? {
        var t := TupleBehind(s, n, This, e);
        assert false;
      } else if leaf.ComputedUserset? {
        assert Links(s.schema.definitions[kind], n.relation, leaf.relation);
        ContributesFurther(s.schema, kind, permission, n.relation, leaf.relation);
        ReachedIsProposed(s, kind, permission, e.node, k - 1);
        ProposesMore(s, k - 1, k, kind, permission, n.obj);
      } else {
        ReachedThroughWalk(s, n, leaf, e, k);
        assert Proposing(s, k, kind, permission, n.obj, n.relation);
      }
    }
  }

  lemma ProposesMore(s: Scene, k: nat, k': nat, kind: string, permission: string, o: Object)
    requires Proposes(s, k, kind, permission, o) && k <= k'
    ensures Proposes(s, k', kind, permission, o)
  {
    hide Found;
    var r :| Proposing(s, k, kind, permission, o, r);
    FoundGrows(s, Node(o, r), k, k');
    assert Proposing(s, k', kind, permission, o, r);
  }

  /** A permission reached through a walk inherits from the relation beyond it. */
  lemma ReachedThroughWalk(s: Scene, n: Node, leaf: Rewrite, e: Edge, k: nat)
    requires Shaped(s) && PlainData(s) && PlainNode(n) && IsPermission(s.schema, n) && leaf.TupleToUserset?
    requires Mentions(Rule(s.schema, n).value, leaf, false) && PlainLeaf(leaf)
    requires LeafEdge(s.view, n, leaf, e) && EdgeReach(s, e, k)
    ensures Found(s, n, k)
  {
    var t := TupleBehind(s, n, leaf, e);
    var far, w := Node(t.subject.obj, leaf.computedUserset), Walk(n.obj.kind, n.relation, leaf.tupleset, leaf.computedUserset);
    assert !t.subject.IsUserset() && !IsPermission(s.schema, far);
    PlainSubjectNode(s, t);
    ReachedIsNamed(s, far, k - 1);
    NamedGrows(s, far, k - 1, k);
    assert HasWalk(s.schema.definitions[n.obj.kind], n.relation, w);
    assert IsWalkInto(s.schema, far.relation, w) && t.subject == Subject(far.obj, "");
    FoundBySubject(s, t, leaf.tupleset);
    assert Inherits(s, far, w, t);
  }

  // ---- Verifying candidates in order ---------------------------------------------------------

  /** Byte order on names, type first. */
  predicate Less(a: string, b: string) {
    b != [] && (a == [] || a[0] < b[0] || (a[0] == b[0] && Less(a[1..], b[1..])))
  }

  predicate Before(a: Object, b: Object) {
    if a.kind != b.kind then Less(a.kind, b.kind) else Less(a.id, b.id)
  }

  ghost predicate Ascending(s: seq<Object>) {
    forall i, j :: 0 <= i < j < |s| ==> Before(s[i], s[j])
  }

  lemma {:induction false} LessOrders(a: string, b: string, c: string)
    ensures !Less(a, a)
    ensures a == b || Less(a, b) || Less(b, a)
    ensures Less(a, b) && Less(b, c) ==> Less(a, c)
  {
    if a != [] && b != [] {
      if c != [] {
        LessOrders(a[1..], b[1..], c[1..]);
      } else {
        LessOrders(a[1..], b[1..], []);
      }
      assert a == [a[0]] + a[1..] && b == [b[0]] + b[1..];
    } else if a != [] {
      LessOrders(a[1..], [], []);
    }
  }

  lemma BeforeOrders(a: Object, b: Object, c: Object)
    ensures !Before(a, a)
    ensures a == b || Before(a, b) || Before(b, a)
    ensures Before(a, b) && Before(b, c) ==> Before(a, c)
  {
    LessOrders(a.kind, b.kind, c.kind);
    LessOrders(a.id, b.id, c.id);
    LessOrders(b.kind, a.kind, b.kind);
  }

  /** Where two strings first differ, if they do within the shorter. */
  ghost predicate DifferFirstAt(a: string, b: string, k: nat) {
    k <= |a| && k <= |b| && a[..k] == b[..k] && k < |b| && (k == |a| || a[k] < b[k])
  }

  /** The order is decided by the first byte in which the names differ; a proper prefix
      comes first. */
  lemma {:induction false} LessIsDecidedFirst(a: string, b: string)
    ensures Less(a, b) <==> exists k :: DifferFirstAt(a, b, k)
  {
    forall k: nat | 0 < k <= |a| && k <= |b| && a[..k] == b[..k] ensures a[0] == b[0] {
      assert a[0] == a[..k][0] == b[..k][0];
    }
    if b == [] || a == [] || a[0] != b[0] {
      assert a[..0] == b[..0];
      if b != [] && (a == [] || a[0] < b[0]) { assert DifferFirstAt(a, b, 0); }
    } else {
      LessIsDecidedFirst(a[1..], b[1..]);
      forall k: nat | DifferFirstAt(a[1..], b[1..], k) ensures DifferFirstAt(a, b, k + 1) {
        assert a[..k + 1] == [a[0]] + a[1..][..k] && b[..k + 1] == [b[0]] + b[1..][..k];
      }
      forall k: nat | DifferFirstAt(a, b, k) ensures k > 0 && DifferFirstAt(a[1..], b[1..], k - 1) {
        assert k > 0;
        assert a[1..][..k - 1] == a[..k][1..] && b[1..][..k - 1] == b[..k][1..];
      }
    }
  }

  /** Checking the candidates one after the other, keeping the allowed, until the
      limit (when there is one) or an error. The cache, if any, is threaded through. */
  function Verified(c: Context, cache: map<CacheKey, bool>, objs: seq<Object>, permission: string, limit: int,
                    got: seq<Object>): (Result<seq<Object>, Failure>, map<CacheKey, bool>)
    decreases |objs|
  {
    if objs == [] then (Ok(got), cache) else
    var (o, st) := Run(c, cache, Node(objs[0], permission));
    if o.Failed? then (Err(o.why), st.cache) else
    var got' := if o.allowed then got + [objs[0]] else got;
    if o.allowed && limit > 0 && |got'| >= limit then (Ok(got'), st.cache)
    else Verified(c, st.cache, objs[1..], permission, limit, got')
  }

  lemma UncachedRun(c: Context, cache: map<CacheKey, bool>, root: Node)
    requires !c.cached
    ensures Run(c, cache, root).1.cache == cache
  {
    ExecExtends(c, Fresh(cache), root, Ask(root), 0);
  }

  ghost predicate Allowed(c: Context, o: Object, permission: string) {
    Run(c, map[], Node(o, permission)).0 == Answer(true)
  }

  /** The allowed among the objects, in the same order. */
  ghost function Kept(c: Context, objs: seq<Object>, permission: string): seq<Object> {
    if objs == [] then []
    else (if Allowed(c, objs[0], permission) then [objs[0]] else []) + Kept(c, objs[1..], permission)
  }

  lemma {:induction false} KeptAreTheAllowed(c: Context, objs: seq<Object>, permission: string)
    requires Ascending(objs)
    ensures var kept := Kept(c, objs, permission);
            Ascending(kept) && forall o :: o in kept <==> o in objs && Allowed(c, o, permission)
  {
    if objs != [] {
      hide Allowed;
      var rest := objs[1..];
      assert forall i :: 0 <= i < |rest| ==> rest[i] == objs[i + 1];
      KeptAreTheAllowed(c, rest, permission);
      FirstIsBefore(objs);
      var first := if Allowed(c, objs[0], permission) then [objs[0]] else [];
      var later := Kept(c, rest, permission);
      assert Kept(c, objs, permission) == first + later;
      assert Ascending(first + later);
      hide Kept;
      hide Ascending;
      assert forall o :: o in objs <==> o == objs[0] || o in rest;
    }
  }

  lemma FirstIsBefore(objs: seq<Object>)
    requires objs != [] && Ascending(objs)
    ensures objs[0] !in objs[1..] && forall o :: o in objs[1..] ==> o != objs[0] && Before(objs[0], o)
  {
    BeforeOrders(objs[0], objs[0], objs[0]);
    assert forall i :: 0 <= i < |objs[1..]| ==> objs[1..][i] == objs[i + 1];
  }

  /** Without a limit everything; otherwise the first `limit`. */
  function Capped(limit: int, all: seq<Object>): seq<Object> { if 0 < limit < |all| then all[..limit] else all }

  /** Whatever the limit, a listing that succeeds returns the first entries of the
      allowed candidates. */
  lemma {:induction false} VerifiedIsCapped(c: Context, objs: seq<Object>, permission: string, limit: int, got: seq<Object>)
    requires !c.cached && (limit <= 0 || |got| < limit)
    ensures var r := Verified(c, map[], objs, permission, limit, got).0;
            r.Ok? ==> r.value == Capped(limit, got + Kept(c, objs, permission))
  {
    if objs == [] {
      assert got + Kept(c, objs, permission) == got;
    } else {
      UncachedRun(c, map[], Node(objs[0], permission));
      hide Exec;
      var got' := if Allowed(c, objs[0], permission) then got + [objs[0]] else got;
      var rest := Kept(c, objs[1..], permission);
      assert got + Kept(c, objs, permission) == got' + rest;
      if limit > 0 && |got'| >= limit {
        assert (got' + rest)[..limit] == got';
      } else {
        VerifiedIsCapped(c, objs[1..], permission, limit, got');
      }
    }
  }

  /** A limit never makes a listing fail that would have succeeded without one. */
  lemma {:induction false} LimitedSucceeds(c: Context, objs: seq<Object>, permission: string, limit: int, got: seq<Object>)
    requires !c.cached && Verified(c, map[], objs, permission, 0, got).0.Ok?
    ensures Verified(c, map[], objs, permission, limit, got).0.Ok?
  {
    if objs != [] {
      UncachedRun(c, map[], Node(objs[0], permission));
      hide Exec;
      LimitedSucceeds(c, objs[1..], permission, limit, if Allowed(c, objs[0], permission) then got + [objs[0]] else got);
    }
  }

  /** Without a limit an uncached listing succeeds if and only if every candidate's check
      does, and it fails with the first failure. */
  lemma {:induction false} UnlimitedSucceedsExactly(c: Context, objs: seq<Object>, permission: string, got: seq<Object>)
    requires !c.cached
    ensures var r := Verified(c, map[], objs, permission, 0, got).0;
            (r.Ok? <==> forall i :: 0 <= i < |objs| ==> Answers(c, objs[i], permission)) &&
            (r.Err? ==> FailsFirst(c, objs, permission, r.error))
  {
    if objs != [] {
      UncachedRun(c, map[], Node(objs[0], permission));
      hide Run;
      var rest := objs[1..];
      assert forall i :: 0 < i < |objs| ==> objs[i] == rest[i - 1];
      assert forall i :: 0 <= i < |rest| ==> rest[i] == objs[i + 1];
      var o := Run(c, map[], Node(objs[0], permission)).0;
      if o.Answer? {
        var got' := if o.allowed then got + [objs[0]] else got;
        UnlimitedSucceedsExactly(c, rest, permission, got');
        var r := Verified(c, map[], rest, permission, 0, got').0;
        if r.Err? { FailsLater(c, objs, permission, r.error); }
      } else {
        assert FailsAt(c, objs, permission, o.why, 0);
      }
      hide FailsFirst;
    }
  }

  /** Whatever the cache holds, no listing is too deep when at most `maxDepth` pairs lie
      below each candidate, and when those are all defined it succeeds. */
  lemma {:induction false} ManageableSucceeds(c: Context, cache: map<CacheKey, bool>, objs: seq<Object>,
                                              permission: string, limit: int, got: seq<Object>)
    ensures var r := Verified(c, cache, objs, permission, limit, got).0;
            ((forall o :: o in objs ==> Work.Enclosed(c.scene, Node(o, permission), c.maxDepth)) ==>
               r != Err(DepthExceeded)) &&
            ((forall o :: o in objs ==> Work.Manageable(c.scene, Node(o, permission), c.maxDepth)) ==> r.Ok?)
    decreases |objs|
  {
    hide Work.Enclosed;
    hide Work.Manageable;
    if objs != [] {
      Work.ManageableAnswers(c, cache, Node(objs[0], permission));
      var (o, st) := Run(c, cache, Node(objs[0], permission));
      hide Run;
      assert objs[0] in objs && forall x :: x in objs[1..] ==> x in objs;
      if o.Answer? {
        ManageableSucceeds(c, st.cache, objs[1..], permission, limit, if o.allowed then got + [objs[0]] else got);
      }
    }
  }

  ghost predicate FailsAt(c: Context, objs: seq<Object>, permission: string, e: Failure, i: nat) {
    i < |objs| && Run(c, map[], Node(objs[i], permission)).0 == Failed(e) &&
    forall j :: 0 <= j < i ==> Answers(c, objs[j], permission)
  }

  ghost predicate FailsFirst(c: Context, objs: seq<Object>, permission: string, e: Failure) {
    exists i: nat :: FailsAt(c, objs, permission, e, i)
  }

  lemma FailsLater(c: Context, objs: seq<Object>, permission: string, e: Failure)
    requires objs != [] && Answers(c, objs[0], permission) && FailsFirst(c, objs[1..], permission, e)
    ensures FailsFirst(c, objs, permission, e)
  {
    hide Run;
    hide Answers;
    var i: nat :| FailsAt(c, objs[1..], permission, e, i);
    forall j | 0 <= j < i + 1 ensures Answers(c, objs[j], permission) {
      if j > 0 { assert objs[1..][j - 1] == objs[j]; }
    }
    assert FailsAt(c, objs, permission, e, i + 1);
  }

  ghost predicate Answers(c: Context, o: Object, permission: string) { Run(c, map[], Node(o, permission)).0.Answer? }

  // ---- With any cache and any limit ----------------------------------------------------------

  /** The objects said yes to, in order. */
  ghost function Chosen(objs: seq<Object>, said: seq<bool>): seq<Object>
    requires |objs| == |said|
  {
    if objs == [] then [] else (if said[0] then [objs[0]] else []) + Chosen(objs[1..], said[1..])
  }

  lemma {:induction false} ChosenAreSaid(objs: seq<Object>, said: seq<bool>)
    requires |objs| == |said| && Ascending(objs)
    ensures Ascending(Chosen(objs, said))
    ensures forall o :: o in Chosen(objs, said) ==> o in objs
    ensures forall i :: 0 <= i < |objs| ==> (objs[i] in Chosen(objs, said) <==> said[i])
  {
    if objs != [] {
      var rest := objs[1..];
      assert forall i :: 0 <= i < |rest| ==> rest[i] == objs[i + 1];
      ChosenAreSaid(rest, said[1..]);
      FirstIsBefore(objs);
      var first := if said[0] then [objs[0]] else [];
      var later := Chosen(rest, said[1..]);
      assert Chosen(objs, said) == first + later;
      hide Chosen;
      assert Ascending(first + later);
      hide Ascending;
      forall i | 0 <= i < |objs| ensures objs[i] in first + later <==> said[i] {
        if i > 0 { assert objs[i] == rest[i - 1] && said[i] == said[1..][i - 1]; }
      }
    }
  }

  /** `page` is `got` and the chosen among the candidates passed; with a limit the pass
      stops at the entry that fills the page, and only there. */
  ghost predicate FillsPage(objs: seq<Object>, limit: int, got: seq<Object>, said: seq<bool>, page: seq<Object>) {
    |said| <= |objs| && page == got + Chosen(objs[..|said|], said) &&
    (limit > 0 ==> |page| <= limit) &&
    (|said| < |objs| ==> |page| == limit > 0) &&
    (|page| == limit > 0 ==> said != [] && said[|said| - 1])
  }

  ghost predicate SaidRightly(s: Scene, objs: seq<Object>, permission: string, said: seq<bool>) {
    |said| <= |objs| && forall i :: 0 <= i < |said| ==> Right(s, Node(objs[i], permission), said[i])
  }

  lemma EmptyPage(limit: int, got: seq<Object>)
    requires limit <= 0 || |got| < limit
    ensures FillsPage([], limit, got, [], got)
  {
    var none: seq<Object> := [];
    assert none[..0] == [] && Chosen([], []) == [];
  }

  lemma FullPage(objs: seq<Object>, limit: int, got: seq<Object>)
    requires objs != [] && limit > 0 && |got| + 1 == limit
    ensures FillsPage(objs, limit, got, [true], got + [objs[0]])
  {
    assert objs[..1] == [objs[0]];
    assert Chosen(objs[..1], [true]) == [objs[0]] + Chosen([], []);
  }

  lemma PageGoesOn(objs: seq<Object>, limit: int, got: seq<Object>, allowed: bool, rest: seq<bool>, page: seq<Object>)
    requires objs != [] && FillsPage(objs[1..], limit, if allowed then got + [objs[0]] else got, rest, page)
    requires limit <= 0 || |got| + (if allowed then 1 else 0) < limit
    ensures FillsPage(objs, limit, got, [allowed] + rest, page)
  {
    var said := [allowed] + rest;
    var passed := objs[..|said|];
    assert passed[1..] == objs[1..][..|rest|] && said[1..] == rest;
    assert Chosen(passed, said) == (if allowed then [objs[0]] else []) + Chosen(passed[1..], rest);
    if rest != [] { assert said[|said| - 1] == rest[|rest| - 1]; }
  }

  lemma SaidMore(s: Scene, objs: seq<Object>, permission: string, allowed: bool, rest: seq<bool>)
    requires objs != [] && Right(s, Node(objs[0], permission), allowed) && SaidRightly(s, objs[1..], permission, rest)
    ensures SaidRightly(s, objs, permission, [allowed] + rest)
  {
    hide Right;
    var said := [allowed] + rest;
    forall i | 0 <= i < |said| ensures Right(s, Node(objs[i], permission), said[i]) {
      if i > 0 { assert objs[i] == objs[1..][i - 1] && said[i] == rest[i - 1]; }
    }
  }

  /** The decisions a listing makes of its candidates, in order, whatever the cache holds
      and whatever the limit; over a coherent cache they are right, and it stays coherent. */
  lemma {:induction false} VerifiedIsChosen(c: Context, sys: System, objs: seq<Object>, permission: string, limit: int,
                                            got: seq<Object>) returns (said: seq<bool>)
    requires limit <= 0 || |got| < limit
    ensures var (r, cache) := Verified(c, sys.cache, objs, permission, limit, got);
            (r.Ok? ==> FillsPage(objs, limit, got, said, r.value)) &&
            (Coherent(c.scene.schema, sys) && Settled(c, sys.log) ==>
               Coherent(c.scene.schema, sys.(cache := cache)) && (r.Ok? ==> SaidRightly(c.scene, objs, permission, said)))
    decreases |objs|
  {
    said := [];
    if objs == [] {
      EmptyPage(limit, got);
    } else {
      var root := Node(objs[0], permission);
      if Coherent(c.scene.schema, sys) && Settled(c, sys.log) {
        CheckIsRight(c, sys, root);
        CheckKeepsCoherence(c, sys, root);
      }
      hide Right;
      hide Coherent;
      hide Settled;
      hide FillsPage;
      var (o, st) := Run(c, sys.cache, root);
      hide Run;
      if o.Answer? {
        var got' := if o.allowed then got + [objs[0]] else got;
        var rest: seq<bool> := [];
        if o.allowed && limit > 0 && |got'| >= limit {
          FullPage(objs, limit, got);
          assert [o.allowed] + rest == [true];
        } else {
          rest := VerifiedIsChosen(c, sys.(cache := st.cache), objs[1..], permission, limit, got');
          var r := Verified(c, st.cache, objs[1..], permission, limit, got').0;
          if r.Ok? { PageGoesOn(objs, limit, got, o.allowed, rest, r.value); }
        }
        if SaidRightly(c.scene, objs[1..], permission, rest) && Right(c.scene, root, o.allowed) {
          SaidMore(c.scene, objs, permission, o.allowed, rest);
        }
        said := [o.allowed] + rest;
        hide SaidRightly;
      }
    }
  }

  /** The listed among the objects were rightly allowed, the others rightly denied. */
  ghost predicate RightlyListed(s: Scene, permission: string, objs: seq<Object>, listed: seq<Object>) {
    && (forall o :: o in listed ==> o in objs && Right(s, Node(o, permission), true))
    && (forall o :: o in objs && o !in listed ==> Right(s, Node(o, permission), false))
  }

  /** A page in order, no longer than the limit: of the first `k` candidates exactly those
      rightly allowed, the rest of them rightly denied; and all candidates were passed
      unless the page is full, with the last one passed as its last entry. */
  ghost predicate RightPage(s: Scene, permission: string, limit: int, objs: seq<Object>, k: nat, page: seq<Object>) {
    k <= |objs| && Ascending(page) && RightlyListed(s, permission, objs[..k], page) && (limit > 0 ==> |page| <= limit) &&
    (k < |objs| ==> |page| == limit > 0) &&
    (|page| == limit > 0 ==> k > 0 && page[limit - 1] == objs[k - 1])
  }

  /** A listing over a coherent cache, limited or not. */
  lemma VerifiedIsRight(c: Context, sys: System, objs: seq<Object>, permission: string, limit: int) returns (k: nat)
    requires Coherent(c.scene.schema, sys) && Settled(c, sys.log) && Ascending(objs)
    ensures var (r, cache) := Verified(c, sys.cache, objs, permission, limit, []);
            Coherent(c.scene.schema, sys.(cache := cache)) &&
            (r.Ok? ==> RightPage(c.scene, permission, limit, objs, k, r.value))
  {
    var said := VerifiedIsChosen(c, sys, objs, permission, limit, []);
    k := |said|;
    hide Right;
    hide Coherent;
    hide Verified;
    var r := Verified(c, sys.cache, objs, permission, limit, []).0;
    if r.Ok? {
      ChosenIsRightPage(c.scene, permission, limit, objs, said, r.value);
    }
  }

  lemma ChosenIsRightPage(s: Scene, permission: string, limit: int, objs: seq<Object>, said: seq<bool>, page: seq<Object>)
    requires Ascending(objs) && FillsPage(objs, limit, [], said, page) && SaidRightly(s, objs, permission, said)
    ensures RightPage(s, permission, limit, objs, |said|, page)
  {
    PassedRightly(s, permission, objs, said);
    PageEnds(objs, limit, said, page);
    hide FillsPage;
    hide Chosen;
    hide RightlyListed;
    hide Ascending;
    hide SaidRightly;
  }

  lemma PageEnds(objs: seq<Object>, limit: int, said: seq<bool>, page: seq<Object>)
    requires FillsPage(objs, limit, [], said, page)
    ensures page == Chosen(objs[..|said|], said) && (limit > 0 ==> |page| <= limit)
    ensures |said| < |objs| ==> |page| == limit > 0
    ensures |page| == limit > 0 ==> |said| > 0 && page[limit - 1] == objs[|said| - 1]
  {
    var passed := objs[..|said|];
    assert page == Chosen(passed, said);
    if said != [] && said[|said| - 1] {
      ChosenEnds(passed, said);
      assert passed[|passed| - 1] == objs[|said| - 1];
    }
    hide Chosen;
  }

  lemma PassedRightly(s: Scene, permission: string, objs: seq<Object>, said: seq<bool>)
    requires Ascending(objs) && SaidRightly(s, objs, permission, said)
    ensures var passed := objs[..|said|];
            var page := Chosen(passed, said);
            Ascending(page) && RightlyListed(s, permission, passed, page)
  {
    var passed := objs[..|said|];
    assert Ascending(passed);
    assert forall i :: 0 <= i < |said| ==> Right(s, Node(passed[i], permission), said[i]) by {
      hide Right;
      assert forall i :: 0 <= i < |said| ==> passed[i] == objs[i];
    }
    hide *;
    ChosenAreSaid(passed, said);
    ListedFromSaid(s, permission, passed, said, Chosen(passed, said));
  }

  lemma ListedFromSaid(s: Scene, permission: string, passed: seq<Object>, said: seq<bool>, page: seq<Object>)
    requires |passed| == |said| && (forall o :: o in page ==> o in passed)
    requires forall i :: 0 <= i < |said| ==> (passed[i] in page <==> said[i])
    requires forall i :: 0 <= i < |said| ==> Right(s, Node(passed[i], permission), said[i])
    ensures RightlyListed(s, permission, passed, page)
  {
    hide Right;
    forall o | o in passed ensures Right(s, Node(o, permission), o in page) {
      var i :| 0 <= i < |passed| && passed[i] == o;
      assert Right(s, Node(passed[i], permission), said[i]);
    }
  }

  lemma {:induction false} ChosenEnds(objs: seq<Object>, said: seq<bool>)
    requires |objs| == |said| > 0 && said[|said| - 1]
    ensures var page := Chosen(objs, said); page != [] && page[|page| - 1] == objs[|objs| - 1]
  {
    if |objs| > 1 {
      ChosenEnds(objs[1..], said[1..]);
    }
  }
}
