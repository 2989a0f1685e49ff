/** The check engine's own objects: the shared cache, one request's evaluation,
    and the engine that starts it. */
module Engines {
  import opened Names
  import opened Schemas
  import opened Storage
  import opened MemoryStore
  import opened Semantics
  import opened Snapshots
  import opened Checks
  import opened Coherence
  import opened Concurrency
  import opened Depths
  import Work

  /** The cache shared by all requests. */
  class RevisionKeyed {
    var entries: map<CacheKey, bool>

    constructor ()
      ensures entries == map[]
    {
      entries := map[];
    }

    method Get(k: CacheKey) returns (allowed: bool, ok: bool)
      ensures ok <==> k in entries
      ensures ok ==> allowed == entries[k]
    {
      ok := k in entries;
      allowed := if ok then entries[k] else false;
    }

    /** Other checks record what they decide. */
    method TakeIn(more: map<CacheKey, bool>)
      modifies this
      ensures entries == old(entries) + more
    {
      entries := entries + more;
    }

    method Set(k: CacheKey, allowed: bool)
      modifies this
      ensures entries == old(entries)[k := allowed]
    {
      entries := entries[k := allowed];
    }
  }

  /** One request being answered. */
  class Evaluation {
    const schema: Schema
    const at: Snapshot
    const cache: RevisionKeyed?
    const limit: int
    const subject: Subject
    const others: Others

    var memo: map<Node, bool>
    var visiting: set<Node>
    var expansions: nat
    var memoHits: nat
    var cacheHits: nat
    var deepest: nat
    var calls: nat
    ghost var trail: seq<Node>

    ghost function Ctx(): Context {
      Context(Scene(schema, at.view, subject), at.revision, EffectiveDepth(limit), cache != null)
    }

    ghost function Shared(): set<object> {
      if cache == null then {at.store} else {at.store, cache}
    }

    ghost function Now(): Progress
      reads this, cache
    {
      Progress(State(memo, visiting, if cache == null then map[] else cache.entries, expansions, memoHits, cacheHits,
                     deepest, trail), calls)
    }

    constructor (schema: Schema, at: Snapshot, cache: RevisionKeyed?, limit: int, subject: Subject, others: Others)
      ensures this.schema == schema && this.at == at && this.cache == cache
      ensures this.limit == limit && this.subject == subject && this.others == others
      ensures Now() == Progress(Fresh(if cache == null then map[] else cache.entries), 0)
    {
      this.schema, this.at, this.cache, this.limit, this.subject := schema, at, cache, limit, subject;
      this.others, calls := others, 0;
      memo, visiting, expansions, memoHits, cacheHits, deepest, trail := map[], {}, 0, 0, 0, 0, [];
    }

    /** What other checks have recorded by now. */
    method OthersRecord()
      requires at.Pinned()
      modifies this`calls, cache
      ensures at.Pinned() && Now() == Arrive(Ctx(), others, old(Now()))
    {
      if cache != null {
        cache.TakeIn(others(calls));
        calls := calls + 1;
      }
    }

    method Check(m: Node, depth: nat) returns (o: Outcome)
      requires at.Pinned() && Fits(Ctx(), Ask(m), depth)
      requires |visiting| == depth
      modifies this, Shared()
      ensures at.Pinned() && visiting == old(visiting)
      ensures (o, Now()) == ExecAmid(Ctx(), others, old(Now()), m, Ask(m), depth)
      decreases Fuel(Ctx(), Ask(m), depth), 0, 1
    {
      AskingDecides(Ctx(), others, Now(), m, m, depth);
      NotedFirst(Ctx(), others, Now(), m, depth);
      hide ExecAmid;
      hide Decided;
      hide Arrive;
      hide Snapshot.Pinned;
      var maxDepth := EffectiveDepth(limit);
      if depth > maxDepth {
        return Failed(DepthExceeded);
      }
      if depth > deepest {
        deepest := depth;
      }
      ghost var noted := Now();
      if m in memo {
        memoHits := memoHits + 1;
        return Answer(memo[m]);
      }
      OthersRecord();
      NotedFirst(Ctx(), others, Arrive(Ctx(), others, old(Now())), m, depth);
      o := LookUp(m, depth);
    }

    /** The cache, then the visiting set, then the rewrite. */
    method LookUp(m: Node, depth: nat) returns (o: Outcome)
      requires at.Pinned() && depth <= Ctx().maxDepth && depth <= deepest && m !in memo
      requires |visiting| == depth
      modifies this, Shared()
      ensures at.Pinned() && visiting == old(visiting)
      ensures (o, Now()) == Decided(Ctx(), others, old(Now()), m, depth)
      decreases Fuel(Ctx(), Ask(m), depth), 0, 0, 1
    {
      hide ExecAmid;
      hide Snapshot.Pinned;
      hide Recorded;
      var key := CacheKey(m.obj, m.relation, subject.String(), at.revision);
      if cache != null {
        var got, ok := cache.Get(key);
        if ok {
          cacheHits := cacheHits + 1;
          memo := memo[m := got];
          return Answer(got);
        }
      }
      if m in visiting {
        return Answer(false);
      }
      o := Decide(m, depth);
    }

    /** Applying the node's rewrite, with the node on the visiting set meanwhile. */
    method Decide(m: Node, depth: nat) returns (o: Outcome)
      requires at.Pinned() && Expands(Ctx(), Now().st, m, depth) && depth <= deepest
      requires |visiting| == depth
      modifies this, Shared()
      ensures at.Pinned() && visiting == old(visiting)
      ensures (o, Now()) == Decided(Ctx(), others, old(Now()), m, depth)
      decreases Fuel(Ctx(), Ask(m), depth), 0, 0, 0
    {
      hide ExecAmid;
      hide Arrive;
      hide Snapshot.Pinned;
      ghost var asked := Now();
      visiting := visiting + {m};
      expansions, trail := expansions + 1, trail + [m];
      assert Now() == asked.(st := Enter(asked.st, m, depth));
      match Lookup(schema, m.obj.kind, m.relation)
      case Err(e) =>
        visiting := visiting - {m};
        assert visiting == asked.st.visiting;
        o := Failed(e);
      case Ok(relation) =>
        var rw := if relation.rewrite == None then This else relation.rewrite.value;
        o := Eval(m, rw, depth);
        ghost var after := Now();
        if o.Answer? {
          OthersRecord();
          Record(m, o.allowed);
        }
        visiting := visiting - {m};
        assert visiting == asked.st.visiting;
        assert Now() == Recorded(Ctx(), others, after, m, o);
    }

    method Record(m: Node, allowed: bool)
      requires at.Pinned()
      modifies this`memo, cache
      ensures at.Pinned()
      ensures Now() == old(Now()).(st := old(Now().st).(memo := old(memo)[m := allowed],
                                   cache := if cache == null then map[] else old(cache.entries)[Ctx().Key(m) := allowed]))
    {
      memo := memo[m := allowed];
      if cache != null {
        cache.Set(CacheKey(m.obj, m.relation, subject.String(), at.revision), allowed);
      }
    }

    method Eval(n: Node, rw: Rewrite, depth: nat) returns (o: Outcome)
      requires at.Pinned() && depth <= Ctx().maxDepth
      requires |visiting| == depth + 1
      modifies this, Shared()
      ensures at.Pinned() && visiting == old(visiting)
      ensures (o, Now()) == ExecAmid(Ctx(), others, old(Now()), n, Apply(rw), depth)
      decreases Fuel(Ctx(), Apply(rw), depth), Apply(rw).Load(), 0
    {
      hide Snapshot.Pinned;
      match rw
      case This =>
        o := EvalThis(n, depth);
      case ComputedUserset(r) =>
        AskAnywhere(Ctx(), others, Now(), n, Node(n.obj, r), depth + 1);
        o := Check(Node(n.obj, r), depth + 1);
      case TupleToUserset(ts, cu) =>
        o := EvalWalk(n, ts, cu, depth);
      case Union(children) =>
        for i := 0 to |children|
          invariant at.Pinned() && visiting == old(visiting)
          invariant ExecAmid(Ctx(), others, old(Now()), n, Apply(rw), depth) ==
                    ExecAmid(Ctx(), others, Now(), n, Children(children[i..], true), depth)
        {
          ChildWeight(children, i);
          o := Eval(n, children[i], depth);
          if o != Answer(false) {
            return;
          }
          assert children[i..][1..] == children[i + 1..];
        }
        o := Answer(false);
      case Intersection(children) =>
        if |children| == 0 {
          return Answer(false);
        }
        for i := 0 to |children|
          invariant at.Pinned() && visiting == old(visiting)
          invariant ExecAmid(Ctx(), others, old(Now()), n, Apply(rw), depth) ==
                    ExecAmid(Ctx(), others, Now(), n, Children(children[i..], false), depth)
        {
          ChildWeight(children, i);
          o := Eval(n, children[i], depth);
          if o != Answer(true) {
            return;
          }
          assert children[i..][1..] == children[i + 1..];
        }
        o := Answer(true);
      case Exclusion(base, subtract) =>
        o := Eval(n, base, depth);
        if o != Answer(true) {
          return;
        }
        var sub := Eval(n, subtract, depth);
        if sub.Failed? {
          return sub;
        }
        o := Answer(!sub.allowed);
    }

    /** The tuples written directly on the relation. */
    method EvalThis(n: Node, depth: nat) returns (o: Outcome)
      requires at.Pinned() && depth <= Ctx().maxDepth && |visiting| == depth + 1
      modifies this, Shared()
      ensures at.Pinned() && visiting == old(visiting)
      ensures (o, Now()) == ExecAmid(Ctx(), others, old(Now()), n, Edges(DirectEdges(at.view, n)), depth)
      decreases Fuel(Ctx(), Apply(This), depth), 1, 0
    {
      hide Snapshot.Pinned;
      hide ExecAmid;
      hide Now;
      hide DirectEdges;
      hide Read;
      var tuples := at.Read(n.obj, n.relation);
      ghost var c, edges := Ctx(), DirectEdges(at.view, n);
      DirectEdgesOf(at.view, n);
      assert c.maxDepth == Ctx().maxDepth && c.scene.subject == subject && c.scene.view == at.view;
      assert depth < c.maxDepth + 1 && Fits(c, Ask(n), depth + 1) && Fuel(c, Ask(n), depth + 1) < Fuel(c, Apply(This), depth);
      EdgesEnd(c, others, Now(), n, edges, depth);
      for i := 0 to |tuples|
        invariant at.Pinned() && visiting == old(visiting)
        invariant ExecAmid(c, others, old(Now()), n, Edges(edges), depth) ==
                  ExecAmid(c, others, Now(), n, Edges(edges[i..]), depth)
      {
        var t := tuples[i];
        EdgesStep(c, others, Now(), n, edges, i, depth);
        if !t.subject.IsUserset() {
          if t.subject == subject {
            return Answer(true);
          }
          continue;
        }
        var m := Node(t.subject.obj, t.subject.relation);
        o := Check(m, depth + 1);
        if o != Answer(false) {
          return;
        }
      }
      EdgesEnd(c, others, Now(), n, edges, depth);
      o := Answer(false);
    }

    /** Every edge stored under the tupleset, then the computed relation beyond it. */
    method EvalWalk(n: Node, tupleset: string, computed: string, depth: nat) returns (o: Outcome)
      requires at.Pinned() && depth <= Ctx().maxDepth && |visiting| == depth + 1
      modifies this, Shared()
      ensures at.Pinned() && visiting == old(visiting)
      ensures (o, Now()) == ExecAmid(Ctx(), others, old(Now()), n, Edges(WalkEdges(at.view, n, tupleset, computed)), depth)
      decreases Fuel(Ctx(), Apply(This), depth), 1, 0
    {
      hide Snapshot.Pinned;
      hide ExecAmid;
      hide Now;
      hide WalkEdges;
      hide Read;
      var tuples := at.Read(n.obj, tupleset);
      ghost var c, edges := Ctx(), WalkEdges(at.view, n, tupleset, computed);
      WalkEdgesOf(at.view, n, tupleset, computed);
      assert c.maxDepth == Ctx().maxDepth;
      assert depth < c.maxDepth + 1 && Fits(c, Ask(n), depth + 1) && Fuel(c, Ask(n), depth + 1) < Fuel(c, Apply(This), depth);
      EdgesEnd(c, others, Now(), n, edges, depth);
      for i := 0 to |tuples|
        invariant at.Pinned() && visiting == old(visiting)
        invariant ExecAmid(c, others, old(Now()), n, Edges(edges), depth) ==
                  ExecAmid(c, others, Now(), n, Edges(edges[i..]), depth)
      {
        var m := Node(tuples[i].subject.obj, computed);
        EdgesStep(c, others, Now(), n, edges, i, depth);
        o := Check(m, depth + 1);
        if o != Answer(false) {
          return;
        }
      }
      EdgesEnd(c, others, Now(), n, edges, depth);
      o := Answer(false);
    }
  }

  lemma DirectEdgesOf(view: seq<Tuple>, n: Node)
    ensures var ts, es := Read(view, n.obj, n.relation), DirectEdges(view, n);
            |es| == |ts| && forall i :: 0 <= i < |ts| ==> es[i] == DirectEdge(ts[i])
  {
  }

  lemma WalkEdgesOf(view: seq<Tuple>, n: Node, tupleset: string, computed: string)
    ensures var ts, es := Read(view, n.obj, tupleset), WalkEdges(view, n, tupleset, computed);
            |es| == |ts| && forall i :: 0 <= i < |ts| ==> es[i] == To(Node(ts[i].subject.obj, computed))
  {
  }

  lemma EdgesStep(c: Context, others: Others, w: Progress, n: Node, edges: seq<Edge>, i: nat, depth: nat)
    requires depth <= c.maxDepth && i < |edges|
    ensures ExecAmid(c, others, w, n, Edges(edges[i..]), depth) ==
            match edges[i]
            case Plain(x) =>
              if x == c.scene.subject then (Answer(true), w) else ExecAmid(c, others, w, n, Edges(edges[i + 1..]), depth)
            case To(m) =>
              var (o, w1) := ExecAmid(c, others, w, m, Ask(m), depth + 1);
              if o != Answer(false) then (o, w1) else ExecAmid(c, others, w1, n, Edges(edges[i + 1..]), depth)
  {
    assert edges[i..][0] == edges[i] && edges[i..][1..] == edges[i + 1..];
    if edges[i].To? {
      AskAnywhere(c, others, w, n, edges[i].node, depth + 1);
    }
  }

  lemma EdgesEnd(c: Context, others: Others, w: Progress, n: Node, edges: seq<Edge>, depth: nat)
    requires depth <= c.maxDepth
    ensures ExecAmid(c, others, w, n, Edges(edges[|edges|..]), depth) == (Answer(false), w)
    ensures edges[0..] == edges
  {
  }

  lemma AskAnywhere(c: Context, others: Others, w: Progress, n: Node, m: Node, depth: nat)
    requires Fits(c, Ask(m), depth)
    ensures ExecAmid(c, others, w, n, Ask(m), depth) == ExecAmid(c, others, w, m, Ask(m), depth)
  {
    AskingDecides(c, others, w, n, m, depth);
    AskingDecides(c, others, w, m, m, depth);
    hide ExecAmid;
  }

  lemma {:induction false} ChildWeight(rws: seq<Rewrite>, i: nat)
    requires i < |rws|
    ensures Weight(rws[i]) + 1 < WeightAll(rws)
  {
    if i > 0 {
      ChildWeight(rws[1..], i - 1);
    }
  }

  // ---- The engine ------------------------------------------------------------------------

  datatype Consistency = MinimizeLatency | AtLeastAsFresh | FullConsistency

  datatype Request = Request(obj: Object, relation: string, subject: Subject, revision: nat,
                             consistency: Consistency, token: nat)

  datatype CheckResult = CheckResult(allowed: bool, expansions: nat, memoHits: nat, cacheHits: nat,
                                     deepest: nat, revision: nat)

  /** The snapshot a request runs against when the store's head is `head`. */
  function Resolve(req: Request, head: nat): nat {
    if req.revision != 0 then req.revision
    else if req.consistency == AtLeastAsFresh && req.token > head then req.token
    else head
  }

  /** Never older than what the caller has seen, and head otherwise. */
  lemma ResolveHonoursTokens(req: Request, head: nat)
    requires req.revision == 0
    ensures Resolve(req, head) >= head
    ensures req.consistency == AtLeastAsFresh ==> Resolve(req, head) >= req.token
    ensures req.token <= head ==> Resolve(req, head) == head
  {
  }

  function Reply(o: Outcome, st: State, revision: nat): Result<CheckResult, Failure> {
    match o
    case Failed(e) => Err(e)
    case Answer(allowed) =>
      Ok(CheckResult(allowed, st.expansions, st.memoHits, st.cacheHits, st.deepest, revision))
  }

  /** What the configured number says of a run: the limit is that number when it is
      positive, and 32 otherwise. */
  lemma DepthIsBounded(c: Context, maxDepth: int, others: Others, cache: map<CacheKey, bool>, root: Node)
    requires c.maxDepth == EffectiveDepth(maxDepth)
    ensures var o, limit := RunAmid(c, others, cache, root).0, if maxDepth > 0 then maxDepth else 32;
            (Work.Enclosed(c.scene, root, limit) ==> o != Failed(DepthExceeded)) &&
            (Work.Manageable(c.scene, root, limit) ==> o.Answer?) &&
            (!c.cached && o == Answer(true) ==> ShortPath(c.scene, root, limit))
  {
    hide RunAmid;
    hide Work.Encloses;
    hide ShortPath;
    if R :| Work.Encloses(c.scene, R, root, c.maxDepth) {
      FewPairsAmidOthers(c, others, cache, R, root);
    }
    if R :| Work.Encloses(c.scene, R, root, c.maxDepth) && forall n :: n in R ==> Defined(c.scene.schema, n) {
      FewPairsAmidOthers(c, others, cache, R, root);
    }
    if !c.cached && RunAmid(c, others, cache, root).0 == Answer(true) {
      AllowsHaveShortPaths(c, others, cache, root);
    }
  }

  /** Over a store that has only grown, a run answers and leaves the cache as it should. */
  lemma CoherentAnswer(c: Context, sys: System, log: Log, others: Others, root: Node)
    requires Coherent(c.scene.schema, sys) && Settled(c, sys.log) && OthersCoherent(c.scene.schema, log, others)
    requires log.head >= sys.log.head
    requires forall rev: nat :: rev <= sys.log.head ==> View(log.rows, rev) == View(sys.log.rows, rev)
    ensures var (o, w) := RunAmid(c, others, sys.cache, root);
            Coherent(c.scene.schema, System(log, w.st.cache)) && (o.Answer? ==> Right(c.scene, root, o.allowed))
  {
    hide Coherent;
    hide Right;
    hide RunAmid;
    GrowthKeepsCoherence(c.scene.schema, sys, log);
    AmidOthersIsRight(c, log, others, sys.cache, root);
    AmidOthersStaysCoherent(c, log, others, sys.cache, root);
  }

  /** What a reply says of the run, however it went. */
  lemma Replies(others: Others, root: Node, c: Context, cache: map<CacheKey, bool>, revision: nat)
    ensures var (o, w) := RunAmid(c, others, cache, root);
            var res := Reply(o, w.st, revision);
            (o.Failed? ==> res == Err(o.why)) &&
            (o.Answer? ==> res.Ok? && res.value.allowed == o.allowed && res.value.revision == revision)
  {
    hide RunAmid;
  }

  class Engine {
    const schema: Schema
    const store: Memory
    const maxDepth: int
    const cache: RevisionKeyed?

    constructor (schema: Schema, store: Memory, maxDepth: int, cache: RevisionKeyed?)
      ensures this.schema == schema && this.store == store && this.maxDepth == maxDepth && this.cache == cache
    {
      this.schema, this.store, this.maxDepth, this.cache := schema, store, maxDepth, cache;
    }

    ghost function Shared(): set<object> {
      if cache == null then {store} else {store, cache}
    }

    ghost function Cached(): map<CacheKey, bool>
      reads cache
    {
      if cache == null then map[] else cache.entries
    }

    /** The context a subject is answered in at a revision of the store as it stands. */
    ghost function ContextAt(subject: Subject, revision: nat): Context
      reads store
    {
      Context(Scene(schema, View(store.rows, revision), subject), revision, EffectiveDepth(maxDepth), cache != null)
    }

    ghost predicate CacheIsRight()
      reads store, cache
    {
      Coherent(schema, System(store.Contents(), Cached()))
    }

    /** However many writes other clients land between its reads, and whatever other
        checks record between its cache calls, a check answers from the snapshot it
        resolved on entry; with no other checks about, exactly as a run alone would. If
        the cache was right and what the others recorded is right, so is the answer and
        everything in the cache. */
    method Check(req: Request, others: Others) returns (res: Result<CheckResult, Failure>)
      requires store.Valid()
      modifies Shared()
      ensures store.Valid() && Grown(old(store.Contents()), store)
      ensures var revision := Resolve(req, old(store.head));
              View(store.rows, revision) == View(old(store.rows), revision)
      ensures var revision := Resolve(req, old(store.head));
              var (o, w) := RunAmid(old(ContextAt(req.subject, revision)), others, old(Cached()), Node(req.obj, req.relation));
              res == Reply(o, w.st, revision) && (cache != null ==> cache.entries == w.st.cache)
      ensures var revision := Resolve(req, old(store.head));
              var (o, st) := Run(old(ContextAt(req.subject, revision)), old(Cached()), Node(req.obj, req.relation));
              Quiet(others) ==> res == Reply(o, st, revision) && (cache != null ==> cache.entries == st.cache)
      ensures var revision := Resolve(req, old(store.head));
              cache != null && old(CacheIsRight()) && OthersCoherent(schema, store.Contents(), others) &&
              PlainSubject(req.subject) && revision <= old(store.head) ==>
                CacheIsRight() &&
                (res.Ok? ==> Right(old(ContextAt(req.subject, revision)).scene, Node(req.obj, req.relation), res.value.allowed))
      ensures res.Ok? && req.revision != 0 ==> res.value.revision == req.revision
      ensures res.Ok? && req.revision == 0 ==>
                (res.value.revision == old(store.head) || (res.value.revision == req.token > old(store.head))) &&
                (req.consistency == AtLeastAsFresh ==> res.value.revision >= req.token)
      ensures var s, root := old(ContextAt(req.subject, Resolve(req, store.head))).scene, Node(req.obj, req.relation);
              var limit := if maxDepth > 0 then maxDepth else 32;
              (Work.Enclosed(s, root, limit) ==> res != Err(DepthExceeded)) &&
              (Work.Manageable(s, root, limit) ==> res.Ok?) &&
              (cache == null && res.Ok? && res.value.allowed ==> ShortPath(s, root, limit))
    {
      hide Coherent;
      hide Right;
      hide View;
      hide RunAmid;
      hide Run;
      hide PlainSubject;
      hide Quiet;
      hide Work.Enclosed;
      hide Work.Manageable;
      hide ShortPath;
      hide OthersCoherent;
      hide Memory.Valid;
      hide Rule;
      hide EffectiveDepth;
      hide Reply;
      var revision := req.revision;
      if revision == 0 {
        var head := store.Head();
        match req.consistency
        case AtLeastAsFresh =>
          revision := head;
          if req.token > head {
            revision := req.token;
          }
        case _ =>
          revision := head;
      }
      var root := Node(req.obj, req.relation);
      ghost var c, sys := ContextAt(req.subject, revision), System(store.Contents(), Cached());
      res := Evaluate(root, req.subject, revision, others);
      if Quiet(others) {
        QuietRun(c, others, sys.cache, root);
      }
      DepthIsBounded(c, maxDepth, others, sys.cache, root);
      Replies(others, root, c, sys.cache, revision);
      if cache != null && Coherent(schema, sys) && Settled(c, sys.log) && OthersCoherent(schema, store.Contents(), others) {
        CoherentAnswer(c, sys, store.Contents(), others, root);
      }
    }

    /** One evaluation at a revision already chosen. */
    method Evaluate(root: Node, subject: Subject, revision: nat, others: Others) returns (res: Result<CheckResult, Failure>)
      requires store.Valid()
      modifies Shared()
      ensures store.Valid() && Grown(old(store.Contents()), store)
      ensures View(store.rows, revision) == View(old(store.rows), revision)
      ensures var (o, w) := RunAmid(old(ContextAt(subject, revision)), others, old(Cached()), root);
              res == Reply(o, w.st, revision) && (cache != null ==> cache.entries == w.st.cache)
    {
      hide View;
      hide ExecAmid;
      var at := new Snapshot(store, revision);
      var ev := new Evaluation(schema, at, cache, maxDepth, subject, others);
      var o := ev.Check(root, 0);
      match o
      case Failed(e) => res := Err(e);
      case Answer(allowed) =>
        res := Ok(CheckResult(allowed, ev.expansions, ev.memoHits, ev.cacheHits, ev.deepest, revision));
    }
  }
}
