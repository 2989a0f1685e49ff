/** Acyclicity as a fact about the data: the nodes a root depends on have a rank that
    every dependency lowers if and only if no cycle lies among them. */
module Acyclicity {
  import opened Names
  import opened Schemas
  import opened Storage
  import opened Semantics
  import opened Checks
  import opened Runs
  import Work
  import Engines

  /** Deciding n may ask m. */
  ghost predicate DependsOn(s: Scene, n: Node, m: Node) {
    Rule(s.schema, n).Ok? && Occurs(s.view, n, Apply(Rule(s.schema, n).value), To(m), true)
  }

  ghost predicate Chain(s: Scene, path: seq<Node>) {
    path != [] && forall i :: 0 <= i < |path| - 1 ==> DependsOn(s, path[i], path[i + 1])
  }

  ghost predicate Leads(s: Scene, n: Node, m: Node) {
    exists path :: Chain(s, path) && path[0] == n && path[|path| - 1] == m
  }

  /** No cycle lies among the dependencies of the root. */
  ghost predicate Acyclic(s: Scene, root: Node) {
    forall n, m :: Leads(s, root, n) && DependsOn(s, n, m) ==> !Leads(s, m, n)
  }

  lemma LeadsNowhere(s: Scene, n: Node)
    ensures Leads(s, n, n)
  {
    assert Chain(s, [n]);
  }

  lemma LeadsOn(s: Scene, n: Node, m: Node, x: Node)
    requires Leads(s, n, m) && DependsOn(s, m, x)
    ensures Leads(s, n, x)
  {
    hide DependsOn;
    var path :| Chain(s, path) && path[0] == n && path[|path| - 1] == m;
    assert Chain(s, path + [x]);
  }

  lemma LeadsFirst(s: Scene, n: Node, m: Node, x: Node)
    requires DependsOn(s, n, m) && Leads(s, m, x)
    ensures Leads(s, n, x)
  {
    hide DependsOn;
    var path :| Chain(s, path) && path[0] == m && path[|path| - 1] == x;
    assert Chain(s, [n] + path);
    assert ([n] + path)[|path|] == x;
  }

  // ---- Only finitely many nodes lie below a root ------------------------------------------

  /** The relations a rewrite can ask of some object. */
  function Asked(rw: Rewrite): set<string> {
    match rw
    case This => {}
    case ComputedUserset(r) => {r}
    case TupleToUserset(_, cu) => {cu}
    case Union(cs) => AskedByAll(cs)
    case Intersection(cs) => AskedByAll(cs)
    case Exclusion(b, s) => Asked(b) + Asked(s)
  }

  function AskedByAll(rws: seq<Rewrite>): set<string> {
    if rws == [] then {} else Asked(rws[0]) + AskedByAll(rws[1..])
  }

  lemma {:induction false} MentionedIsAsked(rw: Rewrite, leaf: Rewrite)
    requires Mentions(rw, leaf, true)
    ensures leaf.ComputedUserset? ==> leaf.relation in Asked(rw)
    ensures leaf.TupleToUserset? ==> leaf.computedUserset in Asked(rw)
  {
    match rw
    case Union(cs) => SomeMentionedIsAsked(cs, leaf);
    case Intersection(cs) => SomeMentionedIsAsked(cs, leaf);
    case Exclusion(b, s) =>
      if Mentions(b, leaf, true) {
        MentionedIsAsked(b, leaf);
      } else {
        MentionedIsAsked(s, leaf);
      }
    case _ =>
  }

  lemma {:induction false} SomeMentionedIsAsked(rws: seq<Rewrite>, leaf: Rewrite)
    requires MentionsAny(rws, leaf, true)
    ensures leaf.ComputedUserset? ==> leaf.relation in AskedByAll(rws)
    ensures leaf.TupleToUserset? ==> leaf.computedUserset in AskedByAll(rws)
  {
    if Mentions(rws[0], leaf, true) {
      MentionedIsAsked(rws[0], leaf);
    } else {
      SomeMentionedIsAsked(rws[1..], leaf);
    }
  }

  ghost function AskedInSchema(s: Schema): set<string> {
    set d, r, x | d in s.definitions && r in s.definitions[d].relations && s.definitions[d].relations[r].rewrite.Some? &&
                  x in Asked(s.definitions[d].relations[r].rewrite.value) :: x
  }

  ghost function Objects(s: Scene, root: Node): set<Object> { {root.obj} + set t | t in s.view :: t.subject.obj }

  ghost function Relations(s: Scene, root: Node): set<string> {
    {root.relation} + AskedInSchema(s.schema) + set t | t in s.view :: t.subject.relation
  }

  /** Every node a request about the root can ever ask. */
  ghost function Around(s: Scene, root: Node): set<Node> {
    set o, r | o in Objects(s, root) && r in Relations(s, root) :: Node(o, r)
  }

  lemma IsAround(s: Scene, root: Node, n: Node)
    ensures n in Around(s, root) <==> n.obj in Objects(s, root) && n.relation in Relations(s, root)
  {
    hide Objects;
    hide Relations;
    if n.obj in Objects(s, root) && n.relation in Relations(s, root) {
      assert Node(n.obj, n.relation) == n;
    }
  }

  lemma ReadIsStored(view: seq<Tuple>, obj: Object, relation: string, t: Tuple)
    requires t in Read(view, obj, relation)
    ensures t in view
  {
    BucketOf(view, Forward, Node(obj, relation).Key(), t);
  }

  lemma DependenciesStayAround(s: Scene, root: Node, n: Node, m: Node)
    requires n in Around(s, root) && DependsOn(s, n, m)
    ensures m in Around(s, root)
  {
    IsAround(s, root, n);
    IsAround(s, root, m);
    hide Around;
    var rw := Rule(s.schema, n).value;
    var leaf := OccursAtLeaf(s.view, n, rw, To(m), true);
    MentionedIsAsked(rw, leaf);
    if leaf.This? || leaf.TupleToUserset? {
      var relation := if leaf.This? then n.relation else leaf.tupleset;
      var ts := Read(s.view, n.obj, relation);
      var i :| 0 <= i < |ts| && m.obj == ts[i].subject.obj && (leaf.This? ==> m.relation == ts[i].subject.relation);
      ReadIsStored(s.view, n.obj, relation, ts[i]);
    }
    if !leaf.This? {
      assert m.relation in Asked(rw);
      assert m.relation in AskedInSchema(s.schema);
    }
  }

  lemma {:induction false} ChainStaysAround(s: Scene, root: Node, path: seq<Node>, i: nat)
    requires Chain(s, path) && path[0] == root && i < |path|
    ensures path[i] in Around(s, root)
  {
    hide Around;
    if i == 0 {
      IsAround(s, root, root);
    } else {
      ChainStaysAround(s, root, path, i - 1);
      assert DependsOn(s, path[i - 1], path[i]);
      DependenciesStayAround(s, root, path[i - 1], path[i]);
    }
  }

  lemma LeadsStayAround(s: Scene, root: Node, n: Node)
    requires Leads(s, root, n)
    ensures n in Around(s, root)
  {
    hide Around;
    hide DependsOn;
    var path :| Chain(s, path) && path[0] == root && path[|path| - 1] == n;
    ChainStaysAround(s, root, path, |path| - 1);
  }

  // ---- The rank ------------------------------------------------------------------------------

  /** What n leads to. */
  ghost function Below(s: Scene, root: Node, n: Node): set<Node> { set x | x in Around(s, root) && Leads(s, n, x) }

  ghost function RankOf(s: Scene, root: Node): map<Node, nat> {
    map n | n in Below(s, root, root) :: |Below(s, root, n)|
  }

  lemma {:induction false} FewerIfProper(a: set<Node>, b: set<Node>, x: Node)
    requires a <= b && x in b && x !in a
    ensures |a| < |b|
  {
    Work.Subset(a, b - {x});
  }

  lemma LowerBelow(s: Scene, root: Node, n: Node, m: Node)
    requires Acyclic(s, root) && Leads(s, root, n) && DependsOn(s, n, m)
    ensures m in RankOf(s, root) && n in RankOf(s, root) && RankOf(s, root)[m] < RankOf(s, root)[n]
  {
    LeadsOn(s, root, n, m);
    LeadsStayAround(s, root, m);
    LeadsStayAround(s, root, n);
    LeadsNowhere(s, n);
    hide Around;
    forall x | x in Below(s, root, m) ensures x in Below(s, root, n) { LeadsFirst(s, n, m, x); }
    hide DependsOn;
    hide Leads;
    FewerIfProper(Below(s, root, m), Below(s, root, n), n);
  }

  lemma DescendsOn(s: Scene, rank: map<Node, nat>)
    requires forall n, m :: n in rank && DependsOn(s, n, m) ==> m in rank && rank[m] < rank[n]
    ensures Descends(s.schema, s.view, rank)
  {
    forall n, m | n in rank && Rule(s.schema, n).Ok? && Occurs(s.view, n, Apply(Rule(s.schema, n).value), To(m), true)
      ensures m in rank && rank[m] < rank[n]
    {
      assert DependsOn(s, n, m);
    }
  }

  lemma RankedAreBelow(s: Scene, root: Node, n: Node)
    ensures n in RankOf(s, root) ==> Leads(s, root, n)
    ensures root in RankOf(s, root)
  {
    LeadsNowhere(s, root);
    LeadsStayAround(s, root, root);
    hide Around;
    hide Leads;
  }

  lemma RankDescends(s: Scene, root: Node)
    requires Acyclic(s, root)
    ensures root in RankOf(s, root) && Descends(s.schema, s.view, RankOf(s, root))
  {
    hide *;
    var rank := RankOf(s, root);
    RankedAreBelow(s, root, root);
    forall n, m | n in rank && DependsOn(s, n, m) ensures m in rank && rank[m] < rank[n] {
      RankedAreBelow(s, root, n);
      LowerBelow(s, root, n, m);
    }
    DescendsOn(s, rank);
  }

  lemma {:induction false} RanksFall(s: Scene, rank: map<Node, nat>, path: seq<Node>, i: nat)
    requires Descends(s.schema, s.view, rank) && Chain(s, path) && path[0] in rank && i < |path|
    ensures path[i] in rank && rank[path[i]] <= rank[path[0]]
  {
    if i > 0 {
      RanksFall(s, rank, path, i - 1);
      assert DependsOn(s, path[i - 1], path[i]);
    }
  }

  lemma RanksFallBelow(s: Scene, rank: map<Node, nat>, n: Node, m: Node)
    requires Descends(s.schema, s.view, rank) && Leads(s, n, m) && n in rank
    ensures m in rank && rank[m] <= rank[n]
  {
    hide DependsOn;
    hide Descends;
    var path :| Chain(s, path) && path[0] == n && path[|path| - 1] == m;
    RanksFall(s, rank, path, |path| - 1);
  }

  lemma RankedIsAcyclic(s: Scene, root: Node, rank: map<Node, nat>)
    requires root in rank && Descends(s.schema, s.view, rank)
    ensures Acyclic(s, root)
  {
    hide Leads;
    hide Descends;
    forall n, m | Leads(s, root, n) && DependsOn(s, n, m) ensures !Leads(s, m, n) {
      RanksFallBelow(s, rank, root, n);
      StepFalls(s, rank, n, m);
      if Leads(s, m, n) { RanksFallBelow(s, rank, m, n); }
    }
  }

  lemma StepFalls(s: Scene, rank: map<Node, nat>, n: Node, m: Node)
    requires n in rank && DependsOn(s, n, m) && Descends(s.schema, s.view, rank)
    ensures m in rank && rank[m] < rank[n]
  {
  }

  /** A ranking exists if and only if no cycle lies among the root's dependencies. */
  lemma AcyclicMeansRanked(s: Scene, root: Node)
    ensures Acyclic(s, root) <==> exists rank: map<Node, nat> :: root in rank && Descends(s.schema, s.view, rank)
  {
    hide *;
    if Acyclic(s, root) {
      RankDescends(s, root);
    }
    if rank: map<Node, nat> :| root in rank && Descends(s.schema, s.view, rank) {
      RankedIsAcyclic(s, root, rank);
    }
  }

  // ---- What it gives a check ---------------------------------------------------------------------

  ghost function Depths(rank: map<Node, nat>): set<nat> { set n | n in rank :: rank[n] }

  lemma {:induction false} Bounded(ks: set<nat>) returns (top: nat)
    ensures forall k :: k in ks ==> k < top
  {
    if ks == {} {
      top := 0;
    } else {
      var k :| k in ks;
      top := Bounded(ks - {k});
      if k >= top { top := k + 1; }
      assert forall x :: x in ks ==> x == k || x in ks - {k};
    }
  }

  /** After any history of writes and checks sharing one cache, an error-free check of a
      pair with no cycle among its dependencies answers the plain recursive meaning of the
      full language. */
  lemma AcyclicPairsAreDecidedPlainly(e: Setup, events: seq<Event>, req: Engines.Request) returns (k: nat)
    requires OrdinaryHistory(e, events) && Ordinary(After(e, events), req)
    requires Acyclic(ContextOf(e, After(e, events).log, req).scene, Node(req.obj, req.relation))
    ensures var sys, root := After(e, events), Node(req.obj, req.relation);
            var s, o := ContextOf(e, sys.log, req).scene, Answering(e, sys, req).0;
            (o.Answer? ==> (o.allowed <==> root in Unrolled(s, k))) &&
            (root in Unrolled(s, k) <==> root in Unrolled(s, k + 1))
  {
    var s, root := ContextOf(e, After(e, events).log, req).scene, Node(req.obj, req.relation);
    RankDescends(s, root);
    var rank := RankOf(s, root);
    k := Bounded(Depths(rank));
    assert forall n :: n in rank ==> rank[n] in Depths(rank);
    hide RankOf;
    AcyclicAnswersAreThePlainMeaning(e, events, req, rank, k);
    UnrolledSettles(s, rank, root, k);
  }
}
