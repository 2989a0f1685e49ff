/** The explainer: the tree of usersets behind a relation, for no subject in
    particular, and what that tree means for a given one. */
module Expands {
  import opened Names
  import opened Schemas
  import opened Storage
  import opened Semantics
  import opened Checks
  import Denials
  import Work

  datatype Kind = LeafNode | TuplesetNode | UnionNode | IntersectionNode | ExclusionNode

  datatype Tree = Tree(kind: Kind, obj: string, relation: string, subjects: seq<string>, children: seq<Tree>)

  datatype Graph = Graph(schema: Schema, view: seq<Tuple>, maxDepth: nat)

  predicate FitsGraph(g: Graph, task: Task, depth: nat) {
    depth <= g.maxDepth || (task.Ask? && depth == g.maxDepth + 1)
  }

  /** The trees a task draws, in order: one for a node or a rewrite, one per child,
      one per edge to another node. A node already on the path is drawn as an
      empty leaf. */
  function Draw(g: Graph, visited: set<string>, n: Node, task: Task, depth: nat)
    : (drawn: Result<seq<Tree>, Failure>)
    requires FitsGraph(g, task, depth)
    ensures drawn.Ok? && (task.Ask? || task.Apply?) ==> |drawn.value| == 1
    decreases 2 * (g.maxDepth + 1 - depth) + (if task.Ask? then 1 else 0), task.Load(), task.Length()
  {
    match task
    case Ask(m) =>
      if depth > g.maxDepth then Err(DepthExceeded)
      else if m.Key() in visited then Ok([Tree(LeafNode, m.obj.String(), m.relation, [], [])])
      else
        (match Rule(g.schema, m)
         case Err(e) => Err(e)
         case Ok(rw) => Draw(g, visited + {m.Key()}, m, Apply(rw), depth))
    case Apply(rw) =>
      if rw.Exclusion? then
        Gather(g.view, n, rw, Join(Draw(g, visited, n, Apply(rw.base), depth),
                                   Draw(g, visited, n, Apply(rw.subtract), depth)))
      else
        var next := Unfold(g.view, n, rw);
        Gather(g.view, n, rw, Draw(g, visited, n, next, DepthOf(next, depth)))
    case Children(rws, stop) =>
      if rws == [] then Ok([])
      else Join(Draw(g, visited, n, Apply(rws[0]), depth), Draw(g, visited, n, Children(rws[1..], stop), depth))
    case Edges(es) =>
      if es == [] then Ok([])
      else if es[0].To? then
        Join(Draw(g, visited, n, Ask(es[0].node), depth + 1), Draw(g, visited, n, Edges(es[1..]), depth))
      else Draw(g, visited, n, Edges(es[1..]), depth)
  }

  function Join(first: Result<seq<Tree>, Failure>, rest: Result<seq<Tree>, Failure>): Result<seq<Tree>, Failure> {
    if first.Err? then first else if rest.Err? then rest else Ok(first.value + rest.value)
  }

  function SubjectStrings(view: seq<Tuple>, n: Node): seq<string> {
    var ts := Read(view, n.obj, n.relation);
    seq(|ts|, i requires 0 <= i < |ts| => ts[i].subject.String())
  }

  /** The tree of a rewrite over the trees of its parts; a computed userset is
      drawn as the other relation itself. */
  function Gather(view: seq<Tuple>, n: Node, rw: Rewrite, drawn: Result<seq<Tree>, Failure>): Result<seq<Tree>, Failure> {
    if drawn.Err? || rw.ComputedUserset? then drawn else
    var (kind, relation, subjects) := match rw
      case TupleToUserset(ts, _) => (TuplesetNode, ts, [])
      case Union(_) => (UnionNode, n.relation, [])
      case Intersection(_) => (IntersectionNode, n.relation, [])
      case Exclusion(_, _) => (ExclusionNode, n.relation, [])
      case _ => (LeafNode, n.relation, SubjectStrings(view, n));
    Ok([Tree(kind, n.obj.String(), relation, subjects, drawn.value)])
  }

  function Explain(g: Graph, root: Node): Result<seq<Tree>, Failure> { Draw(g, {}, root, Ask(root), 0) }

  // ---- Reading a tree -----------------------------------------------------------

  /** A person reading the tree for one subject, by its printed name. */
  predicate Shows(t: Tree, who: string) {
    match t.kind
    case LeafNode => who in t.subjects || ShowsAny(t.children, who)
    case TuplesetNode => ShowsAny(t.children, who)
    case UnionNode => ShowsAny(t.children, who)
    case IntersectionNode => t.children != [] && ShowsAll(t.children, who)
    case ExclusionNode => |t.children| == 2 && Shows(t.children[0], who) && !Shows(t.children[1], who)
  }

  predicate ShowsAny(ts: seq<Tree>, who: string) {
    ts != [] && (Shows(ts[0], who) || ShowsAny(ts[1..], who))
  }

  predicate ShowsAll(ts: seq<Tree>, who: string) {
    ts == [] || (Shows(ts[0], who) && ShowsAll(ts[1..], who))
  }

  lemma {:induction false} ShowsJoin(a: seq<Tree>, b: seq<Tree>, who: string)
    ensures ShowsAny(a + b, who) <==> ShowsAny(a, who) || ShowsAny(b, who)
    ensures ShowsAll(a + b, who) <==> ShowsAll(a, who) && ShowsAll(b, who)
  {
    if a == [] {
      assert a + b == b;
    } else {
      ShowsJoin(a[1..], b, who);
      assert (a + b)[1..] == a[1..] + b;
    }
  }

  // ---- A tree means what its edges mean ---------------------------------------------

  /** The subjects stored in the view print unambiguously. */
  ghost predicate PlainScene(s: Scene) {
    PlainSubjects(s.view) && PlainSubject(s.subject) && !s.subject.IsUserset()
  }

  /** The trees drawn for the nodes a task asks agree with Y. */
  ghost predicate AsksMean(g: Graph, s: Scene, visited: set<string>, n: Node, task: Task, depth: nat, Y: iset<Node>) {
    depth <= g.maxDepth &&
    forall m :: Occurs(s.view, n, task, To(m), true) ==>
      var drawn := Draw(g, visited, n, Ask(m), depth + 1);
      drawn.Ok? ==> |drawn.value| == 1 && (Shows(drawn.value[0], s.subject.String()) <==> m in Y)
  }

  /** What the trees of a task show. */
  ghost predicate TaskShows(s: Scene, task: Task, trees: seq<Tree>) {
    var who := s.subject.String();
    match task
    case Children(_, stop) => if stop then ShowsAny(trees, who) else ShowsAll(trees, who)
    case Edges(es) => Plain(s.subject) in es || ShowsAny(trees, who)
    case _ => |trees| == 1 && Shows(trees[0], who)
  }

  lemma ListedSubjects(s: Scene, n: Node)
    requires PlainScene(s)
    ensures s.subject.String() in SubjectStrings(s.view, n) <==> Plain(s.subject) in DirectEdges(s.view, n)
  {
    var ts := Read(s.view, n.obj, n.relation);
    var who := s.subject.String();
    forall i | 0 <= i < |ts|
      ensures ts[i].subject.String() == who <==> ts[i].subject == s.subject
      ensures ts[i].subject == s.subject <==> DirectEdge(ts[i]) == Plain(s.subject)
    {
      BucketOf(s.view, Forward, n.Key(), ts[i]);
      if ts[i].subject.String() == who { SubjectStringDetermines(ts[i].subject, s.subject); }
    }
    var strings, edges := SubjectStrings(s.view, n), DirectEdges(s.view, n);
    if who in strings {
      var i :| 0 <= i < |strings| && strings[i] == who;
      assert edges[i] == Plain(s.subject);
    }
    if Plain(s.subject) in edges {
      var i :| 0 <= i < |edges| && edges[i] == Plain(s.subject);
      assert strings[i] == who;
    }
  }

  lemma {:induction false} WalksNameNoSubject(s: Scene, n: Node, ts: string, cu: string)
    ensures Plain(s.subject) !in WalkEdges(s.view, n, ts, cu)
  {
  }

  lemma PartAsks(g: Graph, s: Scene, visited: set<string>, n: Node, part: Task, task: Task, depth: nat, Y: iset<Node>)
    requires AsksMean(g, s, visited, n, task, depth, Y) && PartOf(s.view, n, part, task, true)
    ensures AsksMean(g, s, visited, n, part, depth, Y)
  {
  }

  lemma AskedMeans(g: Graph, s: Scene, visited: set<string>, n: Node, m: Node, depth: nat, Y: iset<Node>)
    requires AsksMean(g, s, visited, n, Ask(m), depth, Y) && Draw(g, visited, n, Ask(m), depth + 1).Ok?
    ensures var trees := Draw(g, visited, n, Ask(m), depth + 1).value;
            |trees| == 1 && (Shows(trees[0], s.subject.String()) <==> m in Y)
  {
    assert Occurs(s.view, n, Ask(m), To(m), true);
  }

  /** Drawn trees read as the rewrite's own meaning over the nodes they ask. */
  lemma {:induction false} TreesMeanTasks(g: Graph, s: Scene, visited: set<string>, n: Node, task: Task, depth: nat,
                                          Y: iset<Node>)
    requires FitsGraph(g, task, depth) && !task.Ask? && PlainScene(s) && g.view == s.view
    requires AsksMean(g, s, visited, n, task, depth, Y) && Draw(g, visited, n, task, depth).Ok?
    ensures var trees := Draw(g, visited, n, task, depth).value;
            (TaskShows(s, task, trees) <==> Sem(s, Y, n, task, true)) &&
            (task.Apply? ==> |trees| == 1) && (task.Children? ==> |trees| == |task.rws|)
    decreases task.Load(), task.Length()
  {
    hide Occurs;
    hide PartOf;
    hide AsksMean;
    Semantics.Parts(s.view, n, task, true);
    var who := s.subject.String();
    match task
    case Apply(rw) =>
      if rw.Exclusion? {
        PartAsks(g, s, visited, n, Apply(rw.base), task, depth, Y);
        PartAsks(g, s, visited, n, Apply(rw.subtract), task, depth, Y);
        TreesMeanTasks(g, s, visited, n, Apply(rw.base), depth, Y);
        TreesMeanTasks(g, s, visited, n, Apply(rw.subtract), depth, Y);
      } else {
        var next := Unfold(g.view, n, rw);
        PartAsks(g, s, visited, n, next, task, depth, Y);
        if next.Ask? {
          AskedMeans(g, s, visited, n, next.target, depth, Y);
        } else {
          TreesMeanTasks(g, s, visited, n, next, depth, Y);
          ListedSubjects(s, n);
          if rw.TupleToUserset? { WalksNameNoSubject(s, n, rw.tupleset, rw.computedUserset); }
        }
      }
    case Children(rws, stop) =>
      if rws != [] {
        PartAsks(g, s, visited, n, Apply(rws[0]), task, depth, Y);
        PartAsks(g, s, visited, n, Children(rws[1..], stop), task, depth, Y);
        TreesMeanTasks(g, s, visited, n, Apply(rws[0]), depth, Y);
        TreesMeanTasks(g, s, visited, n, Children(rws[1..], stop), depth, Y);
        var first, rest := Draw(g, visited, n, Apply(rws[0]), depth).value,
                           Draw(g, visited, n, Children(rws[1..], stop), depth).value;
        ShowsJoin(first, rest, who);
        ShowsOne(first, who);
      }
    case Edges(es) =>
      if es != [] {
        Denials.EdgesSplit(s, Y, n, es);
        assert es == [es[0]] + es[1..];
        PartAsks(g, s, visited, n, Edges(es[1..]), task, depth, Y);
        TreesMeanTasks(g, s, visited, n, Edges(es[1..]), depth, Y);
        if es[0].To? {
          PartAsks(g, s, visited, n, Ask(es[0].node), task, depth, Y);
          AskedMeans(g, s, visited, n, es[0].node, depth, Y);
          var first, rest := Draw(g, visited, n, Ask(es[0].node), depth + 1).value,
                             Draw(g, visited, n, Edges(es[1..]), depth).value;
          ShowsJoin(first, rest, who);
          ShowsOne(first, who);
        }
      }
  }

  lemma ShowsOne(ts: seq<Tree>, who: string)
    ensures |ts| == 1 ==> ShowsAny(ts, who) == ShowsAll(ts, who) == Shows(ts[0], who)
  {
  }


  // ---- Cycles lose nothing ----------------------------------------------------------

  ghost function KeysOf(V: set<Node>): set<string> { set v | v in V :: v.Key() }

  ghost function PlainNodes(): iset<Node> { iset n | PlainNode(n) }

  /** Schema and stored subjects only name nodes their keys tell apart. */
  ghost predicate PlainNames(schema: Schema, view: seq<Tuple>) {
    PlainSchema(schema) &&
    forall t :: t in view ==> ':' !in t.subject.obj.kind && '#' !in t.subject.relation
  }

  /** ... so a request that starts at such a node never asks another kind. */
  lemma PlainNamesSpan(s: Scene)
    requires PlainNames(s.schema, s.view)
    ensures Work.Spans(s, PlainNodes())
  {
    forall n, m | PlainNode(n) && Rule(s.schema, n).Ok? && Occurs(s.view, n, Apply(Rule(s.schema, n).value), To(m), true)
      ensures PlainNode(m)
    {
      var leaf := OccursAtLeaf(s.view, n, Rule(s.schema, n).value, To(m), true);
      assert PlainLeaf(leaf);
      if leaf.This? || leaf.TupleToUserset? {
        var relation := if leaf.This? then n.relation else leaf.tupleset;
        var ts := Read(s.view, n.obj, relation);
        var i :| 0 <= i < |ts| && m.obj == ts[i].subject.obj && (leaf.This? ==> m.relation == ts[i].subject.relation);
        BucketOf(s.view, Forward, Node(n.obj, relation).Key(), ts[i]);
      }
    }
  }

  lemma CutByKey(V: set<Node>, m: Node)
    requires PlainNode(m) && forall v :: v in V ==> PlainNode(v)
    ensures m.Key() in KeysOf(V) <==> m in V
    ensures KeysOf(V + {m}) == KeysOf(V) + {m.Key()}
  {
    if v :| v in V && v.Key() == m.Key() {
      KeyDetermines(v, m);
    }
  }

  /** With the nodes V on the path, a node's tree shows exactly the least fixpoint
      without V: the empty leaf drawn for a node on the path is all it can add. */
  lemma {:induction false} TreeMeansLfp(g: Graph, s: Scene, V: set<Node>, n: Node, m: Node, depth: nat)
    requires depth <= g.maxDepth + 1 && s.schema == g.schema && s.view == g.view
    requires ExclusionFree(s.schema) && PlainScene(s) && Work.Spans(s, PlainNodes())
    requires PlainNode(m) && forall v :: v in V ==> PlainNode(v)
    ensures var drawn := Draw(g, KeysOf(V), n, Ask(m), depth);
            drawn.Ok? ==> |drawn.value| == 1 && (Shows(drawn.value[0], s.subject.String()) <==> m in Lfp(s, V))
    decreases g.maxDepth + 1 - depth
  {
    hide Sem;
    hide Node.Key;
    hide PlainNode;
    CutByKey(V, m);
    LfpAvoidsCut(s, V, m);
    if depth <= g.maxDepth && m !in V && Rule(s.schema, m).Ok? {
      var rule, W := Apply(Rule(s.schema, m).value), V + {m};
      forall x | Occurs(s.view, m, rule, To(x), true)
        ensures var drawn := Draw(g, KeysOf(W), m, Ask(x), depth + 1);
                drawn.Ok? ==> |drawn.value| == 1 && (Shows(drawn.value[0], s.subject.String()) <==> x in Lfp(s, W))
      {
        assert x in PlainNodes();
        TreeMeansLfp(g, s, W, m, x, depth + 1);
      }
      assert AsksMean(g, s, KeysOf(W), m, rule, depth, Lfp(s, W));
      LfpWithoutSelf(s, V, m);
      if Draw(g, KeysOf(W), m, rule, depth).Ok? {
        TreesMeanTasks(g, s, KeysOf(W), m, rule, depth, Lfp(s, W));
      }
    }
  }

  /** For schemas without exclusion the tree shows exactly the subjects granted by
      the least fixpoint, on any data: drawing a cycle as an empty leaf loses
      nothing. */
  lemma TreeShowsExactlyTheGranted(g: Graph, s: Scene, root: Node)
    requires s.schema == g.schema && s.view == g.view
    requires ExclusionFree(s.schema) && PlainScene(s) && PlainNode(root) && PlainNames(s.schema, s.view)
    ensures var drawn := Explain(g, root);
            drawn.Ok? ==> |drawn.value| == 1 && (Shows(drawn.value[0], s.subject.String()) <==> root in Granted(s))
  {
    PlainNamesSpan(s);
    assert KeysOf({}) == {};
    TreeMeansLfp(g, s, {}, root, root, 0);
  }

  // ---- Acyclic data, the full language -------------------------------------------------

  lemma {:induction false} TreeMeansSolution(g: Graph, s: Scene, V: set<Node>, rank: map<Node, nat>, X: iset<Node>,
                                             n: Node, m: Node, depth: nat)
    requires depth <= g.maxDepth + 1 && s.schema == g.schema && s.view == g.view
    requires PlainScene(s) && Descends(s.schema, s.view, rank) && Solves(s, rank, X) && m in rank
    requires forall v :: v in V + {m} ==> PlainNode(v)
    requires Work.Spans(s, PlainNodes())
    requires forall v :: v in V ==> v in rank && rank[m] < rank[v]
    ensures var drawn := Draw(g, KeysOf(V), n, Ask(m), depth);
            drawn.Ok? ==> |drawn.value| == 1 && (Shows(drawn.value[0], s.subject.String()) <==> m in X)
    decreases g.maxDepth + 1 - depth
  {
    hide Sem;
    hide Node.Key;
    hide PlainNode;
    CutByKey(V, m);
    if depth <= g.maxDepth && Rule(s.schema, m).Ok? {
      var rule, W := Apply(Rule(s.schema, m).value), V + {m};
      forall x | Occurs(s.view, m, rule, To(x), true)
        ensures var drawn := Draw(g, KeysOf(W), m, Ask(x), depth + 1);
                drawn.Ok? ==> |drawn.value| == 1 && (Shows(drawn.value[0], s.subject.String()) <==> x in X)
      {
        assert m in PlainNodes() && x in PlainNodes();
        TreeMeansSolution(g, s, W, rank, X, m, x, depth + 1);
      }
      assert AsksMean(g, s, KeysOf(W), m, rule, depth, X);
      if Draw(g, KeysOf(W), m, rule, depth).Ok? {
        TreesMeanTasks(g, s, KeysOf(W), m, rule, depth, X);
      }
    }
  }

  // ---- A drawn tree means a check succeeds ------------------------------------------------

  lemma PartPlain(view: seq<Tuple>, n: Node, part: Task, task: Task)
    requires Work.TargetsIn(view, PlainNodes(), n, task) && PartOf(view, n, part, task, true)
    ensures Work.TargetsIn(view, PlainNodes(), n, part)
  {
    Work.PartTargets(view, PlainNodes(), n, part, task);
  }

  ghost predicate SameRequest(g: Graph, c: Context) {
    g.schema == c.scene.schema && g.view == c.scene.view && g.maxDepth == c.maxDepth
  }

  /** The explainer walks every path a check could walk, with the same nodes on the
      path and no memo to cut it short, so if it never fails neither does a check. */
  lemma {:induction false} DrawnTasksAnswer(g: Graph, c: Context, st: State, n: Node, task: Task, depth: nat)
    requires Fits(c, task, depth) && SameRequest(g, c) && Work.Spans(c.scene, PlainNodes())
    requires Work.TargetsIn(g.view, PlainNodes(), n, task) && forall v :: v in st.visiting ==> PlainNode(v)
    requires Draw(g, KeysOf(st.visiting), n, task, depth).Ok?
    ensures Exec(c, st, n, task, depth).0.Answer?
    decreases Fuel(c, task, depth), task.Load(), task.Length()
  {
    hide Work.Spans;
    hide Work.TargetsIn;
    hide Occurs;
    hide PartOf;
    hide PlainNode;
    hide KeysOf;
    hide Node.Key;
    Semantics.Parts(g.view, n, task, true);
    match task
    case Ask(m) =>
      Work.AskTargets(c.scene, PlainNodes(), n, m);
      if Expands(c, st, m, depth) {
        CutByKey(st.visiting, m);
        var entered := Enter(st, m, depth);
        DrawnTasksAnswer(g, c, entered, m, Apply(Rule(g.schema, m).value), depth);
      }
    case Apply(rw) =>
      if rw.Exclusion? {
        PartPlain(g.view, n, Apply(rw.base), task);
        PartPlain(g.view, n, Apply(rw.subtract), task);
        DrawnTasksAnswer(g, c, st, n, Apply(rw.base), depth);
        Work.VisitingRestored(c, st, n, Apply(rw.base), depth);
        DrawnTasksAnswer(g, c, Exec(c, st, n, Apply(rw.base), depth).1, n, Apply(rw.subtract), depth);
      } else {
        var next := Unfold(g.view, n, rw);
        PartPlain(g.view, n, next, task);
        DrawnTasksAnswer(g, c, st, n, next, DepthOf(next, depth));
      }
    case Children(rws, stop) =>
      if rws != [] {
        PartPlain(g.view, n, Apply(rws[0]), task);
        PartPlain(g.view, n, Children(rws[1..], stop), task);
        DrawnTasksAnswer(g, c, st, n, Apply(rws[0]), depth);
        Work.VisitingRestored(c, st, n, Apply(rws[0]), depth);
        DrawnTasksAnswer(g, c, Exec(c, st, n, Apply(rws[0]), depth).1, n, Children(rws[1..], stop), depth);
      }
    case Edges(es) =>
      if es != [] {
        PartPlain(g.view, n, Edges(es[1..]), task);
        if es[0].To? {
          PartPlain(g.view, n, Ask(es[0].node), task);
          DrawnTasksAnswer(g, c, st, n, Ask(es[0].node), depth + 1);
          Work.VisitingRestored(c, st, n, Ask(es[0].node), depth + 1);
          DrawnTasksAnswer(g, c, Exec(c, st, n, Ask(es[0].node), depth + 1).1, n, Edges(es[1..]), depth);
        } else {
          DrawnTasksAnswer(g, c, st, n, Edges(es[1..]), depth);
        }
      }
  }

  /** If the explainer succeeds on a pair, a check of it succeeds for every subject,
      whatever the cache holds; and where the data below is acyclic (and the
      cache right about it) the check answers what the tree shows. */
  lemma ExplainedChecksAgree(g: Graph, c: Context, cache: map<CacheKey, bool>, root: Node,
                             rank: map<Node, nat>, X: iset<Node>)
    requires SameRequest(g, c) && Explain(g, root).Ok?
    requires PlainNode(root) && PlainNames(g.schema, g.view)
    ensures var o := Run(c, cache, root).0;
            o.Answer? && |Explain(g, root).value| == 1 &&
            (PlainScene(c.scene) && root in rank && Descends(g.schema, g.view, rank) && Solves(c.scene, rank, X) &&
             Denials.Agrees(c, Fresh(cache), rank, X) ==>
               (o.allowed <==> Shows(Explain(g, root).value[0], c.scene.subject.String())))
  {
    PlainNamesSpan(c.scene);
    assert KeysOf({}) == {};
    assert Work.TargetsIn(g.view, PlainNodes(), root, Ask(root));
    DrawnTasksAnswer(g, c, Fresh(cache), root, Ask(root), 0);
    if PlainScene(c.scene) && root in rank && Descends(g.schema, g.view, rank) && Solves(c.scene, rank, X) &&
       Denials.Agrees(c, Fresh(cache), rank, X) {
      Denials.AcyclicChecksAreExact(c, cache, rank, X, root);
      TreeMeansSolution(g, c.scene, {}, rank, X, root, root, 0);
    }
  }
}
