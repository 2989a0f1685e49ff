/** What a reader may take from the labels of an explanation: every node names an object and
    a relation, every leaf lists what is stored there, and every branch is a stored tuple or
    an operand of the rewrite of the named relation. */
module Labels {
  import opened Names
  import opened Schemas
  import opened Storage
  import opened Semantics
  import opened Checks
  import opened Expands

  /** The nodes among the edges, in order. */
  function Targets(es: seq<Edge>): seq<Node> {
    if es == [] then []
    else if es[0].To? then [es[0].node] + Targets(es[1..]) else Targets(es[1..])
  }

  /** The part occurs in the rewrite. */
  predicate Contains(rw: Rewrite, part: Rewrite) {
    rw == part ||
    match rw
    case Union(cs) => ContainsAny(cs, part)
    case Intersection(cs) => ContainsAny(cs, part)
    case Exclusion(b, s) => Contains(b, part) || Contains(s, part)
    case _ => false
  }

  predicate ContainsAny(rws: seq<Rewrite>, part: Rewrite) {
    rws != [] && (Contains(rws[0], part) || ContainsAny(rws[1..], part))
  }

  /** The rewrite of the node has the part. */
  ghost predicate HasPart(g: Graph, n: Node, part: Rewrite) {
    Rule(g.schema, n).Ok? && Contains(Rule(g.schema, n).value, part)
  }

  ghost predicate AllAbout(g: Graph, trees: seq<Tree>, objs: seq<Object>) {
    |trees| == |objs| && forall i :: 0 <= i < |trees| ==> About(g, trees[i], objs[i])
  }

  function Owners(ns: seq<Node>): seq<Object> { seq(|ns|, i requires 0 <= i < |ns| => ns[i].obj) }

  /** The object as often as there are trees. */
  function Same(obj: Object, k: nat): seq<Object> { seq(k, i => obj) }

  /** A tree about an object. */
  ghost predicate About(g: Graph, t: Tree, obj: Object)
    decreases t
  {
    && t.obj == obj.String()
    && match t.kind
       case LeafNode => IsCut(t) || LeafAbout(g, t, Node(obj, t.relation))
       case TuplesetNode =>
         (exists r, cu :: HasPart(g, Node(obj, r), TupleToUserset(t.relation, cu))) && t.subjects == [] &&
         |t.children| == |Read(g.view, obj, t.relation)| &&
         forall i :: 0 <= i < |t.children| ==> About(g, t.children[i], Read(g.view, obj, t.relation)[i].subject.obj)
       case _ =>
         (exists part :: HasPart(g, Node(obj, t.relation), part) && Connects(part, t)) && t.subjects == [] &&
         forall i :: 0 <= i < |t.children| ==> About(g, t.children[i], obj)
  }

  /** A node met again on the path to it. */
  predicate IsCut(t: Tree) { t.kind == LeafNode && t.subjects == [] && t.children == [] }

  /** Every stored subject is listed, in order, and below it every userset among them. */
  ghost predicate LeafAbout(g: Graph, t: Tree, n: Node)
    decreases t, 0
  {
    var usersets := Targets(DirectEdges(g.view, n));
    HasPart(g, n, This) && t.subjects == SubjectStrings(g.view, n) && |t.children| == |usersets| &&
    forall i :: 0 <= i < |t.children| ==> About(g, t.children[i], usersets[i].obj)
  }

  /** One branch per operand of the operator the node is labelled with. */
  predicate Connects(part: Rewrite, t: Tree) {
    match t.kind
    case UnionNode => part.Union? && |t.children| == |part.children|
    case IntersectionNode => part.Intersection? && |t.children| == |part.children|
    case ExclusionNode => part.Exclusion? && |t.children| == 2
    case _ => false
  }

  // ---- Every drawn tree is labelled so --------------------------------------------------------

  /** What the trees of a task are about. */
  ghost function Subjects(n: Node, task: Task): seq<Object> {
    match task
    case Ask(m) => [m.obj]
    case Apply(_) => [n.obj]
    case Children(rws, _) => Same(n.obj, |rws|)
    case Edges(es) => Owners(Targets(es))
  }

  /** The task is left of applying the node's own rewrite. */
  ghost predicate Belongs(g: Graph, n: Node, task: Task) {
    match task
    case Apply(rw) => HasPart(g, n, rw)
    case Children(rws, _) => forall part :: ContainsAny(rws, part) ==> HasPart(g, n, part)
    case _ => true
  }

  lemma {:induction false} ContainsTransitive(rw: Rewrite, mid: Rewrite, part: Rewrite)
    requires Contains(rw, mid) && Contains(mid, part)
    ensures Contains(rw, part)
    decreases Weight(rw)
  {
    if rw != mid {
      match rw
      case Union(cs) => ContainsAnyTransitive(cs, mid, part);
      case Intersection(cs) => ContainsAnyTransitive(cs, mid, part);
      case Exclusion(b, s) =>
        if Contains(b, mid) {
          ContainsTransitive(b, mid, part);
        } else {
          ContainsTransitive(s, mid, part);
        }
      case _ =>
    }
  }

  lemma {:induction false} ContainsAnyTransitive(rws: seq<Rewrite>, mid: Rewrite, part: Rewrite)
    requires ContainsAny(rws, mid) && Contains(mid, part)
    ensures ContainsAny(rws, part)
    decreases WeightAll(rws)
  {
    if Contains(rws[0], mid) {
      ContainsTransitive(rws[0], mid, part);
    } else {
      ContainsAnyTransitive(rws[1..], mid, part);
    }
  }

  /** The steps of a task belong where it does. */
  lemma StepsBelong(g: Graph, n: Node, rw: Rewrite)
    requires HasPart(g, n, rw)
    ensures rw.Exclusion? ==> HasPart(g, n, rw.base) && HasPart(g, n, rw.subtract)
    ensures !rw.Exclusion? ==> Belongs(g, n, Unfold(g.view, n, rw))
  {
    var rule := Rule(g.schema, n).value;
    if rw.Exclusion? {
      ContainsTransitive(rule, rw, rw.base);
      ContainsTransitive(rule, rw, rw.subtract);
    } else if rw.Union? || rw.Intersection? {
      forall part | ContainsAny(rw.children, part) ensures HasPart(g, n, part) {
        ContainsTransitive(rule, rw, part);
      }
    }
  }

  lemma JoinAbout(g: Graph, a: seq<Tree>, b: seq<Tree>, x: seq<Object>, y: seq<Object>)
    requires AllAbout(g, a, x) && AllAbout(g, b, y)
    ensures AllAbout(g, a + b, x + y)
  {
    hide About;
  }

  lemma OwnersJoin(es: seq<Edge>)
    requires es != []
    ensures Owners(Targets(es)) == if es[0].To? then [es[0].node.obj] + Owners(Targets(es[1..])) else Owners(Targets(es[1..]))
  {
  }

  /** The tree gathered from the trees of a rewrite's parts. */
  lemma GatheredAbout(g: Graph, n: Node, rw: Rewrite, trees: seq<Tree>)
    requires HasPart(g, n, rw) && !rw.Exclusion? && AllAbout(g, trees, Subjects(n, Unfold(g.view, n, rw)))
    ensures AllAbout(g, Gather(g.view, n, rw, Ok(trees)).value, [n.obj])
  {
    var t := Gather(g.view, n, rw, Ok(trees)).value[0];
    match rw
    case This => assert LeafAbout(g, t, n);
    case TupleToUserset(ts, cu) => WalkOwners(g.view, n, ts, cu);
    case ComputedUserset(_) =>
    case Union(_) => assert Connects(rw, t);
    case Intersection(_) => assert Connects(rw, t);
  }

  lemma ExclusionAbout(g: Graph, n: Node, rw: Rewrite, base: seq<Tree>, subtract: seq<Tree>)
    requires HasPart(g, n, rw) && rw.Exclusion? && AllAbout(g, base, [n.obj]) && AllAbout(g, subtract, [n.obj])
    ensures AllAbout(g, Gather(g.view, n, rw, Ok(base + subtract)).value, [n.obj])
  {
    var t := Gather(g.view, n, rw, Ok(base + subtract)).value[0];
    assert Connects(rw, t);
  }

  lemma {:induction false} TargetsOfAll(es: seq<Edge>)
    requires forall e :: e in es ==> e.To?
    ensures |Targets(es)| == |es| && forall i :: 0 <= i < |es| ==> Targets(es)[i] == es[i].node
  {
    if es != [] {
      assert es[0] in es && forall e :: e in es[1..] ==> e in es;
      TargetsOfAll(es[1..]);
    }
  }

  lemma WalkOwners(view: seq<Tuple>, n: Node, ts: string, cu: string)
    ensures var tuples, owners := Read(view, n.obj, ts), Owners(Targets(WalkEdges(view, n, ts, cu)));
            |owners| == |tuples| && forall i :: 0 <= i < |tuples| ==> owners[i] == tuples[i].subject.obj
  {
    hide Read;
    TargetsOfAll(WalkEdges(view, n, ts, cu));
  }

  /** Whatever is drawn for a task is about its objects. */
  lemma {:induction false} DrawnAbout(g: Graph, visited: set<string>, n: Node, task: Task, depth: nat)
    requires FitsGraph(g, task, depth) && Belongs(g, n, task) && Draw(g, visited, n, task, depth).Ok?
    ensures AllAbout(g, Draw(g, visited, n, task, depth).value, Subjects(n, task))
    decreases 2 * (g.maxDepth + 1 - depth) + (if task.Ask? then 1 else 0), task.Load(), task.Length()
  {
    hide About;
    hide AllAbout;
    hide Gather;
    hide HasPart;
    hide Targets;
    hide Owners;
    match task
    case Ask(m) =>
      if m.Key() in visited {
        CutAbout(g, m);
      } else {
        AllOfRule(g, m);
        DrawnAbout(g, visited + {m.Key()}, m, Apply(Rule(g.schema, m).value), depth);
      }
    case Apply(rw) =>
      StepsBelong(g, n, rw);
      if rw.Exclusion? {
        GatherSucceeds(g.view, n, rw, Join(Draw(g, visited, n, Apply(rw.base), depth), Draw(g, visited, n, Apply(rw.subtract), depth)));
        DrawnAbout(g, visited, n, Apply(rw.base), depth);
        DrawnAbout(g, visited, n, Apply(rw.subtract), depth);
        ExclusionAbout(g, n, rw, Draw(g, visited, n, Apply(rw.base), depth).value,
                       Draw(g, visited, n, Apply(rw.subtract), depth).value);
      } else {
        var next := Unfold(g.view, n, rw);
        GatherSucceeds(g.view, n, rw, Draw(g, visited, n, next, DepthOf(next, depth)));
        DrawnAbout(g, visited, n, next, DepthOf(next, depth));
        GatheredAbout(g, n, rw, Draw(g, visited, n, next, DepthOf(next, depth)).value);
      }
    case Children(rws, stop) =>
      if rws == [] {
        NoneAbout(g);
        assert Same(n.obj, 0) == [];
      } else {
        FirstBelongs(g, n, rws, stop);
        DrawnAbout(g, visited, n, Apply(rws[0]), depth);
        DrawnAbout(g, visited, n, Children(rws[1..], stop), depth);
        JoinAbout(g, Draw(g, visited, n, Apply(rws[0]), depth).value, Draw(g, visited, n, Children(rws[1..], stop), depth).value,
                  [n.obj], Same(n.obj, |rws| - 1));
        assert [n.obj] + Same(n.obj, |rws| - 1) == Same(n.obj, |rws|);
      }
    case Edges(es) =>
      if es == [] {
        NoneAbout(g);
        NoOwners();
      } else {
        OwnersJoin(es);
        DrawnAbout(g, visited, n, Edges(es[1..]), depth);
        if es[0].To? {
          DrawnAbout(g, visited, n, Ask(es[0].node), depth + 1);
          JoinAbout(g, Draw(g, visited, n, Ask(es[0].node), depth + 1).value, Draw(g, visited, n, Edges(es[1..]), depth).value,
                    [es[0].node.obj], Owners(Targets(es[1..])));
        }
      }
  }

  lemma CutAbout(g: Graph, m: Node)
    ensures AllAbout(g, [Tree(LeafNode, m.obj.String(), m.relation, [], [])], [m.obj])
  {
  }

  lemma AllOfRule(g: Graph, m: Node)
    ensures Rule(g.schema, m).Ok? ==> HasPart(g, m, Rule(g.schema, m).value)
  {
  }

  lemma NoneAbout(g: Graph)
    ensures AllAbout(g, [], [])
  {
  }

  lemma NoOwners()
    ensures Owners(Targets([])) == []
  {
  }

  lemma FirstBelongs(g: Graph, n: Node, rws: seq<Rewrite>, stop: bool)
    requires rws != [] && Belongs(g, n, Children(rws, stop))
    ensures HasPart(g, n, rws[0]) && Belongs(g, n, Children(rws[1..], stop))
  {
    assert ContainsAny(rws, rws[0]);
    hide HasPart;
    forall part | ContainsAny(rws[1..], part) ensures HasPart(g, n, part) {
      assert ContainsAny(rws, part);
    }
  }

  lemma GatherSucceeds(view: seq<Tuple>, n: Node, rw: Rewrite, drawn: Result<seq<Tree>, Failure>)
    ensures Gather(view, n, rw, drawn).Ok? <==> drawn.Ok?
  {
  }

  /** The labels of a whole explanation. */
  lemma ExplainedAbout(g: Graph, root: Node)
    requires Explain(g, root).Ok?
    ensures |Explain(g, root).value| == 1 && About(g, Explain(g, root).value[0], root.obj)
  {
    DrawnAbout(g, {}, root, Ask(root), 0);
  }
}
