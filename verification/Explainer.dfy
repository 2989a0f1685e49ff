/** Drawing the userset tree of a pair, with the path marked while it is walked. */
module Explainers {
  import opened Names
  import opened Schemas
  import opened Storage
  import opened Snapshots
  import opened Semantics
  import opened Checks
  import opened Engines
  import opened Expands
  import opened Routes
  import Work

  function One(r: Result<Tree, Failure>): Result<seq<Tree>, Failure> {
    match r
    case Ok(t) => Ok([t])
    case Err(e) => Err(e)
  }

  lemma JoinMore(kids: seq<Tree>, next: Tree, rest: Result<seq<Tree>, Failure>)
    ensures Join(Ok(kids), Join(Ok([next]), rest)) == Join(Ok(kids + [next]), rest)
  {
    if rest.Ok? {
      assert kids + ([next] + rest.value) == kids + [next] + rest.value;
    }
  }

  lemma JoinEnds(r: Result<seq<Tree>, Failure>)
    ensures Join(Ok([]), r) == r && Join(r, Ok([])) == r
  {
    if r.Ok? {
      assert [] + r.value == r.value == r.value + [];
    }
  }

  class Explainer {
    const schema: Schema
    const at: Snapshot
    const limit: int
    var visited: set<string>

    ghost function G(): Graph { Graph(schema, at.view, EffectiveDepth(limit)) }

    constructor (schema: Schema, at: Snapshot, limit: int)
      ensures this.schema == schema && this.at == at && this.limit == limit && visited == {}
    {
      this.schema, this.at, this.limit, visited := schema, at, limit, {};
    }

    method Expand(m: Node, depth: nat) returns (r: Result<Tree, Failure>)
      requires at.Pinned() && FitsGraph(G(), Ask(m), depth)
      modifies this, at.store
      ensures at.Pinned() && visited == old(visited)
      ensures One(r) == Draw(G(), visited, m, Ask(m), depth)
      decreases 2 * (G().maxDepth + 1 - depth) + 1, 0
    {
      hide Snapshot.Pinned;
      var maxDepth := EffectiveDepth(limit);
      if depth > maxDepth {
        return Err(DepthExceeded);
      }
      var key := m.obj.String() + "#" + m.relation;
      if key in visited {
        return Ok(Tree(LeafNode, m.obj.String(), m.relation, [], []));
      }
      visited := visited + {key};
      match Lookup(schema, m.obj.kind, m.relation) {
        case Err(e) => r := Err(e);
        case Ok(relation) =>
          var rw := if relation.rewrite == None then This else relation.rewrite.value;
          r := ExpandRewrite(m, rw, depth);
      }
      visited := visited - {key};
      assert visited == old(visited);
    }

    method ExpandRewrite(n: Node, rw: Rewrite, depth: nat) returns (r: Result<Tree, Failure>)
      requires at.Pinned() && depth <= G().maxDepth
      modifies this, at.store
      ensures at.Pinned() && visited == old(visited)
      ensures One(r) == Draw(G(), visited, n, Apply(rw), depth)
      decreases 2 * (G().maxDepth + 1 - depth), Apply(rw).Load()
    {
      hide Snapshot.Pinned;
      match rw
      case This =>
        r := ExpandLeaf(n, depth);
      case ComputedUserset(relation) =>
        AskAnywhereDraws(G(), visited, n, Node(n.obj, relation), depth + 1);
        r := Expand(Node(n.obj, relation), depth + 1);
      case TupleToUserset(tupleset, computed) =>
        r := ExpandWalk(n, tupleset, computed, depth);
      case Union(kids) =>
        var children := ExpandAll(n, kids, true, depth);
        if children.Err? {
          return Err(children.error);
        }
        r := Ok(Tree(UnionNode, n.obj.String(), n.relation, [], children.value));
      case Intersection(kids) =>
        var children := ExpandAll(n, kids, kids == [], depth);
        if children.Err? {
          return Err(children.error);
        }
        r := Ok(Tree(IntersectionNode, n.obj.String(), n.relation, [], children.value));
      case Exclusion(base, subtract) =>
        var first := ExpandRewrite(n, base, depth);
        if first.Err? {
          return first;
        }
        var second := ExpandRewrite(n, subtract, depth);
        if second.Err? {
          return second;
        }
        assert [first.value] + [second.value] == [first.value, second.value];
        r := Ok(Tree(ExclusionNode, n.obj.String(), n.relation, [], [first.value, second.value]));
    }

    /** A leaf lists every stored subject and expands the usersets among them. */
    method ExpandLeaf(n: Node, depth: nat) returns (r: Result<Tree, Failure>)
      requires at.Pinned() && depth <= G().maxDepth
      modifies this, at.store
      ensures at.Pinned() && visited == old(visited)
      ensures One(r) == Draw(G(), visited, n, Apply(This), depth)
      decreases 2 * (G().maxDepth + 1 - depth), 1, 1
    {
      var tuples := at.Read(n.obj, n.relation);
      hide Snapshot.Pinned;
      var subjects, children := ExpandSubjects(n, tuples, depth);
      if children.Err? {
        return Err(children.error);
      }
      r := Ok(Tree(LeafNode, n.obj.String(), n.relation, subjects, children.value));
    }

    method ExpandSubjects(n: Node, tuples: seq<Tuple>, depth: nat)
      returns (subjects: seq<string>, children: Result<seq<Tree>, Failure>)
      requires at.Pinned() && depth <= G().maxDepth && tuples == Storage.Read(at.view, n.obj, n.relation)
      modifies this, at.store
      ensures at.Pinned() && visited == old(visited)
      ensures children == Draw(G(), visited, n, Edges(DirectEdges(at.view, n)), depth)
      ensures children.Ok? ==> subjects == SubjectStrings(at.view, n)
      decreases 2 * (G().maxDepth + 1 - depth), 1, 0
    {
      ghost var g, path := G(), visited;
      SubjectsStart(g, path, n, depth);
      hide Draw;
      hide SubjectsSoFar;
      hide Snapshot.Pinned;
      hide Storage.Read;
      hide DirectEdges;
      hide SubjectStrings;
      hide Subject.String;
      subjects := [];
      var kids: seq<Tree> := [];
      for i := 0 to |tuples|
        invariant at.Pinned() && visited == path
        invariant SubjectsSoFar(g, path, n, depth, i, subjects, kids)
      {
        var t := tuples[i];
        SubjectsStep(g, path, n, depth, i, subjects, kids);
        subjects := subjects + [t.subject.String()];
        if t.subject.IsUserset() {
          var child := Expand(Node(t.subject.obj, t.subject.relation), depth + 1);
          if child.Err? {
            return subjects, Err(child.error);
          }
          kids := kids + [child.value];
        }
      }
      SubjectsEnd(g, path, n, depth, subjects, kids);
      children := Ok(kids);
    }

    method ExpandWalk(n: Node, tupleset: string, computed: string, depth: nat) returns (r: Result<Tree, Failure>)
      requires at.Pinned() && depth <= G().maxDepth
      modifies this, at.store
      ensures at.Pinned() && visited == old(visited)
      ensures One(r) == Draw(G(), visited, n, Apply(TupleToUserset(tupleset, computed)), depth)
      decreases 2 * (G().maxDepth + 1 - depth), 1
    {
      var tuples := at.Read(n.obj, tupleset);
      ghost var edges := WalkEdges(at.view, n, tupleset, computed);
      DrawEdgesStart(G(), visited, n, TupleToUserset(tupleset, computed), edges, depth);
      hide Draw;
      hide Snapshot.Pinned;
      var children: seq<Tree> := [];
      for i := 0 to |tuples|
        invariant at.Pinned() && visited == old(visited)
        invariant Draw(G(), visited, n, Edges(edges), depth) ==
                  Join(Ok(children), Draw(G(), visited, n, Edges(edges[i..]), depth))
      {
        DrawEdgesStep(G(), visited, n, edges, i, depth);
        var child := Expand(Node(tuples[i].subject.obj, computed), depth + 1);
        if child.Err? {
          return child;
        }
        JoinMore(children, child.value, Draw(G(), visited, n, Edges(edges[i + 1..]), depth));
        children := children + [child.value];
      }
      JoinEnds(Ok(children));
      r := Ok(Tree(TuplesetNode, n.obj.String(), tupleset, [], children));
    }

    method ExpandAll(n: Node, kids: seq<Rewrite>, ghost stop: bool, depth: nat) returns (r: Result<seq<Tree>, Failure>)
      requires at.Pinned() && depth <= G().maxDepth
      modifies this, at.store
      ensures at.Pinned() && visited == old(visited)
      ensures r == Draw(G(), visited, n, Children(kids, stop), depth)
      decreases 2 * (G().maxDepth + 1 - depth), WeightAll(kids)
    {
      JoinEnds(Draw(G(), visited, n, Children(kids, stop), depth));
      assert Draw(G(), visited, n, Children(kids[|kids|..], stop), depth) == Ok([]);
      hide Draw;
      hide Snapshot.Pinned;
      var children: seq<Tree> := [];
      for i := 0 to |kids|
        invariant at.Pinned() && visited == old(visited)
        invariant Draw(G(), visited, n, Children(kids, stop), depth) ==
                  Join(Ok(children), Draw(G(), visited, n, Children(kids[i..], stop), depth))
      {
        ChildWeight(kids, i);
        DrawChildrenStep(G(), visited, n, kids, stop, i, depth);
        var child := ExpandRewrite(n, kids[i], depth);
        if child.Err? {
          return Err(child.error);
        }
        JoinMore(children, child.value, Draw(G(), visited, n, Children(kids[i + 1..], stop), depth));
        children := children + [child.value];
      }
      JoinEnds(Ok(children));
      r := Ok(children);
    }
  }

  lemma DrawEdgesStart(g: Graph, visited: set<string>, n: Node, rw: Rewrite, edges: seq<Edge>, depth: nat)
    requires depth <= g.maxDepth && !rw.Exclusion? && Unfold(g.view, n, rw) == Edges(edges)
    ensures Draw(g, visited, n, Edges(edges), depth) == Join(Ok([]), Draw(g, visited, n, Edges(edges[0..]), depth))
    ensures Draw(g, visited, n, Edges(edges[|edges|..]), depth) == Ok([])
    ensures Draw(g, visited, n, Apply(rw), depth) == Gather(g.view, n, rw, Draw(g, visited, n, Edges(edges), depth))
  {
    assert edges[0..] == edges;
    JoinEnds(Draw(g, visited, n, Edges(edges), depth));
  }

  /** After i tuples of a leaf: the subjects listed, and the trees drawn so far. */
  ghost predicate SubjectsSoFar(g: Graph, path: set<string>, n: Node, depth: nat, i: nat,
                                subjects: seq<string>, kids: seq<Tree>)
  {
    var edges, strings := DirectEdges(g.view, n), SubjectStrings(g.view, n);
    depth <= g.maxDepth && i <= |edges| && subjects == strings[..i] &&
    Draw(g, path, n, Edges(edges), depth) == Join(Ok(kids), Draw(g, path, n, Edges(edges[i..]), depth))
  }

  lemma SubjectsStart(g: Graph, path: set<string>, n: Node, depth: nat)
    requires depth <= g.maxDepth
    ensures SubjectsSoFar(g, path, n, depth, 0, [], [])
  {
    DrawEdgesStart(g, path, n, This, DirectEdges(g.view, n), depth);
  }

  lemma SubjectsStep(g: Graph, path: set<string>, n: Node, depth: nat, i: nat, subjects: seq<string>, kids: seq<Tree>)
    requires SubjectsSoFar(g, path, n, depth, i, subjects, kids) && i < |Storage.Read(g.view, n.obj, n.relation)|
    ensures var t := Storage.Read(g.view, n.obj, n.relation)[i];
            var m, more := Node(t.subject.obj, t.subject.relation), subjects + [t.subject.String()];
            if !t.subject.IsUserset() then SubjectsSoFar(g, path, n, depth, i + 1, more, kids)
            else match Draw(g, path, m, Ask(m), depth + 1)
              case Ok(drawn) => SubjectsSoFar(g, path, n, depth, i + 1, more, kids + drawn)
              case Err(e) => Draw(g, path, n, Edges(DirectEdges(g.view, n)), depth) == Err(e)
  {
    var t := Storage.Read(g.view, n.obj, n.relation)[i];
    var edges := DirectEdges(g.view, n);
    DrawEdgesStep(g, path, n, edges, i, depth);
    hide Draw;
    if t.subject.IsUserset() {
      var m := Node(t.subject.obj, t.subject.relation);
      var drawn := Draw(g, path, m, Ask(m), depth + 1);
      if drawn.Ok? {
        assert drawn.value == [drawn.value[0]] by { assert |drawn.value| == 1; }
        JoinMore(kids, drawn.value[0], Draw(g, path, n, Edges(edges[i + 1..]), depth));
      }
    }
  }

  lemma SubjectsEnd(g: Graph, path: set<string>, n: Node, depth: nat, subjects: seq<string>, kids: seq<Tree>)
    requires SubjectsSoFar(g, path, n, depth, |Storage.Read(g.view, n.obj, n.relation)|, subjects, kids)
    ensures Draw(g, path, n, Edges(DirectEdges(g.view, n)), depth) == Ok(kids) && subjects == SubjectStrings(g.view, n)
  {
    var edges := DirectEdges(g.view, n);
    assert edges[|edges|..] == [];
    JoinEnds(Ok(kids));
  }

  lemma DrawChildrenStep(g: Graph, visited: set<string>, n: Node, kids: seq<Rewrite>, stop: bool, i: nat, depth: nat)
    requires depth <= g.maxDepth && i < |kids|
    ensures Draw(g, visited, n, Children(kids[i..], stop), depth) ==
            Join(Draw(g, visited, n, Apply(kids[i]), depth), Draw(g, visited, n, Children(kids[i + 1..], stop), depth))
  {
    assert kids[i..][1..] == kids[i + 1..];
  }

  lemma AskAnywhereDraws(g: Graph, visited: set<string>, n: Node, m: Node, depth: nat)
    requires FitsGraph(g, Ask(m), depth)
    ensures Draw(g, visited, n, Ask(m), depth) == Draw(g, visited, m, Ask(m), depth)
  {
  }

  lemma DrawEdgesStep(g: Graph, visited: set<string>, n: Node, edges: seq<Edge>, i: nat, depth: nat)
    requires depth <= g.maxDepth && i < |edges|
    ensures Draw(g, visited, n, Edges(edges[i..]), depth) ==
            match edges[i]
            case Plain(_) => Draw(g, visited, n, Edges(edges[i + 1..]), depth)
            case To(m) => Join(Draw(g, visited, m, Ask(m), depth + 1), Draw(g, visited, n, Edges(edges[i + 1..]), depth))
  {
    assert edges[i..][0] == edges[i] && edges[i..][1..] == edges[i + 1..];
    if edges[i].To? {
      AskAnywhereDraws(g, visited, n, edges[i].node, depth + 1);
    }
  }

  /** An explanation names no subject; any will do to say which nodes depend on which. */
  const ANYONE := Subject(Object("", ""), "")

  lemma ExpandedExactly(schema: Schema, view: seq<Tuple>, maxDepth: int, root: Node)
    ensures var g, s := Graph(schema, view, EffectiveDepth(maxDepth)), Scene(schema, view, ANYONE);
            var r, limit := Explain(g, root), if maxDepth > 0 then maxDepth else 32;
            PlainNode(root) && PlainNames(schema, view) ==>
              (r.Ok? <==> RoutesFit(s, root, limit)) &&
              (Work.Enclosed(s, root, limit) ==> r != Err(DepthExceeded)) &&
              (Work.Manageable(s, root, limit) ==> r.Ok?)
  {
    var g, s := Graph(schema, view, EffectiveDepth(maxDepth)), Scene(schema, view, ANYONE);
    hide Explain;
    hide RoutesFit;
    hide PlainNode;
    hide PlainNames;
    hide Work.Encloses;
    if PlainNode(root) && PlainNames(schema, view) {
      ExplainedExactly(g, s, root);
      if R :| Work.Encloses(s, R, root, g.maxDepth) { FewPairsAreExplained(g, s, R, root); }
      if R :| Work.Encloses(s, R, root, g.maxDepth) && forall n :: n in R ==> Defined(schema, n) {
        FewPairsAreExplained(g, s, R, root);
      }
    }
  }

  lemma Drawn(g: Graph, root: Node, r: Result<Tree, Failure>)
    requires One(r) == Draw(g, {}, root, Ask(root), 0)
    ensures match r
            case Ok(t) => Explain(g, root) == Ok([t])
            case Err(e) => Explain(g, root) == Err(e)
  {
  }

  datatype Explanation = Explanation(tree: Tree, revision: nat)

  /** Whatever other clients write meanwhile, the tree drawn is that of the snapshot
      the request resolved to. */
  method Expand(engine: Engine, obj: Object, relation: string, revision: nat) returns (r: Result<Explanation, Failure>)
    requires engine.store.Valid()
    modifies engine.store
    ensures engine.store.Valid() && Grown(old(engine.store.Contents()), engine.store)
    ensures var rev := if revision == 0 then old(engine.store.head) else revision;
            var g := Graph(engine.schema, View(old(engine.store.rows), rev), EffectiveDepth(engine.maxDepth));
            match r
            case Ok(e) => Explain(g, Node(obj, relation)) == Ok([e.tree]) && e.revision == rev
            case Err(why) => Explain(g, Node(obj, relation)) == Err(why)
    ensures var s := old(engine.ContextAt(ANYONE, if revision == 0 then engine.store.head else revision)).scene;
            var root, limit := Node(obj, relation), if engine.maxDepth > 0 then engine.maxDepth else 32;
            PlainNode(root) && PlainNames(s.schema, s.view) ==>
              (r.Ok? <==> RoutesFit(s, root, limit)) &&
              (Work.Enclosed(s, root, limit) ==> r != Err(DepthExceeded)) &&
              (Work.Manageable(s, root, limit) ==> r.Ok?)
  {
    hide View;
    hide Explain;
    hide PlainNames;
    hide PlainNode;
    hide RoutesFit;
    hide Work.Enclosed;
    hide Work.Manageable;
    var rev := revision;
    if rev == 0 {
      rev := engine.store.Head();
    }
    var at := new Snapshot(engine.store, rev);
    var explainer := new Explainer(engine.schema, at, engine.maxDepth);
    assert FitsGraph(explainer.G(), Ask(Node(obj, relation)), 0);
    var tree := explainer.Expand(Node(obj, relation), 0);
    ExpandedExactly(engine.schema, at.view, engine.maxDepth, Node(obj, relation));
    Drawn(explainer.G(), Node(obj, relation), tree);
    match tree
    case Err(why) => r := Err(why);
    case Ok(t) => r := Ok(Explanation(t, rev));
  }
}
