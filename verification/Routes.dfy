/** When a pair can be explained: exactly when no dependency path from it runs too far
    or into something undefined. */
module Routes {
  import opened Names
  import opened Schemas
  import opened Storage
  import opened Semantics
  import opened Checks
  import opened Expands
  import opened Acyclicity
  import Work

  /** A dependency path that avoids V and repeats no node, its last aside. */
  ghost predicate Route(s: Scene, V: set<Node>, path: seq<Node>) {
    Chain(s, path) && Unrepeated(V, path)
  }

  ghost predicate Unrepeated(V: set<Node>, path: seq<Node>) {
    forall i :: 0 <= i < |path| - 1 ==> path[i] !in V && forall j :: 0 <= j < i ==> path[j] != path[i]
  }

  lemma RouteOfOne(s: Scene, V: set<Node>, m: Node)
    ensures Route(s, V, [m])
  {
  }

  lemma RouteGoesOn(s: Scene, V: set<Node>, m: Node, path: seq<Node>)
    requires m !in V && path != [] && DependsOn(s, m, path[0]) && Route(s, V + {m}, path)
    ensures Route(s, V, [m] + path)
  {
    hide DependsOn;
    var p := [m] + path;
    forall i | 0 <= i < |p| - 1 ensures DependsOn(s, p[i], p[i + 1]) {
      if i > 0 { assert DependsOn(s, path[i - 1], path[i]); }
    }
    forall i | 0 <= i < |p| - 1 ensures p[i] !in V && forall j :: 0 <= j < i ==> p[j] != p[i] {
      if i > 0 { assert path[i - 1] !in V + {m}; }
    }
  }

  lemma RouteWithoutFirst(s: Scene, V: set<Node>, path: seq<Node>)
    requires Route(s, V, path) && |path| > 1
    ensures path[0] !in V && DependsOn(s, path[0], path[1]) && Route(s, V + {path[0]}, path[1..])
  {
    hide DependsOn;
    var rest := path[1..];
    forall i | 0 <= i < |rest| - 1 ensures DependsOn(s, rest[i], rest[i + 1]) {
      assert DependsOn(s, path[i + 1], path[i + 2]);
    }
    forall i | 0 <= i < |rest| - 1
      ensures rest[i] !in V + {path[0]} && forall j :: 0 <= j < i ==> rest[j] != rest[i]
    {
      assert path[i + 1] == rest[i];
    }
  }

  // ---- What a task draws is what it asks -----------------------------------------------------

  lemma {:induction false} DrawnAsks(g: Graph, visited: set<string>, n: Node, task: Task, depth: nat, m: Node)
    requires !task.Ask? && depth <= g.maxDepth && Draw(g, visited, n, task, depth).Ok?
    requires Occurs(g.view, n, task, To(m), true)
    ensures Draw(g, visited, n, Ask(m), depth + 1).Ok?
    decreases task.Load(), task.Length()
  {
    match task
    case Apply(rw) =>
      if rw.Exclusion? {
        if Occurs(g.view, n, Apply(rw.base), To(m), true) {
          DrawnAsks(g, visited, n, Apply(rw.base), depth, m);
        } else {
          DrawnAsks(g, visited, n, Apply(rw.subtract), depth, m);
        }
      } else if !rw.ComputedUserset? {
        DrawnAsks(g, visited, n, Unfold(g.view, n, rw), depth, m);
      }
    case Children(rws, stop) =>
      if Occurs(g.view, n, Apply(rws[0]), To(m), true) {
        DrawnAsks(g, visited, n, Apply(rws[0]), depth, m);
      } else {
        DrawnAsks(g, visited, n, Children(rws[1..], stop), depth, m);
      }
    case Edges(es) =>
      if es[0] != To(m) {
        assert es == [es[0]] + es[1..];
        DrawnAsks(g, visited, n, Edges(es[1..]), depth, m);
      }
  }

  lemma {:induction false} FailedAsk(g: Graph, visited: set<string>, n: Node, task: Task, depth: nat) returns (m: Node)
    requires !task.Ask? && depth <= g.maxDepth && Draw(g, visited, n, task, depth).Err?
    ensures Occurs(g.view, n, task, To(m), true)
    ensures Draw(g, visited, n, Ask(m), depth + 1) == Draw(g, visited, n, task, depth)
    decreases task.Load(), task.Length()
  {
    match task
    case Apply(rw) =>
      if rw.Exclusion? {
        if Draw(g, visited, n, Apply(rw.base), depth).Err? {
          m := FailedAsk(g, visited, n, Apply(rw.base), depth);
        } else {
          m := FailedAsk(g, visited, n, Apply(rw.subtract), depth);
        }
      } else if rw.ComputedUserset? {
        m := Node(n.obj, rw.relation);
      } else {
        m := FailedAsk(g, visited, n, Unfold(g.view, n, rw), depth);
      }
    case Children(rws, stop) =>
      if Draw(g, visited, n, Apply(rws[0]), depth).Err? {
        m := FailedAsk(g, visited, n, Apply(rws[0]), depth);
      } else {
        m := FailedAsk(g, visited, n, Children(rws[1..], stop), depth);
      }
    case Edges(es) =>
      if es[0].To? && Draw(g, visited, n, Ask(es[0].node), depth + 1).Err? {
        m := es[0].node;
      } else {
        assert es == [es[0]] + es[1..];
        m := FailedAsk(g, visited, n, Edges(es[1..]), depth);
      }
  }

  // ---- Both directions, along a route ---------------------------------------------------------

  /** A graph and the scene its dependencies are read in; every name plain. */
  ghost predicate Readable(g: Graph, s: Scene, V: set<Node>, m: Node) {
    s.schema == g.schema && s.view == g.view && Work.Spans(s, PlainNodes()) &&
    PlainNode(m) && forall v :: v in V ==> PlainNode(v) && Defined(s.schema, v)
  }

  lemma ReadableBelow(g: Graph, s: Scene, V: set<Node>, m: Node, x: Node)
    requires Readable(g, s, V, m) && DependsOn(s, m, x)
    ensures Readable(g, s, V + {m}, x)
  {
    assert m in PlainNodes() && x in PlainNodes();
  }

  lemma DrawAsked(g: Graph, s: Scene, V: set<Node>, n: Node, m: Node, depth: nat)
    requires Readable(g, s, V, m) && depth <= g.maxDepth + 1
    ensures Draw(g, KeysOf(V), n, Ask(m), depth).Ok? <==>
            depth <= g.maxDepth &&
            (m in V || (Rule(g.schema, m).Ok? &&
                        Draw(g, KeysOf(V + {m}), m, Apply(Rule(g.schema, m).value), depth).Ok?))
    ensures Draw(g, KeysOf(V), n, Ask(m), depth).Err? ==>
            Draw(g, KeysOf(V), n, Ask(m), depth) ==
              if depth > g.maxDepth then Err(DepthExceeded)
              else if Rule(g.schema, m).Err? then Err(Rule(g.schema, m).error)
              else Draw(g, KeysOf(V + {m}), m, Apply(Rule(g.schema, m).value), depth)
  {
    CutByKey(V, m);
    hide KeysOf;
  }

  lemma AskAnywhere(g: Graph, visited: set<string>, n: Node, m: Node, x: Node, depth: nat)
    requires depth <= g.maxDepth + 1
    ensures Draw(g, visited, n, Ask(x), depth) == Draw(g, visited, m, Ask(x), depth)
  {
  }

  /** Along any route a drawn node stays within the limit and among the defined. */
  lemma {:induction false} DrawnRoutes(g: Graph, s: Scene, V: set<Node>, n: Node, depth: nat, path: seq<Node>)
    requires Route(s, V, path) && Readable(g, s, V, path[0]) && depth <= g.maxDepth + 1
    requires Draw(g, KeysOf(V), n, Ask(path[0]), depth).Ok?
    ensures depth + |path| <= g.maxDepth + 1
    ensures Defined(g.schema, path[|path| - 1])
    decreases |path|
  {
    hide Draw;
    hide Readable;
    hide KeysOf;
    var m := path[0];
    DrawAsked(g, s, V, n, m, depth);
    if |path| > 1 {
      RouteWithoutFirst(s, V, path);
      ReadableBelow(g, s, V, m, path[1]);
      DrawnBelow(g, s, V, m, depth, path[1]);
      DrawnRoutes(g, s, V + {m}, m, depth + 1, path[1..]);
    } else {
      ReadableIsDefined(g, s, V, m);
    }
  }

  lemma ReadableIsDefined(g: Graph, s: Scene, V: set<Node>, m: Node)
    requires Readable(g, s, V, m)
    ensures s.schema == g.schema && s.view == g.view && (m in V ==> Defined(g.schema, m))
  {
  }

  lemma DrawnBelow(g: Graph, s: Scene, V: set<Node>, m: Node, depth: nat, x: Node)
    requires s.schema == g.schema && s.view == g.view && depth <= g.maxDepth && DependsOn(s, m, x)
    requires Draw(g, KeysOf(V + {m}), m, Apply(Rule(g.schema, m).value), depth).Ok?
    ensures Draw(g, KeysOf(V + {m}), m, Ask(x), depth + 1).Ok?
  {
    hide KeysOf;
    DrawnAsks(g, KeysOf(V + {m}), m, Apply(Rule(g.schema, m).value), depth, x);
  }

  /** What makes an explanation fail is at the end of some route. */
  lemma {:induction false} FailedRoute(g: Graph, s: Scene, V: set<Node>, n: Node, m: Node, depth: nat)
    returns (path: seq<Node>)
    requires Readable(g, s, V, m) && depth <= g.maxDepth + 1 && Draw(g, KeysOf(V), n, Ask(m), depth).Err?
    ensures Route(s, V, path) && path[0] == m
    ensures Blames(g, path, depth, Draw(g, KeysOf(V), n, Ask(m), depth).error)
    decreases g.maxDepth + 1 - depth
  {
    hide Draw;
    hide Readable;
    hide KeysOf;
    hide DependsOn;
    DrawAsked(g, s, V, n, m, depth);
    RouteOfOne(s, V, m);
    path := [m];
    ReadableIsDefined(g, s, V, m);
    if depth <= g.maxDepth && Rule(g.schema, m).Ok? {
      var x := FailedBelow(g, s, V, m, depth);
      ReadableBelow(g, s, V, m, x);
      var rest := FailedRoute(g, s, V + {m}, m, x, depth + 1);
      RouteGoesOn(s, V, m, rest);
      path := [m] + rest;
      hide Route;
    }
  }

  /** The path ends past the limit, or within it at an undefined node. */
  ghost predicate Blames(g: Graph, path: seq<Node>, depth: nat, e: Failure) {
    path != [] &&
    if e == DepthExceeded then depth + |path| == g.maxDepth + 2
    else depth + |path| <= g.maxDepth + 1 && Rule(g.schema, path[|path| - 1]) == Err(e)
  }

  lemma FailedBelow(g: Graph, s: Scene, V: set<Node>, m: Node, depth: nat) returns (x: Node)
    requires s.schema == g.schema && s.view == g.view && depth <= g.maxDepth && Rule(g.schema, m).Ok?
    requires Draw(g, KeysOf(V + {m}), m, Apply(Rule(g.schema, m).value), depth).Err?
    ensures DependsOn(s, m, x)
    ensures Draw(g, KeysOf(V + {m}), m, Ask(x), depth + 1) ==
            Draw(g, KeysOf(V + {m}), m, Apply(Rule(g.schema, m).value), depth)
  {
    hide KeysOf;
    x := FailedAsk(g, KeysOf(V + {m}), m, Apply(Rule(g.schema, m).value), depth);
  }

  // ---- When a pair can be explained -----------------------------------------------------------

  /** Every dependency path from the root that repeats no node, its last aside, has at
      most `limit` edges and ends at a defined node. */
  ghost predicate RoutesFit(s: Scene, root: Node, limit: nat) {
    forall path :: Route(s, {}, path) && path[0] == root ==>
      |path| <= limit + 1 && Defined(s.schema, path[|path| - 1])
  }

  /** With plain names an explanation succeeds if and only if every dependency path from
      the pair that repeats no node, its last aside, has at most `maxDepth` edges and ends
      at a defined node. A failure names the end of such a path. */
  lemma ExplainedExactly(g: Graph, s: Scene, root: Node)
    requires s.schema == g.schema && s.view == g.view && PlainNode(root) && PlainNames(g.schema, g.view)
    ensures Explain(g, root).Ok? <==> RoutesFit(s, root, g.maxDepth)
    ensures Explain(g, root).Err? ==>
            exists path :: Route(s, {}, path) && path[0] == root && Blames(g, path, 0, Explain(g, root).error)
  {
    PlainNamesSpan(s);
    hide Draw;
    hide Route;
    hide PlainNode;
    assert KeysOf({}) == {};
    assert Readable(g, s, {}, root);
    if Explain(g, root).Ok? {
      forall path | Route(s, {}, path) && path[0] == root
        ensures |path| <= g.maxDepth + 1 && Defined(g.schema, path[|path| - 1])
      {
        DrawnRoutes(g, s, {}, root, 0, path);
      }
    } else {
      var path := FailedRoute(g, s, {}, root, root, 0);
    }
  }

  lemma {:induction false} DistinctAreFew(R: set<Node>, path: seq<Node>)
    requires forall i :: 0 <= i < |path| ==> path[i] in R && forall j :: 0 <= j < i ==> path[j] != path[i]
    ensures |path| <= |R|
  {
    if path != [] {
      var front, last := path[..|path| - 1], path[|path| - 1];
      DistinctAreFew(R - {last}, front);
    }
  }

  lemma {:induction false} RouteStaysIn(s: Scene, R: set<Node>, path: seq<Node>, i: nat)
    requires Work.Spans(s, Work.AllOf(R)) && Chain(s, path) && path[0] in R && i < |path|
    ensures path[i] in R
  {
    if i > 0 {
      RouteStaysIn(s, R, path, i - 1);
      assert path[i - 1] in Work.AllOf(R) && DependsOn(s, path[i - 1], path[i]);
      assert path[i] in Work.AllOf(R);
    }
  }

  /** A pair below which at most `maxDepth` pairs lie, cycles included, is never too deep
      to explain, and if they are all defined it can be explained. */
  lemma FewPairsAreExplained(g: Graph, s: Scene, R: set<Node>, root: Node)
    requires s.schema == g.schema && s.view == g.view && PlainNode(root) && PlainNames(g.schema, g.view)
    requires Work.Encloses(s, R, root, g.maxDepth)
    ensures Explain(g, root) != Err(DepthExceeded)
    ensures (forall n :: n in R ==> Defined(g.schema, n)) ==> Explain(g, root).Ok?
  {
    ExplainedExactly(g, s, root);
    hide Explain;
    hide Work.Spans;
    hide DependsOn;
    forall path | Route(s, {}, path) && path[0] == root
      ensures |path| <= g.maxDepth + 1 && path[|path| - 1] in R
    {
      forall i: nat | i < |path| ensures path[i] in R { RouteStaysIn(s, R, path, i); }
      DistinctAreFew(R, path[..|path| - 1]);
    }
  }
}
