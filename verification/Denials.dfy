/** Which denials can be trusted.

    A back edge answers false, and that false is memoised and cached, so on
    cyclic data a recorded denial may be wrong. In schemas of unions alone a cold
    request's own answer is exact all the same, and what it recorded is right
    exactly when no node it denied has an edge to one it allowed. In the full
    language every answer whose dependencies are acyclic is exact. */
module Denials {
  import opened Names
  import opened Schemas
  import opened Semantics
  import opened Checks
  import Grants

  // ---- Cyclic data, unions only, cold cache ------------------------------------------

  /** Edge e cannot grant: it does not name the subject, and its node is among W. */
  ghost predicate Dead(s: Scene, W: set<Node>, e: Edge) {
    e != Plain(s.subject) && (e.To? ==> e.node in W)
  }

  ghost predicate Exhausted(s: Scene, W: set<Node>, n: Node, task: Task) {
    forall e :: Occurs(s.view, n, task, e, true) ==> Dead(s, W, e)
  }

  /** Everything a denied node could be granted through is memoised too or still
      being visited; the cache knows no more than the memo. */
  ghost predicate Explored(c: Context, st: State) {
    && (forall m :: m in st.memo && !st.memo[m] ==>
          Rule(c.scene.schema, m).Ok? &&
          Exhausted(c.scene, st.memo.Keys + st.visiting, m, Apply(Rule(c.scene.schema, m).value)))
    && (c.cached ==> forall m :: c.Key(m) in st.cache ==> m in st.memo)
  }

  ghost predicate AllDenied(st: State) { forall m :: m in st.memo ==> !st.memo[m] }

  /** What a task that did not fail leaves behind. */
  ghost predicate Searched(c: Context, st: State, n: Node, task: Task, o: Outcome, st': State) {
    && Explored(c, st')
    && (o == Answer(false) ==> Exhausted(c.scene, st'.memo.Keys + st'.visiting, n, task))
    && (o == Answer(false) && AllDenied(st) ==> AllDenied(st'))
  }

  lemma ExhaustedGrows(s: Scene, W: set<Node>, W': set<Node>, n: Node, task: Task)
    requires W <= W' && Exhausted(s, W, n, task)
    ensures Exhausted(s, W', n, task)
  {
  }

  lemma LeaveExplored(c: Context, st: State, m: Node, allowed: bool)
    requires Explored(c, st) && m in st.visiting && Rule(c.scene.schema, m).Ok?
    requires !allowed ==> Exhausted(c.scene, st.memo.Keys + st.visiting, m, Apply(Rule(c.scene.schema, m).value))
    ensures Explored(c, Leave(c, st, m, Answer(allowed)))
    ensures !allowed && AllDenied(st) ==> AllDenied(Leave(c, st, m, Answer(allowed)))
  {
    var st' := Leave(c, st, m, Answer(allowed));
    assert st'.memo.Keys == st.memo.Keys + {m};
    assert st'.memo.Keys + st'.visiting == st.memo.Keys + st.visiting;
  }

  /** The search leaves nothing behind a denial unexplored. */
  lemma {:induction false} DenialsAreExplored(c: Context, st: State, n: Node, task: Task, depth: nat)
    requires Fits(c, task, depth) && UnionOnly(c.scene.schema) && MonotoneTask(task, false)
    requires Explored(c, st) && Exec(c, st, n, task, depth).0.Answer?
    ensures var (o, st') := Exec(c, st, n, task, depth);
            Searched(c, st, n, task, o, st')
    decreases Fuel(c, task, depth), task.Load(), task.Length()
  {
    hide Explored;
    hide AllDenied;
    var s := c.scene;
    var (o, st') := Exec(c, st, n, task, depth);
    match task
    case Ask(m) =>
      if Expands(c, st, m, depth) {
        var entered := Enter(st, m, depth);
        EnterExplored(c, st, m, depth);
        DenialsAreExplored(c, entered, m, Apply(Rule(s.schema, m).value), depth);
        var after := Exec(c, entered, m, Apply(Rule(s.schema, m).value), depth).1;
        ExecExtends(c, entered, m, Apply(Rule(s.schema, m).value), depth);
        assert m in after.visiting;
        hide Exhausted;
        LeaveExplored(c, after, m, o.allowed);
        AskedIsExhausted(s, st'.memo.Keys + st'.visiting, n, m);
      } else {
        RememberedIsExplored(c, st, n, m, depth);
      }
    case Apply(rw) =>
      var next := Unfold(s.view, n, rw);
      DenialsAreExplored(c, st, n, next, DepthOf(next, depth));
    case Children(rws, stop) =>
      if rws != [] {
        DenialsAreExplored(c, st, n, Apply(rws[0]), depth);
        var (o1, st1) := Exec(c, st, n, Apply(rws[0]), depth);
        if o1 == Answer(false) {
          DenialsAreExplored(c, st1, n, Children(rws[1..], stop), depth);
          ExecExtends(c, st1, n, Children(rws[1..], stop), depth);
          ExhaustedGrows(s, st1.memo.Keys + st1.visiting, st'.memo.Keys + st'.visiting, n, Apply(rws[0]));
        }
      }
    case Edges(es) =>
      if es != [] {
        assert forall e :: e in es ==> e == es[0] || e in es[1..];
        if es[0].To? {
          DenialsAreExplored(c, st, n, Ask(es[0].node), depth + 1);
          var (o1, st1) := Exec(c, st, n, Ask(es[0].node), depth + 1);
          if o1 == Answer(false) {
            assert Occurs(s.view, n, Ask(es[0].node), es[0], true);
            DenialsAreExplored(c, st1, n, Edges(es[1..]), depth);
            ExecExtends(c, st1, n, Edges(es[1..]), depth);
          }
        } else if es[0] != Plain(s.subject) {
          DenialsAreExplored(c, st, n, Edges(es[1..]), depth);
        }
      }
  }

  lemma EnterExplored(c: Context, st: State, m: Node, depth: nat)
    requires Explored(c, st)
    ensures Explored(c, Enter(st, m, depth)) && AllDenied(Enter(st, m, depth)) == AllDenied(st)
  {
    var entered := Enter(st, m, depth);
    forall x | x in st.memo && !st.memo[x]
      ensures Exhausted(c.scene, entered.memo.Keys + entered.visiting, x, Apply(Rule(c.scene.schema, x).value))
    {
      ExhaustedGrows(c.scene, st.memo.Keys + st.visiting, entered.memo.Keys + entered.visiting, x,
                     Apply(Rule(c.scene.schema, x).value));
    }
  }

  lemma AskedIsExhausted(s: Scene, W: set<Node>, n: Node, m: Node)
    requires m in W
    ensures Exhausted(s, W, n, Ask(m))
  {
  }

  lemma RememberedIsExplored(c: Context, st: State, n: Node, m: Node, depth: nat)
    requires Fits(c, Ask(m), depth) && !Expands(c, st, m, depth)
    requires Explored(c, st) && Exec(c, st, n, Ask(m), depth).0.Answer?
    ensures var (o, st') := Exec(c, st, n, Ask(m), depth);
            Searched(c, st, n, Ask(m), o, st')
  {
    var st' := Exec(c, st, n, Ask(m), depth).1;
    assert st'.memo == st.memo && st'.visiting == st.visiting && st'.cache == st.cache;
    assert m in st.memo.Keys + st.visiting;
  }

  /** The cache holds nothing for this subject and revision. */
  ghost predicate Cold(c: Context, cache: map<CacheKey, bool>) {
    c.cached ==> forall m: Node :: c.Key(m) !in cache
  }

  /** A denied node has an edge to an allowed one: the trace of a denial recorded
      too early, which a caller can read off the memo and the stored tuples. */
  ghost predicate Contradicted(s: Scene, memo: map<Node, bool>) {
    exists m, x :: Contradicts(s, memo, m, x)
  }

  ghost predicate Contradicts(s: Scene, memo: map<Node, bool>, m: Node, x: Node) {
    m in memo && !memo[m] && x in memo && memo[x] &&
    Rule(s.schema, m).Ok? && Occurs(s.view, m, Apply(Rule(s.schema, m).value), To(x), true)
  }

  /** With nothing contradicted, all the recorded denials are right together. */
  lemma UncontradictedDenials(c: Context, st: State)
    requires UnionOnly(c.scene.schema) && Explored(c, st) && st.visiting == {} && !Contradicted(c.scene, st.memo)
    ensures forall m :: m in st.memo && !st.memo[m] ==> !Reachable(c.scene, m)
  {
    var s := c.scene;
    var W := set m | m in st.memo && !st.memo[m];
    var X := iset m | m !in W;
    forall m | m in W ensures !Holds(s, X, m, true) {
      var rule := Apply(Rule(s.schema, m).value);
      forall e | Occurs(s.view, m, rule, e, true) ensures Dead(s, W, e) {
        assert Dead(s, st.memo.Keys + st.visiting, e);
        if e.To? {
          assert !Contradicts(s, st.memo, m, e.node);
        }
      }
      ExhaustedDenies(s, W, X, m);
    }
    UnionOnlyIsExclusionFree(s.schema);
    assert Closed(s, {}, X, true);
    forall m | m in W ensures !Reachable(s, m) {
      GrantedIsReachable(s, m);
    }
  }

  /** In a schema of unions a node with an edge to a reachable one is reachable. */
  lemma ContradictedIsReachable(s: Scene, m: Node, x: Node)
    requires UnionOnly(s.schema) && Rule(s.schema, m).Ok?
    requires Occurs(s.view, m, Apply(Rule(s.schema, m).value), To(x), true) && Reachable(s, x)
    ensures Reachable(s, m)
  {
    UnionOnlyIsExclusionFree(s.schema);
    GrantedIsReachable(s, x);
    AnyEdgeGrants(s, Granted(s), m, Apply(Rule(s.schema, m).value), To(x));
    GrantedIsFixpoint(s, m);
    GrantedIsReachable(s, m);
  }

  lemma ColdRunIsExplored(c: Context, cache: map<CacheKey, bool>, root: Node)
    requires UnionOnly(c.scene.schema) && Cold(c, cache) && Run(c, cache, root).0.Answer?
    ensures var (o, st') := Run(c, cache, root);
            Explored(c, st') && st'.visiting == {} && (o == Answer(false) ==> root in st'.memo && AllDenied(st'))
    ensures var (o, st') := Run(c, cache, root);
            (o == Answer(true) ==> Reachable(c.scene, root)) &&
            forall m :: m in st'.memo && st'.memo[m] ==> Reachable(c.scene, m)
  {
    DenialsAreExplored(c, Fresh(cache), root, Ask(root), 0);
    ExecExtends(c, Fresh(cache), root, Ask(root), 0);
    assert Occurs(c.scene.view, root, Ask(root), To(root), true);
    Grants.AllowsAreReachable(c, cache, root);
  }

  /** In schemas of direct tuples, computed usersets, walks and unions, a cold
      request that returns no error allows exactly the reachable, on any cyclic
      data -- and when it denies, every denial it recorded on the way is right. */
  lemma ColdAnswersAreExact(c: Context, cache: map<CacheKey, bool>, root: Node)
    requires UnionOnly(c.scene.schema) && Cold(c, cache)
    ensures var (o, st') := Run(c, cache, root);
            (o.Answer? ==> (o.allowed <==> Reachable(c.scene, root))) &&
            (o == Answer(false) ==> forall m :: m in st'.memo ==> !st'.memo[m] && !Reachable(c.scene, m))
  {
    var (o, st') := Run(c, cache, root);
    if o.Answer? {
      ColdRunIsExplored(c, cache, root);
    }
    if o == Answer(false) {
      hide Explored;
      UncontradictedDenials(c, st');
    }
  }

  /** When it allows, what it recorded is right exactly when no node it denied has
      an edge to one it allowed. */
  lemma RecordedDenialsAreRightUnlessContradicted(c: Context, cache: map<CacheKey, bool>, root: Node)
    requires UnionOnly(c.scene.schema) && Cold(c, cache) && Run(c, cache, root).0.Answer?
    ensures var memo := Run(c, cache, root).1.memo;
            (forall m :: m in memo ==> (memo[m] <==> Reachable(c.scene, m))) <==> !Contradicted(c.scene, memo)
  {
    var st' := Run(c, cache, root).1;
    ColdRunIsExplored(c, cache, root);
    hide Explored;
    if Contradicted(c.scene, st'.memo) {
      var m, x :| Contradicts(c.scene, st'.memo, m, x);
      ContradictedIsReachable(c.scene, m, x);
    } else {
      UncontradictedDenials(c, st');
    }
  }

  lemma ExhaustedDenies(s: Scene, W: set<Node>, X: iset<Node>, m: Node)
    requires UnionOnly(s.schema) && Rule(s.schema, m).Ok?
    requires Exhausted(s, W, m, Apply(Rule(s.schema, m).value)) && forall x :: x in W ==> x !in X
    ensures !Holds(s, X, m, true)
  {
    var rule := Apply(Rule(s.schema, m).value);
    UnionOnlyIsExclusionFree(s.schema);
    if Holds(s, X, m, true) {
      SameWithoutExclusion(s, X, m, rule);
      var e := GrantingEdge(s, X, m, rule);
      OccursWeaken(s.view, m, rule, e);
      assert false;
    }
  }

  // ---- Acyclic data, the full language, any history of the cache --------------------------

  /** Every decision recorded for a node of the region agrees with X. */
  ghost predicate Agrees(c: Context, st: State, rank: map<Node, nat>, X: iset<Node>) {
    && (forall m :: m in st.memo && m in rank ==> (st.memo[m] <==> m in X))
    && (c.cached ==> forall m :: m in rank && c.Key(m) in st.cache ==> (st.cache[c.Key(m)] <==> m in X))
  }

  /** All nodes `task` can ask lie in the region. */
  ghost predicate Inside(view: seq<Tuple>, rank: map<Node, nat>, n: Node, task: Task) {
    forall m :: Occurs(view, n, task, To(m), true) ==> m in rank
  }

  /** Whatever `task` asks in the region lies strictly below everything being
      visited there, so no back edge is met; and the region is never left. */
  ghost predicate Below(view: seq<Tuple>, visiting: set<Node>, rank: map<Node, nat>, n: Node, task: Task) {
    forall m :: Occurs(view, n, task, To(m), true) ==>
      forall v :: v in visiting && v in rank ==> m in rank && rank[m] < rank[v]
  }

  lemma PartBelow(view: seq<Tuple>, visiting: set<Node>, rank: map<Node, nat>, n: Node, part: Task, task: Task)
    requires PartOf(view, n, part, task, true)
    ensures Below(view, visiting, rank, n, task) ==> Below(view, visiting, rank, n, part)
    ensures Inside(view, rank, n, task) ==> Inside(view, rank, n, part)
  {
  }

  lemma LeaveAgrees(c: Context, st: State, rank: map<Node, nat>, X: iset<Node>, m: Node, o: Outcome)
    requires Agrees(c, st, rank, X) && (m in rank && o.Answer? ==> (o.allowed <==> m in X))
    ensures Agrees(c, Leave(c, st, m, o), rank, X)
  {
  }

  lemma RememberedAgrees(c: Context, st: State, rank: map<Node, nat>, X: iset<Node>, n: Node, m: Node, depth: nat)
    requires Fits(c, Ask(m), depth) && !Expands(c, st, m, depth)
    requires Agrees(c, st, rank, X) && (m in rank ==> m !in st.visiting)
    ensures var (o, st') := Exec(c, st, n, Ask(m), depth);
            Agrees(c, st', rank, X) && (m in rank && o.Answer? ==> (o.allowed <==> m in X))
  {
  }

  lemma {:induction false} AcyclicAnswersAgree(c: Context, st: State, rank: map<Node, nat>, X: iset<Node>,
                                               n: Node, task: Task, depth: nat)
    requires Fits(c, task, depth) && Descends(c.scene.schema, c.scene.view, rank) && Solves(c.scene, rank, X)
    requires Agrees(c, st, rank, X) && Below(c.scene.view, st.visiting, rank, n, task)
    ensures var (o, st') := Exec(c, st, n, task, depth);
            Agrees(c, st', rank, X) &&
            (Inside(c.scene.view, rank, n, task) && o.Answer? ==> (o.allowed <==> Sem(c.scene, X, n, task, true)))
    decreases Fuel(c, task, depth), task.Load(), task.Length()
  {
    hide Agrees;
    hide Leave;
    hide Descends;
    hide Solves;
    hide Below;
    hide Inside;
    hide Occurs;
    hide PartOf;
    var s := c.scene;
    Parts(s.view, n, task, true);
    match task
    case Ask(m) =>
      AskBelow(s, st.visiting, rank, n, m);
      if Expands(c, st, m, depth) {
        var entered := Enter(st, m, depth);
        assert Agrees(c, entered, rank, X) by { SameAgrees(c, st, entered, rank, X); }
        match Rule(s.schema, m)
        case Ok(rw) =>
          AcyclicAnswersAgree(c, entered, rank, X, m, Apply(rw), depth);
          var (o, after) := Exec(c, entered, m, Apply(rw), depth);
          assert m in rank ==> (m in X <==> Holds(s, X, m, true)) by { SolvesAt(s, rank, X, m); }
          LeaveAgrees(c, after, rank, X, m, o);
        case Err(e) => LeaveAgrees(c, entered, rank, X, m, Failed(e));
      } else {
        RememberedAgrees(c, st, rank, X, n, m, depth);
      }
    case Apply(rw) =>
      if rw.Exclusion? {
        PartBelow(s.view, st.visiting, rank, n, Apply(rw.base), task);
        PartBelow(s.view, st.visiting, rank, n, Apply(rw.subtract), task);
        AcyclicAnswersAgree(c, st, rank, X, n, Apply(rw.base), depth);
        ExecExtends(c, st, n, Apply(rw.base), depth);
        AcyclicAnswersAgree(c, Exec(c, st, n, Apply(rw.base), depth).1, rank, X, n, Apply(rw.subtract), depth);
      } else {
        var next := Unfold(s.view, n, rw);
        PartBelow(s.view, st.visiting, rank, n, next, task);
        AcyclicAnswersAgree(c, st, rank, X, n, next, DepthOf(next, depth));
      }
    case Children(rws, stop) =>
      if rws != [] {
        PartBelow(s.view, st.visiting, rank, n, Apply(rws[0]), task);
        PartBelow(s.view, st.visiting, rank, n, Children(rws[1..], stop), task);
        AcyclicAnswersAgree(c, st, rank, X, n, Apply(rws[0]), depth);
        ExecExtends(c, st, n, Apply(rws[0]), depth);
        AcyclicAnswersAgree(c, Exec(c, st, n, Apply(rws[0]), depth).1, rank, X, n, Children(rws[1..], stop), depth);
      }
    case Edges(es) =>
      if es != [] {
        EdgesSplit(s, X, n, es);
        PartBelow(s.view, st.visiting, rank, n, Edges(es[1..]), task);
        if es[0].To? {
          PartBelow(s.view, st.visiting, rank, n, Ask(es[0].node), task);
          AcyclicAnswersAgree(c, st, rank, X, n, Ask(es[0].node), depth + 1);
          ExecExtends(c, st, n, Ask(es[0].node), depth + 1);
          AcyclicAnswersAgree(c, Exec(c, st, n, Ask(es[0].node), depth + 1).1, rank, X, n, Edges(es[1..]), depth);
        } else {
          AcyclicAnswersAgree(c, st, rank, X, n, Edges(es[1..]), depth);
        }
      }
  }

  lemma SameAgrees(c: Context, st: State, st': State, rank: map<Node, nat>, X: iset<Node>)
    requires Agrees(c, st, rank, X) && st'.memo == st.memo && st'.cache == st.cache
    ensures Agrees(c, st', rank, X)
  {
  }

  lemma SolvesAt(s: Scene, rank: map<Node, nat>, X: iset<Node>, m: Node)
    requires Solves(s, rank, X)
    ensures m in rank ==> (m in X <==> Holds(s, X, m, true))
  {
  }

  lemma AskBelow(s: Scene, visiting: set<Node>, rank: map<Node, nat>, n: Node, m: Node)
    requires Descends(s.schema, s.view, rank) && Below(s.view, visiting, rank, n, Ask(m))
    ensures m in rank ==> m !in visiting
    ensures Inside(s.view, rank, n, Ask(m)) ==> m in rank
    ensures Rule(s.schema, m).Ok? ==>
              Below(s.view, visiting + {m}, rank, m, Apply(Rule(s.schema, m).value)) &&
              (m in rank ==> Inside(s.view, rank, m, Apply(Rule(s.schema, m).value)))
  {
    assert Occurs(s.view, n, Ask(m), To(m), true);
  }

  lemma EdgesSplit(s: Scene, X: iset<Node>, n: Node, es: seq<Edge>)
    requires es != []
    ensures Sem(s, X, n, Edges(es), true) <==> Fires(s, X, es[0]) || Sem(s, X, n, Edges(es[1..]), true)
  {
    assert es == [es[0]] + es[1..];
  }

  /** In the full language, an error-free check whose dependencies are acyclic
      answers the plain recursive meaning -- no memo, cache, visiting set or
      short-circuit -- provided the shared cache's entries for that region were
      right. Any request, inside the region or not, keeps them right. */
  lemma AcyclicChecksAreExact(c: Context, cache: map<CacheKey, bool>, rank: map<Node, nat>, X: iset<Node>, root: Node)
    requires Descends(c.scene.schema, c.scene.view, rank) && Solves(c.scene, rank, X)
    requires Agrees(c, Fresh(cache), rank, X)
    ensures var (o, st') := Run(c, cache, root);
            Agrees(c, st', rank, X) && (root in rank && o.Answer? ==> (o.allowed <==> root in X))
  {
    AcyclicAnswersAgree(c, Fresh(cache), rank, X, root, Ask(root), 0);
  }
}
