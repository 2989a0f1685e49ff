/** Grants can be trusted: whatever any request answers, remembers or shares as
    allowed is backed by granting edges, on any data. */
module Grants {
  import opened Names
  import opened Schemas
  import opened Semantics
  import opened Checks

  /** Every remembered or shared allow of this request's subject and revision is in X. */
  ghost predicate TruthsIn(c: Context, st: State, X: iset<Node>) {
    && (forall m :: m in st.memo && st.memo[m] ==> m in X)
    && (c.cached ==> forall m: Node :: c.Key(m) in st.cache && st.cache[c.Key(m)] ==> m in X)
  }

  lemma LeaveTruths(c: Context, st: State, X: iset<Node>, m: Node, o: Outcome)
    requires TruthsIn(c, st, X) && (o == Answer(true) ==> m in X)
    ensures TruthsIn(c, Leave(c, st, m, o), X)
  {
  }

  lemma RememberedTruths(c: Context, st: State, X: iset<Node>, n: Node, m: Node, depth: nat)
    requires Fits(c, Ask(m), depth) && !Expands(c, st, m, depth) && TruthsIn(c, st, X)
    ensures var (o, st') := Exec(c, st, n, Ask(m), depth);
            TruthsIn(c, st', X) && (o == Answer(true) ==> m in X)
  {
  }

  /** Whatever set is closed under the rules (exclusions read as their base), no
      run leaves it: allows stay inside it, cycles, memo and cache included. */
  lemma {:induction false} ExecGrantsWithin(c: Context, st: State, X: iset<Node>, n: Node, task: Task, depth: nat)
    requires Fits(c, task, depth) && Closed(c.scene, {}, X, false) && TruthsIn(c, st, X)
    ensures var (o, st') := Exec(c, st, n, task, depth);
            TruthsIn(c, st', X) && (o == Answer(true) ==> Sem(c.scene, X, n, task, false))
    decreases Fuel(c, task, depth), task.Load(), task.Length()
  {
    hide TruthsIn;
    hide Leave;
    match task
    case Ask(m) =>
      if Expands(c, st, m, depth) {
        var entered := Enter(st, m, depth);
        assert TruthsIn(c, entered, X) by { SameTruths(c, st, entered, X); }
        match Rule(c.scene.schema, m)
        case Ok(rw) =>
          ExecGrantsWithin(c, entered, X, m, Apply(rw), depth);
          var (o, after) := Exec(c, entered, m, Apply(rw), depth);
          assert o == Answer(true) ==> Holds(c.scene, X, m, false);
          LeaveTruths(c, after, X, m, o);
        case Err(e) => LeaveTruths(c, entered, X, m, Failed(e));
      } else {
        RememberedTruths(c, st, X, n, m, depth);
      }
    case Apply(rw) =>
      if rw.Exclusion? {
        ExecGrantsWithin(c, st, X, n, Apply(rw.base), depth);
        ExecGrantsWithin(c, Exec(c, st, n, Apply(rw.base), depth).1, X, n, Apply(rw.subtract), depth);
      } else {
        var next := Unfold(c.scene.view, n, rw);
        ExecGrantsWithin(c, st, X, n, next, DepthOf(next, depth));
      }
    case Children(rws, stop) =>
      if rws != [] {
        ExecGrantsWithin(c, st, X, n, Apply(rws[0]), depth);
        ExecGrantsWithin(c, Exec(c, st, n, Apply(rws[0]), depth).1, X, n, Children(rws[1..], stop), depth);
      }
    case Edges(es) =>
      if es != [] {
        if es[0].To? {
          ExecGrantsWithin(c, st, X, n, Ask(es[0].node), depth + 1);
          var (o, st1) := Exec(c, st, n, Ask(es[0].node), depth + 1);
          assert o == Answer(true) ==> Fires(c.scene, X, es[0]);
          ExecGrantsWithin(c, st1, X, n, Edges(es[1..]), depth);
        } else {
          assert es[0] == Plain(c.scene.subject) ==> Fires(c.scene, X, es[0]);
          ExecGrantsWithin(c, st, X, n, Edges(es[1..]), depth);
        }
      }
  }

  lemma SameTruths(c: Context, st: State, st': State, X: iset<Node>)
    requires TruthsIn(c, st, X) && st'.memo == st.memo && st'.cache == st.cache
    ensures TruthsIn(c, st', X)
  {
  }

  /** In schemas without exclusion, every allow -- answered, memoised or cached --
      lies in the least fixpoint, provided the shared cache's allows did. */
  lemma AllowsAreGranted(c: Context, cache: map<CacheKey, bool>, root: Node)
    requires ExclusionFree(c.scene.schema) && TruthsIn(c, Fresh(cache), Granted(c.scene))
    ensures var (o, st') := Run(c, cache, root);
            TruthsIn(c, st', Granted(c.scene)) && (o == Answer(true) ==> root in Granted(c.scene))
  {
    GrantedIsClosed(c.scene);
    ExecGrantsWithin(c, Fresh(cache), Granted(c.scene), root, Ask(root), 0);
  }

  lemma GrantedIsClosed(s: Scene)
    requires ExclusionFree(s.schema)
    ensures Closed(s, {}, Granted(s), false)
  {
    LfpClosed(s, {});
    forall m | Holds(s, Granted(s), m, false) ensures m in Granted(s) {
      SameWithoutExclusion(s, Granted(s), m, Apply(Rule(s.schema, m).value));
    }
  }

  /** In every schema, every allow has a witness: a path of granting edges to a
      stored tuple naming the subject, provided the shared cache's allows do. */
  lemma AllowsAreReachable(c: Context, cache: map<CacheKey, bool>, root: Node)
    requires TruthsIn(c, Fresh(cache), Backed(c.scene))
    ensures var (o, st') := Run(c, cache, root);
            TruthsIn(c, st', Backed(c.scene)) && (o == Answer(true) ==> Reachable(c.scene, root))
  {
    ReachableClosed(c.scene);
    ExecGrantsWithin(c, Fresh(cache), Backed(c.scene), root, Ask(root), 0);
  }

  // ---- The first match ------------------------------------------------------------

  ghost predicate NoTruths(st: State) { forall m :: m in st.memo ==> !st.memo[m] }

  /** Within the depth left, a granting path starts with `task`. */
  ghost predicate TaskReach(s: Scene, n: Node, task: Task, k: nat) {
    if task.Ask? then Reach(s, task.target, k)
    else exists e :: Occurs(s.view, n, task, e, false) && EdgeReach(s, e, k)
  }

  lemma AskReaches(s: Scene, n: Node, m: Node, k: nat)
    requires Rule(s.schema, m).Ok? && TaskReach(s, m, Apply(Rule(s.schema, m).value), k)
    ensures TaskReach(s, n, Ask(m), k)
  {
  }

  lemma MatchReaches(s: Scene, n: Node, es: seq<Edge>, k: nat)
    requires es != [] && es[0] == Plain(s.subject)
    ensures TaskReach(s, n, Edges(es), k)
  {
    assert Occurs(s.view, n, Edges(es), es[0], false) && EdgeReach(s, es[0], k);
  }

  lemma {:induction false} TaskReachPart(s: Scene, n: Node, part: Task, task: Task, k: nat)
    requires !task.Ask? && PartOf(s.view, n, part, task, false)
    requires if part.Ask? then k > 0 && TaskReach(s, n, part, k - 1) else TaskReach(s, n, part, k)
    ensures TaskReach(s, n, task, k)
  {
    if part.Ask? {
      assert Occurs(s.view, n, part, To(part.target), false) && EdgeReach(s, To(part.target), k);
    }
  }

  /** The first time anything matches, it does so along granting edges from the
      root and within the depth limit: the subtracted side of an exclusion only
      runs after a match. From a state without allows and without a shared cache,
      any allow -- the answer or one in the memo, on success or failure -- proves
      such a path. */
  lemma {:induction false} FirstMatchReaches(c: Context, st: State, n: Node, task: Task, depth: nat)
    requires Fits(c, task, depth) && !c.cached && NoTruths(st)
    requires var (o, st') := Exec(c, st, n, task, depth); o == Answer(true) || !NoTruths(st')
    requires task != Children([], false)
    ensures depth <= c.maxDepth && TaskReach(c.scene, n, task, c.maxDepth - depth)
    decreases Fuel(c, task, depth), task.Load(), task.Length()
  {
    hide TaskReach;
    hide Occurs;
    hide PartOf;
    var s, k := c.scene, c.maxDepth - depth;
    Parts(s.view, n, task, false);
    match task
    case Ask(m) =>
      if Expands(c, st, m, depth) {
        var entered := Enter(st, m, depth);
        assert NoTruths(entered);
        match Rule(s.schema, m)
        case Ok(rw) =>
          FirstMatchReaches(c, entered, m, Apply(rw), depth);
          AskReaches(s, n, m, k);
        case Err(e) =>
      }
    case Apply(rw) =>
      if rw.Exclusion? {
        FirstMatchReaches(c, st, n, Apply(rw.base), depth);
        TaskReachPart(s, n, Apply(rw.base), task, k);
      } else {
        var next := Unfold(s.view, n, rw);
        FirstMatchReaches(c, st, n, next, DepthOf(next, depth));
        TaskReachPart(s, n, next, task, k);
      }
    case Children(rws, stop) =>
      var (o, st1) := Exec(c, st, n, Apply(rws[0]), depth);
      if o == Answer(true) || !NoTruths(st1) {
        FirstMatchReaches(c, st, n, Apply(rws[0]), depth);
        TaskReachPart(s, n, Apply(rws[0]), task, k);
      } else {
        FirstMatchReaches(c, st1, n, Children(rws[1..], stop), depth);
        TaskReachPart(s, n, Children(rws[1..], stop), task, k);
      }
    case Edges(es) =>
      if es[0] == Plain(s.subject) {
        MatchReaches(s, n, es, k);
      } else if es[0].To? {
        var (o, st1) := Exec(c, st, n, Ask(es[0].node), depth + 1);
        if o == Answer(true) || !NoTruths(st1) {
          FirstMatchReaches(c, st, n, Ask(es[0].node), depth + 1);
          TaskReachPart(s, n, Ask(es[0].node), task, k);
        } else {
          FirstMatchReaches(c, st1, n, Edges(es[1..]), depth);
          TaskReachPart(s, n, Edges(es[1..]), task, k);
        }
      } else {
        FirstMatchReaches(c, st, n, Edges(es[1..]), depth);
        TaskReachPart(s, n, Edges(es[1..]), task, k);
      }
  }

  /** Without a cache, every allow -- any schema, any cycles -- has a witness no
      longer than the depth limit. */
  lemma AllowHasShortWitness(c: Context, cache: map<CacheKey, bool>, root: Node) returns (path: seq<Node>)
    requires !c.cached && Run(c, cache, root).0 == Answer(true)
    ensures Reach(c.scene, root, c.maxDepth)
    ensures GrantPath(c.scene, path) && path[0] == root && |path| <= c.maxDepth + 1
  {
    FirstMatchReaches(c, Fresh(cache), root, Ask(root), 0);
    assert Reach(c.scene, root, c.maxDepth);
    path := ReachHasPath(c.scene, root, c.maxDepth);
  }

  /** Stored edges name a subject directly only when it is a concrete object. */
  lemma {:induction false} UsersetsOccurNowhere(s: Scene, n: Node, task: Task)
    requires s.subject.IsUserset() && !task.Edges?
    ensures !Occurs(s.view, n, task, Plain(s.subject), true)
    decreases task.Load(), task.Length()
  {
    match task
    case Ask(_) =>
    case Apply(rw) =>
      if rw.Exclusion? {
        UsersetsOccurNowhere(s, n, Apply(rw.base));
        UsersetsOccurNowhere(s, n, Apply(rw.subtract));
      } else if !Unfold(s.view, n, rw).Edges? {
        UsersetsOccurNowhere(s, n, Unfold(s.view, n, rw));
      }
    case Children(rws, stop) =>
      if rws != [] {
        UsersetsOccurNowhere(s, n, Apply(rws[0]));
        UsersetsOccurNowhere(s, n, Children(rws[1..], stop));
      }
  }

  lemma {:induction false} UsersetsReachNothing(s: Scene, n: Node, k: nat)
    requires s.subject.IsUserset()
    ensures !Reach(s, n, k)
    decreases k
  {
    if Rule(s.schema, n).Ok? {
      var rule := Apply(Rule(s.schema, n).value);
      UsersetsOccurNowhere(s, n, rule);
      forall e | Occurs(s.view, n, rule, e, false) ensures !EdgeReach(s, e, k) {
        OccursWeaken(s.view, n, rule, e);
        if e.To? && k > 0 {
          UsersetsReachNothing(s, e.node, k - 1);
        }
      }
    }
  }

  /** A userset is never allowed anything, in any schema, on any data. */
  lemma UsersetsAreDenied(c: Context, cache: map<CacheKey, bool>, root: Node)
    requires c.scene.subject.IsUserset()
    requires TruthsIn(c, Fresh(cache), Backed(c.scene))
    ensures Run(c, cache, root).0 != Answer(true)
  {
    AllowsAreReachable(c, cache, root);
    forall k: nat ensures !Reach(c.scene, root, k) {
      UsersetsReachNothing(c.scene, root, k);
    }
  }
}
