/** Exactly when a request records nothing wrong, before it is run.

    A search in a schema of unions follows one path: from the root, the first edge in
    evaluation order that names the subject or leads to a node granted without the
    nodes already on the path. Every edge it tries and passes over on the way is
    recorded as a denial. Some record is wrong exactly when a node passed over is
    granted and not on the path. The path and what it passes over depend on the schema
    and the stored tuples alone. */
module Records {
  import opened Names
  import opened Schemas
  import opened Semantics
  import opened Checks
  import opened Denials
  import Work

  // ---- The path of a search ----------------------------------------------------------

  /** Trying `task` at n with the nodes of `path` behind it, and at most k nodes ahead:
      an edge is passed over that leads to a granted node not on the path. */
  ghost predicate PassesOver(s: Scene, path: set<Node>, n: Node, task: Task, k: nat)
    decreases k, task.Load(), task.Length()
  {
    match task
    case Ask(m) =>
      if m in Lfp(s, path) then
        k > 0 && Rule(s.schema, m).Ok? && PassesOver(s, path + {m}, m, Apply(Rule(s.schema, m).value), k - 1)
      else m !in path && m in Granted(s)
    case Apply(rw) => !rw.Exclusion? && PassesOver(s, path, n, Unfold(s.view, n, rw), k)
    case Children(rws, stop) =>
      rws != [] &&
      (PassesOver(s, path, n, Apply(rws[0]), k) ||
       (!Sem(s, Lfp(s, path), n, Apply(rws[0]), true) && PassesOver(s, path, n, Children(rws[1..], stop), k)))
    case Edges(es) =>
      es != [] &&
      match es[0]
      case Plain(x) => x != s.subject && PassesOver(s, path, n, Edges(es[1..]), k)
      case To(m) =>
        PassesOver(s, path, n, Ask(m), k) || (m !in Lfp(s, path) && PassesOver(s, path, n, Edges(es[1..]), k))
  }

  /** ... from the root, however long the path. */
  ghost predicate PassesOverGranted(s: Scene, root: Node) {
    exists k: nat :: PassesOver(s, {}, root, Ask(root), k)
  }

  // ---- Answers before the first match -------------------------------------------------

  /** While everything is denied, no decided node is granted without the visiting ones. */
  lemma DecidedAreOutside(c: Context, st: State)
    requires UnionOnly(c.scene.schema) && Explored(c, st) && AllDenied(st)
    ensures forall m :: m in st.memo ==> m !in Lfp(c.scene, st.visiting)
  {
    var s, W := c.scene, st.memo.Keys + st.visiting;
    var X := iset m | m !in W;
    forall m | m !in st.visiting && Holds(s, X, m, true) ensures m in X {
      if m in W {
        ExhaustedDenies(s, W, X, m);
      }
    }
    assert Closed(s, st.visiting, X, true);
    forall m | m in st.memo ensures m !in Lfp(s, st.visiting) {
      assert m !in X;
      assert m in Lfp(s, st.visiting) ==> InEvery(s, st.visiting, m);
    }
  }

  lemma VisitingIsCut(s: Scene, cut: set<Node>, m: Node)
    requires UnionOnly(s.schema) && m in cut
    ensures m !in Lfp(s, cut)
  {
    UnionOnlyIsExclusionFree(s.schema);
    LfpAvoidsCut(s, cut, m);
  }

  lemma RememberedByCut(c: Context, st: State, n: Node, m: Node, depth: nat)
    requires Fits(c, Ask(m), depth) && UnionOnly(c.scene.schema) && !Expands(c, st, m, depth)
    requires Explored(c, st) && AllDenied(st) && Exec(c, st, n, Ask(m), depth).0.Answer?
    ensures var (o, st') := Exec(c, st, n, Ask(m), depth);
            o == Answer(false) && m !in Lfp(c.scene, st.visiting) && st'.memo == st.memo &&
            (m in st.visiting || m in st.memo)
  {
    DecidedAreOutside(c, st);
    if m in st.visiting {
      VisitingIsCut(c.scene, st.visiting, m);
    }
  }

  /** Before the first match a search answers by the least fixpoint that does without
      the nodes being visited. */
  lemma {:induction false} AnswersByCut(c: Context, st: State, n: Node, task: Task, depth: nat)
    requires Fits(c, task, depth) && UnionOnly(c.scene.schema) && MonotoneTask(task, false)
    requires Explored(c, st) && AllDenied(st) && Exec(c, st, n, task, depth).0.Answer?
    ensures Exec(c, st, n, task, depth).0.allowed <==> Sem(c.scene, Lfp(c.scene, st.visiting), n, task, true)
    decreases Fuel(c, task, depth), task.Load(), task.Length()
  {
    hide Explored;
    hide AllDenied;
    hide Searched;
    hide Lfp;
    var s := c.scene;
    match task
    case Ask(m) =>
      if Expands(c, st, m, depth) {
        var entered := Enter(st, m, depth);
        EnterExplored(c, st, m, depth);
        AnswersByCut(c, entered, m, Apply(Rule(s.schema, m).value), depth);
        UnionOnlyIsExclusionFree(s.schema);
        LfpWithoutSelf(s, st.visiting, m);
      } else {
        RememberedByCut(c, st, n, m, depth);
      }
    case Apply(rw) =>
      var next := Unfold(s.view, n, rw);
      AnswersByCut(c, st, n, next, DepthOf(next, depth));
    case Children(rws, stop) =>
      if rws != [] {
        AnswersByCut(c, st, n, Apply(rws[0]), depth);
        var (o, st1) := Exec(c, st, n, Apply(rws[0]), depth);
        if o == Answer(false) {
          DeniedSoFar(c, st, n, Apply(rws[0]), depth);
          AnswersByCut(c, st1, n, Children(rws[1..], stop), depth);
        }
      }
    case Edges(es) =>
      if es != [] {
        EdgesSplit(s, Lfp(s, st.visiting), n, es);
        if es[0].To? {
          AnswersByCut(c, st, n, Ask(es[0].node), depth + 1);
          var (o, st1) := Exec(c, st, n, Ask(es[0].node), depth + 1);
          if o == Answer(false) {
            DeniedSoFar(c, st, n, Ask(es[0].node), depth + 1);
            AnswersByCut(c, st1, n, Edges(es[1..]), depth);
          }
        } else if es[0] != Plain(s.subject) {
          AnswersByCut(c, st, n, Edges(es[1..]), depth);
        }
      }
  }

  /** After a denied step the search is where it was, with more denied. */
  lemma DeniedSoFar(c: Context, st: State, n: Node, task: Task, depth: nat)
    requires Fits(c, task, depth) && UnionOnly(c.scene.schema) && MonotoneTask(task, false)
    requires Explored(c, st) && AllDenied(st) && Exec(c, st, n, task, depth).0 == Answer(false)
    ensures var st' := Exec(c, st, n, task, depth).1;
            Explored(c, st') && AllDenied(st') && st'.visiting == st.visiting
  {
    DenialsAreExplored(c, st, n, task, depth);
    ExecExtends(c, st, n, task, depth);
  }

  // ---- What is recorded ----------------------------------------------------------------

  ghost predicate Wrong(s: Scene, st: State) { exists m :: m in st.memo && !st.memo[m] && m in Granted(s) }

  /** A task that grants nothing passes over only what it has an edge to. */
  lemma {:induction false} PassedOverOccurs(s: Scene, path: set<Node>, n: Node, task: Task, k: nat) returns (x: Node)
    requires UnionOnly(s.schema) && MonotoneTask(task, false)
    requires !Sem(s, Lfp(s, path), n, task, true) && PassesOver(s, path, n, task, k)
    ensures Occurs(s.view, n, task, To(x), true) && x in Granted(s)
    decreases task.Load(), task.Length()
  {
    hide Lfp;
    hide Granted;
    match task
    case Ask(m) => x := m;
    case Apply(rw) => x := PassedOverOccurs(s, path, n, Unfold(s.view, n, rw), k);
    case Children(rws, stop) =>
      if PassesOver(s, path, n, Apply(rws[0]), k) {
        x := PassedOverOccurs(s, path, n, Apply(rws[0]), k);
      } else {
        x := PassedOverOccurs(s, path, n, Children(rws[1..], stop), k);
      }
    case Edges(es) =>
      EdgesSplit(s, Lfp(s, path), n, es);
      if es[0].To? && PassesOver(s, path, n, Ask(es[0].node), k) {
        x := PassedOverOccurs(s, path, n, Ask(es[0].node), k);
      } else {
        x := PassedOverOccurs(s, path, n, Edges(es[1..]), k);
      }
  }

  /** How many nodes a search at this depth can still put on its path. */
  function Ahead(c: Context, task: Task, depth: nat): nat
    requires Fits(c, task, depth)
  {
    if task.Ask? then c.maxDepth + 1 - depth else c.maxDepth - depth
  }

  /** What a step adds to the wrong records: nothing but what it passes over. */
  ghost predicate Adds(c: Context, st: State, n: Node, task: Task, k: nat, enough: bool, st': State) {
    && (Wrong(c.scene, st) || PassesOver(c.scene, st.visiting, n, task, k) ==> Wrong(c.scene, st'))
    && (enough && Wrong(c.scene, st') ==> Wrong(c.scene, st) || PassesOver(c.scene, st.visiting, n, task, k))
  }

  lemma RememberedAdds(c: Context, st: State, n: Node, m: Node, depth: nat, k: nat)
    requires Fits(c, Ask(m), depth) && UnionOnly(c.scene.schema) && !Expands(c, st, m, depth)
    requires Explored(c, st) && AllDenied(st) && Exec(c, st, n, Ask(m), depth).0.Answer?
    ensures Adds(c, st, n, Ask(m), k, true, Exec(c, st, n, Ask(m), depth).1)
  {
    hide Explored;
    RememberedByCut(c, st, n, m, depth);
    hide Exec;
    hide Lfp;
    hide Granted;
  }

  /** A denied node that passes something over is granted itself. */
  lemma PassingOverIsGranted(s: Scene, path: set<Node>, m: Node, k: nat)
    requires UnionOnly(s.schema) && Rule(s.schema, m).Ok?
    requires var rule := Apply(Rule(s.schema, m).value);
             !Sem(s, Lfp(s, path), m, rule, true) && PassesOver(s, path, m, rule, k)
    ensures m in Granted(s)
  {
    var x := PassedOverOccurs(s, path, m, Apply(Rule(s.schema, m).value), k);
    GrantedIsReachable(s, x);
    ContradictedIsReachable(s, m, x);
    GrantedIsReachable(s, m);
  }

  /** Recording the decision about m adds a wrong denial exactly when m is denied and granted. */
  lemma LeaveWrong(c: Context, after: State, m: Node, allowed: bool)
    requires m !in after.memo
    ensures Wrong(c.scene, Leave(c, after, m, Answer(allowed))) <==>
            Wrong(c.scene, after) || (!allowed && m in Granted(c.scene))
  {
    var s, left := c.scene, Leave(c, after, m, Answer(allowed));
    if !allowed && m in Granted(s) { assert m in left.memo && !left.memo[m]; }
    if Wrong(s, after) {
      var x :| x in after.memo && !after.memo[x] && x in Granted(s);
      assert x in left.memo && !left.memo[x];
    }
  }

  lemma LeaveAdds(c: Context, st: State, m: Node, depth: nat, k: nat, enough: bool, after: State, allowed: bool)
    requires UnionOnly(c.scene.schema) && Expands(c, st, m, depth) && Rule(c.scene.schema, m).Ok? && m !in after.memo
    requires var rule := Apply(Rule(c.scene.schema, m).value);
             (allowed <==> Sem(c.scene, Lfp(c.scene, st.visiting + {m}), m, rule, true)) &&
             Adds(c, Enter(st, m, depth), m, rule, if k > 0 then k - 1 else 0, enough, after)
    requires enough ==> k > 0
    ensures Adds(c, st, m, Ask(m), k, enough, Leave(c, after, m, Answer(allowed)))
  {
    var s, path := c.scene, st.visiting + {m};
    UnionOnlyIsExclusionFree(s.schema);
    LfpWithoutSelf(s, st.visiting, m);
    LeaveWrong(c, after, m, allowed);
    var k' := if k > 0 then k - 1 else 0;
    if !allowed && PassesOver(s, path, m, Apply(Rule(s.schema, m).value), k') {
      PassingOverIsGranted(s, path, m, k');
    }
    hide Lfp;
    hide Granted;
    hide Leave;
    assert Enter(st, m, depth).memo == st.memo;
  }

  lemma StillUndecided(c: Context, st: State, n: Node, task: Task, depth: nat)
    requires Fits(c, task, depth) && Work.Undecided(c, st)
    ensures Work.Undecided(c, Exec(c, st, n, task, depth).1)
  {
    Work.ExecWorksOncePerPair(c, st, n, task, depth);
  }

  /** A search records wrong denials exactly by passing over granted nodes. */
  lemma {:induction false} SearchAdds(c: Context, st: State, n: Node, task: Task, depth: nat, k: nat)
    requires Fits(c, task, depth) && UnionOnly(c.scene.schema) && MonotoneTask(task, false)
    requires Explored(c, st) && AllDenied(st) && Work.Undecided(c, st) && Exec(c, st, n, task, depth).0.Answer?
    ensures Adds(c, st, n, task, k, k >= Ahead(c, task, depth), Exec(c, st, n, task, depth).1)
    decreases Fuel(c, task, depth), task.Load(), task.Length()
  {
    hide Explored;
    hide AllDenied;
    hide Work.Undecided;
    hide Lfp;
    hide Granted;
    hide Wrong;
    var s := c.scene;
    AnswersByCut(c, st, n, task, depth);
    match task
    case Ask(m) =>
      if Expands(c, st, m, depth) {
        var entered, rule := Enter(st, m, depth), Apply(Rule(s.schema, m).value);
        EnterExplored(c, st, m, depth);
        Work.EnterUndecided(c, st, m, depth);
        AnswersByCut(c, entered, m, rule, depth);
        SearchAdds(c, entered, m, rule, depth, if k > 0 then k - 1 else 0);
        var (o, after) := Exec(c, entered, m, rule, depth);
        StillUndecided(c, entered, m, rule, depth);
        NotRecordedYet(c, entered, rule, depth, m);
        hide Exec;
        hide Leave;
        hide PassesOver;
        LeaveAdds(c, st, m, depth, k, k >= Ahead(c, task, depth), after, o.allowed);
        SameAdds(c, st, n, m, k, k >= Ahead(c, task, depth), Leave(c, after, m, o));
      } else {
        RememberedAdds(c, st, n, m, depth, k);
      }
    case Apply(rw) =>
      var next := Unfold(s.view, n, rw);
      SearchAdds(c, st, n, next, DepthOf(next, depth), k);
    case Children(rws, stop) =>
      if rws != [] {
        SearchAdds(c, st, n, Apply(rws[0]), depth, k);
        AnswersByCut(c, st, n, Apply(rws[0]), depth);
        var (o, st1) := Exec(c, st, n, Apply(rws[0]), depth);
        if o == Answer(false) {
          DeniedSoFar(c, st, n, Apply(rws[0]), depth);
          StillUndecided(c, st, n, Apply(rws[0]), depth);
          SearchAdds(c, st1, n, Children(rws[1..], stop), depth, k);
        }
      }
    case Edges(es) =>
      if es != [] {
        if es[0].To? {
          SearchAdds(c, st, n, Ask(es[0].node), depth + 1, k);
          AnswersByCut(c, st, n, Ask(es[0].node), depth + 1);
          var (o, st1) := Exec(c, st, n, Ask(es[0].node), depth + 1);
          if o == Answer(false) {
            DeniedSoFar(c, st, n, Ask(es[0].node), depth + 1);
            StillUndecided(c, st, n, Ask(es[0].node), depth + 1);
            SearchAdds(c, st1, n, Edges(es[1..]), depth, k);
          }
        } else if es[0] != Plain(s.subject) {
          SearchAdds(c, st, n, Edges(es[1..]), depth, k);
        }
      }
  }

  lemma NotRecordedYet(c: Context, entered: State, task: Task, depth: nat, m: Node)
    requires Fits(c, task, depth) && m in entered.visiting && Work.Undecided(c, Exec(c, entered, m, task, depth).1)
    ensures m !in Exec(c, entered, m, task, depth).1.memo
  {
    ExecExtends(c, entered, m, task, depth);
  }

  lemma SameAdds(c: Context, st: State, n: Node, m: Node, k: nat, enough: bool, st': State)
    requires Adds(c, st, m, Ask(m), k, enough, st')
    ensures Adds(c, st, n, Ask(m), k, enough, st')
  {
    hide Lfp;
    hide Granted;
  }

  /** In schemas of unions, everything an error-free cold request records is right if and
      only if, along the first granting path from the root, no edge is passed over that
      leads to a granted node not on the path. */
  lemma RecordsAreRightExactly(c: Context, cache: map<CacheKey, bool>, root: Node)
    requires UnionOnly(c.scene.schema) && Cold(c, cache) && Run(c, cache, root).0.Answer?
    ensures var memo := Run(c, cache, root).1.memo;
            (forall m :: m in memo ==> (memo[m] <==> Reachable(c.scene, m))) <==> !PassesOverGranted(c.scene, root)
  {
    var s, st, st' := c.scene, Fresh(cache), Run(c, cache, root).1;
    ColdRunIsExplored(c, cache, root);
    var enough := c.maxDepth + 1;
    SearchAdds(c, st, root, Ask(root), 0, enough);
    if PassesOverGranted(s, root) {
      var k: nat :| PassesOver(s, {}, root, Ask(root), k);
      SearchAdds(c, st, root, Ask(root), 0, k);
    }
    hide Explored;
    hide AllDenied;
    hide PassesOver;
    hide Exec;
    WrongIsReachable(s, st');
    hide Granted;
    assert !Wrong(s, st);
  }

  lemma WrongIsReachable(s: Scene, st: State)
    requires UnionOnly(s.schema)
    ensures Wrong(s, st) <==> exists m :: m in st.memo && !st.memo[m] && Reachable(s, m)
  {
    hide Granted;
    hide Reachable;
    forall m | m in st.memo ensures m in Granted(s) <==> Reachable(s, m) {
      GrantedIsReachable(s, m);
    }
  }
}
