/** The depth and the counts a check reports. */
module Reported {
  import opened Names
  import opened Schemas
  import opened Semantics
  import opened Checks
  import opened Acyclicity
  import Denials
  import Work

  /** A path of k dependencies leads from the root to m. */
  ghost predicate Steps(s: Scene, root: Node, m: Node, k: nat) {
    exists path :: Chain(s, path) && path[0] == root && path[|path| - 1] == m && |path| == k + 1
  }

  ghost function At(s: Scene, root: Node, k: nat): iset<Node> { iset m | Steps(s, root, m, k) }

  lemma StepsNowhere(s: Scene, root: Node)
    ensures root in At(s, root, 0)
  {
    assert Chain(s, [root]);
  }

  lemma StepsOn(s: Scene, root: Node, n: Node, m: Node, k: nat)
    requires n in At(s, root, k) && DependsOn(s, n, m)
    ensures m in At(s, root, k + 1)
  {
    hide DependsOn;
    var path :| Chain(s, path) && path[0] == root && path[|path| - 1] == n && |path| == k + 1;
    assert Chain(s, path + [m]);
  }

  ghost predicate Near(s: Scene, root: Node, m: Node, k: nat) { exists i: nat :: i <= k && m in At(s, root, i) }

  /** Everything decided is as near as the deepest level noted, and some node is that deep. */
  ghost predicate Tracked(s: Scene, root: Node, st: State) {
    (forall m :: m in st.memo ==> Near(s, root, m, st.deepest)) && exists m :: m in At(s, root, st.deepest)
  }

  /** What a task asks is one level below where it stands. */
  ghost predicate Stands(c: Context, root: Node, n: Node, task: Task, depth: nat) {
    Work.TargetsIn(c.scene.view, At(c.scene, root, if task.Ask? then depth else depth + 1), n, task)
  }

  lemma RuleStands(c: Context, root: Node, m: Node, depth: nat)
    requires m in At(c.scene, root, depth) && Rule(c.scene.schema, m).Ok?
    ensures Stands(c, root, m, Apply(Rule(c.scene.schema, m).value), depth)
  {
    var task := Apply(Rule(c.scene.schema, m).value);
    forall x | Occurs(c.scene.view, m, task, To(x), true) ensures x in At(c.scene, root, depth + 1) {
      StepsOn(c.scene, root, m, x, depth);
    }
  }

  lemma AskStands(c: Context, root: Node, n: Node, m: Node, depth: nat)
    requires Stands(c, root, n, Ask(m), depth)
    ensures m in At(c.scene, root, depth)
  {
    assert Occurs(c.scene.view, n, Ask(m), To(m), true);
  }

  lemma PartStands(c: Context, root: Node, n: Node, part: Task, task: Task, depth: nat)
    requires Stands(c, root, n, task, depth) && PartOf(c.scene.view, n, part, task, true) && !task.Ask?
    ensures Stands(c, root, n, part, DepthOf(part, depth))
  {
    Work.PartTargets(c.scene.view, At(c.scene, root, depth + 1), n, part, task);
  }

  lemma EnterTracks(s: Scene, root: Node, st: State, m: Node, depth: nat)
    requires Tracked(s, root, st) && m in At(s, root, depth)
    ensures Tracked(s, root, Enter(st, m, depth)) && depth <= Enter(st, m, depth).deepest
  {
    hide At;
  }

  lemma RecallTracks(c: Context, root: Node, st: State, m: Node, depth: nat)
    requires Tracked(c.scene, root, st) && m in At(c.scene, root, depth) && !Checks.Expands(c, st, m, depth)
    ensures Tracked(c.scene, root, Recall(c, st, m, depth).1) && st.deepest <= Recall(c, st, m, depth).1.deepest
  {
    hide At;
    assert Near(c.scene, root, m, Max(st.deepest, depth));
  }

  lemma LeaveTracks(c: Context, root: Node, st: State, m: Node, depth: nat, o: Outcome)
    requires Tracked(c.scene, root, st) && m in At(c.scene, root, depth) && depth <= st.deepest
    ensures Tracked(c.scene, root, Leave(c, st, m, o))
  {
    hide At;
    assert Near(c.scene, root, m, st.deepest);
  }

  lemma {:induction false} ExecTracks(c: Context, root: Node, st: State, n: Node, task: Task, depth: nat)
    requires Fits(c, task, depth) && Stands(c, root, n, task, depth) && Tracked(c.scene, root, st)
    ensures var st' := Exec(c, st, n, task, depth).1; Tracked(c.scene, root, st') && st.deepest <= st'.deepest
    ensures st.deepest <= c.maxDepth ==> Exec(c, st, n, task, depth).1.deepest <= c.maxDepth
    decreases Fuel(c, task, depth), task.Load(), task.Length()
  {
    hide Stands;
    hide Tracked;
    hide Occurs;
    hide PartOf;
    hide At;
    Parts(c.scene.view, n, task, true);
    match task
    case Ask(m) =>
      AskStands(c, root, n, m, depth);
      if Checks.Expands(c, st, m, depth) {
        var entered := Enter(st, m, depth);
        EnterTracks(c.scene, root, st, m, depth);
        match Rule(c.scene.schema, m)
        case Ok(rw) =>
          RuleStands(c, root, m, depth);
          ExecTracks(c, root, entered, m, Apply(rw), depth);
          var (o, after) := Exec(c, entered, m, Apply(rw), depth);
          LeaveTracks(c, root, after, m, depth, o);
        case Err(e) => LeaveTracks(c, root, entered, m, depth, Failed(e));
      } else {
        RecallTracks(c, root, st, m, depth);
      }
    case Apply(rw) =>
      if rw.Exclusion? {
        PartStands(c, root, n, Apply(rw.base), task, depth);
        PartStands(c, root, n, Apply(rw.subtract), task, depth);
        ExecTracks(c, root, st, n, Apply(rw.base), depth);
        ExecTracks(c, root, Exec(c, st, n, Apply(rw.base), depth).1, n, Apply(rw.subtract), depth);
      } else {
        var next := Unfold(c.scene.view, n, rw);
        PartStands(c, root, n, next, task, depth);
        ExecTracks(c, root, st, n, next, DepthOf(next, depth));
      }
    case Children(rws, stop) =>
      if rws != [] {
        PartStands(c, root, n, Apply(rws[0]), task, depth);
        PartStands(c, root, n, Children(rws[1..], stop), task, depth);
        ExecTracks(c, root, st, n, Apply(rws[0]), depth);
        ExecTracks(c, root, Exec(c, st, n, Apply(rws[0]), depth).1, n, Children(rws[1..], stop), depth);
      }
    case Edges(es) =>
      if es != [] {
        PartStands(c, root, n, Edges(es[1..]), task, depth);
        if es[0].To? {
          PartStands(c, root, n, Ask(es[0].node), task, depth);
          ExecTracks(c, root, st, n, Ask(es[0].node), depth + 1);
          ExecTracks(c, root, Exec(c, st, n, Ask(es[0].node), depth + 1).1, n, Edges(es[1..]), depth);
        } else {
          ExecTracks(c, root, st, n, Edges(es[1..]), depth);
        }
      }
  }

  /** The depth a request reports is that of a node it asked: a dependency path of that
      length leads from the root, within the limit, and every pair the request decided
      lies at the end of one no longer. */
  lemma DeepestIsReached(c: Context, cache: map<CacheKey, bool>, root: Node)
    ensures var st := Run(c, cache, root).1;
            st.deepest <= c.maxDepth && (exists m :: Steps(c.scene, root, m, st.deepest)) &&
            forall m :: m in st.memo ==> exists k: nat :: k <= st.deepest && Steps(c.scene, root, m, k)
  {
    var st := Run(c, cache, root).1;
    StepsNowhere(c.scene, root);
    assert Tracked(c.scene, root, Fresh(cache));
    forall x | Occurs(c.scene.view, root, Ask(root), To(x), true) ensures x in At(c.scene, root, 0) {}
    assert Stands(c, root, root, Ask(root), 0);
    ExecTracks(c, root, Fresh(cache), root, Ask(root), 0);
    hide Exec;
    hide Steps;
    forall m | m in st.memo ensures exists k: nat :: k <= st.deepest && Steps(c.scene, root, m, k) {
      assert Near(c.scene, root, m, st.deepest);
    }
  }

  // ---- Every question counted -------------------------------------------------------------------

  /** How many nodes a task names, as often as it names them. */
  function Degree(view: seq<Tuple>, n: Node, task: Task): nat
    decreases task.Load(), task.Length()
  {
    match task
    case Ask(_) => 1
    case Apply(rw) =>
      if rw.Exclusion? then Degree(view, n, Apply(rw.base)) + Degree(view, n, Apply(rw.subtract))
      else Degree(view, n, Unfold(view, n, rw))
    case Children(rws, stop) =>
      if rws == [] then 0 else Degree(view, n, Apply(rws[0])) + Degree(view, n, Children(rws[1..], stop))
    case Edges(es) => if es == [] then 0 else (if es[0].To? then 1 else 0) + Degree(view, n, Edges(es[1..]))
  }

  function OutDegree(s: Scene, m: Node): nat {
    match Rule(s.schema, m)
    case Ok(rw) => Degree(s.view, m, Apply(rw))
    case Err(_) => 0
  }

  /** The edges of all nodes on the trail. */
  function OutDegrees(s: Scene, trail: seq<Node>): nat {
    if trail == [] then 0 else OutDegrees(s, trail[..|trail| - 1]) + OutDegree(s, trail[|trail| - 1])
  }

  /** Questions counted -- expanded, found in the memo, found in the cache -- beyond the
      edges of what was expanded. */
  function Excess(s: Scene, st: State): int {
    st.expansions + st.memoHits + st.cacheHits - OutDegrees(s, st.trail)
  }

  lemma EnterExcess(s: Scene, st: State, m: Node, depth: nat)
    ensures Excess(s, Enter(st, m, depth)) == Excess(s, st) + 1 - OutDegree(s, m)
  {
    assert (st.trail + [m])[..|st.trail|] == st.trail;
  }

  lemma LeaveExcess(c: Context, st: State, m: Node, o: Outcome)
    ensures Excess(c.scene, Leave(c, st, m, o)) == Excess(c.scene, st)
  {
  }

  lemma RecallExcess(c: Context, st: State, m: Node, depth: nat)
    requires !Checks.Expands(c, st, m, depth)
    ensures Excess(c.scene, st) <= Excess(c.scene, Recall(c, st, m, depth).1) <= Excess(c.scene, st) + 1
    ensures depth <= c.maxDepth && m !in st.visiting ==> Excess(c.scene, Recall(c, st, m, depth).1) == Excess(c.scene, st) + 1
  {
  }

  /** No task asks more than the edges it has, and every node it expands more than its own. */
  lemma {:induction false} ExecAsksItsEdges(c: Context, st: State, n: Node, task: Task, depth: nat)
    requires Fits(c, task, depth)
    ensures Excess(c.scene, Exec(c, st, n, task, depth).1) <= Excess(c.scene, st) + Degree(c.scene.view, n, task)
    decreases Fuel(c, task, depth), task.Load(), task.Length()
  {
    hide Excess;
    hide Leave;
    match task
    case Ask(m) =>
      if Checks.Expands(c, st, m, depth) {
        var entered := Enter(st, m, depth);
        EnterExcess(c.scene, st, m, depth);
        match Rule(c.scene.schema, m)
        case Ok(rw) =>
          ExecAsksItsEdges(c, entered, m, Apply(rw), depth);
          var (o, after) := Exec(c, entered, m, Apply(rw), depth);
          LeaveExcess(c, after, m, o);
        case Err(e) => LeaveExcess(c, entered, m, Failed(e));
      } else {
        RecallExcess(c, st, m, depth);
      }
    case Apply(rw) =>
      if rw.Exclusion? {
        ExecAsksItsEdges(c, st, n, Apply(rw.base), depth);
        ExecAsksItsEdges(c, Exec(c, st, n, Apply(rw.base), depth).1, n, Apply(rw.subtract), depth);
      } else {
        var next := Unfold(c.scene.view, n, rw);
        ExecAsksItsEdges(c, st, n, next, DepthOf(next, depth));
      }
    case Children(rws, stop) =>
      if rws != [] {
        ExecAsksItsEdges(c, st, n, Apply(rws[0]), depth);
        ExecAsksItsEdges(c, Exec(c, st, n, Apply(rws[0]), depth).1, n, Children(rws[1..], stop), depth);
      }
    case Edges(es) =>
      if es != [] {
        if es[0].To? {
          ExecAsksItsEdges(c, st, n, Ask(es[0].node), depth + 1);
          ExecAsksItsEdges(c, Exec(c, st, n, Ask(es[0].node), depth + 1).1, n, Edges(es[1..]), depth);
        } else {
          ExecAsksItsEdges(c, st, n, Edges(es[1..]), depth);
        }
      }
  }

  /** A denial in a schema of unions, with no cycle below it, has asked every edge there is. */
  lemma {:induction false} DenialAsksEveryEdge(c: Context, st: State, rank: map<Node, nat>, n: Node, task: Task, depth: nat)
    requires Fits(c, task, depth) && UnionOnly(c.scene.schema) && MonotoneTask(task, false)
    requires Descends(c.scene.schema, c.scene.view, rank)
    requires Denials.Below(c.scene.view, st.visiting, rank, n, task) && Denials.Inside(c.scene.view, rank, n, task)
    ensures var (o, st') := Exec(c, st, n, task, depth);
            o == Answer(false) ==> Excess(c.scene, st') == Excess(c.scene, st) + Degree(c.scene.view, n, task)
    decreases Fuel(c, task, depth), task.Load(), task.Length()
  {
    hide Excess;
    hide Leave;
    hide Descends;
    hide Denials.Below;
    hide Denials.Inside;
    hide Occurs;
    hide PartOf;
    hide UnionOnly;
    var s := c.scene;
    Parts(s.view, n, task, true);
    match task
    case Ask(m) =>
      Denials.AskBelow(s, st.visiting, rank, n, m);
      if Checks.Expands(c, st, m, depth) {
        var entered := Enter(st, m, depth);
        EnterExcess(s, st, m, depth);
        match Rule(s.schema, m)
        case Ok(rw) =>
          UnionRule(s.schema, m);
          DenialAsksEveryEdge(c, entered, rank, m, Apply(rw), depth);
          var (o, after) := Exec(c, entered, m, Apply(rw), depth);
          LeaveExcess(c, after, m, o);
        case Err(e) =>
      } else {
        RecallExcess(c, st, m, depth);
      }
    case Apply(rw) =>
      var next := Unfold(s.view, n, rw);
      Denials.PartBelow(s.view, st.visiting, rank, n, next, task);
      DenialAsksEveryEdge(c, st, rank, n, next, DepthOf(next, depth));
    case Children(rws, stop) =>
      if rws != [] {
        Denials.PartBelow(s.view, st.visiting, rank, n, Apply(rws[0]), task);
        Denials.PartBelow(s.view, st.visiting, rank, n, Children(rws[1..], stop), task);
        DenialAsksEveryEdge(c, st, rank, n, Apply(rws[0]), depth);
        Work.VisitingRestored(c, st, n, Apply(rws[0]), depth);
        DenialAsksEveryEdge(c, Exec(c, st, n, Apply(rws[0]), depth).1, rank, n, Children(rws[1..], stop), depth);
      }
    case Edges(es) =>
      if es != [] {
        Denials.PartBelow(s.view, st.visiting, rank, n, Edges(es[1..]), task);
        if es[0].To? {
          Denials.PartBelow(s.view, st.visiting, rank, n, Ask(es[0].node), task);
          DenialAsksEveryEdge(c, st, rank, n, Ask(es[0].node), depth + 1);
          Work.VisitingRestored(c, st, n, Ask(es[0].node), depth + 1);
          DenialAsksEveryEdge(c, Exec(c, st, n, Ask(es[0].node), depth + 1).1, rank, n, Edges(es[1..]), depth);
        } else {
          DenialAsksEveryEdge(c, st, rank, n, Edges(es[1..]), depth);
        }
      }
  }

  lemma UnionRule(schema: Schema, m: Node)
    requires UnionOnly(schema) && Rule(schema, m).Ok?
    ensures MonotoneTask(Apply(Rule(schema, m).value), false)
  {
  }

  /** All the counts together: a request expands, finds in its memo and finds in the cache
      no more often than there are edges out of the pairs it expanded, and the root. When
      it denies, in a schema of unions without a cycle below the root, exactly as often. */
  lemma EveryQuestionIsCounted(c: Context, cache: map<CacheKey, bool>, root: Node)
    ensures var (o, st) := Run(c, cache, root);
            st.expansions + st.memoHits + st.cacheHits <= 1 + OutDegrees(c.scene, st.trail) &&
            (o == Answer(false) && UnionOnly(c.scene.schema) && Acyclic(c.scene, root) ==>
               st.expansions + st.memoHits + st.cacheHits == 1 + OutDegrees(c.scene, st.trail))
  {
    var (o, st) := Run(c, cache, root);
    assert Excess(c.scene, Fresh(cache)) == 0;
    ExecAsksItsEdges(c, Fresh(cache), root, Ask(root), 0);
    if o == Answer(false) && UnionOnly(c.scene.schema) && Acyclic(c.scene, root) {
      RankDescends(c.scene, root);
      var rank := RankOf(c.scene, root);
      hide RankOf;
      hide Acyclic;
      hide Exec;
      hide UnionOnly;
      hide Descends;
      DenialAsksEveryEdge(c, Fresh(cache), rank, root, Ask(root), 0);
    }
  }
}
