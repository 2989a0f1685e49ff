/** How deep a check may go while other checks share its cache. */
module Depths {
  import opened Names
  import opened Schemas
  import opened Semantics
  import opened Checks
  import opened Concurrency
  import opened Work
  import Grants

  lemma ArriveWithin(c: Context, others: Others, w: Progress, R: iset<Node>)
    ensures Contained(Arrive(c, others, w).st, R) <==> Contained(w.st, R)
    ensures Arrive(c, others, w).st.visiting == w.st.visiting && Arrive(c, others, w).st.memo == w.st.memo
  {
  }

  lemma RecalledWithin(c: Context, w: Progress, R: iset<Node>, m: Node, depth: nat)
    requires Fits(c, Ask(m), depth) && !Checks.Expands(c, w.st, m, depth)
    requires Contained(w.st, R) && Stacked(w.st, Ask(m), depth) && m in R
    ensures var (o, w') := Recalled(c, w, m, depth); Contained(w'.st, R) && Explained(c, R, o)
  {
  }

  lemma RecordedWithin(c: Context, others: Others, w: Progress, R: iset<Node>, m: Node, o: Outcome)
    requires Contained(w.st, R) && m in R
    ensures Contained(Recorded(c, others, w, m, o).st, R)
  {
    ArriveWithin(c, others, w, R);
    LeaveWithin(c, w.st, R, m, o);
    LeaveWithin(c, Arrive(c, others, w).st, R, m, o);
    hide Contained;
    hide Arrive;
    hide Leave;
  }

  lemma Restored(c: Context, others: Others, w: Progress, n: Node, task: Task, depth: nat)
    requires Fits(c, task, depth)
    ensures ExecAmid(c, others, w, n, task, depth).1.st.visiting == w.st.visiting
  {
    AmidKeeps(c, others, w, n, task, depth);
  }

  /** Whatever arrives in the cache, a request that stays in R only decides nodes of R and
      fails only on an undefined one, or on depth when R is larger than the limit. */
  lemma {:induction false} AmidStaysWithin(c: Context, others: Others, w: Progress, R: iset<Node>, n: Node, task: Task,
                                           depth: nat)
    requires Fits(c, task, depth) && Spans(c.scene, R) && TargetsIn(c.scene.view, R, n, task)
    requires Contained(w.st, R) && Stacked(w.st, task, depth)
    ensures var (o, w') := ExecAmid(c, others, w, n, task, depth); Contained(w'.st, R) && Explained(c, R, o)
    decreases Fuel(c, task, depth), task.Load(), task.Length()
  {
    hide Spans;
    hide TargetsIn;
    hide Occurs;
    hide PartOf;
    hide Contained;
    hide Small;
    hide Arrive;
    hide Recall;
    hide Recorded;
    hide Leave;
    var s := c.scene;
    Parts(s.view, n, task, true);
    match task
    case Ask(m) =>
      hide Explained;
      AskTargets(s, R, n, m);
      if depth > c.maxDepth || m in w.st.memo {
        RecalledWithin(c, w, R, m, depth);
      } else {
        var got := Arrive(c, others, w);
        ArriveWithin(c, others, w, R);
        if Checks.Expands(c, got.st, m, depth) {
          var entered := got.(st := Enter(got.st, m, depth));
          EnterWithin(c, got.st, R, m, depth, This);
          match Rule(s.schema, m)
          case Ok(rw) =>
            AmidStaysWithin(c, others, entered, R, m, Apply(rw), depth);
            var (o, after) := ExecAmid(c, others, entered, m, Apply(rw), depth);
            RecordedWithin(c, others, after, R, m, o);
          case Err(e) =>
            LeaveWithin(c, entered.st, R, m, Failed(e));
            UndefinedExplains(c, R, m);
        } else {
          RecalledWithin(c, got, R, m, depth);
        }
      }
    case Apply(rw) =>
      if rw.Exclusion? {
        PartTargets(s.view, R, n, Apply(rw.base), task);
        PartTargets(s.view, R, n, Apply(rw.subtract), task);
        AmidStaysWithin(c, others, w, R, n, Apply(rw.base), depth);
        Restored(c, others, w, n, Apply(rw.base), depth);
        AmidStaysWithin(c, others, ExecAmid(c, others, w, n, Apply(rw.base), depth).1, R, n, Apply(rw.subtract), depth);
      } else {
        var next := Unfold(s.view, n, rw);
        PartTargets(s.view, R, n, next, task);
        AmidStaysWithin(c, others, w, R, n, next, DepthOf(next, depth));
      }
    case Children(rws, stop) =>
      if rws != [] {
        PartTargets(s.view, R, n, Apply(rws[0]), task);
        PartTargets(s.view, R, n, Children(rws[1..], stop), task);
        AmidStaysWithin(c, others, w, R, n, Apply(rws[0]), depth);
        Restored(c, others, w, n, Apply(rws[0]), depth);
        AmidStaysWithin(c, others, ExecAmid(c, others, w, n, Apply(rws[0]), depth).1, R, n, Children(rws[1..], stop), depth);
      }
    case Edges(es) =>
      if es != [] {
        PartTargets(s.view, R, n, Edges(es[1..]), task);
        if es[0].To? {
          PartTargets(s.view, R, n, Ask(es[0].node), task);
          AmidStaysWithin(c, others, w, R, n, Ask(es[0].node), depth + 1);
          Restored(c, others, w, n, Ask(es[0].node), depth + 1);
          AmidStaysWithin(c, others, ExecAmid(c, others, w, n, Ask(es[0].node), depth + 1).1, R, n, Edges(es[1..]), depth);
        } else {
          AmidStaysWithin(c, others, w, R, n, Edges(es[1..]), depth);
        }
      }
  }

  /** However other checks' entries arrive, a request that can reach at most as many pairs
      as the limit never exceeds it, and if they are all defined it answers. */
  lemma FewPairsAmidOthers(c: Context, others: Others, cache: map<CacheKey, bool>, R: set<Node>, root: Node)
    requires Encloses(c.scene, R, root, c.maxDepth)
    ensures var (o, w) := RunAmid(c, others, cache, root);
            o != Failed(DepthExceeded) && ((forall n :: n in R ==> Defined(c.scene.schema, n)) ==> o.Answer?)
  {
    EnclosedIsSmall(c.scene, R, root, c.maxDepth);
    AmidStaysWithin(c, others, Progress(Fresh(cache), 0), AllOf(R), root, Ask(root), 0);
  }

  /** A path of granting edges from the root with at most `limit` edges. */
  ghost predicate ShortPath(s: Scene, root: Node, limit: int) {
    exists path :: GrantPath(s, path) && path[0] == root && |path| <= limit + 1
  }

  lemma AllowsHaveShortPaths(c: Context, others: Others, cache: map<CacheKey, bool>, root: Node)
    requires !c.cached && RunAmid(c, others, cache, root).0 == Answer(true)
    ensures ShortPath(c.scene, root, c.maxDepth)
  {
    QuietRun(c, others, cache, root);
    var path := Grants.AllowHasShortWitness(c, cache, root);
  }
}
