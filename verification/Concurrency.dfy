/** One check among others on the same cache.

    Before each of its cache calls, whatever other checks have decided meanwhile is in
    the cache. `ExecAmid` is `Exec` with those arrivals; what they may be is arbitrary,
    and only what is concluded from them asks that they were right. */
module Concurrency {
  import opened Names
  import opened Schemas
  import opened Storage
  import opened Semantics
  import opened Checks
  import opened Coherence
  import Grants
  import Denials

  /** What others have put into the cache before a check's i-th cache call. */
  type Others = nat -> map<CacheKey, bool>

  ghost predicate Quiet(others: Others) { forall i :: others(i) == map[] }

  /** A request's state, and how often it has called the cache. */
  datatype Progress = Progress(st: State, calls: nat)

  ghost function Arrive(c: Context, others: Others, w: Progress): Progress {
    if !c.cached then w else Progress(w.st.(cache := w.st.cache + others(w.calls)), w.calls + 1)
  }

  /** Asking looks the memo up first, then the cache; deciding ends with recording. */
  ghost function ExecAmid(c: Context, others: Others, w: Progress, n: Node, task: Task, depth: nat): (Outcome, Progress)
    requires Fits(c, task, depth)
    decreases Fuel(c, task, depth), task.Load(), task.Length()
  {
    match task
    case Ask(m) =>
      if depth > c.maxDepth || m in w.st.memo then Recalled(c, w, m, depth) else
      var got := Arrive(c, others, w);
      if !Expands(c, got.st, m, depth) then Recalled(c, got, m, depth) else
      var entered := got.(st := Enter(got.st, m, depth));
      (match Rule(c.scene.schema, m)
       case Err(e) => (Failed(e), entered.(st := Leave(c, entered.st, m, Failed(e))))
       case Ok(rw) =>
         var (o, after) := ExecAmid(c, others, entered, m, Apply(rw), depth);
         (o, Recorded(c, others, after, m, o)))
    case Apply(rw) =>
      if rw.Exclusion? then
        var (base, w1) := ExecAmid(c, others, w, n, Apply(rw.base), depth);
        if base != Answer(true) then (base, w1) else
        var (sub, w2) := ExecAmid(c, others, w1, n, Apply(rw.subtract), depth);
        (Not(sub), w2)
      else
        var next := Unfold(c.scene.view, n, rw);
        ExecAmid(c, others, w, n, next, DepthOf(next, depth))
    case Children(rws, stop) =>
      if rws == [] then (Answer(!stop), w) else
      var (o, w1) := ExecAmid(c, others, w, n, Apply(rws[0]), depth);
      if o.Failed? || o.allowed == stop then (o, w1)
      else ExecAmid(c, others, w1, n, Children(rws[1..], stop), depth)
    case Edges(es) =>
      if es == [] then (Answer(false), w) else
      match es[0]
      case Plain(x) =>
        if x == c.scene.subject then (Answer(true), w) else ExecAmid(c, others, w, n, Edges(es[1..]), depth)
      case To(m) =>
        var (o, w1) := ExecAmid(c, others, w, n, Ask(m), depth + 1);
        if o != Answer(false) then (o, w1) else ExecAmid(c, others, w1, n, Edges(es[1..]), depth)
  }

  ghost function Recalled(c: Context, w: Progress, m: Node, depth: nat): (Outcome, Progress)
    requires !Expands(c, w.st, m, depth)
  {
    var (o, st) := Recall(c, w.st, m, depth); (o, w.(st := st))
  }

  /** Recording a decision is a cache call; a failure records nothing. */
  ghost function Recorded(c: Context, others: Others, w: Progress, m: Node, o: Outcome): Progress {
    var last := if o.Answer? then Arrive(c, others, w) else w;
    last.(st := Leave(c, last.st, m, o))
  }

  ghost function RunAmid(c: Context, others: Others, cache: map<CacheKey, bool>, root: Node): (Outcome, Progress) {
    ExecAmid(c, others, Progress(Fresh(cache), 0), root, Ask(root), 0)
  }

  /** What asking comes to once the cache has been looked at. */
  ghost function Decided(c: Context, others: Others, got: Progress, m: Node, depth: nat): (Outcome, Progress)
    requires depth <= c.maxDepth
  {
    if !Expands(c, got.st, m, depth) then Recalled(c, got, m, depth) else
    var entered := got.(st := Enter(got.st, m, depth));
    match Rule(c.scene.schema, m)
    case Err(e) => (Failed(e), entered.(st := Leave(c, entered.st, m, Failed(e))))
    case Ok(rw) =>
      var (o, after) := ExecAmid(c, others, entered, m, Apply(rw), depth);
      (o, Recorded(c, others, after, m, o))
  }

  lemma AskingDecides(c: Context, others: Others, w: Progress, n: Node, m: Node, depth: nat)
    requires Fits(c, Ask(m), depth)
    ensures depth > c.maxDepth || m in w.st.memo ==>
              ExecAmid(c, others, w, n, Ask(m), depth) == Recalled(c, w, m, depth)
    ensures !(depth > c.maxDepth || m in w.st.memo) ==>
              ExecAmid(c, others, w, n, Ask(m), depth) == Decided(c, others, Arrive(c, others, w), m, depth)
  {
    hide Recorded;
    hide Arrive;
  }

  /** The depth may be noted before the lookup. */
  lemma NotedFirst(c: Context, others: Others, w: Progress, m: Node, depth: nat)
    ensures var noted := w.(st := w.st.(deepest := Max(w.st.deepest, depth)));
            Arrive(c, others, noted) ==
              (var a := Arrive(c, others, w); a.(st := a.st.(deepest := Max(a.st.deepest, depth)))) &&
            (depth <= c.maxDepth && m in w.st.memo ==> Recalled(c, noted, m, depth) == Recalled(c, w, m, depth)) &&
            (depth <= c.maxDepth ==> Decided(c, others, noted, m, depth) == Decided(c, others, w, m, depth))
  {
    var noted := w.(st := w.st.(deepest := Max(w.st.deepest, depth)));
    assert Enter(noted.st, m, depth) == Enter(w.st, m, depth);
    hide ExecAmid;
    hide Recorded;
  }

  // ---- With nobody else around --------------------------------------------------------

  lemma QuietArrival(c: Context, others: Others, w: Progress)
    requires Quiet(others) || !c.cached
    ensures Arrive(c, others, w).st == w.st
  {
    assert w.st.cache + map[] == w.st.cache;
  }

  /** Without arrivals, or without a cache for them to arrive in, the run is the one alone. */
  lemma {:induction false} QuietIsExec(c: Context, others: Others, w: Progress, n: Node, task: Task, depth: nat)
    requires Fits(c, task, depth) && (Quiet(others) || !c.cached)
    ensures var (o, w') := ExecAmid(c, others, w, n, task, depth);
            (o, w'.st) == Exec(c, w.st, n, task, depth)
    decreases Fuel(c, task, depth), task.Load(), task.Length()
  {
    hide Leave;
    hide Quiet;
    hide Arrive;
    match task
    case Ask(m) =>
      QuietArrival(c, others, w);
      var got := Arrive(c, others, w);
      if Expands(c, w.st, m, depth) {
        match Rule(c.scene.schema, m)
        case Ok(rw) =>
          var entered := got.(st := Enter(got.st, m, depth));
          QuietIsExec(c, others, entered, m, Apply(rw), depth);
          QuietArrival(c, others, ExecAmid(c, others, entered, m, Apply(rw), depth).1);
        case Err(e) =>
      }
    case Apply(rw) =>
      if rw.Exclusion? {
        QuietIsExec(c, others, w, n, Apply(rw.base), depth);
        QuietIsExec(c, others, ExecAmid(c, others, w, n, Apply(rw.base), depth).1, n, Apply(rw.subtract), depth);
      } else {
        var next := Unfold(c.scene.view, n, rw);
        QuietIsExec(c, others, w, n, next, DepthOf(next, depth));
      }
    case Children(rws, stop) =>
      if rws != [] {
        QuietIsExec(c, others, w, n, Apply(rws[0]), depth);
        QuietIsExec(c, others, ExecAmid(c, others, w, n, Apply(rws[0]), depth).1, n, Children(rws[1..], stop), depth);
      }
    case Edges(es) =>
      if es != [] {
        if es[0].To? {
          QuietIsExec(c, others, w, n, Ask(es[0].node), depth + 1);
          QuietIsExec(c, others, ExecAmid(c, others, w, n, Ask(es[0].node), depth + 1).1, n, Edges(es[1..]), depth);
        } else {
          QuietIsExec(c, others, w, n, Edges(es[1..]), depth);
        }
      }
  }

  lemma QuietRun(c: Context, others: Others, cache: map<CacheKey, bool>, root: Node)
    requires Quiet(others) || !c.cached
    ensures var (o, w) := RunAmid(c, others, cache, root); (o, w.st) == Run(c, cache, root)
  {
    QuietIsExec(c, others, Progress(Fresh(cache), 0), root, Ask(root), 0);
  }

  // ---- What every step keeps -------------------------------------------------------------

  /** Another's entry, or an earlier one, under this key. */
  ghost predicate Theirs(others: Others, before: map<CacheKey, bool>, k: CacheKey, v: bool) {
    (k in before && before[k] == v) || exists i :: k in others(i) && others(i)[k] == v
  }

  /** The visiting set is restored, no decision is forgotten, and an entry under a key of
      another subject or revision is another's or an earlier one. */
  ghost predicate Keeps(c: Context, others: Others, st: State, st': State) {
    && st'.visiting == st.visiting
    && (forall m :: m in st.memo ==> m in st'.memo && st'.memo[m] == st.memo[m])
    && (forall k :: k in st'.cache && k != c.Key(Node(k.obj, k.relation)) ==> Theirs(others, st.cache, k, st'.cache[k]))
  }

  lemma KeepsItself(c: Context, others: Others, st: State)
    ensures Keeps(c, others, st, st)
  {
  }

  lemma KeepsMore(c: Context, others: Others, st: State, st1: State, st2: State)
    requires Keeps(c, others, st, st1) && Keeps(c, others, st1, st2)
    ensures Keeps(c, others, st, st2)
  {
  }

  lemma ArriveKeeps(c: Context, others: Others, w: Progress)
    ensures Keeps(c, others, w.st, Arrive(c, others, w).st) && Arrive(c, others, w).st.memo == w.st.memo
  {
  }

  lemma RecallKeeps(c: Context, others: Others, w: Progress, m: Node, depth: nat)
    requires !Expands(c, w.st, m, depth)
    ensures Keeps(c, others, w.st, Recalled(c, w, m, depth).1.st)
  {
  }

  /** Deciding m after entering it. */
  lemma DecideKeeps(c: Context, others: Others, got: State, m: Node, depth: nat, after: State, last: State, o: Outcome)
    requires Expands(c, got, m, depth) && Keeps(c, others, Enter(got, m, depth), after) && Keeps(c, others, after, last)
    ensures Keeps(c, others, got, Leave(c, last, m, o))
  {
    KeepsMore(c, others, Enter(got, m, depth), after, last);
    assert got.visiting + {m} - {m} == got.visiting;
  }

  lemma {:induction false} AmidKeeps(c: Context, others: Others, w: Progress, n: Node, task: Task, depth: nat)
    requires Fits(c, task, depth)
    ensures Keeps(c, others, w.st, ExecAmid(c, others, w, n, task, depth).1.st)
    decreases Fuel(c, task, depth), task.Load(), task.Length()
  {
    hide Keeps;
    hide Leave;
    hide Arrive;
    hide Recall;
    KeepsItself(c, others, w.st);
    match task
    case Ask(m) =>
      if depth > c.maxDepth || m in w.st.memo {
        RecallKeeps(c, others, w, m, depth);
      } else {
        var got := Arrive(c, others, w);
        ArriveKeeps(c, others, w);
        if Expands(c, got.st, m, depth) {
          var entered := got.(st := Enter(got.st, m, depth));
          match Rule(c.scene.schema, m)
          case Ok(rw) =>
            AmidKeeps(c, others, entered, m, Apply(rw), depth);
            var (o, after) := ExecAmid(c, others, entered, m, Apply(rw), depth);
            ArriveKeeps(c, others, after);
            KeepsItself(c, others, after.st);
            DecideKeeps(c, others, got.st, m, depth, after.st, if o.Answer? then Arrive(c, others, after).st else after.st, o);
          case Err(e) =>
            KeepsItself(c, others, entered.st);
            DecideKeeps(c, others, got.st, m, depth, entered.st, entered.st, Failed(e));
        } else {
          RecallKeeps(c, others, got, m, depth);
        }
        KeepsMore(c, others, w.st, got.st, ExecAmid(c, others, w, n, task, depth).1.st);
      }
    case Apply(rw) =>
      if rw.Exclusion? {
        AmidKeeps(c, others, w, n, Apply(rw.base), depth);
        var w1 := ExecAmid(c, others, w, n, Apply(rw.base), depth).1;
        AmidKeeps(c, others, w1, n, Apply(rw.subtract), depth);
        KeepsMore(c, others, w.st, w1.st, ExecAmid(c, others, w1, n, Apply(rw.subtract), depth).1.st);
      } else {
        var next := Unfold(c.scene.view, n, rw);
        AmidKeeps(c, others, w, n, next, DepthOf(next, depth));
      }
    case Children(rws, stop) =>
      if rws != [] {
        AmidKeeps(c, others, w, n, Apply(rws[0]), depth);
        var w1 := ExecAmid(c, others, w, n, Apply(rws[0]), depth).1;
        AmidKeeps(c, others, w1, n, Children(rws[1..], stop), depth);
        KeepsMore(c, others, w.st, w1.st, ExecAmid(c, others, w1, n, Children(rws[1..], stop), depth).1.st);
      }
    case Edges(es) =>
      if es != [] {
        if es[0].To? {
          AmidKeeps(c, others, w, n, Ask(es[0].node), depth + 1);
          var w1 := ExecAmid(c, others, w, n, Ask(es[0].node), depth + 1).1;
          AmidKeeps(c, others, w1, n, Edges(es[1..]), depth);
          KeepsMore(c, others, w.st, w1.st, ExecAmid(c, others, w1, n, Edges(es[1..]), depth).1.st);
        } else {
          AmidKeeps(c, others, w, n, Edges(es[1..]), depth);
        }
      }
  }

  // ---- Right among right -------------------------------------------------------------------

  /** Everything others put in for this request's subject and revision satisfies what is
      asked of the request's own records. */
  ghost predicate TheirTruthsIn(c: Context, others: Others, X: iset<Node>) {
    forall i, m: Node :: c.Key(m) in others(i) && others(i)[c.Key(m)] ==> m in X
  }

  lemma ArriveTruths(c: Context, others: Others, w: Progress, X: iset<Node>)
    requires Grants.TruthsIn(c, w.st, X) && TheirTruthsIn(c, others, X)
    ensures Grants.TruthsIn(c, Arrive(c, others, w).st, X)
  {
  }

  lemma RecalledTruths(c: Context, w: Progress, X: iset<Node>, m: Node, depth: nat)
    requires !Expands(c, w.st, m, depth) && Grants.TruthsIn(c, w.st, X)
    ensures var (o, w') := Recalled(c, w, m, depth);
            Grants.TruthsIn(c, w'.st, X) && (o == Answer(true) ==> m in X)
  {
  }

  lemma RecordedTruths(c: Context, others: Others, w: Progress, X: iset<Node>, m: Node, o: Outcome)
    requires Grants.TruthsIn(c, w.st, X) && TheirTruthsIn(c, others, X) && (o == Answer(true) ==> m in X)
    ensures Grants.TruthsIn(c, Recorded(c, others, w, m, o).st, X)
  {
    ArriveTruths(c, others, w, X);
    hide Arrive;
    Grants.LeaveTruths(c, Arrive(c, others, w).st, X, m, o);
    Grants.LeaveTruths(c, w.st, X, m, o);
    hide Grants.TruthsIn;
    hide Leave;
  }

  lemma {:induction false} AmidGrantsWithin(c: Context, others: Others, w: Progress, X: iset<Node>, n: Node, task: Task,
                                            depth: nat)
    requires Fits(c, task, depth) && Closed(c.scene, {}, X, false)
    requires Grants.TruthsIn(c, w.st, X) && TheirTruthsIn(c, others, X)
    ensures var (o, w') := ExecAmid(c, others, w, n, task, depth);
            Grants.TruthsIn(c, w'.st, X) && (o == Answer(true) ==> Sem(c.scene, X, n, task, false))
    decreases Fuel(c, task, depth), task.Load(), task.Length()
  {
    hide Grants.TruthsIn;
    hide TheirTruthsIn;
    hide Arrive;
    hide Recall;
    hide Recorded;
    match task
    case Ask(m) =>
      if depth > c.maxDepth || m in w.st.memo {
        RecalledTruths(c, w, X, m, depth);
      } else {
        var got := Arrive(c, others, w);
        ArriveTruths(c, others, w, X);
        if Expands(c, got.st, m, depth) {
          var entered := got.(st := Enter(got.st, m, depth));
          Grants.SameTruths(c, got.st, entered.st, X);
          match Rule(c.scene.schema, m)
          case Ok(rw) =>
            AmidGrantsWithin(c, others, entered, X, m, Apply(rw), depth);
            var (o, after) := ExecAmid(c, others, entered, m, Apply(rw), depth);
            assert o == Answer(true) ==> Holds(c.scene, X, m, false);
            RecordedTruths(c, others, after, X, m, o);
          case Err(e) => Grants.LeaveTruths(c, entered.st, X, m, Failed(e));
        } else {
          RecalledTruths(c, got, X, m, depth);
        }
      }
    case Apply(rw) =>
      if rw.Exclusion? {
        AmidGrantsWithin(c, others, w, X, n, Apply(rw.base), depth);
        AmidGrantsWithin(c, others, ExecAmid(c, others, w, n, Apply(rw.base), depth).1, X, n, Apply(rw.subtract), depth);
      } else {
        var next := Unfold(c.scene.view, n, rw);
        AmidGrantsWithin(c, others, w, X, n, next, DepthOf(next, depth));
      }
    case Children(rws, stop) =>
      if rws != [] {
        AmidGrantsWithin(c, others, w, X, n, Apply(rws[0]), depth);
        var w1 := ExecAmid(c, others, w, n, Apply(rws[0]), depth).1;
        AmidGrantsWithin(c, others, w1, X, n, Children(rws[1..], stop), depth);
      }
    case Edges(es) =>
      if es != [] {
        if es[0].To? {
          AmidGrantsWithin(c, others, w, X, n, Ask(es[0].node), depth + 1);
          var (o, w1) := ExecAmid(c, others, w, n, Ask(es[0].node), depth + 1);
          assert o == Answer(true) ==> Fires(c.scene, X, es[0]);
          AmidGrantsWithin(c, others, w1, X, n, Edges(es[1..]), depth);
        } else {
          assert es[0] == Plain(c.scene.subject) ==> Fires(c.scene, X, es[0]);
          AmidGrantsWithin(c, others, w, X, n, Edges(es[1..]), depth);
        }
      }
  }

  ghost predicate TheyAgree(c: Context, others: Others, rank: map<Node, nat>, X: iset<Node>) {
    forall i, m: Node :: m in rank && c.Key(m) in others(i) ==> (others(i)[c.Key(m)] <==> m in X)
  }

  lemma ArriveAgrees(c: Context, others: Others, w: Progress, rank: map<Node, nat>, X: iset<Node>)
    requires Denials.Agrees(c, w.st, rank, X) && TheyAgree(c, others, rank, X)
    ensures Denials.Agrees(c, Arrive(c, others, w).st, rank, X)
  {
  }

  lemma RecalledAgrees(c: Context, w: Progress, rank: map<Node, nat>, X: iset<Node>, m: Node, depth: nat)
    requires !Expands(c, w.st, m, depth) && Denials.Agrees(c, w.st, rank, X) && (m in rank ==> m !in w.st.visiting)
    ensures var (o, w') := Recalled(c, w, m, depth);
            Denials.Agrees(c, w'.st, rank, X) && (m in rank && o.Answer? ==> (o.allowed <==> m in X))
  {
  }

  lemma RecordedAgrees(c: Context, others: Others, w: Progress, rank: map<Node, nat>, X: iset<Node>, m: Node, o: Outcome)
    requires Denials.Agrees(c, w.st, rank, X) && TheyAgree(c, others, rank, X)
    requires m in rank && o.Answer? ==> (o.allowed <==> m in X)
    ensures Denials.Agrees(c, Recorded(c, others, w, m, o).st, rank, X)
  {
    ArriveAgrees(c, others, w, rank, X);
    hide Arrive;
    Denials.LeaveAgrees(c, Arrive(c, others, w).st, rank, X, m, o);
    Denials.LeaveAgrees(c, w.st, rank, X, m, o);
    hide Denials.Agrees;
    hide Leave;
  }

  lemma {:induction false} AmidAgrees(c: Context, others: Others, w: Progress, rank: map<Node, nat>, X: iset<Node>,
                                      n: Node, task: Task, depth: nat)
    requires Fits(c, task, depth) && Descends(c.scene.schema, c.scene.view, rank) && Solves(c.scene, rank, X)
    requires Denials.Agrees(c, w.st, rank, X) && TheyAgree(c, others, rank, X)
    requires Denials.Below(c.scene.view, w.st.visiting, rank, n, task)
    ensures var (o, w') := ExecAmid(c, others, w, n, task, depth);
            Denials.Agrees(c, w'.st, rank, X) &&
            (Denials.Inside(c.scene.view, rank, n, task) && o.Answer? ==> (o.allowed <==> Sem(c.scene, X, n, task, true)))
    decreases Fuel(c, task, depth), task.Load(), task.Length()
  {
    hide Denials.Agrees;
    hide TheyAgree;
    hide Descends;
    hide Solves;
    hide Denials.Below;
    hide Denials.Inside;
    hide Occurs;
    hide PartOf;
    hide Recorded;
    var s := c.scene;
    Parts(s.view, n, task, true);
    match task
    case Ask(m) => AskedAgrees(c, others, w, rank, X, n, m, depth);
    case Apply(rw) =>
      if rw.Exclusion? {
        Denials.PartBelow(s.view, w.st.visiting, rank, n, Apply(rw.base), task);
        Denials.PartBelow(s.view, w.st.visiting, rank, n, Apply(rw.subtract), task);
        AmidAgrees(c, others, w, rank, X, n, Apply(rw.base), depth);
        var w1 := ExecAmid(c, others, w, n, Apply(rw.base), depth).1;
        AmidKeeps(c, others, w, n, Apply(rw.base), depth);
        AmidAgrees(c, others, w1, rank, X, n, Apply(rw.subtract), depth);
      } else {
        var next := Unfold(s.view, n, rw);
        Denials.PartBelow(s.view, w.st.visiting, rank, n, next, task);
        AmidAgrees(c, others, w, rank, X, n, next, DepthOf(next, depth));
      }
    case Children(rws, stop) =>
      if rws != [] {
        Denials.PartBelow(s.view, w.st.visiting, rank, n, Apply(rws[0]), task);
        Denials.PartBelow(s.view, w.st.visiting, rank, n, Children(rws[1..], stop), task);
        AmidAgrees(c, others, w, rank, X, n, Apply(rws[0]), depth);
        var w1 := ExecAmid(c, others, w, n, Apply(rws[0]), depth).1;
        AmidKeeps(c, others, w, n, Apply(rws[0]), depth);
        AmidAgrees(c, others, w1, rank, X, n, Children(rws[1..], stop), depth);
      }
    case Edges(es) =>
      if es != [] {
        Denials.EdgesSplit(s, X, n, es);
        Denials.PartBelow(s.view, w.st.visiting, rank, n, Edges(es[1..]), task);
        if es[0].To? {
          Denials.PartBelow(s.view, w.st.visiting, rank, n, Ask(es[0].node), task);
          AmidAgrees(c, others, w, rank, X, n, Ask(es[0].node), depth + 1);
          var w1 := ExecAmid(c, others, w, n, Ask(es[0].node), depth + 1).1;
          AmidKeeps(c, others, w, n, Ask(es[0].node), depth + 1);
          AmidAgrees(c, others, w1, rank, X, n, Edges(es[1..]), depth);
        } else {
          AmidAgrees(c, others, w, rank, X, n, Edges(es[1..]), depth);
        }
      }
  }

  lemma {:induction false} AskedAgrees(c: Context, others: Others, w: Progress, rank: map<Node, nat>, X: iset<Node>,
                                       n: Node, m: Node, depth: nat)
    requires Fits(c, Ask(m), depth) && Descends(c.scene.schema, c.scene.view, rank) && Solves(c.scene, rank, X)
    requires Denials.Agrees(c, w.st, rank, X) && TheyAgree(c, others, rank, X)
    requires Denials.Below(c.scene.view, w.st.visiting, rank, n, Ask(m))
    ensures var (o, w') := ExecAmid(c, others, w, n, Ask(m), depth);
            Denials.Agrees(c, w'.st, rank, X) &&
            (Denials.Inside(c.scene.view, rank, n, Ask(m)) && o.Answer? ==> (o.allowed <==> m in X))
    decreases Fuel(c, Ask(m), depth), 0, 0, 0
  {
    hide Denials.Agrees;
    hide TheyAgree;
    hide Descends;
    hide Solves;
    hide Denials.Below;
    hide Denials.Inside;
    hide Occurs;
    hide Recorded;
    hide Recall;
    var s := c.scene;
    Denials.AskBelow(s, w.st.visiting, rank, n, m);
    ArriveKeeps(c, others, w);
    if depth > c.maxDepth || m in w.st.memo {
      RecalledAgrees(c, w, rank, X, m, depth);
    } else {
      var got := Arrive(c, others, w);
      ArriveAgrees(c, others, w, rank, X);
      hide Arrive;
      if Expands(c, got.st, m, depth) {
        var entered := got.(st := Enter(got.st, m, depth));
        Denials.SameAgrees(c, got.st, entered.st, rank, X);
        match Rule(s.schema, m)
        case Ok(rw) =>
          AmidAgrees(c, others, entered, rank, X, m, Apply(rw), depth);
          var (o, after) := ExecAmid(c, others, entered, m, Apply(rw), depth);
          Denials.SolvesAt(s, rank, X, m);
          RecordedAgrees(c, others, after, rank, X, m, o);
        case Err(e) => Denials.LeaveAgrees(c, entered.st, rank, X, m, Failed(e));
      } else {
        RecalledAgrees(c, got, rank, X, m, depth);
      }
    }
  }

  // ---- Coherence ---------------------------------------------------------------------------

  /** Whatever others put in was right when they put it in, and so still is. */
  ghost predicate OthersCoherent(schema: Schema, log: Log, others: Others) {
    forall i :: Coherent(schema, System(log, others(i)))
  }

  lemma OwnEntry(c: Context, log: Log, cache: map<CacheKey, bool>, n: Node)
    requires Coherent(c.scene.schema, System(log, cache)) && Settled(c, log) && c.Key(n) in cache
    ensures Right(c.scene, n, cache[c.Key(n)])
  {
    hide Right;
    assert c.Key(n) == KeyFor(n, c.scene.subject, c.revision);
  }

  /** Everything the request remembers is right, and so is what the cache holds for it. */
  ghost predicate AllRight(c: Context, st: State) {
    && (forall m :: m in st.memo ==> Right(c.scene, m, st.memo[m]))
    && (forall m: Node :: c.Key(m) in st.cache ==> Right(c.scene, m, st.cache[c.Key(m)]))
  }

  lemma AmidGrants(c: Context, log: Log, others: Others, cache: map<CacheKey, bool>, root: Node, X: iset<Node>)
    requires Coherent(c.scene.schema, System(log, cache)) && OthersCoherent(c.scene.schema, log, others) && Settled(c, log)
    requires Closed(c.scene, {}, X, false) && forall m: Node :: Right(c.scene, m, true) ==> m in X
    ensures var (o, w) := RunAmid(c, others, cache, root);
            Grants.TruthsIn(c, w.st, X) && (o == Answer(true) ==> root in X)
  {
    forall m: Node | c.Key(m) in cache ensures Right(c.scene, m, cache[c.Key(m)]) { OwnEntry(c, log, cache, m); }
    forall i, m: Node | c.Key(m) in others(i) ensures Right(c.scene, m, others(i)[c.Key(m)]) {
      OwnEntry(c, log, others(i), m);
    }
    hide Right;
    hide Coherent;
    hide Closed;
    AmidGrantsWithin(c, others, Progress(Fresh(cache), 0), X, root, Ask(root), 0);
  }

  lemma AmidAcyclic(c: Context, log: Log, others: Others, cache: map<CacheKey, bool>, root: Node, rank: map<Node, nat>,
                    X: iset<Node>)
    requires Coherent(c.scene.schema, System(log, cache)) && OthersCoherent(c.scene.schema, log, others) && Settled(c, log)
    requires Descends(c.scene.schema, c.scene.view, rank) && Solves(c.scene, rank, X)
    ensures var (o, w) := RunAmid(c, others, cache, root);
            Denials.Agrees(c, w.st, rank, X) && (root in rank && o.Answer? ==> (o.allowed <==> root in X))
  {
    forall m: Node | m in rank && c.Key(m) in cache ensures cache[c.Key(m)] <==> m in X { OwnEntry(c, log, cache, m); }
    forall i, m: Node | m in rank && c.Key(m) in others(i) ensures others(i)[c.Key(m)] <==> m in X {
      OwnEntry(c, log, others(i), m);
    }
    hide Coherent;
    hide Right;
    hide Descends;
    hide Solves;
    AmidAgrees(c, others, Progress(Fresh(cache), 0), rank, X, root, Ask(root), 0);
  }

  /** However other checks' right entries land between a check's own cache calls, whatever
      it answers and whatever it ever records is right, on success and failure alike. */
  lemma AmidOthersIsRight(c: Context, log: Log, others: Others, cache: map<CacheKey, bool>, root: Node)
    requires Coherent(c.scene.schema, System(log, cache)) && OthersCoherent(c.scene.schema, log, others) && Settled(c, log)
    ensures var (o, w) := RunAmid(c, others, cache, root);
            AllRight(c, w.st) && (o.Answer? ==> Right(c.scene, root, o.allowed))
  {
    var (o, w) := RunAmid(c, others, cache, root);
    ReachableClosed(c.scene);
    AmidGrants(c, log, others, cache, root, Backed(c.scene));
    if ExclusionFree(c.scene.schema) {
      Grants.GrantedIsClosed(c.scene);
      AmidGrants(c, log, others, cache, root, Granted(c.scene));
    }
    forall rank: map<Node, nat>, X: iset<Node> | Descends(c.scene.schema, c.scene.view, rank) && Solves(c.scene, rank, X)
      ensures Denials.Agrees(c, w.st, rank, X) && (root in rank && o.Answer? ==> (o.allowed <==> root in X))
    {
      AmidAcyclic(c, log, others, cache, root, rank, X);
    }
    hide RunAmid;
    hide Coherent;
    hide Descends;
    hide Solves;
    hide Granted;
    hide Reachable;
  }

  /** ... and the cache it leaves is coherent, for every subject and revision. */
  lemma AmidOthersStaysCoherent(c: Context, log: Log, others: Others, cache: map<CacheKey, bool>, root: Node)
    requires Coherent(c.scene.schema, System(log, cache)) && OthersCoherent(c.scene.schema, log, others) && Settled(c, log)
    ensures Coherent(c.scene.schema, System(log, RunAmid(c, others, cache, root).1.st.cache))
  {
    AmidOthersIsRight(c, log, others, cache, root);
    AmidKeeps(c, others, Progress(Fresh(cache), 0), root, Ask(root), 0);
    hide Right;
    hide ExecAmid;
    var st := RunAmid(c, others, cache, root).1.st;
    forall n, s, rev: nat | PlainSubject(s) && KeyFor(n, s, rev) in st.cache
      ensures rev <= log.head && Right(Scene(c.scene.schema, View(log.rows, rev), s), n, st.cache[KeyFor(n, s, rev)])
    {
      var k := KeyFor(n, s, rev);
      if k == c.Key(n) {
        SubjectStringDetermines(s, c.scene.subject);
      } else {
        assert Theirs(others, cache, k, st.cache[k]);
      }
    }
  }
}
