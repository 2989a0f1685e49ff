/** How far and how hard a request works, and how it can fail. */
module Work {
  import opened Names
  import opened Schemas
  import opened Semantics
  import opened Checks

  // ---- Depth and lookups ---------------------------------------------------------

  /** R contains whatever its nodes depend on. */
  ghost predicate Spans(s: Scene, R: iset<Node>) {
    forall n, m ::
      n in R && Rule(s.schema, n).Ok? && Occurs(s.view, n, Apply(Rule(s.schema, n).value), To(m), true) ==> m in R
  }

  ghost predicate Within(V: set<Node>, R: iset<Node>) { forall v :: v in V ==> v in R }

  /** R has at most k nodes. */
  ghost predicate Small(R: iset<Node>, k: nat) { forall V: set<Node> :: Within(V, R) ==> |V| <= k }

  ghost predicate TargetsIn(view: seq<Tuple>, R: iset<Node>, n: Node, task: Task) {
    forall m :: Occurs(view, n, task, To(m), true) ==> m in R
  }

  lemma PartTargets(view: seq<Tuple>, R: iset<Node>, n: Node, part: Task, task: Task)
    requires TargetsIn(view, R, n, task) && PartOf(view, n, part, task, true)
    ensures TargetsIn(view, R, n, part)
  {
  }

  lemma AskTargets(s: Scene, R: iset<Node>, n: Node, m: Node)
    requires Spans(s, R) && TargetsIn(s.view, R, n, Ask(m))
    ensures m in R && (Rule(s.schema, m).Ok? ==> TargetsIn(s.view, R, m, Apply(Rule(s.schema, m).value)))
  {
    assert Occurs(s.view, n, Ask(m), To(m), true);
  }

  /** Nodes being visited: exactly `depth` of them on entry to a node, one more
      inside its rewrite. */
  predicate Stacked(st: State, task: Task, depth: nat) {
    |st.visiting| == if task.Ask? then depth else depth + 1
  }

  ghost predicate Undefined(s: Scene, R: iset<Node>) {
    exists x :: x in R && !Defined(s.schema, x)
  }

  ghost predicate Contained(st: State, R: iset<Node>) {
    Within(st.memo.Keys, R) && Within(st.visiting, R)
  }

  /** How a request that stays in R can fail. */
  ghost predicate Explained(c: Context, R: iset<Node>, o: Outcome) {
    o.Failed? ==>
      if o.why == DepthExceeded then !Small(R, c.maxDepth) else Undefined(c.scene, R)
  }

  lemma RememberedWithin(c: Context, st: State, R: iset<Node>, n: Node, m: Node, depth: nat)
    requires Fits(c, Ask(m), depth) && !Expands(c, st, m, depth)
    requires Contained(st, R) && Stacked(st, Ask(m), depth) && m in R
    ensures var (o, st') := Exec(c, st, n, Ask(m), depth); Contained(st', R) && Explained(c, R, o)
  {
  }

  lemma LeaveWithin(c: Context, st: State, R: iset<Node>, m: Node, o: Outcome)
    requires Contained(st, R) && m in R
    ensures Contained(Leave(c, st, m, o), R)
  {
  }

  lemma EnterWithin(c: Context, st: State, R: iset<Node>, m: Node, depth: nat, rw: Rewrite)
    requires Contained(st, R) && Stacked(st, Ask(m), depth) && m in R && m !in st.visiting
    ensures var entered := Enter(st, m, depth);
            Contained(entered, R) && Stacked(entered, Apply(rw), depth)
  {
  }

  /** A request that stays in R: it only decides nodes of R, it fails a lookup only
      on an undefined node of R, and never on depth when R is no larger than the
      limit -- the visiting set has `depth` distinct nodes at every entry. */
  lemma {:induction false} ExecStaysWithin(c: Context, st: State, R: iset<Node>, n: Node, task: Task, depth: nat)
    requires Fits(c, task, depth) && Spans(c.scene, R) && TargetsIn(c.scene.view, R, n, task)
    requires Contained(st, R) && Stacked(st, task, depth)
    ensures var (o, st') := Exec(c, st, n, task, depth); Contained(st', R) && Explained(c, R, o)
    decreases Fuel(c, task, depth), task.Load(), task.Length()
  {
    hide Spans;
    hide TargetsIn;
    hide Occurs;
    hide PartOf;
    hide Contained;
    hide Leave;
    hide Small;
    var s := c.scene;
    Parts(s.view, n, task, true);
    match task
    case Ask(m) =>
      AskTargets(s, R, n, m);
      if Expands(c, st, m, depth) {
        hide Explained;
        var entered := Enter(st, m, depth);
        EnterWithin(c, st, R, m, depth, This);
        match Rule(s.schema, m)
        case Ok(rw) =>
          ExecStaysWithin(c, entered, R, m, Apply(rw), depth);
          var (o, after) := Exec(c, entered, m, Apply(rw), depth);
          LeaveWithin(c, after, R, m, o);
        case Err(e) =>
          LeaveWithin(c, entered, R, m, Failed(e));
          UndefinedExplains(c, R, m);
      } else {
        RememberedWithin(c, st, R, n, m, depth);
      }
    case Apply(rw) =>
      if rw.Exclusion? {
        PartTargets(s.view, R, n, Apply(rw.base), task);
        PartTargets(s.view, R, n, Apply(rw.subtract), task);
        ExecStaysWithin(c, st, R, n, Apply(rw.base), depth);
        VisitingRestored(c, st, n, Apply(rw.base), depth);
        ExecStaysWithin(c, Exec(c, st, n, Apply(rw.base), depth).1, R, n, Apply(rw.subtract), depth);
      } else {
        var next := Unfold(s.view, n, rw);
        PartTargets(s.view, R, n, next, task);
        ExecStaysWithin(c, st, R, n, next, DepthOf(next, depth));
      }
    case Children(rws, stop) =>
      if rws != [] {
        PartTargets(s.view, R, n, Apply(rws[0]), task);
        PartTargets(s.view, R, n, Children(rws[1..], stop), task);
        ExecStaysWithin(c, st, R, n, Apply(rws[0]), depth);
        VisitingRestored(c, st, n, Apply(rws[0]), depth);
        ExecStaysWithin(c, Exec(c, st, n, Apply(rws[0]), depth).1, R, n, Children(rws[1..], stop), depth);
      }
    case Edges(es) =>
      if es != [] {
        PartTargets(s.view, R, n, Edges(es[1..]), task);
        if es[0].To? {
          PartTargets(s.view, R, n, Ask(es[0].node), task);
          ExecStaysWithin(c, st, R, n, Ask(es[0].node), depth + 1);
          VisitingRestored(c, st, n, Ask(es[0].node), depth + 1);
          ExecStaysWithin(c, Exec(c, st, n, Ask(es[0].node), depth + 1).1, R, n, Edges(es[1..]), depth);
        } else {
          ExecStaysWithin(c, st, R, n, Edges(es[1..]), depth);
        }
      }
  }

  lemma VisitingRestored(c: Context, st: State, n: Node, task: Task, depth: nat)
    requires Fits(c, task, depth)
    ensures Exec(c, st, n, task, depth).1.visiting == st.visiting
  {
    ExecExtends(c, st, n, task, depth);
  }

  lemma UndefinedExplains(c: Context, R: iset<Node>, m: Node)
    requires m in R && Rule(c.scene.schema, m).Err?
    ensures Explained(c, R, Failed(Rule(c.scene.schema, m).error))
  {
    assert !Defined(c.scene.schema, m);
  }

  ghost function AllOf(R: set<Node>): iset<Node> { iset n | n in R }

  lemma {:induction false} Subset(V: set<Node>, R: set<Node>)
    requires V <= R
    ensures |V| <= |R|
  {
    if V != {} {
      var v :| v in V;
      Subset(V - {v}, R - {v});
    }
  }

  /** R has at most `limit` nodes, the root among them, and contains whatever they depend on. */
  ghost predicate Encloses(s: Scene, R: set<Node>, root: Node, limit: int) {
    root in R && Spans(s, AllOf(R)) && |R| <= limit
  }

  ghost predicate Enclosed(s: Scene, root: Node, limit: int) { exists R :: Encloses(s, R, root, limit) }

  /** ... and all of them are defined. */
  ghost predicate Manageable(s: Scene, root: Node, limit: int) {
    exists R :: Encloses(s, R, root, limit) && forall n :: n in R ==> Defined(s.schema, n)
  }

  lemma EnclosedIsSmall(s: Scene, R: set<Node>, root: Node, limit: nat)
    requires Encloses(s, R, root, limit)
    ensures Small(AllOf(R), limit)
  {
    forall V: set<Node> | Within(V, AllOf(R)) ensures |V| <= limit {
      assert V <= R;
      Subset(V, R);
    }
  }

  /** A request that can reach at most MaxDepth pairs never exceeds the depth
      limit, even with cycles; if they are all defined it cannot fail at all. */
  lemma FewPairsNeverExceedDepth(c: Context, cache: map<CacheKey, bool>, R: set<Node>, root: Node)
    requires Encloses(c.scene, R, root, c.maxDepth)
    ensures var (o, st') := Run(c, cache, root);
            o != Failed(DepthExceeded) && st'.memo.Keys <= R &&
            ((forall n :: n in R ==> Defined(c.scene.schema, n)) ==> o.Answer?)
  {
    EnclosedIsSmall(c.scene, R, root, c.maxDepth);
    ExecStaysWithin(c, Fresh(cache), AllOf(R), root, Ask(root), 0);
  }

  lemma ManageableAnswers(c: Context, cache: map<CacheKey, bool>, root: Node)
    ensures Enclosed(c.scene, root, c.maxDepth) ==> Run(c, cache, root).0 != Failed(DepthExceeded)
    ensures Manageable(c.scene, root, c.maxDepth) ==> Run(c, cache, root).0.Answer?
  {
    hide Encloses;
    hide Run;
    if R :| Encloses(c.scene, R, root, c.maxDepth) {
      FewPairsNeverExceedDepth(c, cache, R, root);
    }
    if R :| Encloses(c.scene, R, root, c.maxDepth) && forall n :: n in R ==> Defined(c.scene.schema, n) {
      FewPairsNeverExceedDepth(c, cache, R, root);
    }
  }

  /** The far end of a stored tuple: a userset subject, or what a walk asks of one. */
  ghost predicate StoredTarget(s: Scene, x: Node) {
    exists n, leaf :: Rule(s.schema, n).Ok? && Mentions(Rule(s.schema, n).value, leaf, true) &&
      !leaf.ComputedUserset? && LeafEdge(s.view, n, leaf, To(x))
  }

  ghost function Accountable(s: Scene): iset<Node> {
    iset x | Defined(s.schema, x) || StoredTarget(s, x)
  }

  /** In a locally closed schema -- which is what validation leaves -- a check of a
      defined pair fails a lookup only where a stored tuple's subject leads. */
  lemma LookupsFailOnlyAtStoredSubjects(c: Context, cache: map<CacheKey, bool>, root: Node)
    requires LocallyClosed(c.scene.schema) && Defined(c.scene.schema, root)
    ensures var o := Run(c, cache, root).0;
            o.Failed? && o.why != DepthExceeded ==>
              exists x :: StoredTarget(c.scene, x) && !Defined(c.scene.schema, x)
  {
    var s := c.scene;
    forall n, m | Rule(s.schema, n).Ok? && Occurs(s.view, n, Apply(Rule(s.schema, n).value), To(m), true)
      ensures m in Accountable(s)
    {
      var leaf := OccursAtLeaf(s.view, n, Rule(s.schema, n).value, To(m), true);
    }
    ExecStaysWithin(c, Fresh(cache), Accountable(s), root, Ask(root), 0);
  }

  // ---- Linear work -------------------------------------------------------------------

  /** A node being visited is decided nowhere. */
  ghost predicate Undecided(c: Context, st: State) {
    forall v :: v in st.visiting ==> v !in st.memo && (c.cached ==> c.Key(v) !in st.cache)
  }

  /** Expansions and cache hits not accounted for by a memoised node. */
  function Surplus(st: State): int { st.expansions + st.cacheHits - |st.memo| }

  /** Levels a failing run can leave open. */
  function Open(c: Context, task: Task, depth: nat): int { c.maxDepth - depth + if task.Ask? then 1 else 0 }

  lemma LeaveUndecided(c: Context, st: State, m: Node, o: Outcome)
    requires Undecided(c, st) && m in st.visiting
    ensures Undecided(c, Leave(c, st, m, o))
    ensures Surplus(Leave(c, st, m, o)) == Surplus(st) - if o.Answer? then 1 else 0
  {
  }

  lemma RememberedWork(c: Context, st: State, n: Node, m: Node, depth: nat)
    requires Fits(c, Ask(m), depth) && !Expands(c, st, m, depth) && Undecided(c, st)
    ensures var st' := Exec(c, st, n, Ask(m), depth).1; Undecided(c, st') && Surplus(st') == Surplus(st)
  {
  }

  /** Every expansion is of a pair not decided before, and decides it: work is one
      expansion or cache hit per memoised pair, plus, on failure, at most the
      levels left open. */
  lemma {:induction false} ExecWorksOncePerPair(c: Context, st: State, n: Node, task: Task, depth: nat)
    requires Fits(c, task, depth) && Undecided(c, st)
    ensures var (o, st') := Exec(c, st, n, task, depth);
            Undecided(c, st') && Surplus(st) <= Surplus(st') <= Surplus(st) + Open(c, task, depth) &&
            (o.Answer? ==> Surplus(st') == Surplus(st))
    decreases Fuel(c, task, depth), task.Load(), task.Length()
  {
    hide Undecided;
    hide Leave;
    hide Surplus;
    match task
    case Ask(m) =>
      if Expands(c, st, m, depth) {
        var entered := Enter(st, m, depth);
        EnterUndecided(c, st, m, depth);
        match Rule(c.scene.schema, m)
        case Ok(rw) =>
          ExecWorksOncePerPair(c, entered, m, Apply(rw), depth);
          ExecExtends(c, entered, m, Apply(rw), depth);
          var (o, after) := Exec(c, entered, m, Apply(rw), depth);
          LeaveUndecided(c, after, m, o);
        case Err(e) => LeaveUndecided(c, entered, m, Failed(e));
      } else {
        RememberedWork(c, st, n, m, depth);
      }
    case Apply(rw) =>
      if rw.Exclusion? {
        ExecWorksOncePerPair(c, st, n, Apply(rw.base), depth);
        ExecWorksOncePerPair(c, Exec(c, st, n, Apply(rw.base), depth).1, n, Apply(rw.subtract), depth);
      } else {
        var next := Unfold(c.scene.view, n, rw);
        ExecWorksOncePerPair(c, st, n, next, DepthOf(next, depth));
      }
    case Children(rws, stop) =>
      if rws != [] {
        ExecWorksOncePerPair(c, st, n, Apply(rws[0]), depth);
        ExecWorksOncePerPair(c, Exec(c, st, n, Apply(rws[0]), depth).1, n, Children(rws[1..], stop), depth);
      }
    case Edges(es) =>
      if es != [] {
        if es[0].To? {
          ExecWorksOncePerPair(c, st, n, Ask(es[0].node), depth + 1);
          ExecWorksOncePerPair(c, Exec(c, st, n, Ask(es[0].node), depth + 1).1, n, Edges(es[1..]), depth);
        } else {
          ExecWorksOncePerPair(c, st, n, Edges(es[1..]), depth);
        }
      }
  }

  lemma EnterUndecided(c: Context, st: State, m: Node, depth: nat)
    requires Undecided(c, st) && Expands(c, st, m, depth)
    ensures var entered := Enter(st, m, depth);
            Undecided(c, entered) && Surplus(entered) == Surplus(st) + 1
  {
  }

  // ---- Nothing twice -------------------------------------------------------------------

  /** The trail counts the expansions and names no node twice. */
  ghost predicate NoneTwice(st: State) {
    st.expansions == |st.trail| && forall i, j :: 0 <= i < j < |st.trail| ==> st.trail[i] != st.trail[j]
  }

  /** Whatever was expanded is decided or still being decided. */
  ghost predicate Accounted(st: State) { forall m :: m in st.trail ==> m in st.memo || m in st.visiting }

  lemma EnterOnce(c: Context, st: State, m: Node, depth: nat)
    requires NoneTwice(st) && Accounted(st) && Expands(c, st, m, depth)
    ensures NoneTwice(Enter(st, m, depth)) && Accounted(Enter(st, m, depth))
  {
  }

  lemma LeaveOnce(c: Context, st: State, m: Node, o: Outcome)
    requires NoneTwice(st) && (o.Answer? ==> Accounted(st))
    ensures NoneTwice(Leave(c, st, m, o)) && (o.Answer? ==> Accounted(Leave(c, st, m, o)))
  {
  }

  lemma RememberedOnce(c: Context, st: State, n: Node, m: Node, depth: nat)
    requires Fits(c, Ask(m), depth) && !Expands(c, st, m, depth) && NoneTwice(st) && Accounted(st)
    ensures var st' := Exec(c, st, n, Ask(m), depth).1; NoneTwice(st') && Accounted(st')
  {
  }

  /** No step expands a node the request expanded before, whether it answers or fails. */
  lemma {:induction false} ExecExpandsNoneTwice(c: Context, st: State, n: Node, task: Task, depth: nat)
    requires Fits(c, task, depth) && NoneTwice(st) && Accounted(st)
    ensures var (o, st') := Exec(c, st, n, task, depth);
            NoneTwice(st') && (o.Answer? ==> Accounted(st'))
    decreases Fuel(c, task, depth), task.Load(), task.Length()
  {
    hide NoneTwice;
    hide Accounted;
    hide Leave;
    match task
    case Ask(m) =>
      if Expands(c, st, m, depth) {
        var entered := Enter(st, m, depth);
        EnterOnce(c, st, m, depth);
        match Rule(c.scene.schema, m)
        case Ok(rw) =>
          ExecExpandsNoneTwice(c, entered, m, Apply(rw), depth);
          var (o, after) := Exec(c, entered, m, Apply(rw), depth);
          LeaveOnce(c, after, m, o);
        case Err(e) => LeaveOnce(c, entered, m, Failed(e));
      } else {
        RememberedOnce(c, st, n, m, depth);
      }
    case Apply(rw) =>
      if rw.Exclusion? {
        ExecExpandsNoneTwice(c, st, n, Apply(rw.base), depth);
        var (o, st1) := Exec(c, st, n, Apply(rw.base), depth);
        if o.Answer? { ExecExpandsNoneTwice(c, st1, n, Apply(rw.subtract), depth); }
      } else {
        var next := Unfold(c.scene.view, n, rw);
        ExecExpandsNoneTwice(c, st, n, next, DepthOf(next, depth));
      }
    case Children(rws, stop) =>
      if rws != [] {
        ExecExpandsNoneTwice(c, st, n, Apply(rws[0]), depth);
        var (o, st1) := Exec(c, st, n, Apply(rws[0]), depth);
        if o.Answer? { ExecExpandsNoneTwice(c, st1, n, Children(rws[1..], stop), depth); }
      }
    case Edges(es) =>
      if es != [] {
        if es[0].To? {
          ExecExpandsNoneTwice(c, st, n, Ask(es[0].node), depth + 1);
          var (o, st1) := Exec(c, st, n, Ask(es[0].node), depth + 1);
          if o.Answer? { ExecExpandsNoneTwice(c, st1, n, Edges(es[1..]), depth); }
        } else {
          ExecExpandsNoneTwice(c, st, n, Edges(es[1..]), depth);
        }
      }
  }

  /** No pair is expanded twice in one request, on success and failure alike; on
      success the pairs expanded are among the memoised. */
  lemma NoPairIsExpandedTwice(c: Context, cache: map<CacheKey, bool>, root: Node)
    ensures var (o, st') := Run(c, cache, root);
            NoneTwice(st') && (o.Answer? ==> forall m :: m in st'.trail ==> m in st'.memo)
  {
    ExecExpandsNoneTwice(c, Fresh(cache), root, Ask(root), 0);
    ExecExtends(c, Fresh(cache), root, Ask(root), 0);
  }

  // ---- Failing closed --------------------------------------------------------------------

  /** Every pair expanded so far is defined. */
  ghost predicate AllDefined(c: Context, st: State) { forall m :: m in st.trail ==> Defined(c.scene.schema, m) }

  lemma EnterDefined(c: Context, st: State, m: Node, depth: nat)
    requires AllDefined(c, st) && Defined(c.scene.schema, m)
    ensures AllDefined(c, Enter(st, m, depth))
  {
  }

  lemma {:induction false} AnswersExpandDefined(c: Context, st: State, n: Node, task: Task, depth: nat)
    requires Fits(c, task, depth) && AllDefined(c, st)
    ensures var (o, st') := Exec(c, st, n, task, depth); o.Answer? ==> AllDefined(c, st')
    decreases Fuel(c, task, depth), task.Load(), task.Length()
  {
    hide AllDefined;
    match task
    case Ask(m) =>
      if Expands(c, st, m, depth) && Rule(c.scene.schema, m).Ok? {
        var rw := Rule(c.scene.schema, m).value;
        EnterDefined(c, st, m, depth);
        AnswersExpandDefined(c, Enter(st, m, depth), m, Apply(rw), depth);
        var (o, after) := Exec(c, Enter(st, m, depth), m, Apply(rw), depth);
        SameTrail(c, after, Leave(c, after, m, o));
      } else if !Expands(c, st, m, depth) {
        SameTrail(c, st, Recall(c, st, m, depth).1);
      }
    case Apply(rw) =>
      if rw.Exclusion? {
        AnswersExpandDefined(c, st, n, Apply(rw.base), depth);
        var (o, st1) := Exec(c, st, n, Apply(rw.base), depth);
        if o.Answer? { AnswersExpandDefined(c, st1, n, Apply(rw.subtract), depth); }
      } else {
        var next := Unfold(c.scene.view, n, rw);
        AnswersExpandDefined(c, st, n, next, DepthOf(next, depth));
      }
    case Children(rws, stop) =>
      if rws != [] {
        AnswersExpandDefined(c, st, n, Apply(rws[0]), depth);
        var (o, st1) := Exec(c, st, n, Apply(rws[0]), depth);
        if o.Answer? { AnswersExpandDefined(c, st1, n, Children(rws[1..], stop), depth); }
      }
    case Edges(es) =>
      if es != [] {
        if es[0].To? {
          AnswersExpandDefined(c, st, n, Ask(es[0].node), depth + 1);
          var (o, st1) := Exec(c, st, n, Ask(es[0].node), depth + 1);
          if o.Answer? { AnswersExpandDefined(c, st1, n, Edges(es[1..]), depth); }
        } else {
          AnswersExpandDefined(c, st, n, Edges(es[1..]), depth);
        }
      }
  }

  lemma SameTrail(c: Context, st: State, st': State)
    requires st'.trail == st.trail
    ensures AllDefined(c, st') <==> AllDefined(c, st)
  {
  }

  /** A check that so much as expands an undefined pair fails: no answer, allow or deny, is
      ever given past one. */
  lemma UndefinedPairsFailTheCheck(c: Context, cache: map<CacheKey, bool>, root: Node)
    ensures var (o, st') := Run(c, cache, root);
            (exists m :: m in st'.trail && !Defined(c.scene.schema, m)) ==> o.Failed?
  {
    AnswersExpandDefined(c, Fresh(cache), root, Ask(root), 0);
  }

  // ---- Linear work over a whole request ----------------------------------------------------

  /** On success, expansions plus cache hits is the number of pairs the request
      decided; on failure it is more by at most the depth limit. */
  lemma WorkIsLinear(c: Context, cache: map<CacheKey, bool>, root: Node)
    ensures var (o, st') := Run(c, cache, root);
            st'.visiting == {} &&
            |st'.memo| <= st'.expansions + st'.cacheHits <= |st'.memo| + c.maxDepth + 1 &&
            (o.Answer? ==> st'.expansions + st'.cacheHits == |st'.memo|)
  {
    ExecWorksOncePerPair(c, Fresh(cache), root, Ask(root), 0);
    ExecExtends(c, Fresh(cache), root, Ask(root), 0);
  }
}
