/** What one request of the check engine computes, step by step.

    `Exec` follows the engine's recursion exactly: the depth limit, then the
    memo, the shared cache, the visiting set, and only then the rewrite, left to
    right with short-circuits. It carries the whole state of the request. */
module Checks {
  import opened Names
  import opened Schemas
  import opened Semantics

  const DEFAULT_MAX_DEPTH := 32

  function EffectiveDepth(maxDepth: int): nat {
    if maxDepth <= 0 then DEFAULT_MAX_DEPTH else maxDepth
  }

  /** A cached decision's identity includes the revision it was computed at. */
  datatype CacheKey = CacheKey(obj: Object, relation: string, subject: string, revision: nat)

  datatype Context = Context(scene: Scene, revision: nat, maxDepth: nat, cached: bool) {
    function Key(n: Node): CacheKey {
      CacheKey(n.obj, n.relation, scene.subject.String(), revision)
    }
  }

  /** The state of one request; the subject is fixed for its whole duration, so
      nodes stand for the memo's keys. `trail` is what has been expanded, in order. */
  datatype State = State(
    memo: map<Node, bool>,
    visiting: set<Node>,
    cache: map<CacheKey, bool>,
    expansions: nat,
    memoHits: nat,
    cacheHits: nat,
    deepest: nat,
    trail: seq<Node>)

  datatype Outcome = Answer(allowed: bool) | Failed(why: Failure)

  function Max(a: nat, b: nat): nat { if a < b then b else a }

  function Fresh(cache: map<CacheKey, bool>): State { State(map[], {}, cache, 0, 0, 0, 0, []) }

  predicate Fits(c: Context, task: Task, depth: nat) {
    depth <= c.maxDepth || (task.Ask? && depth == c.maxDepth + 1)
  }

  function Fuel(c: Context, task: Task, depth: nat): nat
    requires Fits(c, task, depth)
  {
    2 * (c.maxDepth + 1 - depth) + if task.Ask? then 1 else 0
  }

  /** The node is neither decided nor being decided: its rewrite will be applied. */
  predicate Expands(c: Context, st: State, m: Node, depth: nat) {
    depth <= c.maxDepth && m !in st.memo && !(c.cached && c.Key(m) in st.cache) && m !in st.visiting
  }

  /** Asking a node whose rewrite will not be applied: past the depth limit, found
      in the memo or the cache, or already being visited, which resolves to false. */
  function Recall(c: Context, st: State, m: Node, depth: nat): (Outcome, State)
    requires !Expands(c, st, m, depth)
  {
    if depth > c.maxDepth then (Failed(DepthExceeded), st) else
    var seen := st.(deepest := Max(st.deepest, depth));
    if m in st.memo then
      (Answer(st.memo[m]), seen.(memoHits := st.memoHits + 1))
    else if c.cached && c.Key(m) in st.cache then
      (Answer(st.cache[c.Key(m)]),
       seen.(cacheHits := st.cacheHits + 1, memo := st.memo[m := st.cache[c.Key(m)]]))
    else
      (Answer(false), seen)
  }

  function Enter(st: State, m: Node, depth: nat): State {
    st.(deepest := Max(st.deepest, depth), visiting := st.visiting + {m}, expansions := st.expansions + 1,
        trail := st.trail + [m])
  }

  /** Only asking another node goes one level deeper. */
  function DepthOf(next: Task, depth: nat): nat { if next.Ask? then depth + 1 else depth }

  function Not(o: Outcome): Outcome { if o.Answer? then Answer(!o.allowed) else o }

  /** Running `task` at node n and `depth`: the outcome and the state it leaves. */
  function Exec(c: Context, st: State, n: Node, task: Task, depth: nat): (Outcome, State)
    requires Fits(c, task, depth)
    decreases Fuel(c, task, depth), task.Load(), task.Length()
  {
    match task
    case Ask(m) =>
      if !Expands(c, st, m, depth) then Recall(c, st, m, depth) else
      var entered := Enter(st, m, depth);
      (match Rule(c.scene.schema, m)
       case Err(e) => (Failed(e), Leave(c, entered, m, Failed(e)))
       case Ok(rw) =>
         var (o, after) := Exec(c, entered, m, Apply(rw), depth);
         (o, Leave(c, after, m, o)))
    case Apply(rw) =>
      if rw.Exclusion? then
        var (base, st1) := Exec(c, st, n, Apply(rw.base), depth);
        if base != Answer(true) then (base, st1) else
        var (sub, st2) := Exec(c, st1, n, Apply(rw.subtract), depth);
        (Not(sub), st2)
      else
        var next := Unfold(c.scene.view, n, rw);
        Exec(c, st, n, next, DepthOf(next, depth))
    case Children(rws, stop) =>
      if rws == [] then (Answer(!stop), st) else
      var (o, st1) := Exec(c, st, n, Apply(rws[0]), depth);
      if o.Failed? || o.allowed == stop then (o, st1) else Exec(c, st1, n, Children(rws[1..], stop), depth)
    case Edges(es) =>
      if es == [] then (Answer(false), st) else
      match es[0]
      case Plain(x) =>
        if x == c.scene.subject then (Answer(true), st) else Exec(c, st, n, Edges(es[1..]), depth)
      case To(m) =>
        var (o, st1) := Exec(c, st, n, Ask(m), depth + 1);
        if o != Answer(false) then (o, st1) else Exec(c, st1, n, Edges(es[1..]), depth)
  }

  /** Unwinding from m: it is no longer being visited, and a decision is recorded. */
  function Leave(c: Context, st: State, m: Node, o: Outcome): State {
    var left := st.(visiting := st.visiting - {m});
    if o.Failed? then left
    else left.(memo := st.memo[m := o.allowed],
               cache := if c.cached then st.cache[c.Key(m) := o.allowed] else st.cache)
  }

  /** A whole request: ask the root with an empty memo. */
  function Run(c: Context, cache: map<CacheKey, bool>, root: Node): (Outcome, State) {
    Exec(c, Fresh(cache), root, Ask(root), 0)
  }

  // ---- What every step keeps ----------------------------------------------------------

  /** Later states only add decisions, the cache only for this subject and
      revision, and restore the visiting set. */
  ghost predicate Extends(c: Context, st: State, st': State) {
    && st'.visiting == st.visiting
    && st.memo.Keys <= st'.memo.Keys && (forall m :: m in st.memo ==> st'.memo[m] == st.memo[m])
    && st.cache.Keys <= st'.cache.Keys && (forall k :: k in st.cache ==> st'.cache[k] == st.cache[k])
    && (forall k :: k in st'.cache && k !in st.cache ==> c.cached && k == c.Key(Node(k.obj, k.relation)))
  }

  lemma ExtendsItself(c: Context, st: State, st': State)
    requires st'.memo == st.memo && st'.visiting == st.visiting && st'.cache == st.cache
    ensures Extends(c, st, st')
  {
  }

  lemma ExtendsTransitive(c: Context, st: State, st1: State, st2: State)
    requires Extends(c, st, st1) && Extends(c, st1, st2)
    ensures Extends(c, st, st2)
  {
  }

  lemma AskedExtends(c: Context, st: State, m: Node, depth: nat, after: State, o: Outcome)
    requires Expands(c, st, m, depth)
    requires Extends(c, Enter(st, m, depth), after)
    ensures Extends(c, st, Leave(c, after, m, o))
  {
  }

  lemma RememberedExtends(c: Context, st: State, m: Node, depth: nat)
    requires Fits(c, Ask(m), depth) && !Expands(c, st, m, depth)
    ensures forall n :: Extends(c, st, Exec(c, st, n, Ask(m), depth).1)
  {
  }

  /** No step forgets or changes a decision, and the visiting set is back to what
      it was on every exit, error or not. */
  lemma {:induction false} ExecExtends(c: Context, st: State, n: Node, task: Task, depth: nat)
    requires Fits(c, task, depth)
    ensures Extends(c, st, Exec(c, st, n, task, depth).1)
    decreases Fuel(c, task, depth), task.Load(), task.Length()
  {
    hide Extends;
    hide Leave;
    ExtendsItself(c, st, st);
    match task
    case Ask(m) =>
      if Expands(c, st, m, depth) {
        var entered := Enter(st, m, depth);
        match Rule(c.scene.schema, m)
        case Ok(rw) =>
          ExecExtends(c, entered, m, Apply(rw), depth);
          var (o, after) := Exec(c, entered, m, Apply(rw), depth);
          AskedExtends(c, st, m, depth, after, o);
        case Err(e) =>
          ExtendsItself(c, entered, entered);
          AskedExtends(c, st, m, depth, entered, Failed(e));
      } else {
        RememberedExtends(c, st, m, depth);
      }
    case Apply(rw) =>
      if rw.Exclusion? {
        ExecExtends(c, st, n, Apply(rw.base), depth);
        var st1 := Exec(c, st, n, Apply(rw.base), depth).1;
        ExecExtends(c, st1, n, Apply(rw.subtract), depth);
        ExtendsTransitive(c, st, st1, Exec(c, st1, n, Apply(rw.subtract), depth).1);
      } else {
        var next := Unfold(c.scene.view, n, rw);
        ExecExtends(c, st, n, next, DepthOf(next, depth));
      }
    case Children(rws, stop) =>
      if rws != [] {
        ExecExtends(c, st, n, Apply(rws[0]), depth);
        var st1 := Exec(c, st, n, Apply(rws[0]), depth).1;
        ExecExtends(c, st1, n, Children(rws[1..], stop), depth);
        ExtendsTransitive(c, st, st1, Exec(c, st1, n, Children(rws[1..], stop), depth).1);
      }
    case Edges(es) =>
      if es != [] {
        if es[0].To? {
          ExecExtends(c, st, n, Ask(es[0].node), depth + 1);
          var st1 := Exec(c, st, n, Ask(es[0].node), depth + 1).1;
          ExecExtends(c, st1, n, Edges(es[1..]), depth);
          ExtendsTransitive(c, st, st1, Exec(c, st1, n, Edges(es[1..]), depth).1);
        } else {
          ExecExtends(c, st, n, Edges(es[1..]), depth);
        }
      }
  }
}
