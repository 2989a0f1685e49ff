/** When a shared cache tells the truth: every decision in it is right for its own
    subject at its own revision, and checks and writes keep it so. */
module Coherence {
  import opened Names
  import opened Schemas
  import opened Storage
  import opened Semantics
  import opened Checks
  import Grants
  import Denials

  /** A store and the cache shared by the requests on it. */
  datatype System = System(log: Log, cache: map<CacheKey, bool>)

  function KeyFor(n: Node, s: Subject, revision: nat): CacheKey {
    CacheKey(n.obj, n.relation, s.String(), revision)
  }

  /** What a decision about n must be, cyclic data and exclusions notwithstanding:
      an allow has a witness; without exclusion it lies in the least fixpoint; and
      where the dependencies below n are acyclic it is the plain meaning. */
  ghost predicate Right(s: Scene, n: Node, allowed: bool) {
    && (allowed ==> Reachable(s, n))
    && (allowed && ExclusionFree(s.schema) ==> n in Granted(s))
    && (forall rank: map<Node, nat>, X: iset<Node> ::
          n in rank && Descends(s.schema, s.view, rank) && Solves(s, rank, X) ==> (allowed <==> n in X))
  }

  ghost predicate Coherent(schema: Schema, sys: System) {
    forall n, s, rev: nat :: PlainSubject(s) && KeyFor(n, s, rev) in sys.cache ==>
      rev <= sys.log.head && Right(Scene(schema, View(sys.log.rows, rev), s), n, sys.cache[KeyFor(n, s, rev)])
  }

  /** The context asks a plainly named subject at a written revision of the store. */
  ghost predicate Settled(c: Context, log: Log) {
    c.cached && PlainSubject(c.scene.subject) && c.revision <= log.head && c.scene.view == View(log.rows, c.revision)
  }

  lemma CheckIsRight(c: Context, sys: System, root: Node)
    requires Coherent(c.scene.schema, sys) && Settled(c, sys.log)
    ensures var (o, st) := Run(c, sys.cache, root);
            (o.Answer? ==> Right(c.scene, root, o.allowed)) &&
            forall n :: c.Key(n) in st.cache ==> Right(c.scene, n, st.cache[c.Key(n)])
  {
    var (o, st) := Run(c, sys.cache, root);
    forall n | c.Key(n) in sys.cache ensures Right(c.scene, n, sys.cache[c.Key(n)]) {
      assert c.Key(n) == KeyFor(n, c.scene.subject, c.revision);
    }
    Grants.AllowsAreReachable(c, sys.cache, root);
    if ExclusionFree(c.scene.schema) {
      Grants.AllowsAreGranted(c, sys.cache, root);
    }
    forall rank: map<Node, nat>, X: iset<Node> |
        Descends(c.scene.schema, c.scene.view, rank) && Solves(c.scene, rank, X)
      ensures Denials.Agrees(c, st, rank, X) && (root in rank && o.Answer? ==> (o.allowed <==> root in X))
    {
      Denials.AcyclicChecksAreExact(c, sys.cache, rank, X, root);
    }
  }

  lemma CheckKeepsCoherence(c: Context, sys: System, root: Node)
    requires Coherent(c.scene.schema, sys) && Settled(c, sys.log)
    ensures Coherent(c.scene.schema, sys.(cache := Run(c, sys.cache, root).1.cache))
  {
    CheckIsRight(c, sys, root);
    hide Right;
    ExecExtends(c, Fresh(sys.cache), root, Ask(root), 0);
    hide Exec;
    var st := Run(c, sys.cache, root).1;
    forall n, s, rev: nat | PlainSubject(s) && KeyFor(n, s, rev) in st.cache
      ensures rev <= sys.log.head &&
              Right(Scene(c.scene.schema, View(sys.log.rows, rev), s), n, st.cache[KeyFor(n, s, rev)])
    {
      if KeyFor(n, s, rev) !in sys.cache {
        assert KeyFor(n, s, rev) == c.Key(n);
        SubjectStringDetermines(s, c.scene.subject);
      }
    }
  }

  /** Writes never invalidate an entry: the snapshot it describes is still there. */
  lemma GrowthKeepsCoherence(schema: Schema, sys: System, log: Log)
    requires Coherent(schema, sys) && log.head >= sys.log.head
    requires forall rev: nat :: rev <= sys.log.head ==> View(log.rows, rev) == View(sys.log.rows, rev)
    ensures Coherent(schema, sys.(log := log))
  {
    hide Right;
    hide View;
  }

  /** A request served while the store grows under it. */
  lemma ServedCoherently(c: Context, sys: System, root: Node, log: Log)
    requires Coherent(c.scene.schema, sys) && Settled(c, sys.log) && log.head >= sys.log.head
    requires forall rev: nat :: rev <= sys.log.head ==> View(log.rows, rev) == View(sys.log.rows, rev)
    ensures var (o, st) := Run(c, sys.cache, root);
            Coherent(c.scene.schema, System(log, st.cache)) && (o.Answer? ==> Right(c.scene, root, o.allowed))
  {
    CheckIsRight(c, sys, root);
    CheckKeepsCoherence(c, sys, root);
    hide *;
    GrowthKeepsCoherence(c.scene.schema, sys.(cache := Run(c, sys.cache, root).1.cache), log);
  }
}
