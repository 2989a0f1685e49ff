/** Whole histories: any sequence of writes and checks sharing one store and one
    revision-keyed cache. */
module Runs {
  import opened Names
  import opened Schemas
  import opened Storage
  import opened Semantics
  import opened Checks
  import opened Coherence
  import opened Engines

  datatype Event = Wrote(batch: Batch) | Checked(req: Request)

  /** The engine every check in a history runs on. */
  datatype Setup = Setup(schema: Schema, maxDepth: nat)

  function ContextOf(e: Setup, log: Log, req: Request): Context {
    var revision := Resolve(req, log.head);
    Context(Scene(e.schema, View(log.rows, revision), req.subject), revision, e.maxDepth, true)
  }

  /** What a check does next to a system: its outcome and the state it ends in. */
  function Answering(e: Setup, sys: System, req: Request): (Outcome, State) {
    Run(ContextOf(e, sys.log, req), sys.cache, Node(req.obj, req.relation))
  }

  function Step(e: Setup, sys: System, ev: Event): System {
    match ev
    case Wrote(b) => sys.(log := Write(sys.log, b.add, b.remove))
    case Checked(req) => sys.(cache := Answering(e, sys, req).1.cache)
  }

  function After(e: Setup, events: seq<Event>): System {
    if events == [] then System(EMPTY, map[])
    else Step(e, After(e, events[..|events| - 1]), events[|events| - 1])
  }

  /** The subject prints unambiguously and the revision is already written. */
  predicate Ordinary(sys: System, req: Request) {
    PlainSubject(req.subject) && Resolve(req, sys.log.head) <= sys.log.head
  }

  predicate OrdinaryHistory(e: Setup, events: seq<Event>) {
    events == [] ||
    var front, last := events[..|events| - 1], events[|events| - 1];
    OrdinaryHistory(e, front) && (last.Checked? ==> Ordinary(After(e, front), last.req))
  }

  // ---- Every reachable state ------------------------------------------------------------

  lemma {:induction false} HistoriesStayCoherent(e: Setup, events: seq<Event>)
    requires OrdinaryHistory(e, events)
    ensures Coherent(e.schema, After(e, events))
  {
    if events != [] {
      var front, last := events[..|events| - 1], events[|events| - 1];
      HistoriesStayCoherent(e, front);
      match last
      case Wrote(b) =>
        var before := After(e, front).log;
        forall rev: nat | rev <= before.head ensures View(Write(before, b.add, b.remove).rows, rev) == View(before.rows, rev) {
          EarlierViewsNeverChange(before, b.add, b.remove, rev);
        }
        GrowthKeepsCoherence(e.schema, After(e, front), Write(before, b.add, b.remove));
      case Checked(req) =>
        var sys := After(e, front);
        CheckKeepsCoherence(ContextOf(e, sys.log, req), sys, Node(req.obj, req.relation));
    }
  }

  /** After any history of writes and checks sharing one cache, an error-free check
      at a written revision gives the right answer at that revision: grants have
      witnesses and (without exclusion) lie in the least fixpoint, and on acyclic
      dependencies it is exactly the plain recursive meaning of the full language. */
  lemma EveryAnswerIsRight(e: Setup, events: seq<Event>, req: Request)
    requires OrdinaryHistory(e, events) && Ordinary(After(e, events), req)
    ensures var sys := After(e, events);
            var o := Answering(e, sys, req).0;
            o.Answer? ==> Right(ContextOf(e, sys.log, req).scene, Node(req.obj, req.relation), o.allowed)
  {
    HistoriesStayCoherent(e, events);
    var sys := After(e, events);
    CheckIsRight(ContextOf(e, sys.log, req), sys, Node(req.obj, req.relation));
  }

  /** ... spelled out for acyclic dependencies: the answer is the k-fold unrolled
      meaning for every k past the rank of the asked pair. */
  lemma AcyclicAnswersAreThePlainMeaning(e: Setup, events: seq<Event>, req: Request, rank: map<Node, nat>, k: nat)
    requires OrdinaryHistory(e, events) && Ordinary(After(e, events), req)
    requires var s := ContextOf(e, After(e, events).log, req).scene; Descends(s.schema, s.view, rank)
    requires Node(req.obj, req.relation) in rank && forall n :: n in rank ==> rank[n] < k
    ensures var sys := After(e, events);
            var s, o := ContextOf(e, sys.log, req).scene, Answering(e, sys, req).0;
            o.Answer? ==> (o.allowed <==> Node(req.obj, req.relation) in Unrolled(s, k))
  {
    var sys := After(e, events);
    var s := ContextOf(e, sys.log, req).scene;
    EveryAnswerIsRight(e, events, req);
    UnrolledSolves(s, rank, k);
  }
}
