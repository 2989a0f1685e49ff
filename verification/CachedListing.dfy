/** Listing with the shared cache on.

    The walk backwards never looks at the cache, so what is proposed is the same; but a
    check that finds a cached allow can answer for an object further away than its depth
    limit reaches, which the walk does not. Over a coherent cache every decision a listing
    makes is right all the same. */
module CachedListing {
  import opened Names
  import opened Schemas
  import opened Storage
  import opened Semantics
  import opened Checks
  import opened Coherence
  import opened Reverses
  import opened Sweeps
  import opened Finding
  import opened Listing
  import Listers

  // ---- Over a coherent cache -------------------------------------------------------------

  /** An unlimited listing over a coherent cache that succeeds: on pairs whose
      dependencies are acyclic it returns exactly the candidates that the plain meaning
      grants; and whatever it returns has a granting path. */
  lemma CoherentListing(c: Context, sys: System, req: Listers.ListRequest, ranges: Node -> Ranges, ordered: seq<Object>,
                        rank: map<Node, nat>, X: iset<Node>, o: Object)
    requires Coherent(c.scene.schema, sys) && Settled(c, sys.log) && Listers.Ordering(c, req, ranges, ordered)
    requires Verified(c, sys.cache, ordered, req.permission, 0, []).0.Ok?
    requires Descends(c.scene.schema, c.scene.view, rank) && Solves(c.scene, rank, X)
    ensures var listed := Verified(c, sys.cache, ordered, req.permission, 0, []).0.value;
            (o in listed ==> Reachable(c.scene, Node(o, req.permission))) &&
            (Node(o, req.permission) in rank ==>
               (o in listed <==> o in Candidates(Listers.QueryOf(c, req, ranges)) && Node(o, req.permission) in X))
  {
    var k := VerifiedIsRight(c, sys, ordered, req.permission, 0);
    var listed := Verified(c, sys.cache, ordered, req.permission, 0, []).0.value;
    assert ordered[..k] == ordered;
    hide Coherent;
    hide Verified;
    hide Candidates;
    hide Descends;
    hide Solves;
    assert RightlyListed(c.scene, req.permission, ordered, listed);
  }

  // ---- Five groups, two levels -------------------------------------------------------------

  const SCHEMA := Schema(map["group" := Definition("group", map["member" := Relation("member", None)])])
  const USER := Subject(Object("user", "u"), "")

  function Group(id: string): Node { Node(Object("group", id), "member") }

  const G1 := Group("1")
  const G2 := Group("2")
  const G3 := Group("3")
  const G4 := Group("4")
  const G5 := Group("5")
  const T1 := Tuple(G1.obj, "member", G2.AsUserset())
  const T2 := Tuple(G2.obj, "member", G3.AsUserset())
  const T3 := Tuple(G3.obj, "member", G4.AsUserset())
  const T4 := Tuple(G4.obj, "member", G5.AsUserset())
  const T5 := Tuple(G5.obj, "member", USER)
  const VIEW := [T1, T2, T3, T4, T5]
  const SCENE := Scene(SCHEMA, VIEW, USER)
  const CONTEXT := Context(SCENE, 1, 2, true)

  predicate PlainWord(w: string) { ':' !in w && '#' !in w }

  lemma PlainWords()
    ensures PlainWord("group") && PlainWord("member") && PlainWord("user") && PlainWord("u")
    ensures PlainWord("1") && PlainWord("2") && PlainWord("3") && PlainWord("4") && PlainWord("5")
  {
  }

  lemma PlainChain()
    ensures PlainTuples(VIEW) && PlainSubjects(VIEW) && PlainSubject(USER)
    ensures PlainNode(G1) && PlainNode(G2) && PlainNode(G3) && PlainNode(G4) && PlainNode(G5)
  {
    PlainWords();
  }

  lemma FirstOf(n: Node, t: Tuple)
    requires n in {G1, G2, G3, G4, G5} && t in VIEW && NodeOf(t) == n
    ensures DirectEdges(VIEW, n) != [] && DirectEdges(VIEW, n)[0] == DirectEdge(t)
  {
    PlainChain();
    var ts := Read(VIEW, n.obj, n.relation);
    ReadIsExact(VIEW, n.obj, n.relation, t);
    assert t in ts;
    ReadIsExact(VIEW, n.obj, n.relation, ts[0]);
    hide Read;
    assert ts[0] == t;
  }

  /** The first edge that is allowed decides. */
  lemma AllowedByFirst(c: Context, st: State, n: Node, m: Node, depth: nat, st1: State)
    requires c.scene.view == VIEW && Rule(c.scene.schema, n) == Ok(This) && Checks.Expands(c, st, n, depth)
    requires DirectEdges(VIEW, n) != [] && DirectEdges(VIEW, n)[0] == To(m)
    requires Exec(c, Enter(st, n, depth), n, Ask(m), depth + 1) == (Answer(true), st1)
    ensures Exec(c, st, n, Ask(n), depth) == (Answer(true), Leave(c, st1, n, Answer(true)))
  {
    assert depth <= c.maxDepth;
    hide DirectEdges;
    hide Checks.Expands;
    var es, entered := DirectEdges(VIEW, n), Enter(st, n, depth);
    assert Exec(c, entered, n, Edges(es), depth) == (Answer(true), st1);
    assert Unfold(VIEW, n, This) == Edges(es);
    assert Exec(c, entered, n, Apply(This), depth) == (Answer(true), st1);
  }

  lemma AllowedDirectly(c: Context, st: State, n: Node, depth: nat)
    requires c.scene.view == VIEW && Rule(c.scene.schema, n) == Ok(This) && Checks.Expands(c, st, n, depth)
    requires DirectEdges(VIEW, n) != [] && DirectEdges(VIEW, n)[0] == Plain(c.scene.subject)
    ensures Exec(c, st, n, Ask(n), depth) == (Answer(true), Leave(c, Enter(st, n, depth), n, Answer(true)))
  {
    assert depth <= c.maxDepth;
    hide DirectEdges;
    hide Checks.Expands;
    var es, entered := DirectEdges(VIEW, n), Enter(st, n, depth);
    assert Exec(c, entered, n, Edges(es), depth) == (Answer(true), entered);
    assert Unfold(VIEW, n, This) == Edges(es);
    assert Exec(c, entered, n, Apply(This), depth) == (Answer(true), entered);
  }

  lemma AskedFromAnywhere(c: Context, st: State, n: Node, m: Node, depth: nat)
    requires Fits(c, Ask(m), depth)
    ensures Exec(c, st, n, Ask(m), depth) == Exec(c, st, m, Ask(m), depth)
  {
  }

  /** A node not decided or being decided, by memo and cache. */
  ghost predicate Open(st: State, n: Node) { n !in st.memo && CONTEXT.Key(n) !in st.cache && n !in st.visiting }

  lemma OpenExpands(st: State, n: Node, depth: nat)
    requires Open(st, n) && depth <= 2
    ensures Checks.Expands(CONTEXT, st, n, depth)
  {
  }

  lemma EnteredStaysOpen(st: State, n: Node, m: Node, depth: nat)
    requires Open(st, m) && n != m
    ensures Open(Enter(st, n, depth), m) && Enter(st, n, depth).cache == st.cache
  {
  }

  lemma LeftIsCached(st: State, n: Node)
    ensures Leave(CONTEXT, st, n, Answer(true)).cache == st.cache[CONTEXT.Key(n) := true]
  {
  }

  lemma NodesDiffer()
    ensures G1 != G2 && G1 != G3 && G2 != G3 && G3 != G4 && G3 != G5 && G4 != G5
    ensures G1 != G4 && G1 != G5 && G2 != G4 && G2 != G5
    ensures forall n :: n in {G1, G2, G3, G4, G5} ==> Rule(SCHEMA, n) == Ok(This)
  {
  }

  lemma KeysTell(n: Node, m: Node)
    ensures CONTEXT.Key(n) == CONTEXT.Key(m) <==> n == m
  {
  }

  lemma Fifth(st: State)
    requires Open(st, G5)
    ensures var (o, st') := Exec(CONTEXT, st, G4, Ask(G5), 2);
            o == Answer(true) && st'.cache == st.cache[CONTEXT.Key(G5) := true]
  {
    FirstOf(G5, T5);
    NodesDiffer();
    assert DirectEdge(T5) == Plain(USER);
    hide *;
    OpenExpands(st, G5, 2);
    SceneIs();
    AllowedDirectly(CONTEXT, st, G5, 2);
    AskedFromAnywhere(CONTEXT, st, G4, G5, 2);
    LeftIsCached(Enter(st, G5, 2), G5);
    EnteredKeepsCache(st, G5, 2);
  }

  lemma SceneIs()
    ensures CONTEXT.scene.view == VIEW && CONTEXT.scene.schema == SCHEMA && CONTEXT.scene.subject == USER
    ensures CONTEXT.maxDepth == 2
    ensures forall m, depth: nat :: depth <= 2 ==> Fits(CONTEXT, Ask(m), depth)
  {
  }

  lemma EnteredKeepsCache(st: State, n: Node, depth: nat)
    ensures Enter(st, n, depth).cache == st.cache
  {
  }

  /** A group is allowed through the one it lists; its allow is cached too. */
  lemma Through(st: State, from: Node, n: Node, m: Node, t: Tuple, depth: nat)
    requires n in {G1, G2, G3, G4} && t in VIEW && NodeOf(t) == n && DirectEdge(t) == To(m)
    requires Open(st, n) && depth < 2
    requires Exec(CONTEXT, Enter(st, n, depth), n, Ask(m), depth + 1).0 == Answer(true)
    ensures var (o, st') := Exec(CONTEXT, st, from, Ask(n), depth);
            o == Answer(true) &&
            st'.cache == Exec(CONTEXT, Enter(st, n, depth), n, Ask(m), depth + 1).1.cache[CONTEXT.Key(n) := true]
  {
    FirstOf(n, t);
    NodesDiffer();
    hide *;
    SceneIs();
    OpenExpands(st, n, depth);
    var st1 := Exec(CONTEXT, Enter(st, n, depth), n, Ask(m), depth + 1).1;
    AllowedByFirst(CONTEXT, st, n, m, depth, st1);
    AskedFromAnywhere(CONTEXT, st, from, n, depth);
    LeftIsCached(st1, n);
  }

  lemma Links()
    ensures DirectEdge(T1) == To(G2) && DirectEdge(T2) == To(G3) && DirectEdge(T3) == To(G4) && DirectEdge(T4) == To(G5)
    ensures NodeOf(T1) == G1 && NodeOf(T2) == G2 && NodeOf(T3) == G3 && NodeOf(T4) == G4
    ensures T1 in VIEW && T2 in VIEW && T3 in VIEW && T4 in VIEW
  {
  }

  lemma FreshIsOpen(cache: map<CacheKey, bool>, n: Node)
    requires CONTEXT.Key(n) !in cache
    ensures Open(Fresh(cache), n) && Fresh(cache).cache == cache
  {
  }

  function Known(): map<CacheKey, bool> {
    map[CONTEXT.Key(G5) := true][CONTEXT.Key(G4) := true][CONTEXT.Key(G3) := true]
  }

  /** Checking the third group reaches the user within two levels and caches three allows. */
  lemma CheckingTheThird()
    ensures Run(CONTEXT, map[], G3).0 == Answer(true) && Run(CONTEXT, map[], G3).1.cache == Known()
  {
    hide Exec;
    hide Open;
    hide Enter;
    hide Fresh;
    hide VIEW;
    Links();
    NodesDiffer();
    var st := Fresh(map[]);
    FreshIsOpen(map[], G3);
    FreshIsOpen(map[], G4);
    FreshIsOpen(map[], G5);
    var st3 := Enter(st, G3, 0);
    var st4 := Enter(st3, G4, 1);
    EnteredStaysOpen(st, G3, G4, 0);
    EnteredStaysOpen(st, G3, G5, 0);
    EnteredStaysOpen(st3, G4, G5, 1);
    Fifth(st4);
    Through(st3, G3, G4, G5, T4, 1);
    Through(st, G3, G3, G4, T3, 0);
  }

  /** The next check of the first group is allowed through the cached third. */
  lemma CheckingTheFirst()
    ensures Run(CONTEXT, Known(), G1).0 == Answer(true)
  {
    Links();
    NodesDiffer();
    KeysTell(G1, G3);
    KeysTell(G1, G4);
    KeysTell(G1, G5);
    KeysTell(G2, G3);
    KeysTell(G2, G4);
    KeysTell(G2, G5);
    assert CONTEXT.Key(G1) !in Known() && CONTEXT.Key(G2) !in Known();
    var st := Fresh(Known());
    FreshIsOpen(Known(), G1);
    FreshIsOpen(Known(), G2);
    var st1 := Enter(st, G1, 0);
    var st2 := Enter(st1, G2, 1);
    Cached(st2);
    hide Exec;
    hide Enter;
    hide Open;
    hide VIEW;
    EnteredStaysOpen(st, G1, G2, 0);
    Through(st1, G1, G2, G3, T2, 1);
    Through(st, G1, G1, G2, T1, 0);
  }

  lemma Cached(st: State)
    requires G3 !in st.memo && st.cache == Known()
    ensures Exec(CONTEXT, st, G2, Ask(G3), 2).0 == Answer(true)
  {
    assert CONTEXT.Key(G3) in st.cache && st.cache[CONTEXT.Key(G3)];
  }

  /** A schema without walks has no heirs. */
  lemma NoHeirs(m: Node, n: Node)
    ensures !Heir(SCENE, m, n)
  {
  }

  lemma FoundIsAGroup(n: Node, k: nat)
    requires Found(SCENE, n, k)
    ensures Named(SCENE, n, k) && n in {G1, G2, G3, G4, G5}
  {
    forall m ensures !Heir(SCENE, m, n) { NoHeirs(m, n); }
    hide Heir;
    var t := NamedIsStored(SCENE, n, k);
  }

  lemma PlainGroups(n: Node)
    requires n in {G1, G2, G3, G4, G5}
    ensures PlainSubject(n.AsUserset()) && n.relation == "member"
  {
    PlainWords();
  }

  /** A group is found only through the one it lists, a level before. */
  lemma FoundThrough(n: Node, next: Node, t: Tuple, k: nat)
    requires t.subject == next.AsUserset() && t.subject != USER && next.relation == "member"
    requires forall x :: x in VIEW && NodeOf(x) == n ==> x == t
    requires Found(SCENE, n, k)
    ensures k > 0 && Found(SCENE, next, k - 1)
  {
    FoundIsAGroup(n, k);
    PlainChain();
    hide PlainSubjects;
    hide PlainSubject;
    var x, m := WhoNames(SCENE, n, k);
    if x in ReadBySubject(VIEW, USER, "") {
      ReadBySubjectIsExact(VIEW, USER, "", x);
    } else {
      FoundIsAGroup(m, k - 1);
      PlainGroups(m);
      ReadBySubjectIsExact(VIEW, m.AsUserset(), "", x);
      hide Found;
      assert m == next;
    }
  }

  lemma OnlyTuples()
    ensures forall x :: x in VIEW && NodeOf(x) == G1 ==> x == T1
    ensures forall x :: x in VIEW && NodeOf(x) == G2 ==> x == T2
    ensures forall x :: x in VIEW && NodeOf(x) == G3 ==> x == T3
  {
  }

  lemma FirstIsNotFound()
    ensures !Proposes(SCENE, 2, "group", "member", G1.obj)
  {
    OnlyTuples();
    hide Found;
    forall r | Proposing(SCENE, 2, "group", "member", G1.obj, r) ensures false {
      assert LinkClosed(SCHEMA.definitions["group"], {"member"});
      hide Contributes;
      FoundThrough(G1, G2, T1, 2);
      FoundThrough(G2, G3, T2, 1);
      FoundThrough(G3, G4, T3, 0);
    }
  }

  /** With a depth limit of two, a check of the third group makes the next check allow the
      first, which no listing proposes: through a shared cache the two bounds differ. */
  lemma CachedAllowIsNotListed(q: Query)
    requires Legal(q) && q.scene == SCENE && q.maxDepth == 2 && q.kind == "group" && q.permission == "member"
    ensures Run(CONTEXT, Run(CONTEXT, map[], G3).1.cache, G1).0 == Answer(true) && CONTEXT.maxDepth == 2
    ensures G1.obj !in Candidates(q) && TuplesOnRelations(SCENE) && UnionOnly(SCHEMA)
  {
    assert TuplesOnRelations(SCENE) && UnionOnly(SCHEMA);
    hide *;
    SceneIs();
    CheckingTheThird();
    CheckingTheFirst();
    FirstIsNotFound();
    if G1.obj in Candidates(q) {
      CandidatesAreFound(q, G1.obj);
    }
  }
}
