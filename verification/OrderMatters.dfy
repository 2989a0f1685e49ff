/** Two listings of one snapshot that propose different objects.

    A tuple stored on a permission names a userset; the permission also inherits. Which
    comes first depends on the order in which one pass over the schema meets two types.
    Found through the tuple, the permission's own walks are followed; found as an heir
    first, it counts as seen and they are not. */
module OrderMatters {
  import opened Names
  import opened Schemas
  import opened Storage
  import opened Semantics
  import opened Checks
  import opened Reverses
  import opened Sweeps
  import opened Finding
  import opened Listing
  import Denials
  import Work

  function Stored(name: string): Relation { Relation(name, None) }

  function Walking(name: string, tupleset: string, computed: string): Relation {
    Relation(name, Some(TupleToUserset(tupleset, computed)))
  }

  const GROUP := Definition("group", map["member" := Stored("member")])
  const TA := Definition("a", map["ts" := Stored("ts"), "p" := Walking("p", "ts", "member")])
  const TB := Definition("b", map["ts" := Stored("ts"), "q" := Walking("q", "ts", "member")])
  const FOLD := Definition("fold", map["viewer" := Stored("viewer")])
  const DOC := Definition("doc", map["parent" := Stored("parent"), "perm" := Walking("perm", "parent", "viewer")])
  const DOC2 := Definition("doc2", map["par" := Stored("par"), "view" := Walking("view", "par", "perm")])
  const SCHEMA := Schema(map["group" := GROUP, "a" := TA, "b" := TB, "fold" := FOLD, "doc" := DOC, "doc2" := DOC2])

  const USER := Subject(Object("user", "u"), "")
  const G := Node(Object("group", "g"), "member")
  const A := Node(Object("a", "1"), "p")
  const B := Node(Object("b", "1"), "q")
  const Y := Node(Object("doc", "y"), "perm")
  const Z := Node(Object("fold", "z"), "viewer")
  const X := Node(Object("doc2", "x"), "view")

  const NAMED := Tuple(G.obj, "member", USER)
  const A_TS := Tuple(A.obj, "ts", Subject(G.obj, ""))
  const B_TS := Tuple(B.obj, "ts", Subject(G.obj, ""))
  const ON_PERMISSION := Tuple(Y.obj, "perm", A.AsUserset())
  const VIEWER := Tuple(Z.obj, "viewer", B.AsUserset())
  const PARENT := Tuple(Y.obj, "parent", Subject(Z.obj, ""))
  const PAR := Tuple(X.obj, "par", Subject(Y.obj, ""))
  const VIEW := [NAMED, A_TS, B_TS, ON_PERMISSION, VIEWER, PARENT, PAR]
  const SCENE := Scene(SCHEMA, VIEW, USER)
  const CONTEXT := Context(SCENE, 1, DEFAULT_MAX_DEPTH, false)

  const NAMES := map["group" := ["member"], "a" := ["ts", "p"], "b" := ["ts", "q"], "fold" := ["viewer"],
                     "doc" := ["parent", "perm"], "doc2" := ["par", "view"]]
  const A_FIRST := Ranges(["a", "b", "group", "fold", "doc", "doc2"], NAMES)
  const B_FIRST := Ranges(["b", "a", "group", "fold", "doc", "doc2"], NAMES)

  const WALK_A := Walk("a", "p", "ts", "member")
  const WALK_B := Walk("b", "q", "ts", "member")
  const WALK_DOC := Walk("doc", "perm", "parent", "viewer")
  const WALK_DOC2 := Walk("doc2", "view", "par", "perm")

  ghost function Asking(r: Ranges): Query { Query(SCENE, DEFAULT_MAX_DEPTH, "doc2", "view", (n: Node) => r) }

  // ---- What is stored and what the schema says -----------------------------------------

  lemma Rules()
    ensures Rule(SCHEMA, G) == Ok(This) && Rule(SCHEMA, Z) == Ok(This)
    ensures Rule(SCHEMA, B) == Ok(TupleToUserset("ts", "member")) && Rule(SCHEMA, Y) == Ok(TupleToUserset("parent", "viewer"))
    ensures Rule(SCHEMA, X) == Ok(TupleToUserset("par", "perm"))
    ensures forall n :: Rule(SCHEMA, n).Ok? ==> Monotone(Rule(SCHEMA, n).value, false)
  {
  }

  predicate PlainWord(s: string) { ':' !in s && '#' !in s }

  lemma PlainWords()
    ensures PlainWord("user") && PlainWord("u") && PlainWord("group") && PlainWord("g") && PlainWord("1")
    ensures PlainWord("a") && PlainWord("b") && PlainWord("fold") && PlainWord("doc") && PlainWord("doc2")
    ensures PlainWord("x") && PlainWord("y") && PlainWord("z")
  {
  }

  lemma PlainRelations()
    ensures PlainWord("member") && PlainWord("ts") && PlainWord("perm") && PlainWord("viewer")
    ensures PlainWord("parent") && PlainWord("par")
  {
  }

  lemma PlainNames()
    ensures PlainTuples(VIEW) && PlainSubjects(VIEW) && PlainSubject(USER)
    ensures PlainSubject(G.AsUserset()) && PlainSubject(A.AsUserset()) && PlainSubject(B.AsUserset())
    ensures PlainSubject(Y.AsUserset()) && PlainSubject(Z.AsUserset())
    ensures PlainSubject(Subject(G.obj, "")) && PlainSubject(Subject(Z.obj, "")) && PlainSubject(Subject(Y.obj, ""))
  {
    PlainWords();
    PlainRelations();
  }

  /** Who is named by what, read through the reverse index. */
  lemma Reads(t: Tuple)
    ensures t in ReadBySubject(VIEW, USER, "") <==> t == NAMED
    ensures t !in ReadBySubject(VIEW, G.AsUserset(), "")
    ensures t in ReadBySubject(VIEW, A.AsUserset(), "") <==> t == ON_PERMISSION
    ensures t in ReadBySubject(VIEW, B.AsUserset(), "") <==> t == VIEWER
    ensures t !in ReadBySubject(VIEW, Z.AsUserset(), "") && t !in ReadBySubject(VIEW, Y.AsUserset(), "")
  {
    PlainNames();
    hide PlainSubjects;
    hide PlainSubject;
    ReadBySubjectIsExact(VIEW, USER, "", t);
    ReadBySubjectIsExact(VIEW, G.AsUserset(), "", t);
    ReadBySubjectIsExact(VIEW, A.AsUserset(), "", t);
    ReadBySubjectIsExact(VIEW, B.AsUserset(), "", t);
    ReadBySubjectIsExact(VIEW, Z.AsUserset(), "", t);
    ReadBySubjectIsExact(VIEW, Y.AsUserset(), "", t);
    hide ReadBySubject;
  }

  lemma Points(t: Tuple)
    ensures t in ReadBySubject(VIEW, Subject(G.obj, ""), "ts") <==> t == A_TS || t == B_TS
    ensures t in ReadBySubject(VIEW, Subject(Z.obj, ""), "parent") <==> t == PARENT
    ensures t in ReadBySubject(VIEW, Subject(Y.obj, ""), "par") <==> t == PAR
  {
    PlainNames();
    hide PlainSubjects;
    hide PlainSubject;
    ReadBySubjectIsExact(VIEW, Subject(G.obj, ""), "ts", t);
    ReadBySubjectIsExact(VIEW, Subject(Z.obj, ""), "parent", t);
    ReadBySubjectIsExact(VIEW, Subject(Y.obj, ""), "par", t);
    hide ReadBySubject;
  }

  lemma WalksIntoMember(w: Walk)
    ensures IsWalkInto(SCHEMA, "member", w) <==> w == WALK_A || w == WALK_B
  {
  }

  lemma WalksIntoViewer(w: Walk)
    ensures IsWalkInto(SCHEMA, "viewer", w) <==> w == WALK_DOC
  {
  }

  lemma WalksIntoPerm(w: Walk)
    ensures IsWalkInto(SCHEMA, "perm", w) <==> w == WALK_DOC2
  {
  }

  lemma ListsOne(name: string, keys: set<string>)
    requires keys == {name}
    ensures Lists([name], keys)
  {
  }

  lemma ListsTwo(first: string, second: string, keys: set<string>)
    requires first != second && keys == {first, second}
    ensures Lists([first, second], keys)
  {
    forall k ensures k in [first, second] <==> k in keys {
    }
  }

  lemma NamesAreListed(kind: string)
    requires kind in SCHEMA.definitions
    ensures kind in NAMES && Lists(NAMES[kind], SCHEMA.definitions[kind].relations.Keys)
  {
    ListsOne("member", {"member"});
    ListsTwo("ts", "p", {"ts", "p"});
    ListsTwo("ts", "q", {"ts", "q"});
    ListsOne("viewer", {"viewer"});
    ListsTwo("parent", "perm", {"parent", "perm"});
    ListsTwo("par", "view", {"par", "view"});
    hide Lists;
  }

  lemma AFirstIsLegal()
    ensures Ranging(SCHEMA, A_FIRST)
  {
    assert Lists(A_FIRST.kinds, SCHEMA.definitions.Keys);
    hide Lists;
    forall kind | kind in SCHEMA.definitions ensures kind in NAMES && Lists(NAMES[kind], SCHEMA.definitions[kind].relations.Keys) {
      NamesAreListed(kind);
    }
  }

  lemma BFirstIsLegal()
    ensures Ranging(SCHEMA, B_FIRST)
  {
    assert Lists(B_FIRST.kinds, SCHEMA.definitions.Keys);
    hide Lists;
    forall kind | kind in SCHEMA.definitions ensures kind in NAMES && Lists(NAMES[kind], SCHEMA.definitions[kind].relations.Keys) {
      NamesAreListed(kind);
    }
  }

  lemma BothOrdersAreLegal()
    ensures Legal(Asking(A_FIRST)) && Legal(Asking(B_FIRST))
  {
    AFirstIsLegal();
    BFirstIsLegal();
    hide Ranging;
  }

  // ---- The order of the walks into the group's members ---------------------------------------

  lemma AlongMore(kinds: seq<string>, names: map<string, seq<string>>, computed: string)
    requires kinds != [] && Ranged(SCHEMA, kinds, names)
    ensures var first := SCHEMA.definitions[kinds[0]];
            WalksUnder(first, names[kinds[0]], kinds[0], computed) <= WalksAlong(SCHEMA, kinds, names, computed)
    decreases |kinds|
  {
    var front := kinds[..|kinds| - 1];
    if front == [] {
      assert WalksAlong(SCHEMA, front, names, computed) == [];
    } else {
      assert front[0] == kinds[0];
      hide WalksUnder;
      AlongMore(front, names, computed);
    }
  }

  lemma FirstWalkA()
    ensures Ranging(SCHEMA, A_FIRST)
    ensures [WALK_A] <= WalkList(SCHEMA, "member", A_FIRST)
  {
    AFirstIsLegal();
    RangesCover(SCHEMA, A_FIRST);
    UnderA();
    assert A_FIRST.kinds[0] == "a" && A_FIRST.names["a"] == ["ts", "p"] && SCHEMA.definitions["a"] == TA;
    hide *;
    AlongMore(A_FIRST.kinds, A_FIRST.names, "member");
    ListIsAlong(A_FIRST);
  }

  lemma FirstWalkB()
    ensures Ranging(SCHEMA, B_FIRST)
    ensures [WALK_B] <= WalkList(SCHEMA, "member", B_FIRST)
  {
    BFirstIsLegal();
    RangesCover(SCHEMA, B_FIRST);
    UnderB();
    assert B_FIRST.kinds[0] == "b" && B_FIRST.names["b"] == ["ts", "q"] && SCHEMA.definitions["b"] == TB;
    hide *;
    AlongMore(B_FIRST.kinds, B_FIRST.names, "member");
    ListIsAlong(B_FIRST);
  }

  lemma ListIsAlong(r: Ranges)
    requires Ranging(SCHEMA, r)
    ensures Ranged(SCHEMA, r.kinds, r.names) && WalkList(SCHEMA, "member", r) == WalksAlong(SCHEMA, r.kinds, r.names, "member")
  {
    RangesCover(SCHEMA, r);
  }

  lemma UnderA()
    ensures WalksUnder(TA, ["ts", "p"], "a", "member") == [WALK_A]
  {
    assert ["ts", "p"][..1] == ["ts"] && ["ts"][..0] == [];
    assert WalksUnder(TA, ["ts"], "a", "member") == [];
    assert WalksOf(TupleToUserset("ts", "member"), "a", "p", "member") == [WALK_A];
  }

  lemma UnderB()
    ensures WalksUnder(TB, ["ts", "q"], "b", "member") == [WALK_B]
  {
    assert ["ts", "q"][..1] == ["ts"] && ["ts"][..0] == [];
    assert WalksUnder(TB, ["ts"], "b", "member") == [];
    assert WalksOf(TupleToUserset("ts", "member"), "b", "q", "member") == [WALK_B];
  }

  // ---- Visits ----------------------------------------------------------------------------------

  lemma HeirOf(q: Query, w: Sweep, n: Node, v: Walk, t: Tuple, depth: nat)
    requires t in Pointing(q, n, v) && t.obj.kind == v.kind
    requires forall t' :: t' in Pointing(q, n, v) && t'.obj.kind == v.kind ==> t' == t
    ensures Inherit(q, w, v, Pointing(q, n, v), depth) == Add(q, w, Node(t.obj, v.permission), depth)
  {
    hide Pointing;
    InheritsOnce(q, w, v, Pointing(q, n, v), Node(t.obj, v.permission), depth);
  }

  /** A list of walks that all lead to one heir finds that heir. */
  lemma {:induction false} OneHeir(q: Query, w: Sweep, n: Node, vs: seq<Walk>, v: Walk, t: Tuple, depth: nat)
    requires t in Pointing(q, n, v) && t.obj.kind == v.kind
    requires forall t' :: t' in Pointing(q, n, v) && t'.obj.kind == v.kind ==> t' == t
    requires forall x :: x in vs ==> x == v
    ensures InheritAll(q, w, n, vs, depth) == if vs == [] then w else Add(q, w, Node(t.obj, v.permission), depth)
    decreases |vs|
  {
    hide Pointing;
    hide Candidate;
    if vs != [] {
      assert vs[0] in vs;
      assert forall x :: x in vs[1..] ==> x in vs;
      HeirOf(q, w, n, v, t, depth);
      OneHeir(q, Add(q, w, Node(t.obj, v.permission), depth), n, vs[1..], v, t, depth);
    }
  }

  /** After the first of two heirs, the rest of the list finds the other. */
  lemma {:induction false} OtherHeir(q: Query, w: Sweep, n: Node, vs: seq<Walk>, v: Walk, t: Tuple, v': Walk, t': Tuple,
                                     depth: nat)
    requires t in Pointing(q, n, v) && t.obj.kind == v.kind && t' in Pointing(q, n, v') && t'.obj.kind == v'.kind
    requires forall x :: x in Pointing(q, n, v) && x.obj.kind == v.kind ==> x == t
    requires forall x :: x in Pointing(q, n, v') && x.obj.kind == v'.kind ==> x == t'
    requires (forall x :: x in vs ==> x == v || x == v') && Node(t.obj, v.permission) in w.dist && v != v'
    ensures InheritAll(q, w, n, vs, depth) == if v' in vs then Add(q, w, Node(t'.obj, v'.permission), depth) else w
    decreases |vs|
  {
    hide Pointing;
    hide Candidate;
    if vs != [] {
      assert vs[0] in vs;
      assert forall x :: x in vs <==> x == vs[0] || x in vs[1..];
      if vs[0] == v {
        HeirOf(q, w, n, v, t, depth);
        OtherHeir(q, w, n, vs[1..], v, t, v', t', depth);
      } else {
        var w1 := Add(q, w, Node(t'.obj, v'.permission), depth);
        HeirOf(q, w, n, v', t', depth);
        OtherHeir(q, w1, n, vs[1..], v, t, v', t', depth);
      }
    }
  }

  /** Only the document of the second kind can be proposed. */
  lemma OnlyX(r: Ranges, n: Node)
    ensures n in {G, A, B, Y, Z} ==> !Candidate(Asking(r), n)
    ensures Candidate(Asking(r), X)
  {
    hide LinkClosed;
  }

  lemma NodesDiffer()
    ensures G != A && G != B && G != Y && G != Z && G != X && A != B && A != Y && A != Z && A != X
    ensures B != Y && B != Z && B != X && Y != Z && Y != X && Z != X
  {
  }

  /** A node with two heirs, through walks met in this order. */
  lemma VisitTwo(q: Query, w: Sweep, n: Node, v: Walk, t: Tuple, v': Walk, t': Tuple, depth: nat)
    requires Legal(q) && n !in w.dist && v != v' && [v] <= WalksFrom(q, n)
    requires forall x :: IsWalkInto(q.scene.schema, n.relation, x) <==> x == v || x == v'
    requires forall x :: x in Pointing(q, n, v) && x.obj.kind == v.kind <==> x == t
    requires forall x :: x in Pointing(q, n, v') && x.obj.kind == v'.kind <==> x == t'
    ensures Visit(q, w, n, depth) ==
            Add(q, Add(q, Add(q, w, n, depth), Node(t.obj, v.permission), depth), Node(t'.obj, v'.permission), depth)
  {
    var vs, w1 := WalksFrom(q, n), Add(q, w, n, depth);
    forall x ensures x in vs <==> x == v || x == v' {
      WalkListIsExact(q.scene.schema, n.relation, q.ranges(n), x);
    }
    hide WalksFrom;
    hide Legal;
    hide Pointing;
    hide IsWalkInto;
    hide Candidate;
    assert v' in vs && vs[0] == v;
    assert forall x :: x in vs <==> x == vs[0] || x in vs[1..];
    HeirOf(q, w1, n, v, t, depth);
    assert forall x :: x in vs[1..] ==> x in vs;
    OtherHeir(q, Add(q, w1, Node(t.obj, v.permission), depth), n, vs[1..], v, t, v', t', depth);
  }

  lemma VisitOne(q: Query, w: Sweep, n: Node, v: Walk, t: Tuple, depth: nat)
    requires Legal(q) && n !in w.dist
    requires forall x :: IsWalkInto(q.scene.schema, n.relation, x) <==> x == v
    requires forall x :: x in Pointing(q, n, v) && x.obj.kind == v.kind <==> x == t
    ensures Visit(q, w, n, depth) == Add(q, Add(q, w, n, depth), Node(t.obj, v.permission), depth)
  {
    var vs := WalksFrom(q, n);
    forall x ensures x in vs <==> x == v {
      WalkListIsExact(q.scene.schema, n.relation, q.ranges(n), x);
    }
    hide WalksFrom;
    hide Legal;
    hide Pointing;
    hide IsWalkInto;
    hide Candidate;
    assert v in vs;
    OneHeir(q, Add(q, w, n, depth), n, vs, v, t, depth);
  }

  // ---- The two runs ------------------------------------------------------------------------------

  lemma VisitGAFirst(w: Sweep)
    requires G !in w.dist
    ensures var q := Asking(A_FIRST);
            Legal(q) && Visit(q, w, G, 1) == Add(q, Add(q, Add(q, w, G, 1), A, 1), B, 1)
  {
    BothOrdersAreLegal();
    FirstWalkA();
    var q := Asking(A_FIRST);
    forall x ensures IsWalkInto(SCHEMA, "member", x) <==> x == WALK_A || x == WALK_B { WalksIntoMember(x); }
    forall x ensures x in Pointing(q, G, WALK_A) && x.obj.kind == "a" <==> x == A_TS { Points(x); }
    forall x ensures x in Pointing(q, G, WALK_B) && x.obj.kind == "b" <==> x == B_TS { Points(x); }
    hide Legal;
    hide IsWalkInto;
    hide Pointing;
    hide Visit;
    hide Add;
    VisitTwo(q, w, G, WALK_A, A_TS, WALK_B, B_TS, 1);
  }

  lemma VisitGBFirst(w: Sweep)
    requires G !in w.dist
    ensures var q := Asking(B_FIRST);
            Legal(q) && Visit(q, w, G, 1) == Add(q, Add(q, Add(q, w, G, 1), B, 1), A, 1)
  {
    BothOrdersAreLegal();
    FirstWalkB();
    var q := Asking(B_FIRST);
    forall x ensures IsWalkInto(SCHEMA, "member", x) <==> x == WALK_A || x == WALK_B { WalksIntoMember(x); }
    forall x ensures x in Pointing(q, G, WALK_A) && x.obj.kind == "a" <==> x == A_TS { Points(x); }
    forall x ensures x in Pointing(q, G, WALK_B) && x.obj.kind == "b" <==> x == B_TS { Points(x); }
    hide Legal;
    hide IsWalkInto;
    hide Pointing;
    hide Visit;
    hide Add;
    VisitTwo(q, w, G, WALK_B, B_TS, WALK_A, A_TS, 1);
  }

  lemma NamedOnce(q: Query, w: Sweep, ts: seq<Tuple>, t: Tuple, depth: nat)
    requires Legal(q) && forall x :: x in ts <==> x == t
    ensures VisitAll(q, w, ts, depth) == Visit(q, w, NodeOf(t), depth)
  {
    hide *;
    assert t in ts;
    VisitsOnce(q, w, ts, NodeOf(t), depth);
  }

  lemma ExploreNamed(q: Query, w: Sweep, t: Tuple)
    requires Legal(q) && w.frontier != [] && w.frontier[0].depth <= q.maxDepth
    requires forall x :: x in Naming(q, w.frontier[0].subject) <==> x == t
    ensures Explore(q, w) == Visit(q, Popped(w), NodeOf(t), w.frontier[0].depth + 1)
  {
    hide *;
    var item := w.frontier[0];
    ExploreIs(q, w);
    NamedOnce(q, Popped(w), Naming(q, item.subject), t, item.depth + 1);
  }

  lemma NamedNever(q: Query, w: Sweep, ts: seq<Tuple>, depth: nat)
    requires Legal(q) && forall x :: x !in ts
    ensures VisitAll(q, w, ts, depth) == w
  {
    hide Visit;
    assert forall i :: 0 <= i < |ts| ==> ts[i] in ts;
  }

  lemma ExploreNothing(q: Query, w: Sweep)
    requires Legal(q) && w.frontier != [] && w.frontier[0].depth <= q.maxDepth
    requires forall x :: x !in Naming(q, w.frontier[0].subject)
    ensures Explore(q, w) == Popped(w)
  {
    hide *;
    var item := w.frontier[0];
    ExploreIs(q, w);
    NamedNever(q, Popped(w), Naming(q, item.subject), item.depth + 1);
  }

  lemma AddNew(q: Query, w: Sweep, n: Node, depth: nat)
    requires n !in w.dist && !Candidate(q, n)
    ensures Add(q, w, n, depth) == Sweep(w.frontier + [Item(n.AsUserset(), depth)], w.dist[n := depth], w.out)
  {
  }

  lemma TwoNew(q: Query, w: Sweep, m: Node, n: Node, depth: nat)
    requires m !in w.dist && n !in w.dist && m != n && !Candidate(q, m) && !Candidate(q, n)
    ensures Add(q, Add(q, w, m, depth), n, depth) ==
            Sweep(w.frontier + [Item(m.AsUserset(), depth), Item(n.AsUserset(), depth)],
                  w.dist[m := depth][n := depth], w.out)
  {
    hide Candidate;
    AddNew(q, w, m, depth);
    AddNew(q, Add(q, w, m, depth), n, depth);
    hide Add;
    assert w.frontier + [Item(m.AsUserset(), depth)] + [Item(n.AsUserset(), depth)] ==
           w.frontier + [Item(m.AsUserset(), depth), Item(n.AsUserset(), depth)];
  }

  lemma ThreeNew(q: Query, w: Sweep, l: Node, m: Node, n: Node, depth: nat)
    requires w == Sweep([], map[], {}) && l != m && l != n && m != n
    requires !Candidate(q, l) && !Candidate(q, m) && !Candidate(q, n)
    ensures Add(q, Add(q, Add(q, w, l, depth), m, depth), n, depth) ==
            Sweep([Item(l.AsUserset(), depth), Item(m.AsUserset(), depth), Item(n.AsUserset(), depth)],
                  map[l := depth, m := depth, n := depth], {})
  {
    hide Candidate;
    AddNew(q, w, l, depth);
    TwoNew(q, Add(q, w, l, depth), m, n, depth);
    hide Add;
  }

  const FOUND3 := map[G := 1, A := 1, B := 1]

  lemma SameThree()
    ensures map[G := 1, A := 1, B := 1] == FOUND3 == map[G := 1, B := 1, A := 1]
  {
    NodesDiffer();
  }

  lemma UserIsNamed(r: Ranges)
    requires Legal(Asking(r))
    ensures var q := Asking(r);
            Explore(q, Start(q)) == Visit(q, Sweep([], map[], {}), G, 1)
  {
    var q := Asking(r);
    forall x ensures x in Naming(q, USER) <==> x == NAMED { Reads(x); }
    assert Popped(Start(q)) == Sweep([], map[], {}) && Start(q).frontier[0] == Item(USER, 0) && NodeOf(NAMED) == G;
    hide *;
    ExploreNamed(q, Start(q), NAMED);
  }

  lemma AfterUserA(q: Query)
    requires q == Asking(A_FIRST)
    ensures Legal(q)
    ensures Explore(q, Start(q)) == Sweep([Item(G.AsUserset(), 1), Item(A.AsUserset(), 1), Item(B.AsUserset(), 1)], FOUND3, {})
  {
    hide *;
    var popped := Sweep([], map[], {});
    VisitGAFirst(popped);
    UserIsNamed(A_FIRST);
    OnlyX(A_FIRST, G);
    OnlyX(A_FIRST, A);
    OnlyX(A_FIRST, B);
    NodesDiffer();
    ThreeNew(q, popped, G, A, B, 1);
    SameThree();
  }

  lemma AfterUserB(q: Query)
    requires q == Asking(B_FIRST)
    ensures Legal(q)
    ensures Explore(q, Start(q)) == Sweep([Item(G.AsUserset(), 1), Item(B.AsUserset(), 1), Item(A.AsUserset(), 1)], FOUND3, {})
  {
    hide *;
    var popped := Sweep([], map[], {});
    VisitGBFirst(popped);
    UserIsNamed(B_FIRST);
    OnlyX(B_FIRST, G);
    OnlyX(B_FIRST, A);
    OnlyX(B_FIRST, B);
    NodesDiffer();
    ThreeNew(q, popped, G, B, A, 1);
    SameThree();
  }

  /** Nothing is stored for the members of the group. */
  lemma AfterGroup(q: Query, rest: seq<Item>)
    requires Legal(q) && q.scene == SCENE && q.maxDepth == DEFAULT_MAX_DEPTH
    ensures Explore(q, Sweep([Item(G.AsUserset(), 1)] + rest, FOUND3, {})) == Sweep(rest, FOUND3, {})
  {
    var w := Sweep([Item(G.AsUserset(), 1)] + rest, FOUND3, {});
    forall x ensures x !in Naming(q, w.frontier[0].subject) { Reads(x); }
    hide Legal;
    hide Naming;
    ExploreNothing(q, w);
  }

  lemma BothStart(q: Query)
    ensures Start(q).frontier != [] && Asking(A_FIRST).scene == Asking(B_FIRST).scene == SCENE
    ensures Asking(A_FIRST).maxDepth == Asking(B_FIRST).maxDepth == DEFAULT_MAX_DEPTH
  {
  }

  /** With type a first, doc:y is found through the tuple on its permission, and doc2:x
      through it. */
  lemma ProposedAFirst()
    ensures Legal(Asking(A_FIRST)) && X.obj in Candidates(Asking(A_FIRST))
  {
    hide *;
    var q := Asking(A_FIRST);
    var rest := [Item(A.AsUserset(), 1), Item(B.AsUserset(), 1)];
    AfterUserA(q);
    BothStart(q);
    var w1, w2 := Explore(q, Start(q)), Sweep(rest, FOUND3, {});
    assert w1.frontier == [Item(G.AsUserset(), 1)] + rest;
    AfterGroup(q, rest);
    var w3 := Explore(q, w2);
    AfterA(q, w2);
    StartsKnown(q);
    DrainStep(q, Start(q));
    DrainStep(q, w1);
    DrainStep(q, w2);
    DrainKeepsProposals(q, w3);
  }

  lemma AfterA(q: Query, w: Sweep)
    requires q == Asking(A_FIRST) && Legal(q)
    requires w == Sweep([Item(A.AsUserset(), 1), Item(B.AsUserset(), 1)], FOUND3, {})
    ensures X.obj in Explore(q, w).out
  {
    forall x ensures x in Naming(q, A.AsUserset()) <==> x == ON_PERMISSION { Reads(x); }
    forall x ensures IsWalkInto(SCHEMA, "perm", x) <==> x == WALK_DOC2 { WalksIntoPerm(x); }
    forall x ensures x in Pointing(q, Y, WALK_DOC2) && x.obj.kind == "doc2" <==> x == PAR { Points(x); }
    OnlyX(A_FIRST, X);
    NodesDiffer();
    var popped := Popped(w);
    assert NodeOf(ON_PERMISSION) == Y && Y !in popped.dist && X !in popped.dist;
    assert Node(PAR.obj, WALK_DOC2.permission) == X;
    hide Legal;
    hide Naming;
    hide Pointing;
    hide IsWalkInto;
    hide Candidate;
    hide Explore;
    hide Visit;
    ExploreNamed(q, w, ON_PERMISSION);
    VisitOne(q, popped, Y, WALK_DOC2, PAR, 2);
  }

  /** With type b first, doc:y is found as an heir; the tuple on its permission then finds
      it seen, and nothing leads to doc2:x. */
  lemma NotProposedBFirst()
    ensures Legal(Asking(B_FIRST)) && X.obj !in Candidates(Asking(B_FIRST))
  {
    hide *;
    var q := Asking(B_FIRST);
    var rest := [Item(B.AsUserset(), 1), Item(A.AsUserset(), 1)];
    AfterUserB(q);
    BothStart(q);
    var w1, w2 := Explore(q, Start(q)), Sweep(rest, FOUND3, {});
    assert w1.frontier == [Item(G.AsUserset(), 1)] + rest;
    AfterGroup(q, rest);
    AfterB(q, w2);
    var w3 := Explore(q, w2);
    AfterAToo(q, w3);
    var w4 := Explore(q, w3);
    AfterZ(q, w4);
    var w5 := Explore(q, w4);
    AfterY(q, w5);
    var w6 := Explore(q, w5);
    StartsKnown(q);
    DrainStep(q, Start(q));
    DrainStep(q, w1);
    DrainStep(q, w2);
    DrainStep(q, w3);
    DrainStep(q, w4);
    DrainStep(q, w5);
    Drained(q, w6);
  }

  const FOUND5 := FOUND3[Z := 2][Y := 2]

  lemma NamedByB(q: Query)
    requires q == Asking(B_FIRST)
    ensures forall x :: x in Naming(q, B.AsUserset()) <==> x == VIEWER
    ensures NodeOf(VIEWER) == Z
  {
    forall x ensures x in Naming(q, B.AsUserset()) <==> x == VIEWER { Reads(x); }
  }

  lemma HeirOfZ(q: Query)
    requires q == Asking(B_FIRST)
    ensures forall x :: IsWalkInto(q.scene.schema, Z.relation, x) <==> x == WALK_DOC
    ensures forall x :: x in Pointing(q, Z, WALK_DOC) && x.obj.kind == WALK_DOC.kind <==> x == PARENT
    ensures Node(PARENT.obj, WALK_DOC.permission) == Y
  {
    forall x ensures IsWalkInto(SCHEMA, "viewer", x) <==> x == WALK_DOC { WalksIntoViewer(x); }
    forall x ensures x in Pointing(q, Z, WALK_DOC) && x.obj.kind == "doc" <==> x == PARENT { Points(x); }
  }

  lemma NewInThree()
    ensures Z !in FOUND3 && Y !in FOUND3 && X !in FOUND3 && FOUND3[Z := 2][Y := 2] == FOUND5
  {
    NodesDiffer();
  }

  lemma PopIs(item: Item, rest: seq<Item>, dist: map<Node, nat>)
    ensures Popped(Sweep([item] + rest, dist, {})) == Sweep(rest, dist, {})
  {
  }

  lemma AfterB(q: Query, w: Sweep)
    requires q == Asking(B_FIRST) && Legal(q)
    requires w == Sweep([Item(B.AsUserset(), 1), Item(A.AsUserset(), 1)], FOUND3, {})
    ensures Explore(q, w) ==
            Sweep([Item(A.AsUserset(), 1), Item(Z.AsUserset(), 2), Item(Y.AsUserset(), 2)], FOUND5, {})
  {
    hide *;
    NamedByB(q);
    HeirOfZ(q);
    OnlyX(B_FIRST, Y);
    OnlyX(B_FIRST, Z);
    NodesDiffer();
    NewInThree();
    DepthIs(q, B_FIRST);
    var item, rest := Item(B.AsUserset(), 1), [Item(A.AsUserset(), 1)];
    assert w == Sweep([item] + rest, FOUND3, {});
    PopIs(item, rest, FOUND3);
    var popped := Sweep(rest, FOUND3, {});
    ExploreNamed(q, w, VIEWER);
    VisitOne(q, popped, Z, WALK_DOC, PARENT, 2);
    TwoNew(q, popped, Z, Y, 2);
  }

  lemma DepthIs(q: Query, r: Ranges)
    requires q == Asking(r)
    ensures q.maxDepth == DEFAULT_MAX_DEPTH == 32 && q.scene == SCENE
  {
  }

  lemma AfterAToo(q: Query, w: Sweep)
    requires q == Asking(B_FIRST) && Legal(q)
    requires w == Sweep([Item(A.AsUserset(), 1), Item(Z.AsUserset(), 2), Item(Y.AsUserset(), 2)], FOUND5, {})
    ensures Explore(q, w) == Sweep([Item(Z.AsUserset(), 2), Item(Y.AsUserset(), 2)], FOUND5, {})
  {
    forall x ensures x in Naming(q, A.AsUserset()) <==> x == ON_PERMISSION { Reads(x); }
    hide Legal;
    hide Naming;
    ExploreNamed(q, w, ON_PERMISSION);
    hide Explore;
    assert Y in FOUND5 && NodeOf(ON_PERMISSION) == Y;
  }

  lemma AfterZ(q: Query, w: Sweep)
    requires q == Asking(B_FIRST) && Legal(q)
    requires w == Sweep([Item(Z.AsUserset(), 2), Item(Y.AsUserset(), 2)], FOUND5, {})
    ensures Explore(q, w) == Sweep([Item(Y.AsUserset(), 2)], FOUND5, {})
  {
    forall x ensures x !in Naming(q, Z.AsUserset()) { Reads(x); }
    hide Legal;
    hide Naming;
    ExploreNothing(q, w);
  }

  lemma AfterY(q: Query, w: Sweep)
    requires q == Asking(B_FIRST) && Legal(q) && w == Sweep([Item(Y.AsUserset(), 2)], FOUND5, {})
    ensures Explore(q, w) == Sweep([], FOUND5, {})
  {
    forall x ensures x !in Naming(q, Y.AsUserset()) { Reads(x); }
    hide Legal;
    hide Naming;
    ExploreNothing(q, w);
  }

  // ---- Check allows it ---------------------------------------------------------------------------

  lemma DependsX(e: Edge)
    ensures e in WalkEdges(VIEW, X, "par", "perm") <==> e == To(Y)
  {
    OnlyTuple(X, "par", PAR);
    OnlyEdge(X, "par", PAR, "perm", e);
  }

  lemma DependsY(e: Edge)
    ensures e in WalkEdges(VIEW, Y, "parent", "viewer") <==> e == To(Z)
  {
    OnlyTuple(Y, "parent", PARENT);
    OnlyEdge(Y, "parent", PARENT, "viewer", e);
  }

  lemma DependsZ(e: Edge)
    ensures e in DirectEdges(VIEW, Z) <==> e == To(B)
  {
    OnlyTuple(Z, "viewer", VIEWER);
    OnlyEdge(Z, "viewer", VIEWER, "", e);
  }

  lemma DependsB(e: Edge)
    ensures e in WalkEdges(VIEW, B, "ts", "member") <==> e == To(G)
  {
    OnlyTuple(B, "ts", B_TS);
    OnlyEdge(B, "ts", B_TS, "member", e);
  }

  lemma DependsG(e: Edge)
    ensures e in DirectEdges(VIEW, G) <==> e == Plain(USER)
  {
    OnlyTuple(G, "member", NAMED);
    OnlyEdge(G, "member", NAMED, "", e);
  }

  /** What each node on the way depends on. */
  lemma Dependencies(e: Edge, all: bool)
    ensures Occurs(VIEW, X, Apply(Rule(SCHEMA, X).value), e, all) <==> e == To(Y)
    ensures Occurs(VIEW, Y, Apply(Rule(SCHEMA, Y).value), e, all) <==> e == To(Z)
    ensures Occurs(VIEW, Z, Apply(Rule(SCHEMA, Z).value), e, all) <==> e == To(B)
    ensures Occurs(VIEW, B, Apply(Rule(SCHEMA, B).value), e, all) <==> e == To(G)
    ensures Occurs(VIEW, G, Apply(Rule(SCHEMA, G).value), e, all) <==> e == Plain(USER)
    ensures Rule(SCHEMA, X).Ok? && Rule(SCHEMA, Y).Ok? && Rule(SCHEMA, Z).Ok? && Rule(SCHEMA, B).Ok? && Rule(SCHEMA, G).Ok?
  {
    Rules();
    hide Rule;
    DependsX(e);
    DependsY(e);
    DependsZ(e);
    DependsB(e);
    DependsG(e);
    hide WalkEdges;
    hide DirectEdges;
  }

  lemma OnlyTuple(n: Node, relation: string, t: Tuple)
    requires t in VIEW && t.obj == n.obj && t.relation == relation && PlainNode(Node(n.obj, relation))
    requires forall x :: x in VIEW && x.obj == n.obj && x.relation == relation ==> x == t
    ensures forall x :: x in Read(VIEW, n.obj, relation) <==> x == t
  {
    PlainNames();
    forall x ensures x in Read(VIEW, n.obj, relation) <==> x == t { ReadIsExact(VIEW, n.obj, relation, x); }
  }

  lemma OnlyEdge(n: Node, relation: string, t: Tuple, computed: string, e: Edge)
    requires forall x :: x in Read(VIEW, n.obj, relation) <==> x == t
    ensures e in WalkEdges(VIEW, n, relation, computed) <==> e == To(Node(t.subject.obj, computed))
    ensures relation == n.relation ==> (e in DirectEdges(VIEW, n) <==> e == DirectEdge(t))
  {
    var ts := Read(VIEW, n.obj, relation);
    hide Read;
    assert t in ts;
    var i :| 0 <= i < |ts| && ts[i] == t;
    assert forall j :: 0 <= j < |ts| ==> ts[j] in ts;
    assert WalkEdges(VIEW, n, relation, computed)[i] == To(Node(t.subject.obj, computed));
    if relation == n.relation {
      assert DirectEdges(VIEW, n)[i] == DirectEdge(t);
    }
  }

  lemma ReachThrough(n: Node, m: Node, k: nat)
    requires Rule(SCHEMA, n).Ok? && Occurs(VIEW, n, Apply(Rule(SCHEMA, n).value), To(m), false) && Reach(SCENE, m, k)
    ensures Reach(SCENE, n, k + 1)
  {
    assert EdgeReach(SCENE, To(m), k + 1);
  }

  lemma Reaches()
    ensures Reach(SCENE, X, 4)
  {
    hide *;
    Dependencies(To(Y), false);
    Dependencies(To(Z), false);
    Dependencies(To(B), false);
    Dependencies(To(G), false);
    Dependencies(Plain(USER), false);
    ReachesAtOnce(G);
    ReachThrough(B, G, 0);
    ReachThrough(Z, B, 1);
    ReachThrough(Y, Z, 2);
    ReachThrough(X, Y, 3);
  }

  lemma ReachesAtOnce(n: Node)
    requires Rule(SCHEMA, n).Ok? && Occurs(VIEW, n, Apply(Rule(SCHEMA, n).value), Plain(USER), false)
    ensures Reach(SCENE, n, 0)
  {
    assert EdgeReach(SCENE, Plain(USER), 0);
  }

  lemma Spanned(R: set<Node>)
    requires R == {X, Y, Z, B, G}
    ensures Work.Spans(SCENE, Work.AllOf(R)) && forall n :: n in R ==> Defined(SCHEMA, n)
  {
    Dependencies(To(X), true);
    hide Occurs;
    hide Rule;
    forall n, m | n in R && Rule(SCHEMA, n).Ok? && Occurs(VIEW, n, Apply(Rule(SCHEMA, n).value), To(m), true) ensures m in R {
      Dependencies(To(m), true);
    }
  }

  lemma Allows()
    ensures Allowed(CONTEXT, X.obj, "view")
  {
    var R := {X, Y, Z, B, G};
    Rules();
    assert UnionOnly(SCHEMA);
    assert |R| <= CONTEXT.maxDepth && !CONTEXT.cached;
    hide Exec;
    hide Rule;
    hide Reach;
    hide Occurs;
    Reaches();
    Spanned(R);
    Work.FewPairsNeverExceedDepth(CONTEXT, map[], R, X);
    Denials.ColdAnswersAreExact(CONTEXT, map[], X);
    assert Reachable(SCENE, X);
  }

  /** The same question to the same snapshot, under two orders of the schema's maps: one
      proposes an object that Check allows, the other does not. A tuple is stored on a
      permission, which is what makes the order matter. */
  lemma OrderDecides()
    ensures Allowed(CONTEXT, X.obj, "view") && !TuplesOnRelations(SCENE)
    ensures Legal(Asking(A_FIRST)) && X.obj in Candidates(Asking(A_FIRST))
    ensures Legal(Asking(B_FIRST)) && X.obj !in Candidates(Asking(B_FIRST))
  {
    Allows();
    hide Allowed;
    ProposedAFirst();
    NotProposedBFirst();
    hide Candidates;
    hide Legal;
    assert ON_PERMISSION in VIEW && IsPermission(SCHEMA, Y);
  }
}
