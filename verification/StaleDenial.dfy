/** A recorded denial that is wrong: the price of the visiting set's cut.

    Group a lists group b's members and riya; group b lists group a's members.
    Asking about a decides b while a is being visited, so b is recorded as a
    denial, and the next request about b reads it back. */
module StaleDenial {
  import opened Names
  import opened Schemas
  import opened Storage
  import opened Semantics
  import opened Checks
  import Denials
  import Records

  const SCHEMA := Schema(map["group" := Definition("group", map["member" := Relation("member", None)])])
  const A := Node(Object("group", "a"), "member")
  const B := Node(Object("group", "b"), "member")
  const RIYA := Subject(Object("user", "riya"), "")
  const VIEW := [Tuple(A.obj, "member", B.AsUserset()), Tuple(A.obj, "member", RIYA), Tuple(B.obj, "member", A.AsUserset())]
  const CONTEXT := Context(Scene(SCHEMA, VIEW, RIYA), 1, DEFAULT_MAX_DEPTH, true)

  lemma KeysDiffer()
    ensures A.Key() != B.Key()
  {
    assert A.obj.id != B.obj.id;
    if A.Key() == B.Key() {
      KeyDetermines(A, B);
    }
  }

  lemma StoredEdges()
    ensures DirectEdges(VIEW, A) == [To(B), Plain(RIYA)]
    ensures DirectEdges(VIEW, B) == [To(A)]
  {
    KeysDiffer();
    var one, two := VIEW[..1], VIEW[..2];
    assert two[..1] == one && one[..0] == [] && VIEW[..|VIEW| - 1] == two;
    assert Slot(VIEW[0], Forward) == A.Key() == Slot(VIEW[1], Forward) && Slot(VIEW[2], Forward) == B.Key();
    hide Slot;
    hide Node.Key;
    assert Bucket(one, Forward, A.Key()) == [VIEW[0]];
    assert Bucket(two, Forward, A.Key()) == [VIEW[0], VIEW[1]];
    assert Bucket(VIEW, Forward, A.Key()) == [VIEW[0], VIEW[1]];
    assert Bucket(one, Forward, B.Key()) == [];
    assert Bucket(two, Forward, B.Key()) == [];
    assert Bucket(VIEW, Forward, B.Key()) == [VIEW[2]];
  }

  /** Deciding b while a is being visited records a denial of b. */
  lemma DecidingB(st: State)
    requires A in st.visiting && B !in st.visiting && A !in st.memo && B !in st.memo
    requires CONTEXT.Key(A) !in st.cache && CONTEXT.Key(B) !in st.cache
    ensures var (o, st') := Exec(CONTEXT, st, A, Ask(B), 1);
            o == Answer(false) && st'.memo == st.memo[B := false] &&
            st'.cache == st.cache[CONTEXT.Key(B) := false] && st'.visiting == st.visiting
  {
    var c := CONTEXT;
    StoredEdges();
    hide DirectEdges;
    assert Rule(SCHEMA, B) == Ok(This);
    var entered := Enter(st, B, 1);
    assert Exec(c, entered, B, Ask(A), 2).0 == Answer(false);
    assert Exec(c, entered, B, Edges([To(A)]), 1).0 == Answer(false);
    assert Unfold(VIEW, B, This) == Edges([To(A)]);
    assert Exec(c, entered, B, Apply(This), 1).0 == Answer(false);
  }

  /** riya reaches b through a, yet after a request about a, the recorded decision
      about b denies her, in the request's memo and in every later request. */
  lemma RecordedDenialsCanBeWrong()
    ensures ExclusionFree(SCHEMA) && UnionOnly(SCHEMA) && Reachable(CONTEXT.scene, B)
    ensures var (o, st) := Run(CONTEXT, map[], A);
            o == Answer(true) && B in st.memo && !st.memo[B] && Run(CONTEXT, st.cache, B).0 == Answer(false)
  {
    var c := CONTEXT;
    StoredEdges();
    hide DirectEdges;
    assert Rule(SCHEMA, A) == Ok(This) && Rule(SCHEMA, B) == Ok(This);
    var entered := Enter(Fresh(map[]), A, 0);
    DecidingB(entered);
    var st1 := Exec(c, entered, A, Ask(B), 1).1;
    assert Exec(c, st1, A, Edges([Plain(RIYA)]), 0) == (Answer(true), st1);
    assert [To(B), Plain(RIYA)][1..] == [Plain(RIYA)];
    assert Exec(c, entered, A, Edges([To(B), Plain(RIYA)]), 0) == (Answer(true), st1);
    assert Unfold(VIEW, A, This) == Edges([To(B), Plain(RIYA)]);
    assert Exec(c, entered, A, Apply(This), 0) == (Answer(true), st1);
    assert Run(c, map[], A) == (Answer(true), Leave(c, st1, A, Answer(true)));
    assert c.Key(B) in Leave(c, st1, A, Answer(true)).cache;

    assert Unfold(VIEW, B, This) == Edges([To(A)]);
    assert Occurs(VIEW, A, Apply(This), Plain(RIYA), false) && EdgeReach(c.scene, Plain(RIYA), 0);
    assert Reach(c.scene, A, 0);
    assert Occurs(VIEW, B, Apply(This), To(A), false) && EdgeReach(c.scene, To(A), 1);
    assert Reach(c.scene, B, 1);
  }

  /** ... and the schema and tuples alone foretell it: on its path from a the search passes
      over b, which is granted. */
  lemma PassedOverBeforehand()
    ensures Records.PassesOverGranted(CONTEXT.scene, A)
  {
    RecordedDenialsCanBeWrong();
    assert Denials.Cold(CONTEXT, map[]);
    hide Exec;
    hide Reachable;
    Records.RecordsAreRightExactly(CONTEXT, map[], A);
  }
}
