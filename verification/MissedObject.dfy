/** An allowed object that a listing misses: the walk of a schema leads to a permission.

    A document inherits `view` from its folder, where `view` is itself a permission
    computed from `viewer`. The walk backwards from riya finds the folder's `viewer`,
    which no walk of the schema ends in, and stops there. */
module MissedObject {
  import opened Names
  import opened Schemas
  import opened Storage
  import opened Semantics
  import opened Checks
  import opened Reverses
  import opened Sweeps
  import opened Finding
  import opened Listing
  import Denials
  import Work

  const VIEWER := ComputedUserset("viewer")
  const PARENTS := TupleToUserset("parent", "view")
  const FOLDER := Definition("folder", map["viewer" := Relation("viewer", None), "view" := Relation("view", Some(VIEWER))])
  const DOC := Definition("doc", map["parent" := Relation("parent", None), "view" := Relation("view", Some(PARENTS))])
  const SCHEMA := Schema(map["folder" := FOLDER, "doc" := DOC])

  const RIYA := Subject(Object("user", "riya"), "")
  const PLANS := Object("folder", "plans")
  const MEMO := Object("doc", "memo")
  const GRANT := Tuple(PLANS, "viewer", RIYA)
  const PARENT := Tuple(MEMO, "parent", Subject(PLANS, ""))
  const VIEW := [GRANT, PARENT]
  const SCENE := Scene(SCHEMA, VIEW, RIYA)
  const CONTEXT := Context(SCENE, 1, DEFAULT_MAX_DEPTH, false)

  const INHERITED := Node(MEMO, "view")
  const FROM_FOLDER := Node(PLANS, "view")
  const STORED := Node(PLANS, "viewer")

  lemma Rules()
    ensures Rule(SCHEMA, INHERITED) == Ok(PARENTS) && Rule(SCHEMA, FROM_FOLDER) == Ok(VIEWER)
    ensures Rule(SCHEMA, STORED) == Ok(This)
    ensures forall n :: Rule(SCHEMA, n).Ok? ==> Rule(SCHEMA, n).value in {This, VIEWER, PARENTS}
  {
  }

  lemma PlainNames()
    ensures PlainTuples(VIEW) && PlainSubjects(VIEW) && PlainSubject(RIYA) && PlainSubject(STORED.AsUserset())
    ensures PlainNode(STORED) && PlainNode(Node(MEMO, "parent"))
  {
  }

  /** What each of the three nodes depends on. */
  lemma Dependencies(e: Edge)
    ensures e in WalkEdges(VIEW, INHERITED, "parent", "view") <==> e == To(FROM_FOLDER)
    ensures e in DirectEdges(VIEW, STORED) <==> e == Plain(RIYA)
  {
    PlainNames();
    hide PlainTuples;
    hide PlainNode;
    var parents, viewers := Read(VIEW, MEMO, "parent"), Read(VIEW, PLANS, "viewer");
    ReadIsExact(VIEW, MEMO, "parent", PARENT);
    ReadIsExact(VIEW, PLANS, "viewer", GRANT);
    forall t | t in parents ensures t == PARENT { ReadIsExact(VIEW, MEMO, "parent", t); }
    forall t | t in viewers ensures t == GRANT { ReadIsExact(VIEW, PLANS, "viewer", t); }
    hide Read;
    assert PARENT in parents && GRANT in viewers;
    assert forall i :: 0 <= i < |parents| ==> parents[i] in parents;
    assert forall i :: 0 <= i < |viewers| ==> viewers[i] in viewers;
    assert WalkEdges(VIEW, INHERITED, "parent", "view")[0] == To(FROM_FOLDER);
    assert DirectEdges(VIEW, STORED)[0] == Plain(RIYA);
  }

  lemma Allows()
    ensures Allowed(CONTEXT, MEMO, "view")
  {
    Rules();
    hide Rule;
    Dependencies(To(FROM_FOLDER));
    Dependencies(Plain(RIYA));
    assert UnionOnly(SCHEMA);
    var R := {INHERITED, FROM_FOLDER, STORED};
    forall n, m | n in R && Occurs(VIEW, n, Apply(Rule(SCHEMA, n).value), To(m), true) ensures m in R {
      Dependencies(To(m));
    }
    assert Work.Spans(SCENE, Work.AllOf(R));
    Work.FewPairsNeverExceedDepth(CONTEXT, map[], R, INHERITED);
    assert Reach(SCENE, STORED, 0) by {
      assert Occurs(VIEW, STORED, Apply(This), Plain(RIYA), false) && EdgeReach(SCENE, Plain(RIYA), 0);
    }
    assert Reach(SCENE, FROM_FOLDER, 1) by {
      assert Occurs(VIEW, FROM_FOLDER, Apply(VIEWER), To(STORED), false) && EdgeReach(SCENE, To(STORED), 1);
    }
    assert Reach(SCENE, INHERITED, 2) by {
      assert Occurs(VIEW, INHERITED, Apply(PARENTS), To(FROM_FOLDER), false) && EdgeReach(SCENE, To(FROM_FOLDER), 2);
    }
    Denials.ColdAnswersAreExact(CONTEXT, map[], INHERITED);
  }

  /** Nothing names the memo's `view`, and nothing it could inherit from is named either:
      the folder's `view` holds no tuple, and the walk backwards asks walks of nothing else. */
  lemma NeverFound(k: nat)
    ensures !Proposes(SCENE, k, "doc", "view", MEMO)
  {
    hide Contributes;
    forall r | Proposing(SCENE, k, "doc", "view", MEMO, r) ensures false {
      OnlyItself(r);
      hide Named;
      var n := Node(MEMO, r);
      if Named(SCENE, n, k) {
        var t := NamedIsStored(SCENE, n, k);
      } else {
        var m :| Named(SCENE, m, k) && Heir(SCENE, m, n);
        var t := NamedIsStored(SCENE, m, k);
      }
    }
  }

  lemma OnlyItself(r: string)
    requires Contributes(SCHEMA, "doc", "view", r)
    ensures r == "view"
  {
    assert LinkClosed(DOC, {"view"});
  }

  /** riya may view the memo, and no listing proposes it, whatever the depth limit and the
      order of the schema's maps: the condition for agreement fails here. */
  lemma AllowedButNeverProposed(q: Query)
    requires Legal(q) && q.scene == SCENE && q.kind == "doc" && q.permission == "view"
    ensures Allowed(CONTEXT, MEMO, "view") && MEMO !in Candidates(q)
    ensures UnionOnly(SCHEMA) && LocallyClosed(SCHEMA) && TuplesOnRelations(SCENE)
  {
    Allows();
    hide Allowed;
    NeverFound(q.maxDepth);
    hide Proposes;
    hide Candidates;
    if MEMO in Candidates(q) {
      CandidatesAreFound(q, MEMO);
    }
    Rules();
  }
}
