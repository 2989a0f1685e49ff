/** The scenes used as examples can all arise: their schemas are parsed from some text
    and their views are what the store shows after a write. */
module Received {
  import opened Names
  import opened Schemas
  import opened Storage
  import opened Semantics
  import opened Lexers
  import opened Grammar
  import opened Declarations
  import Documents
  import StaleDenial
  import MissedObject
  import OrderMatters

  ghost predicate Arises(s: Scene) {
    (exists src :: Parse(src) == Ok(s.schema)) && exists batches, rev :: s.view == View(WriteEach(EMPTY, batches).rows, rev)
  }

  lemma ArisesFrom(s: Scene)
    requires WellFormed(s.schema) && ValidSchema(s.schema)
    requires PlainTuples(s.view) && forall i, j :: 0 <= i < j < |s.view| ==> s.view[i] != s.view[j]
    ensures Arises(s)
  {
    hide *;
    Documents.AcceptedSchemas(s.schema);
    PlainTuplesDiffer(s.view);
    FirstWriteShows(s.view);
    Arisen(s, [Batch(s.view, [])], 1);
  }

  lemma Arisen(s: Scene, batches: seq<Batch>, rev: nat)
    requires (exists src :: Parse(src) == Ok(s.schema)) && s.view == View(WriteEach(EMPTY, batches).rows, rev)
    ensures Arises(s)
  {
    hide Parse;
    hide View;
  }

  lemma StaleDenialArises()
    ensures Arises(StaleDenial.CONTEXT.scene)
  {
    var s := StaleDenial.CONTEXT.scene;
    assert IsName("group") && IsName("member");
    assert WellFormedRelation("member", Relation("member", None));
    assert WellFormed(s.schema) && ValidSchema(s.schema);
    assert PlainTuples(s.view);
    hide WellFormed;
    hide ValidSchema;
    hide PlainTuples;
    ArisesFrom(s);
  }

  lemma MissedObjectArises()
    ensures Arises(MissedObject.SCENE)
  {
    MissedObject.PlainNames();
    MissedSchema();
    hide WellFormed;
    hide ValidSchema;
    hide PlainTuples;
    ArisesFrom(MissedObject.SCENE);
  }

  lemma ShortWords()
    ensures IsName("doc") && IsName("a") && IsName("b") && IsName("ts") && IsName("p") && IsName("q") && IsName("doc2")
    ensures IsName("par") && IsName("fold") && IsName("view") && IsName("perm")
  {
  }

  lemma LongWords()
    ensures IsName("folder") && IsName("viewer") && IsName("parent") && IsName("group") && IsName("member")
  {
  }

  lemma Words()
    ensures IsName("doc") && IsName("a") && IsName("b") && IsName("ts") && IsName("p") && IsName("q") && IsName("doc2")
    ensures IsName("par") && IsName("fold") && IsName("view") && IsName("perm")
    ensures IsName("folder") && IsName("viewer") && IsName("parent") && IsName("group") && IsName("member")
  {
    hide IsName;
    ShortWords();
    LongWords();
  }

  /** A definition that validation accepts. */
  ghost predicate Fine(name: string, def: Definition) {
    IsName(name) && def.name == name && WellFormedIn(def.relations) && ResolvesIn(def.relations)
  }

  lemma FineSchema(s: Schema)
    requires forall d :: d in s.definitions ==> Fine(d, s.definitions[d])
    ensures WellFormed(s) && ValidSchema(s)
  {
  }

  lemma FolderMissedIsFine()
    ensures Fine("folder", MissedObject.FOLDER)
  {
    Words();
    hide IsName;
  }

  lemma DocMissedIsFine()
    ensures Fine("doc", MissedObject.DOC)
  {
    Words();
    hide IsName;
  }

  lemma MissedSchema()
    ensures WellFormed(MissedObject.SCHEMA) && ValidSchema(MissedObject.SCHEMA)
  {
    FolderMissedIsFine();
    DocMissedIsFine();
    hide Fine;
    FineSchema(MissedObject.SCHEMA);
  }

  lemma OrderMattersArises()
    ensures Arises(OrderMatters.SCENE)
  {
    OrderMatters.PlainNames();
    OrderSchema();
    OrderMatters.NodesDiffer();
    hide WellFormed;
    hide ValidSchema;
    hide PlainTuples;
    ArisesFrom(OrderMatters.SCENE);
  }

  lemma GroupIsFine()
    ensures Fine("group", OrderMatters.GROUP)
  {
    Words();
    hide IsName;
  }

  lemma TaIsFine()
    ensures Fine("a", OrderMatters.TA)
  {
    Words();
    hide IsName;
  }

  lemma TbIsFine()
    ensures Fine("b", OrderMatters.TB)
  {
    Words();
    hide IsName;
  }

  lemma FoldIsFine()
    ensures Fine("fold", OrderMatters.FOLD)
  {
    Words();
    hide IsName;
  }

  lemma DocIsFine()
    ensures Fine("doc", OrderMatters.DOC)
  {
    Words();
    hide IsName;
  }

  lemma Doc2IsFine()
    ensures Fine("doc2", OrderMatters.DOC2)
  {
    Words();
    hide IsName;
  }

  lemma OrderSchema()
    ensures WellFormed(OrderMatters.SCHEMA) && ValidSchema(OrderMatters.SCHEMA)
  {
    GroupIsFine();
    TaIsFine();
    TbIsFine();
    FoldIsFine();
    DocIsFine();
    Doc2IsFine();
    hide Fine;
    FineSchema(OrderMatters.SCHEMA);
  }
}
