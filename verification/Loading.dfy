/** What an engine may rely on when its schema was parsed from text. */
module Loading {
  import opened Names
  import opened Schemas
  import opened Semantics
  import opened Checks
  import opened Work
  import opened Expands
  import Declarations
  import Documents

  /** A check of a pair the schema defines can fail a lookup only where the subject
      of a stored tuple leads; the schema itself is never the reason. */
  lemma LoadedChecksFailOnlyOnData(src: string, c: Context, cache: map<CacheKey, bool>, root: Node)
    requires Declarations.Parse(src) == Ok(c.scene.schema) && Defined(c.scene.schema, root)
    ensures var o := Run(c, cache, root).0;
            o.Failed? && o.why != DepthExceeded ==>
              exists x :: StoredTarget(c.scene, x) && !Defined(c.scene.schema, x)
  {
    Declarations.ParsedSchemas(src);
    LookupsFailOnlyAtStoredSubjects(c, cache, root);
  }

  /** Names from a parsed schema cannot collide in the explainer's path keys, so only
      the stored subjects need plain names for its trees to be exact. */
  lemma LoadedTreesShowTheGranted(src: string, g: Graph, s: Scene, root: Node)
    requires Declarations.Parse(src) == Ok(s.schema) && Defined(s.schema, root)
    requires s.schema == g.schema && s.view == g.view && ExclusionFree(s.schema) && PlainScene(s)
    requires forall t :: t in s.view ==> ':' !in t.subject.obj.kind && '#' !in t.subject.relation
    ensures var drawn := Explain(g, root);
            drawn.Ok? ==> |drawn.value| == 1 && (Shows(drawn.value[0], s.subject.String()) <==> root in Granted(s))
  {
    Declarations.ParsedSchemas(src);
    Declarations.ParsedNamesArePlain(s.schema);
    TreeShowsExactlyTheGranted(g, s, root);
  }

  /** A check or an explanation of a pair the text does not declare fails, naming what is
      unknown: it is never an empty relation that nobody has. (A cache that already holds
      an answer for the pair is believed.) */
  lemma UndeclaredPairsFail(doc: seq<Documents.Block>, c: Context, cache: map<CacheKey, bool>, root: Node)
    requires Documents.Meaning(doc) == Ok(c.scene.schema) && (c.cached ==> c.Key(root) !in cache)
    ensures (forall b :: b in doc ==> b.name != root.obj.kind) ==> BothFail(c, cache, root, UnknownType)
    ensures forall b :: b in doc && b.name == root.obj.kind && (forall m :: m in b.members ==> m.name != root.relation) ==>
              BothFail(c, cache, root, UnknownRelation)
  {
    Documents.LookupFindsDeclarations(doc, root.obj.kind, root.relation);
    hide Documents.Meaning;
    if Rule(c.scene.schema, root).Err? { UndefinedFails(c, cache, root); }
  }

  /** Check and Expand of the root both fail, in the same way. */
  ghost predicate BothFail(c: Context, cache: map<CacheKey, bool>, root: Node, e: Failure) {
    Run(c, cache, root).0 == Failed(e) && Explain(Graph(c.scene.schema, c.scene.view, c.maxDepth), root) == Err(e)
  }

  lemma UndefinedFails(c: Context, cache: map<CacheKey, bool>, root: Node)
    requires Rule(c.scene.schema, root).Err? && (c.cached ==> c.Key(root) !in cache)
    ensures BothFail(c, cache, root, Rule(c.scene.schema, root).error)
  {
    assert Checks.Expands(c, Fresh(cache), root, 0);
  }
}
