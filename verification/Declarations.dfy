/** The declarations around the rewrites: type lists, members, definitions and
    the validation of a whole schema. */
module Declarations {
  import opened Names
  import opened Schemas
  import opened Lexers
  import opened Grammar

  /** Type restrictions, `user | group#member`: read, and not kept. */
  function ParseTypeList(toks: seq<Token>, pos: nat): (r: Result<nat, ParseError>)
    requires InInput(toks, pos)
    ensures r.Ok? ==> pos < r.value && InInput(toks, r.value)
    decreases |toks| - pos
  {
    if toks[pos].kind != Ident then Err(ExpectedName)
    else if toks[pos + 1].text == "#" && toks[pos + 2].kind != Ident then Err(ExpectedName)
    else
      var end := if toks[pos + 1].text == "#" then pos + 3 else pos + 1;
      if toks[end].text == "|" then ParseTypeList(toks, end + 1) else Ok(end)
  }

  /** One `relation` or `permission`, added to the relations declared so far. */
  function ParseMember(toks: seq<Token>, pos: nat, relations: map<string, Relation>):
    (r: Result<Parsed<map<string, Relation>>, ParseError>)
    requires InInput(toks, pos)
    ensures r.Ok? ==> pos < r.value.pos && InInput(toks, r.value.pos)
  {
    if toks[pos].kind != Ident then Err(ExpectedName)
    else if toks[pos].text != "relation" && toks[pos].text != "permission" then Err(ExpectedMember)
    else if toks[pos + 1].kind != Ident then Err(ExpectedName)
    else
      var name := toks[pos + 1].text;
      if name in relations then Err(DeclaredTwice)
      else if toks[pos].text == "relation" then
        if toks[pos + 2].text != ":" then Ok(Parsed(relations[name := Relation(name, None)], pos + 2))
        else match ParseTypeList(toks, pos + 3)
             case Err(e) => Err(e)
             case Ok(end) => Ok(Parsed(relations[name := Relation(name, None)], end))
      else if toks[pos + 2].text != "=" then Err(Expected("="))
      else match ParseExpr(toks, pos + 3)
           case Err(e) => Err(e)
           case Ok(rw) => Ok(Parsed(relations[name := Relation(name, Some(rw.value))], rw.pos))
  }

  /** The members up to the closing brace. */
  function ParseMembers(toks: seq<Token>, pos: nat, relations: map<string, Relation>):
    (r: Result<Parsed<map<string, Relation>>, ParseError>)
    requires InInput(toks, pos)
    ensures r.Ok? ==> pos <= r.value.pos && InInput(toks, r.value.pos) && toks[r.value.pos].text == "}"
    decreases |toks| - pos
  {
    if toks[pos].text == "}" then Ok(Parsed(relations, pos))
    else if toks[pos].kind == EndOfInput then Err(NeverClosed)
    else match ParseMember(toks, pos, relations)
         case Err(e) => Err(e)
         case Ok(m) => ParseMembers(toks, m.pos, m.value)
  }

  function ParseDefinition(toks: seq<Token>, pos: nat, defs: map<string, Definition>):
    (r: Result<Parsed<map<string, Definition>>, ParseError>)
    requires InInput(toks, pos)
    ensures r.Ok? ==> pos < r.value.pos && InInput(toks, r.value.pos)
  {
    if toks[pos].text != "definition" then Err(Expected("definition"))
    else if toks[pos + 1].kind != Ident then Err(ExpectedName)
    else if toks[pos + 1].text in defs then Err(DeclaredTwice)
    else if toks[pos + 2].text != "{" then Err(Expected("{"))
    else match ParseMembers(toks, pos + 3, map[])
         case Err(e) => Err(e)
         case Ok(ms) =>
           var name := toks[pos + 1].text;
           Ok(Parsed(defs[name := Definition(name, ms.value)], ms.pos + 1))
  }

  function ParseDefinitions(toks: seq<Token>, pos: nat, defs: map<string, Definition>): Result<Schema, ParseError>
    requires InInput(toks, pos)
    decreases |toks| - pos
  {
    if toks[pos].kind == EndOfInput then Ok(Schema(defs))
    else match ParseDefinition(toks, pos, defs)
         case Err(e) => Err(e)
         case Ok(d) => ParseDefinitions(toks, d.pos, d.value)
  }

  // ---- Validation ---------------------------------------------------------------------------

  /** Every relation the rewrite names on its own object is declared. */
  predicate Resolves(relations: map<string, Relation>, rw: Rewrite) {
    match rw
    case This => true
    case ComputedUserset(r) => r in relations
    case TupleToUserset(ts, _) => ts in relations
    case Union(cs) => ResolvesAll(relations, cs)
    case Intersection(cs) => ResolvesAll(relations, cs)
    case Exclusion(b, s) => Resolves(relations, b) && Resolves(relations, s)
  }

  predicate ResolvesAll(relations: map<string, Relation>, rws: seq<Rewrite>) {
    rws == [] || (Resolves(relations, rws[0]) && ResolvesAll(relations, rws[1..]))
  }

  predicate ResolvesIn(relations: map<string, Relation>) {
    forall r :: r in relations && relations[r].rewrite.Some? ==> Resolves(relations, relations[r].rewrite.value)
  }

  predicate ValidSchema(s: Schema) {
    forall d :: d in s.definitions ==> ResolvesIn(s.definitions[d].relations)
  }

  function Validated(s: Schema): Result<Schema, ParseError> {
    if ValidSchema(s) then Ok(s) else Err(UndefinedReference)
  }

  /** Parsing from a position on, with the definitions read before it. */
  function ParseFrom(toks: seq<Token>, pos: nat, defs: map<string, Definition>): Result<Schema, ParseError>
    requires InInput(toks, pos)
  {
    match ParseDefinitions(toks, pos, defs)
    case Err(e) => Err(e)
    case Ok(s) => Validated(s)
  }

  lemma LexedIsInput(toks: seq<Token>, pos: nat)
    requires Lexed(toks) && pos < |toks|
    ensures InInput(toks, pos)
  {
  }

  /** What schema text means, or why it is refused. */
  function Parse(src: string): Result<Schema, ParseError> {
    TokensAreLexed(src, 0);
    LexedIsInput(Tokens(src, 0), 0);
    ParseFrom(Tokens(src, 0), 0, map[])
  }

  // ---- What every accepted schema is like -----------------------------------------------------

  lemma {:induction false} LeavesResolve(relations: map<string, Relation>, rw: Rewrite, leaf: Rewrite)
    requires Resolves(relations, rw) && Mentions(rw, leaf, true)
    ensures leaf.ComputedUserset? ==> leaf.relation in relations
    ensures leaf.TupleToUserset? ==> leaf.tupleset in relations
    decreases Weight(rw)
  {
    match rw
    case Union(cs) => SomeLeafResolves(relations, cs, leaf);
    case Intersection(cs) => SomeLeafResolves(relations, cs, leaf);
    case Exclusion(b, s) =>
      if Mentions(b, leaf, true) {
        LeavesResolve(relations, b, leaf);
      } else {
        LeavesResolve(relations, s, leaf);
      }
    case _ =>
  }

  lemma {:induction false} SomeLeafResolves(relations: map<string, Relation>, rws: seq<Rewrite>, leaf: Rewrite)
    requires ResolvesAll(relations, rws) && MentionsAny(rws, leaf, true)
    ensures leaf.ComputedUserset? ==> leaf.relation in relations
    ensures leaf.TupleToUserset? ==> leaf.tupleset in relations
    decreases WeightAll(rws)
  {
    if Mentions(rws[0], leaf, true) {
      LeavesResolve(relations, rws[0], leaf);
    } else {
      SomeLeafResolves(relations, rws[1..], leaf);
    }
  }

  /** Every leaf names only what is declared. */
  ghost predicate LeafDeclared(relations: map<string, Relation>, leaf: Rewrite) {
    (leaf.ComputedUserset? ==> leaf.relation in relations) && (leaf.TupleToUserset? ==> leaf.tupleset in relations)
  }

  lemma {:induction false} DeclaredLeavesResolve(relations: map<string, Relation>, rw: Rewrite)
    requires forall leaf :: Mentions(rw, leaf, true) ==> LeafDeclared(relations, leaf)
    ensures Resolves(relations, rw)
    decreases Weight(rw)
  {
    match rw
    case Union(cs) => AllDeclaredLeavesResolve(relations, cs);
    case Intersection(cs) => AllDeclaredLeavesResolve(relations, cs);
    case Exclusion(b, s) =>
      DeclaredLeavesResolve(relations, b);
      DeclaredLeavesResolve(relations, s);
    case _ => assert Mentions(rw, rw, true);
  }

  lemma {:induction false} AllDeclaredLeavesResolve(relations: map<string, Relation>, rws: seq<Rewrite>)
    requires forall leaf :: MentionsAny(rws, leaf, true) ==> LeafDeclared(relations, leaf)
    ensures ResolvesAll(relations, rws)
    decreases WeightAll(rws)
  {
    if rws != [] {
      forall leaf | Mentions(rws[0], leaf, true) ensures LeafDeclared(relations, leaf) {
        assert MentionsAny(rws, leaf, true);
      }
      forall leaf | MentionsAny(rws[1..], leaf, true) ensures LeafDeclared(relations, leaf) {
        assert MentionsAny(rws, leaf, true);
      }
      DeclaredLeavesResolve(relations, rws[0]);
      AllDeclaredLeavesResolve(relations, rws[1..]);
    }
  }

  /** Validation accepts exactly what the engine relies on: no rewrite names a relation
      its own definition lacks. */
  lemma ValidExactlyLocallyClosed(s: Schema)
    ensures ValidSchema(s) <==> LocallyClosed(s)
  {
    if ValidSchema(s) { ValidIsLocallyClosed(s); }
    if LocallyClosed(s) {
      forall d, r | d in s.definitions && r in s.definitions[d].relations && s.definitions[d].relations[r].rewrite.Some?
        ensures Resolves(s.definitions[d].relations, s.definitions[d].relations[r].rewrite.value)
      {
        RuleResolves(s, d, r);
      }
    }
  }

  lemma RuleResolves(s: Schema, d: string, r: string)
    requires LocallyClosed(s) && d in s.definitions && r in s.definitions[d].relations
    requires s.definitions[d].relations[r].rewrite.Some?
    ensures Resolves(s.definitions[d].relations, s.definitions[d].relations[r].rewrite.value)
  {
    var relations, n := s.definitions[d].relations, Node(Object(d, ""), r);
    var rw := relations[r].rewrite.value;
    assert Rule(s, n) == Ok(rw);
    forall leaf | Mentions(rw, leaf, true) ensures LeafDeclared(relations, leaf) {
      if leaf.ComputedUserset? {
        assert leaf == ComputedUserset(leaf.relation) && Defined(s, Node(n.obj, leaf.relation));
      } else if leaf.TupleToUserset? {
        assert leaf == TupleToUserset(leaf.tupleset, leaf.computedUserset) && Defined(s, Node(n.obj, leaf.tupleset));
      }
    }
    DeclaredLeavesResolve(relations, rw);
  }

  lemma ValidIsLocallyClosed(s: Schema)
    requires ValidSchema(s)
    ensures LocallyClosed(s)
  {
    forall n, r | Rule(s, n).Ok? && Mentions(Rule(s, n).value, ComputedUserset(r), true)
      ensures Defined(s, Node(n.obj, r))
    {
      ResolvedRule(s, n, ComputedUserset(r));
    }
    forall n, ts, cu | Rule(s, n).Ok? && Mentions(Rule(s, n).value, TupleToUserset(ts, cu), true)
      ensures Defined(s, Node(n.obj, ts))
    {
      ResolvedRule(s, n, TupleToUserset(ts, cu));
    }
  }

  lemma ResolvedRule(s: Schema, n: Node, leaf: Rewrite)
    requires ValidSchema(s) && Rule(s, n).Ok? && Mentions(Rule(s, n).value, leaf, true)
    ensures leaf.ComputedUserset? ==> Defined(s, Node(n.obj, leaf.relation))
    ensures leaf.TupleToUserset? ==> Defined(s, Node(n.obj, leaf.tupleset))
  {
    var relations := s.definitions[n.obj.kind].relations;
    assert ResolvesIn(relations);
    var rel := relations[n.relation];
    if rel.rewrite.Some? {
      LeavesResolve(relations, rel.rewrite.value, leaf);
    }
  }

  /** Every name is an identifier and its own key, and every rewrite is in normal form. */
  ghost predicate WellFormed(s: Schema) {
    forall d :: d in s.definitions ==>
      IsName(d) && s.definitions[d].name == d && WellFormedIn(s.definitions[d].relations)
  }

  ghost predicate WellFormedIn(relations: map<string, Relation>) {
    forall r :: r in relations ==> WellFormedRelation(r, relations[r])
  }

  ghost predicate WellFormedRelation(name: string, rel: Relation) {
    IsName(name) && rel.name == name && (rel.rewrite.Some? ==> Normal(rel.rewrite.value))
  }

  lemma MemberIsWellFormed(toks: seq<Token>, pos: nat, relations: map<string, Relation>)
    requires Lexed(toks) && InInput(toks, pos) && WellFormedIn(relations) && ParseMember(toks, pos, relations).Ok?
    ensures WellFormedIn(ParseMember(toks, pos, relations).value.value)
  {
    assert Proper(toks[pos + 1]);
    if toks[pos].text == "permission" {
      ParsedIsNormal(toks, pos + 3, ExprLevel);
    }
    var name := toks[pos + 1].text;
    var rel := ParseMember(toks, pos, relations).value.value[name];
    hide ParseExpr;
    hide ParseTypeList;
    hide IsName;
    assert WellFormedRelation(name, rel);
    hide WellFormedRelation;
  }

  lemma {:induction false} MembersAreWellFormed(toks: seq<Token>, pos: nat, relations: map<string, Relation>)
    requires Lexed(toks) && InInput(toks, pos) && WellFormedIn(relations) && ParseMembers(toks, pos, relations).Ok?
    ensures WellFormedIn(ParseMembers(toks, pos, relations).value.value)
    decreases |toks| - pos
  {
    hide WellFormedIn;
    hide ParseMember;
    if toks[pos].text != "}" {
      MemberIsWellFormed(toks, pos, relations);
      var m := ParseMember(toks, pos, relations).value;
      MembersAreWellFormed(toks, m.pos, m.value);
    }
  }

  lemma {:induction false} DefinitionsAreWellFormed(toks: seq<Token>, pos: nat, defs: map<string, Definition>)
    requires Lexed(toks) && InInput(toks, pos) && WellFormed(Schema(defs)) && ParseDefinitions(toks, pos, defs).Ok?
    ensures WellFormed(ParseDefinitions(toks, pos, defs).value)
    decreases |toks| - pos
  {
    if toks[pos].kind != EndOfInput {
      var d := ParseDefinition(toks, pos, defs).value;
      MembersAreWellFormed(toks, pos + 3, map[]);
      assert Proper(toks[pos + 1]);
      hide WellFormedIn;
      hide ParseMembers;
      hide IsName;
      assert WellFormed(Schema(d.value));
      hide WellFormed;
      DefinitionsAreWellFormed(toks, d.pos, d.value);
    }
  }

  /** Every accepted schema is well formed and validated, so locally closed. */
  lemma ParsedSchemas(src: string)
    requires Parse(src).Ok?
    ensures WellFormed(Parse(src).value) && ValidSchema(Parse(src).value) && LocallyClosed(Parse(src).value)
  {
    var toks := Tokens(src, 0);
    TokensAreLexed(src, 0);
    LexedIsInput(toks, 0);
    hide Lexed;
    hide LocallyClosed;
    hide Tokens;
    DefinitionsAreWellFormed(toks, 0, map[]);
    ValidIsLocallyClosed(ParseDefinitions(toks, 0, map[]).value);
  }

  lemma NamesArePlain(name: string)
    requires IsName(name)
    ensures '#' !in name && ':' !in name
  {
    assert !IsIdentChar('#') && !IsIdentChar(':');
  }

  lemma {:induction false} LeavesAreNames(rw: Rewrite, leaf: Rewrite)
    requires Normal(rw) && Mentions(rw, leaf, true)
    ensures PlainLeaf(leaf)
    decreases Weight(rw)
  {
    match rw
    case Union(cs) => SomeLeafIsNamed(cs, leaf);
    case Intersection(cs) => SomeLeafIsNamed(cs, leaf);
    case Exclusion(b, s) =>
      if Mentions(b, leaf, true) {
        LeavesAreNames(b, leaf);
      } else {
        LeavesAreNames(s, leaf);
      }
    case ComputedUserset(r) => NamesArePlain(r);
    case TupleToUserset(ts, cu) =>
      NamesArePlain(ts);
      NamesArePlain(cu);
  }

  lemma {:induction false} SomeLeafIsNamed(rws: seq<Rewrite>, leaf: Rewrite)
    requires NormalAll(rws) && MentionsAny(rws, leaf, true)
    ensures PlainLeaf(leaf)
    decreases WeightAll(rws)
  {
    if Mentions(rws[0], leaf, true) {
      LeavesAreNames(rws[0], leaf);
    } else {
      SomeLeafIsNamed(rws[1..], leaf);
    }
  }

  /** A parsed schema's names never collide in the engine's string keys: its type
      names hold no ':' and the relations its rewrites name hold no '#'. */
  lemma ParsedNamesArePlain(s: Schema)
    requires WellFormed(s)
    ensures PlainSchema(s) && forall n :: Rule(s, n).Ok? ==> PlainNode(n)
  {
    forall n | Rule(s, n).Ok? ensures PlainNode(n) {
      NamesArePlain(n.obj.kind);
      assert WellFormedRelation(n.relation, s.definitions[n.obj.kind].relations[n.relation]);
      NamesArePlain(n.relation);
    }
    forall n, leaf | Rule(s, n).Ok? && Mentions(Rule(s, n).value, leaf, true) ensures PlainLeaf(leaf) {
      var rel := s.definitions[n.obj.kind].relations[n.relation];
      assert WellFormedRelation(n.relation, rel);
      if rel.rewrite.Some? {
        LeavesAreNames(rel.rewrite.value, leaf);
      }
    }
  }
}
