/** Whole schema documents: what they declare, how they are written, and that
    lexing and parsing the text gives exactly what they declare. */
module Documents {
  import opened Names
  import opened Schemas
  import opened Lexers
  import opened Grammar
  import opened Writers
  import opened Shapes
  import opened Declarations

  datatype TypeRef = TypeRef(kind: string, relation: Option<string>)

  datatype Member =
    | Stored(name: string, types: seq<TypeRef>)
    | Computed(name: string, shape: Shape)

  datatype Block = Block(name: string, members: seq<Member>)

  // ---- What a document declares ----------------------------------------------------------------

  /** Types restrict nothing: a stored relation is its name alone. */
  function Declared(m: Member): Relation {
    match m
    case Stored(name, _) => Relation(name, None)
    case Computed(name, shape) => Relation(name, Some(Value(shape)))
  }

  function AllDeclared(ms: seq<Member>, relations: map<string, Relation>): Result<map<string, Relation>, ParseError>
    decreases |ms|
  {
    if ms == [] then Ok(relations)
    else if ms[0].name in relations then Err(DeclaredTwice)
    else AllDeclared(ms[1..], relations[ms[0].name := Declared(ms[0])])
  }

  function AllDefined(doc: seq<Block>, defs: map<string, Definition>): Result<Schema, ParseError>
    decreases |doc|
  {
    if doc == [] then Ok(Schema(defs))
    else if doc[0].name in defs then Err(DeclaredTwice)
    else match AllDeclared(doc[0].members, map[])
         case Err(e) => Err(e)
         case Ok(rels) => AllDefined(doc[1..], defs[doc[0].name := Definition(doc[0].name, rels)])
  }

  function Meaning(doc: seq<Block>): Result<Schema, ParseError> {
    match AllDefined(doc, map[])
    case Err(e) => Err(e)
    case Ok(s) => Validated(s)
  }

  /** A declared relation is found by its name, and nothing else is. */
  lemma {:induction false} DeclaredOnce(ms: seq<Member>, relations: map<string, Relation>)
    requires AllDeclared(ms, relations).Ok?
    ensures var rels := AllDeclared(ms, relations).value;
            (forall r :: r in relations ==> r in rels && rels[r] == relations[r]) &&
            (forall m :: m in ms ==> m.name in rels && m.name !in relations && rels[m.name] == Declared(m)) &&
            (forall r :: r in rels && r !in relations ==> exists m :: m in ms && m.name == r)
    decreases |ms|
  {
    if ms != [] {
      var rest := ms[1..];
      DeclaredOnce(rest, relations[ms[0].name := Declared(ms[0])]);
      hide Declared;
      assert forall m :: m in ms <==> m == ms[0] || m in rest;
    }
  }

  lemma {:induction false} DefinedOnce(doc: seq<Block>, defs: map<string, Definition>)
    requires AllDefined(doc, defs).Ok?
    ensures var all := AllDefined(doc, defs).value.definitions;
            (forall d :: d in defs ==> d in all && all[d] == defs[d]) &&
            (forall b :: b in doc ==> b.name in all && b.name !in defs && AllDeclared(b.members, map[]) == Ok(all[b.name].relations)) &&
            (forall d :: d in all && d !in defs ==> exists b :: b in doc && b.name == d)
    decreases |doc|
  {
    if doc != [] {
      var b, rest := doc[0], doc[1..];
      DefinedOnce(rest, defs[b.name := Definition(b.name, AllDeclared(b.members, map[]).value)]);
      hide AllDeclared;
      assert forall x :: x in doc <==> x == b || x in rest;
    }
  }

  /** Looking up a type and a relation in what a document declares: the type is unknown if
      no block has its name, the relation if no member of that block has its name, and
      otherwise the member's declaration is found. */
  lemma LookupFindsDeclarations(doc: seq<Block>, kind: string, relation: string)
    requires Meaning(doc).Ok?
    ensures var found := Lookup(Meaning(doc).value, kind, relation);
            (found == Err(UnknownType) <==> forall b :: b in doc ==> b.name != kind) &&
            (forall b :: b in doc && b.name == kind ==>
               (found == Err(UnknownRelation) <==> forall m :: m in b.members ==> m.name != relation) &&
               (forall m :: m in b.members && m.name == relation ==> found == Ok(Declared(m))))
  {
    DefinedOnce(doc, map[]);
    hide Declared;
    forall b | b in doc && b.name == kind
      ensures var found := Lookup(Meaning(doc).value, kind, relation);
              (found == Err(UnknownRelation) <==> forall m :: m in b.members ==> m.name != relation) &&
              (forall m :: m in b.members && m.name == relation ==> found == Ok(Declared(m)))
    {
      DeclaredOnce(b.members, map[]);
      hide AllDeclared;
    }
  }

  // ---- How it is written ------------------------------------------------------------------------

  function TypeText(t: TypeRef): seq<Token> {
    if t.relation.None? then [Id(t.kind)] else [Id(t.kind), P("#"), Id(t.relation.value)]
  }

  function TypesText(ts: seq<TypeRef>): seq<Token>
    requires ts != []
  {
    if |ts| == 1 then TypeText(ts[0]) else TypeText(ts[0]) + ([P("|")] + TypesText(ts[1..]))
  }

  function MemberText(m: Member): seq<Token> {
    match m
    case Stored(name, types) => [Id("relation")] + ([Id(name)] + if types == [] then [] else [P(":")] + TypesText(types))
    case Computed(name, shape) => [Id("permission")] + ([Id(name)] + ([P("=")] + Spelling(shape)))
  }

  function MembersText(ms: seq<Member>): seq<Token> {
    if ms == [] then [] else MemberText(ms[0]) + MembersText(ms[1..])
  }

  function BlockText(b: Block): seq<Token> {
    [Id("definition")] + ([Id(b.name)] + ([P("{")] + (MembersText(b.members) + [P("}")])))
  }

  function DocText(doc: seq<Block>): seq<Token> {
    if doc == [] then [] else BlockText(doc[0]) + DocText(doc[1..])
  }

  /** Every name is an identifier and every permission an expression. */
  ghost predicate Named(t: TypeRef) { IsName(t.kind) && (t.relation.Some? ==> IsName(t.relation.value)) }

  ghost predicate Printable(m: Member) {
    IsName(m.name) &&
    match m
    case Stored(_, types) => forall t :: t in types ==> Named(t)
    case Computed(_, shape) => IsExpr(shape)
  }

  ghost predicate PrintableBlock(b: Block) { IsName(b.name) && forall m :: m in b.members ==> Printable(m) }

  ghost predicate PrintableDoc(doc: seq<Block>) { forall b :: b in doc ==> PrintableBlock(b) }

  // ---- Every token of it can be lexed -------------------------------------------------------------

  ghost predicate AllWritable(toks: seq<Token>) { forall t :: t in toks ==> Writable(t) }

  lemma Sign(c: char, i: nat)
    requires i < |PUNCTUATION| && PUNCTUATION[i] == c
    ensures Writable(P([c]))
  {
  }

  lemma ArrowIsWritable()
    ensures Writable(P("->"))
  {
  }

  lemma ExprSigns()
    ensures Writable(P("(")) && Writable(P(")")) && Writable(P("+")) && Writable(P("-")) && Writable(P("&"))
  {
    hide Writable;
    hide IsPunctuation;
    Sign('(', 8);
    Sign(')', 9);
    Sign('+', 5);
    Sign('-', 7);
    Sign('&', 6);
  }

  lemma DocSigns()
    ensures Writable(P("{")) && Writable(P("}")) && Writable(P(":")) && Writable(P("|"))
    ensures Writable(P("=")) && Writable(P("#"))
  {
    hide Writable;
    hide IsPunctuation;
    Sign('{', 0);
    Sign('}', 1);
    Sign(':', 2);
    Sign('|', 3);
    Sign('=', 4);
    Sign('#', 10);
  }

  lemma JoinWritable(a: seq<Token>, b: seq<Token>)
    requires AllWritable(a) && AllWritable(b)
    ensures AllWritable(a + b)
  {
    hide Writable;
  }

  lemma OneWritable(t: Token)
    requires Writable(t)
    ensures AllWritable([t])
  {
    hide Writable;
  }

  lemma IdIsWritable(name: string)
    requires IsName(name)
    ensures AllWritable([Id(name)])
  {
    OneWritable(Id(name));
  }

  lemma KeywordsAreNames()
    ensures IsName("definition") && IsName("relation") && IsName("permission")
  {
  }

  lemma LeafIsWritable(rw: Rewrite)
    requires Normal(rw) && IsLeaf(rw)
    ensures AllWritable(LeafText(rw))
  {
    ArrowIsWritable();
  }

  lemma InParenthesesIsWritable(rw: Rewrite)
    requires AllWritable(ExprText(rw))
    ensures AllWritable(InParentheses(rw))
  {
    hide ExprText;
    hide Writable;
    ExprSigns();
    JoinWritable(ExprText(rw), [P(")")]);
    JoinWritable([P("(")], ExprText(rw) + [P(")")]);
  }

  lemma {:induction false} ExprIsWritable(rw: Rewrite)
    requires Normal(rw)
    ensures AllWritable(ExprText(rw)) && AllWritable(OperandText(rw)) && AllWritable(PrimaryText(rw))
    decreases Weight(rw)
  {
    hide AllWritable;
    if rw.Union? || rw.Intersection? {
      var cs := rw.children;
      assert WeightAll(cs) == 2 + Weight(cs[0]) + WeightAll(cs[1..]);
      ExprIsWritable(cs[0]);
      OperandsAreWritable("+", cs[1..]);
      OperandsAreWritable("&", cs[1..]);
      JoinWritable(ExprText(cs[0]), Operands("+", cs[1..]));
      JoinWritable(PrimaryText(cs[0]), Operands("&", cs[1..]));
    } else if rw.Exclusion? {
      ExprIsWritable(rw.base);
      ExprIsWritable(rw.subtract);
      ExprSigns();
      OneWritable(P("-"));
      JoinWritable([P("-")], OperandText(rw.subtract));
      JoinWritable(ExprText(rw.base), [P("-")] + OperandText(rw.subtract));
    } else {
      LeafIsWritable(rw);
    }
    InParenthesesIsWritable(rw);
  }

  lemma {:induction false} OperandsAreWritable(op: string, rws: seq<Rewrite>)
    requires NormalAll(rws) && (op == "+" || op == "&")
    ensures AllWritable(Operands(op, rws))
    decreases WeightAll(rws)
  {
    hide AllWritable;
    if rws == [] {
      NothingIsWritable();
    } else {
      hide Normal;
      ExprSigns();
      OneWritable(P(op));
      ExprIsWritable(rws[0]);
      OperandsAreWritable(op, rws[1..]);
      var first := if op == "&" then PrimaryText(rws[0]) else OperandText(rws[0]);
      JoinWritable(first, Operands(op, rws[1..]));
      JoinWritable([P(op)], first + Operands(op, rws[1..]));
    }
  }

  lemma {:induction false} SpellingIsWritable(s: Shape)
    requires IsExpr(s)
    ensures AllWritable(Spelling(s))
    decreases s
  {
    ExprSigns();
    PartsAreExpressions(s);
    hide AllWritable;
    hide Writable;
    match s
    case Leaf(rw) => LeafIsWritable(rw);
    case Parens(inner) =>
      SpellingIsWritable(inner);
      OneWritable(P("("));
      OneWritable(P(")"));
      JoinWritable(Spelling(inner), [P(")")]);
      JoinWritable([P("(")], Spelling(inner) + [P(")")]);
    case And(left, right) =>
      SpellingIsWritable(left);
      SpellingIsWritable(right);
      OneWritable(P("&"));
      JoinWritable([P("&")], Spelling(right));
      JoinWritable(Spelling(left), [P("&")] + Spelling(right));
    case Chained(left, minus, right) =>
      SpellingIsWritable(left);
      SpellingIsWritable(right);
      var op := P(if minus then "-" else "+");
      OneWritable(op);
      JoinWritable([op], Spelling(right));
      JoinWritable(Spelling(left), [op] + Spelling(right));
  }

  lemma NothingIsWritable()
    ensures AllWritable([])
  {
  }

  lemma TypeIsWritable(t: TypeRef)
    requires Named(t)
    ensures AllWritable(TypeText(t))
  {
    DocSigns();
  }

  lemma {:induction false} TypesAreWritable(ts: seq<TypeRef>)
    requires ts != [] && forall t :: t in ts ==> Named(t)
    ensures AllWritable(TypesText(ts))
  {
    TypeIsWritable(ts[0]);
    hide AllWritable;
    hide Named;
    hide TypeText;
    if |ts| > 1 {
      DocSigns();
      OneWritable(P("|"));
      TypesAreWritable(ts[1..]);
      JoinWritable([P("|")], TypesText(ts[1..]));
      JoinWritable(TypeText(ts[0]), [P("|")] + TypesText(ts[1..]));
    }
  }

  lemma MemberIsWritable(m: Member)
    requires Printable(m)
    ensures AllWritable(MemberText(m))
  {
    DocSigns();
    KeywordsAreNames();
    IdIsWritable(m.name);
    if m.Stored? {
      IdIsWritable("relation");
      var tail := if m.types == [] then [] else [P(":")] + TypesText(m.types);
      NothingIsWritable();
      if m.types != [] {
        TypesAreWritable(m.types);
        OneWritable(P(":"));
        JoinWritable([P(":")], TypesText(m.types));
      }
      hide TypesText;
      hide AllWritable;
      JoinWritable([Id(m.name)], tail);
      JoinWritable([Id("relation")], [Id(m.name)] + tail);
    } else {
      IdIsWritable("permission");
      SpellingIsWritable(m.shape);
      hide Spelling;
      OneWritable(P("="));
      hide AllWritable;
      JoinWritable([P("=")], Spelling(m.shape));
      JoinWritable([Id(m.name)], [P("=")] + Spelling(m.shape));
      JoinWritable([Id("permission")], [Id(m.name)] + ([P("=")] + Spelling(m.shape)));
    }
  }

  lemma {:induction false} MembersAreWritable(ms: seq<Member>)
    requires forall m :: m in ms ==> Printable(m)
    ensures AllWritable(MembersText(ms))
  {
    if ms != [] {
      MemberIsWritable(ms[0]);
      hide MemberText;
      hide Printable;
      MembersAreWritable(ms[1..]);
      hide AllWritable;
      JoinWritable(MemberText(ms[0]), MembersText(ms[1..]));
    }
  }

  lemma BlockIsWritable(b: Block)
    requires PrintableBlock(b)
    ensures AllWritable(BlockText(b))
  {
    var body := MembersText(b.members);
    MembersAreWritable(b.members);
    hide MembersText;
    DocSigns();
    KeywordsAreNames();
    IdIsWritable("definition");
    IdIsWritable(b.name);
    OneWritable(P("{"));
    OneWritable(P("}"));
    hide AllWritable;
    JoinWritable(body, [P("}")]);
    JoinWritable([P("{")], body + [P("}")]);
    JoinWritable([Id(b.name)], [P("{")] + (body + [P("}")]));
    JoinWritable([Id("definition")], [Id(b.name)] + ([P("{")] + (body + [P("}")])));
  }

  lemma {:induction false} DocIsWritable(doc: seq<Block>)
    requires PrintableDoc(doc)
    ensures AllWritable(DocText(doc))
  {
    if doc != [] {
      assert PrintableBlock(doc[0]);
      BlockIsWritable(doc[0]);
      hide BlockText;
      hide PrintableBlock;
      DocIsWritable(doc[1..]);
      hide AllWritable;
      JoinWritable(BlockText(doc[0]), DocText(doc[1..]));
    }
  }

  // ---- Reading it back -----------------------------------------------------------------------------

  /** What may follow a member. */
  predicate Follows(t: Token) { t.text == "relation" || t.text == "permission" || t.text == "}" }

  lemma {:induction false} ReadTypes(toks: seq<Token>, pos: nat, ts: seq<TypeRef>, end: nat)
    requires ts != [] && Spans(toks, pos, TypesText(ts), end) && Follows(toks[end])
    ensures InInput(toks, pos) && ParseTypeList(toks, pos) == Ok(end)
    decreases |ts|
  {
    var t := ts[0];
    if |ts| == 1 {
      ReadType(toks, pos, t, end);
    } else {
      var next := Split(toks, pos, TypeText(t), [P("|")] + TypesText(ts[1..]), end);
      SplitToken(toks, next, P("|"), TypesText(ts[1..]), end);
      ReadType(toks, pos, t, next);
      hide TypesText;
      hide TypeText;
      ReadTypes(toks, next + 1, ts[1..], end);
    }
  }

  lemma ReadType(toks: seq<Token>, pos: nat, t: TypeRef, end: nat)
    requires Spans(toks, pos, TypeText(t), end) && (toks[end] == P("|") || Follows(toks[end]))
    ensures InInput(toks, pos)
    ensures ParseTypeList(toks, pos) == if toks[end].text == "|" then ParseTypeList(toks, end + 1) else Ok(end)
  {
    var text := TypeText(t);
    assert forall i :: 0 <= i < |text| ==> toks[pos + i] == toks[pos..end][i];
    assert toks[pos] == Id(t.kind);
    if t.relation.Some? {
      assert toks[pos + 1] == P("#") && toks[pos + 2] == Id(t.relation.value);
    }
  }

  lemma ReadMember(toks: seq<Token>, pos: nat, m: Member, relations: map<string, Relation>, end: nat)
    requires Printable(m) && Spans(toks, pos, MemberText(m), end) && Follows(toks[end])
    ensures InInput(toks, pos) && Follows(toks[pos]) && toks[pos].text != "}"
    ensures ParseMember(toks, pos, relations) ==
            if m.name in relations then Err(DeclaredTwice) else Ok(Parsed(relations[m.name := Declared(m)], end))
  {
    match m
    case Stored(name, types) =>
      var tail := if types == [] then [] else [P(":")] + TypesText(types);
      SplitToken(toks, pos, Id("relation"), [Id(name)] + tail, end);
      SplitToken(toks, pos + 1, Id(name), tail, end);
      hide ParseTypeList;
      if types != [] {
        SplitToken(toks, pos + 2, P(":"), TypesText(types), end);
        ReadTypes(toks, pos + 3, types, end);
      }
      hide TypesText;
    case Computed(name, shape) =>
      SplitToken(toks, pos, Id("permission"), [Id(name)] + ([P("=")] + Spelling(shape)), end);
      SplitToken(toks, pos + 1, Id(name), [P("=")] + Spelling(shape), end);
      SplitToken(toks, pos + 2, P("="), Spelling(shape), end);
      ParsesExpr(toks, pos + 3, shape, end);
      NoMoreOperands(toks, end, Value(shape));
      hide Spelling;
      hide ParseExpr;
      hide ExprRest;
  }

  /** A list of members is either over or goes on with a keyword. */
  lemma MembersGoOn(toks: seq<Token>, pos: nat, ms: seq<Member>, end: nat)
    requires Spans(toks, pos, MembersText(ms), end) && toks[end] == P("}")
    ensures InInput(toks, pos) && Follows(toks[pos])
  {
    if ms != [] {
      var next := Split(toks, pos, MemberText(ms[0]), MembersText(ms[1..]), end);
      assert toks[pos] == toks[pos..next][0];
    }
  }

  lemma {:induction false} ReadMembers(toks: seq<Token>, pos: nat, ms: seq<Member>, relations: map<string, Relation>,
                                       end: nat)
    requires (forall m :: m in ms ==> Printable(m)) && Spans(toks, pos, MembersText(ms), end) && toks[end] == P("}")
    ensures InInput(toks, pos)
    ensures ParseMembers(toks, pos, relations) ==
            match AllDeclared(ms, relations)
            case Err(e) => Err(e)
            case Ok(rels) => Ok(Parsed(rels, end))
    decreases |ms|
  {
    if ms == [] {
      assert pos == end;
    } else {
      var m := ms[0];
      var next := Split(toks, pos, MemberText(m), MembersText(ms[1..]), end);
      MembersGoOn(toks, next, ms[1..], end);
      hide MembersText;
      ReadMember(toks, pos, m, relations, next);
      assert toks[pos].kind != EndOfInput;
      hide ParseMember;
      hide Printable;
      hide Declared;
      ReadMembers(toks, next, ms[1..], relations[m.name := Declared(m)], end);
    }
  }

  lemma ReadBlock(toks: seq<Token>, pos: nat, b: Block, defs: map<string, Definition>, end: nat)
    requires (forall m :: m in b.members ==> Printable(m)) && Spans(toks, pos, BlockText(b), end)
    ensures InInput(toks, pos) && toks[pos].kind != EndOfInput
    ensures ParseDefinition(toks, pos, defs) ==
            if b.name in defs then Err(DeclaredTwice)
            else match AllDeclared(b.members, map[])
                 case Err(e) => Err(e)
                 case Ok(rels) => Ok(Parsed(defs[b.name := Definition(b.name, rels)], end))
  {
    hide *;
    var close := BlockParts(toks, pos, b, end);
    BlockHeader(toks, pos, b.name, defs);
    ReadMembers(toks, pos + 3, b.members, map[], close);
  }

  lemma BlockHeader(toks: seq<Token>, pos: nat, name: string, defs: map<string, Definition>)
    requires InInput(toks, pos) && InInput(toks, pos + 3)
    requires toks[pos] == Id("definition") && toks[pos + 1] == Id(name) && toks[pos + 2] == P("{")
    ensures toks[pos].kind != EndOfInput
    ensures ParseDefinition(toks, pos, defs) ==
            if name in defs then Err(DeclaredTwice)
            else match ParseMembers(toks, pos + 3, map[])
                 case Err(e) => Err(e)
                 case Ok(ms) => Ok(Parsed(defs[name := Definition(name, ms.value)], ms.pos + 1))
  {
    hide ParseMembers;
  }

  lemma BlockParts(toks: seq<Token>, pos: nat, b: Block, end: nat) returns (close: nat)
    requires Spans(toks, pos, BlockText(b), end)
    ensures InInput(toks, pos + 3) && InInput(toks, pos) && InInput(toks, close)
    ensures toks[pos] == Id("definition") && toks[pos + 1] == Id(b.name) && toks[pos + 2] == P("{")
    ensures Spans(toks, pos + 3, MembersText(b.members), close) && toks[close] == P("}") && end == close + 1
  {
    var name, body := b.name, MembersText(b.members);
    hide MembersText;
    SplitToken(toks, pos, Id("definition"), [Id(name)] + ([P("{")] + (body + [P("}")])), end);
    SplitToken(toks, pos + 1, Id(name), [P("{")] + (body + [P("}")]), end);
    SplitToken(toks, pos + 2, P("{"), body + [P("}")], end);
    close := Split(toks, pos + 3, body, [P("}")], end);
    assert [P("}")] + [] == [P("}")];
    SplitToken(toks, close, P("}"), [], end);
  }

  lemma {:induction false} ReadDoc(toks: seq<Token>, pos: nat, doc: seq<Block>, defs: map<string, Definition>, end: nat)
    requires PrintableDoc(doc) && Spans(toks, pos, DocText(doc), end) && toks[end] == END
    ensures InInput(toks, pos) && ParseDefinitions(toks, pos, defs) == AllDefined(doc, defs)
    decreases |doc|
  {
    if doc == [] {
      assert pos == end;
    } else {
      var b := doc[0];
      var next := Split(toks, pos, BlockText(b), DocText(doc[1..]), end);
      assert PrintableBlock(b);
      hide DocText;
      ReadBlock(toks, pos, b, defs, next);
      hide ParseDefinition;
      hide PrintableBlock;
      if b.name !in defs && AllDeclared(b.members, map[]).Ok? {
        ReadDoc(toks, next, doc[1..], defs[b.name := Definition(b.name, AllDeclared(b.members, map[]).value)], end);
      }
    }
  }

  /** However a document is laid out -- blanks, line ends and comments between its tokens,
      or nothing where two neighbours are not both identifiers -- parsing the text gives
      exactly what the document declares, or refuses it for a name declared twice or a
      reference to nothing. */
  lemma LaidOutDocumentsParseBack(doc: seq<Block>, gaps: seq<seq<Piece>>, tail: string)
    requires PrintableDoc(doc) && IsLayout(DocText(doc), gaps, tail)
    ensures Parse(LaidOut(DocText(doc), gaps, tail)) == Meaning(doc)
  {
    var text := DocText(doc);
    DocIsWritable(doc);
    var toks := LexedText(text, gaps, tail);
    hide LaidOut;
    hide Tokens;
    hide DocText;
    hide IsLayout;
    ReadDoc(toks, 0, doc, map[], |text|);
  }

  lemma LexedText(text: seq<Token>, gaps: seq<seq<Piece>>, tail: string) returns (toks: seq<Token>)
    requires AllWritable(text) && IsLayout(text, gaps, tail)
    ensures toks == Tokens(LaidOut(text, gaps, tail), 0)
    ensures Spans(toks, 0, text, |text|) && toks[|text|] == END && |toks| == |text| + 1
  {
    toks := text + [END];
    assert toks[0..|text|] == text;
    hide Tokens;
    hide Writable;
    hide LaidOut;
    hide IsLayout;
    var src := LaidOut(text, gaps, tail);
    assert src[0..|src|] == src;
    LaidOutTokensLexBack(src, 0, text, gaps, tail);
  }

  /** ... with one space after each token, for instance. */
  lemma WrittenDocumentsParseBack(doc: seq<Block>)
    requires PrintableDoc(doc)
    ensures Parse(Written(DocText(doc))) == Meaning(doc)
  {
    hide *;
    var text := DocText(doc);
    WrittenIsLaidOut(text);
    SpacesLayOut(text);
    LaidOutDocumentsParseBack(doc, [[]] + Spaces(|text|), "");
  }

  /** A rewrite alone: written with the fewest parentheses and laid out in any way, it is
      lexed and parsed to itself. */
  lemma LaidOutRewritesParseBack(rw: Rewrite, gaps: seq<seq<Piece>>, tail: string)
    requires Normal(rw) && IsLayout(ExprText(rw), gaps, tail)
    ensures var toks := Tokens(LaidOut(ExprText(rw), gaps, tail), 0);
            InInput(toks, 0) && ParseExpr(toks, 0) == Ok(Parsed(rw, |toks| - 1))
  {
    var text := ExprText(rw);
    ExprIsWritable(rw);
    var toks := LexedText(text, gaps, tail);
    hide LaidOut;
    hide IsLayout;
    hide Tokens;
    hide ExprText;
    hide Normal;
    ReadExpr(toks, 0, rw, |text|);
    NoMoreOperands(toks, |text|, rw);
  }

  /** ... with one space after each token, for instance. */
  lemma WrittenRewritesParseBack(rw: Rewrite)
    requires Normal(rw)
    ensures var toks := Tokens(Written(ExprText(rw)), 0);
            InInput(toks, 0) && ParseExpr(toks, 0) == Ok(Parsed(rw, |toks| - 1))
  {
    hide *;
    var text := ExprText(rw);
    WrittenIsLaidOut(text);
    SpacesLayOut(text);
    LaidOutRewritesParseBack(rw, [[]] + Spaces(|text|), "");
  }

  /** The spelling with the fewest parentheses. */
  lemma HasShape(rw: Rewrite) returns (s: Shape)
    requires Normal(rw)
    ensures IsExpr(s) && Spelling(s) == ExprText(rw) && Value(s) == rw
  {
    hide *;
    var text := ExprText(rw);
    var toks := text + [END];
    ExprIsWritable(rw);
    EndedText(text);
    ReadExpr(toks, 0, rw, |text|);
    NoMoreOperands(toks, |text|, rw);
    AcceptedExpressions(toks, rw);
    s :| IsExpr(s) && toks == Spelling(s) + [END] && Value(s) == rw;
    assert Spelling(s) == toks[..|toks| - 1] == text;
  }

  /** A writable text with its end token is as the lexer leaves it. */
  lemma EndedText(text: seq<Token>)
    requires AllWritable(text)
    ensures var toks := text + [END];
            Lexed(toks) && InInput(toks, 0) && InInput(toks, |text|) && Spans(toks, 0, text, |text|) && Ends(toks[|text|]) &&
            toks[|text|].text == ""
  {
    var toks := text + [END];
    assert toks[0..|text|] == text;
    forall i | 0 <= i < |text| ensures Proper(toks[i]) {
      assert toks[i] == text[i] && text[i] in text;
    }
  }

  // ---- Exactly which schemas can be written ------------------------------------------------------

  lemma {:induction false} EveryRelationIsDeclared(all: map<string, Relation>, done: map<string, Relation>)
    returns (ms: seq<Member>)
    requires WellFormedIn(all) && done.Keys <= all.Keys && forall r :: r in done ==> done[r] == all[r]
    ensures AllDeclared(ms, done) == Ok(all) && forall m :: m in ms ==> Printable(m)
    decreases all.Keys - done.Keys
  {
    var left := all.Keys - done.Keys;
    if left == {} {
      ms := [];
      assert forall k :: k in all ==> k !in left;
      assert done == all;
    } else {
      var name :| name in left;
      assert WellFormedRelation(name, all[name]);
      var m := Stored(name, []);
      if all[name].rewrite.Some? {
        var shape := HasShape(all[name].rewrite.value);
        m := Computed(name, shape);
      }
      assert Declared(m) == all[name] && Printable(m);
      hide Printable;
      hide WellFormedIn;
      var rest := EveryRelationIsDeclared(all, done[name := all[name]]);
      ms := [m] + rest;
      assert ms[1..] == rest;
    }
  }

  lemma {:induction false} EveryDefinitionIsWritten(s: Schema, done: map<string, Definition>) returns (doc: seq<Block>)
    requires WellFormed(s) && done.Keys <= s.definitions.Keys && forall d :: d in done ==> done[d] == s.definitions[d]
    ensures PrintableDoc(doc) && AllDefined(doc, done) == Ok(s)
    decreases s.definitions.Keys - done.Keys
  {
    var all := s.definitions;
    var left := all.Keys - done.Keys;
    if left == {} {
      doc := [];
      assert forall k :: k in all ==> k !in left;
      assert done == all;
    } else {
      var name :| name in left;
      var ms := EveryRelationIsDeclared(all[name].relations, map[]);
      assert PrintableBlock(Block(name, ms));
      assert all[name] == Definition(name, all[name].relations);
      hide PrintableBlock;
      hide WellFormed;
      hide AllDeclared;
      var rest := EveryDefinitionIsWritten(s, done[name := all[name]]);
      doc := [Block(name, ms)] + rest;
      assert doc[1..] == rest;
    }
  }

  /** The schemas some text parses to are exactly the well-formed, validated ones. */
  lemma AcceptedSchemas(s: Schema)
    ensures (exists src :: Parse(src) == Ok(s)) <==> WellFormed(s) && ValidSchema(s)
  {
    if WellFormed(s) && ValidSchema(s) {
      var doc := EveryDefinitionIsWritten(s, map[]);
      WrittenDocumentsParseBack(doc);
    }
    forall src | Parse(src) == Ok(s) ensures WellFormed(s) && ValidSchema(s) {
      ParsedSchemas(src);
    }
  }
}
