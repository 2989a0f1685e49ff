/** Exactly which texts the parser accepts: the layouts of documents that declare
    something. */
module AcceptedTexts {
  import opened Names
  import opened Schemas
  import opened Lexers
  import opened Grammar
  import opened Writers
  import opened Shapes
  import opened Declarations
  import opened Documents

  // ---- What was lexed is a layout of its tokens -------------------------------------------------

  /** A text read from offset i on: its tokens, what lies between them, and how it ends. */
  ghost predicate Read(src: string, i: nat, toks: seq<Token>, gaps: seq<seq<Piece>>, tail: string) {
    i <= |src| && Tokens(src, i) == toks + [END] && IsLayout(toks, gaps, tail) && src[i..] == LaidOut(toks, gaps, tail)
  }

  function Prepend(p: Piece, gaps: seq<seq<Piece>>): seq<seq<Piece>>
    requires gaps != []
  {
    [[p] + gaps[0]] + gaps[1..]
  }

  lemma ReadHasGaps(src: string, i: nat, toks: seq<Token>, gaps: seq<seq<Piece>>, tail: string)
    requires Read(src, i, toks, gaps, tail)
    ensures |gaps| == |toks| + 1
  {
    hide Tokens;
  }

  lemma SpacesAreBlanks(c: char)
    ensures IsSpace(c) <==> IsBlank(c)
  {
  }

  lemma MorePieces(toks: seq<Token>, gaps: seq<seq<Piece>>, tail: string, p: Piece)
    requires IsLayout(toks, gaps, tail) && IsPiece(p)
    ensures var gaps' := Prepend(p, gaps);
            IsLayout(toks, gaps', tail) && LaidOut(toks, gaps', tail) == PieceText(p) + LaidOut(toks, gaps, tail)
  {
    PrependText(toks, gaps, tail, p);
    var gaps' := Prepend(p, gaps);
    assert IsGap(gaps'[0]) by { MoreIsGap(p, gaps[0]); }
    assert forall k :: 0 < k < |gaps'| ==> gaps'[k] == gaps[k];
    hide IsGap;
    hide PieceText;
    hide LaidOut;
    hide IsPiece;
    forall k | 0 <= k < |gaps'| ensures IsGap(gaps'[k]) {
      if k > 0 { assert IsGap(gaps[k]); }
    }
  }

  lemma PrependText(toks: seq<Token>, gaps: seq<seq<Piece>>, tail: string, p: Piece)
    requires |gaps| == |toks| + 1
    ensures LaidOut(toks, Prepend(p, gaps), tail) == PieceText(p) + LaidOut(toks, gaps, tail)
  {
    var gap, gaps' := [p] + gaps[0], Prepend(p, gaps);
    assert gaps'[1..] == gaps[1..] && gaps'[0] == gap;
    assert gap[1..] == gaps[0] && GapText(gap) == PieceText(p) + GapText(gaps[0]);
    hide PieceText;
    hide GapText;
    var rest := if toks == [] then tail else toks[0].text + LaidOut(toks[1..], gaps[1..], tail);
    assert PieceText(p) + GapText(gaps[0]) + rest == PieceText(p) + (GapText(gaps[0]) + rest);
  }

  lemma MoreIsGap(p: Piece, gap: seq<Piece>)
    requires IsPiece(p) && IsGap(gap)
    ensures IsGap([p] + gap)
  {
  }

  lemma MoreTokens(toks: seq<Token>, gaps: seq<seq<Piece>>, tail: string, t: Token)
    requires IsLayout(toks, gaps, tail)
    requires t.kind == Ident && toks != [] && toks[0].kind == Ident ==> gaps[0] != []
    ensures IsLayout([t] + toks, [[]] + gaps, tail)
    ensures LaidOut([t] + toks, [[]] + gaps, tail) == t.text + LaidOut(toks, gaps, tail)
  {
    var toks', gaps' := [t] + toks, [[]] + gaps;
    assert toks'[1..] == toks && gaps'[1..] == gaps;
    assert GapText([]) == "";
    forall k | 0 <= k < |gaps'| ensures IsGap(gaps'[k]) {
      if k > 0 { assert gaps'[k] == gaps[k - 1]; }
    }
    forall k | 0 < k < |toks'| && toks'[k - 1].kind == Ident && toks'[k].kind == Ident ensures gaps'[k] != [] {
      if k > 1 { assert toks'[k - 1] == toks[k - 2] && toks'[k] == toks[k - 1] && gaps'[k] == gaps[k - 1]; }
    }
  }

  lemma NothingRead(src: string)
    ensures Read(src, |src|, [], [[]], "")
  {
    assert [] + [END] == [END];
  }

  lemma TailRead(src: string, i: nat)
    requires i + 1 < |src| && src[i] == '/' && src[i + 1] == '/' && LineEnd(src, i) == |src|
    ensures Read(src, i, [], [[]], src[i..])
  {
    var tail := src[i..];
    assert forall k :: 0 <= k < |tail| ==> tail[k] == src[i + k];
    assert Tokens(src, i) == Next(src, i).0 + Tokens(src, |src|);
    assert Tokens(src, i) == [END];
    assert [] + [END] == [END];
    assert LaidOut([], [[]], tail) == GapText([]) + tail == tail;
  }

  lemma BlankRead(src: string, i: nat, toks: seq<Token>, gaps: seq<seq<Piece>>, tail: string)
    requires i < |src| && IsSpace(src[i]) && Read(src, i + 1, toks, gaps, tail) && gaps != []
    ensures Read(src, i, toks, Prepend(Blank(src[i]), gaps), tail)
  {
    SpacesAreBlanks(src[i]);
    SkipBlank(src, i, src[i]);
    hide IsSpace;
    hide IsBlank;
    hide IsLayout;
    MorePieces(toks, gaps, tail, Blank(src[i]));
    assert src[i..] == [src[i]] + src[i + 1..];
    hide LaidOut;
    hide Tokens;
  }

  lemma CommentRead(src: string, i: nat, end: nat, toks: seq<Token>, gaps: seq<seq<Piece>>, tail: string)
    requires i + 1 < end < |src| && src[i] == '/' && src[i + 1] == '/' && LineEnd(src, i) == end
    requires Read(src, end + 1, toks, gaps, tail) && gaps != []
    ensures Read(src, i, toks, Prepend(Comment(src[i + 2..end]), gaps), tail)
  {
    var line := src[i + 2..end];
    CommentSlice(src, i, end);
    hide IsLayout;
    hide Tokens;
    hide PieceText;
    SkipLine(src, i, end);
    SkipEndOfLine(src, end);
    MorePieces(toks, gaps, tail, Comment(line));
    hide LaidOut;
    hide Prepend;
  }

  lemma CommentSlice(src: string, i: nat, end: nat)
    requires i + 1 < end < |src| && src[i] == '/' && src[i + 1] == '/' && LineEnd(src, i) == end
    ensures src[i..] == PieceText(Comment(src[i + 2..end])) + src[end + 1..] && IsPiece(Comment(src[i + 2..end]))
    ensures src[end] == '\n'
  {
    var line := src[i + 2..end];
    assert forall k :: 0 <= k < |line| ==> line[k] == src[i + 2 + k];
    assert src[i..i + 2] == "//" && src[end..end + 1] == "\n";
    assert src[i..] == src[i..i + 2] + line + src[end..end + 1] + src[end + 1..];
  }

  lemma LineGoesOn(src: string, i: nat)
    requires i + 1 < |src| && src[i] == '/' && src[i + 1] == '/'
    ensures i + 1 < LineEnd(src, i)
  {
  }

  lemma TokenRead(src: string, i: nat, t: Token, end: nat, toks: seq<Token>, gaps: seq<seq<Piece>>, tail: string)
    requires i < end <= |src| && Next(src, i) == ([t], end) && src[i..end] == t.text && Read(src, end, toks, gaps, tail)
    requires |gaps| == |toks| + 1 && forall x :: x in toks ==> Writable(x)
    requires t.kind == Ident && end < |src| ==> !IsIdentChar(src[end])
    ensures Read(src, i, [t] + toks, [[]] + gaps, tail)
  {
    hide *;
    NoRunOn(src, t, end, i, toks, gaps, tail);
    ReadIs(src, end, toks, gaps, tail);
    MoreTokens(toks, gaps, tail, t);
    ReadOne(src, i, t, end);
    assert src[i..] == src[i..end] + src[end..];
    assert [t] + (toks + [END]) == [t] + toks + [END];
    IsRead(src, i, [t] + toks, [[]] + gaps, tail);
  }

  lemma ReadIs(src: string, i: nat, toks: seq<Token>, gaps: seq<seq<Piece>>, tail: string)
    requires Read(src, i, toks, gaps, tail)
    ensures i <= |src| && Tokens(src, i) == toks + [END] && IsLayout(toks, gaps, tail) && |gaps| == |toks| + 1
    ensures src[i..] == LaidOut(toks, gaps, tail)
  {
    hide Tokens;
    hide LaidOut;
  }

  lemma IsRead(src: string, i: nat, toks: seq<Token>, gaps: seq<seq<Piece>>, tail: string)
    requires i <= |src| && Tokens(src, i) == toks + [END] && |gaps| == |toks| + 1 && IsLayout(toks, gaps, tail)
    requires src[i..] == LaidOut(toks, gaps, tail)
    ensures Read(src, i, toks, gaps, tail)
  {
  }

  lemma NoRunOn(src: string, t: Token, end: nat, i: nat, toks: seq<Token>, gaps: seq<seq<Piece>>, tail: string)
    requires Read(src, end, toks, gaps, tail) && |gaps| == |toks| + 1 && forall x :: x in toks ==> Writable(x)
    requires t.kind == Ident && end < |src| ==> !IsIdentChar(src[end])
    ensures t.kind == Ident && toks != [] && toks[0].kind == Ident ==> gaps[0] != []
  {
    ReadIs(src, end, toks, gaps, tail);
    hide Read;
    hide Tokens;
    hide IsLayout;
    if t.kind == Ident && toks != [] && toks[0].kind == Ident && gaps[0] == [] {
      RunsOn(toks, gaps, tail);
      hide IsIdentChar;
      hide LaidOut;
      assert false;
    }
  }

  lemma RunsOn(toks: seq<Token>, gaps: seq<seq<Piece>>, tail: string)
    requires |gaps| == |toks| + 1 && toks != [] && gaps[0] == [] && toks[0].kind == Ident
    requires forall x :: x in toks ==> Writable(x)
    ensures LaidOut(toks, gaps, tail) != "" && IsIdentChar(LaidOut(toks, gaps, tail)[0])
  {
    assert toks[0] in toks;
    assert LaidOut(toks, gaps, tail) == GapText([]) + (toks[0].text + LaidOut(toks[1..], gaps[1..], tail));
  }

  /** The token read at i, where it ends and what follows it. */
  lemma TokenAt(src: string, i: nat) returns (t: Token, end: nat)
    requires i < |src| && !IsSpace(src[i]) && !(src[i] == '/' && i + 1 < |src| && src[i + 1] == '/')
    ensures Next(src, i) == ([t], end) && i < end <= |src| && src[i..end] == t.text
    ensures t.kind == Ident && end < |src| ==> !IsIdentChar(src[end])
  {
    t, end := Next(src, i).0[0], Next(src, i).1;
    hide IsSpace;
    hide IsIdentChar;
    hide IsPunctuation;
  }

  /** When every token is one a schema is written with, the text is a layout of them. */
  lemma {:induction false} LexedIsLaidOut(src: string, i: nat) returns (toks: seq<Token>, gaps: seq<seq<Piece>>, tail: string)
    requires i <= |src| && forall t :: t in Tokens(src, i) ==> t == END || Writable(t)
    ensures Read(src, i, toks, gaps, tail) && |gaps| == |toks| + 1
    decreases |src| - i
  {
    hide Read;
    hide Writable;
    hide IsSpace;
    hide Next;
    if i == |src| {
      toks, gaps, tail := [], [[]], "";
      NothingRead(src);
    } else if IsSpace(src[i]) {
      SpacesAreBlanks(src[i]);
      SkipBlank(src, i, src[i]);
      hide Tokens;
      toks, gaps, tail := LexedIsLaidOut(src, i + 1);
      BlankRead(src, i, toks, gaps, tail);
      gaps := Prepend(Blank(src[i]), gaps);
    } else if src[i] == '/' && i + 1 < |src| && src[i + 1] == '/' {
      LineGoesOn(src, i);
      var end := LineEnd(src, i);
      if end == |src| {
        toks, gaps, tail := [], [[]], src[i..];
        TailRead(src, i);
      } else {
        SkipLine(src, i, end);
        SkipBlank(src, end, '\n');
        hide Tokens;
        toks, gaps, tail := LexedIsLaidOut(src, end + 1);
        CommentRead(src, i, end, toks, gaps, tail);
        gaps := Prepend(Comment(src[i + 2..end]), gaps);
      }
    } else {
      var t, end := TokenAt(src, i);
      assert Tokens(src, i) == [t] + Tokens(src, end);
      hide Tokens;
      assert forall x :: x in Tokens(src, end) ==> x in Tokens(src, i);
      toks, gaps, tail := LexedIsLaidOut(src, end);
      assert forall x :: x in toks ==> Writable(x) by { ReadsWritable(src, end, toks, gaps, tail); }
      TokenRead(src, i, t, end, toks, gaps, tail);
      toks, gaps := [t] + toks, [[]] + gaps;
    }
  }

  lemma ReadsWritable(src: string, i: nat, toks: seq<Token>, gaps: seq<seq<Piece>>, tail: string)
    requires Read(src, i, toks, gaps, tail) && forall t :: t in Tokens(src, i) ==> t == END || Writable(t)
    ensures forall t :: t in toks ==> Writable(t)
  {
    TokensAreLexed(src, i);
    hide Writable;
    forall t | t in toks ensures Writable(t) {
      var k :| 0 <= k < |toks| && toks[k] == t;
      assert Tokens(src, i)[k] == t && Proper(t);
      assert t in Tokens(src, i);
    }
  }

  // ---- What is parsed is the text of a document --------------------------------------------------

  lemma TokenIs(toks: seq<Token>, pos: nat, text: string)
    requires Lexed(toks) && InInput(toks, pos) && toks[pos].text == text
    requires |text| == 1 && !IsIdentChar(text[0])
    ensures pos + 1 < |toks| && toks[pos] == P(text)
  {
    if pos + 1 < |toks| { assert Proper(toks[pos]); }
  }

  lemma NameIs(toks: seq<Token>, pos: nat)
    requires Lexed(toks) && InInput(toks, pos) && toks[pos].kind == Ident
    ensures pos + 1 < |toks| && toks[pos] == Id(toks[pos].text) && IsName(toks[pos].text)
  {
    if pos + 1 < |toks| { assert Proper(toks[pos]); }
  }

  /** A keyword is not a sign. */
  lemma DefinitionIs(toks: seq<Token>, pos: nat)
    requires Lexed(toks) && InInput(toks, pos) && toks[pos].text == "definition"
    ensures pos + 1 < |toks| && toks[pos] == Id("definition")
  {
    if pos + 1 < |toks| { assert Proper(toks[pos]); }
  }

  lemma SignsAreNoNames()
    ensures !IsIdentChar('#') && !IsIdentChar('|') && !IsIdentChar(':') && !IsIdentChar('=')
    ensures !IsIdentChar('{') && !IsIdentChar('}')
  {
  }

  lemma Slices(toks: seq<Token>, i: nat, j: nat, k: nat)
    requires i <= j <= k <= |toks|
    ensures toks[i..k] == toks[i..j] + toks[j..k]
    ensures i < j ==> toks[i..j] == [toks[i]] + toks[i + 1..j]
  {
  }

  lemma {:induction false} TypesAreText(toks: seq<Token>, pos: nat) returns (ts: seq<TypeRef>)
    requires Lexed(toks) && InInput(toks, pos) && ParseTypeList(toks, pos).Ok?
    ensures ts != [] && (forall t :: t in ts ==> Named(t)) && toks[pos..ParseTypeList(toks, pos).value] == TypesText(ts)
    decreases |toks| - pos
  {
    SignsAreNoNames();
    NameIs(toks, pos);
    var t := TypeRef(toks[pos].text, None);
    if toks[pos + 1].text == "#" {
      TokenIs(toks, pos + 1, "#");
      NameIs(toks, pos + 2);
      t := TypeRef(toks[pos].text, Some(toks[pos + 2].text));
    }
    hide IsName;
    hide IsIdentChar;
    hide Lexed;
    var next := if toks[pos + 1].text == "#" then pos + 3 else pos + 1;
    assert toks[pos..next] == TypeText(t);
    if toks[next].text == "|" {
      TokenIs(toks, next, "|");
      var rest := TypesAreText(toks, next + 1);
      var end := ParseTypeList(toks, next + 1).value;
      ts := [t] + rest;
      Slices(toks, pos, next, end);
      Slices(toks, next, end, end);
      assert ts[1..] == rest && ts[0] == t;
    } else {
      ts := [t];
    }
  }

  lemma MemberIsText(toks: seq<Token>, pos: nat, relations: map<string, Relation>) returns (m: Member)
    requires Lexed(toks) && InInput(toks, pos) && ParseMember(toks, pos, relations).Ok?
    ensures var r := ParseMember(toks, pos, relations).value;
            Printable(m) && toks[pos..r.pos] == MemberText(m) && m.name !in relations &&
            r.value == relations[m.name := Declared(m)]
  {
    SignsAreNoNames();
    NameIs(toks, pos);
    NameIs(toks, pos + 1);
    var name, r := toks[pos + 1].text, ParseMember(toks, pos, relations).value;
    hide IsName;
    hide IsIdentChar;
    if toks[pos].text == "relation" {
      if toks[pos + 2].text == ":" {
        TokenIs(toks, pos + 2, ":");
        var types := TypesAreText(toks, pos + 3);
        m := Stored(name, types);
        FourParts(toks, pos, r.pos);
      } else {
        m := Stored(name, []);
        assert toks[pos..pos + 2] == [toks[pos]] + ([toks[pos + 1]] + []);
      }
    } else {
      TokenIs(toks, pos + 2, "=");
      var shape := ParsedIsSpelled(toks, pos + 3, pos + 3, ExprLevel, Leaf(This));
      m := Computed(name, shape);
      FourParts(toks, pos, r.pos);
    }
  }

  lemma FourParts(toks: seq<Token>, pos: nat, end: nat)
    requires pos + 3 <= end <= |toks|
    ensures toks[pos..end] == [toks[pos]] + ([toks[pos + 1]] + ([toks[pos + 2]] + toks[pos + 3..end]))
  {
  }

  lemma {:induction false} MembersAreText(toks: seq<Token>, pos: nat, relations: map<string, Relation>)
    returns (ms: seq<Member>)
    requires Lexed(toks) && InInput(toks, pos) && ParseMembers(toks, pos, relations).Ok?
    ensures var r := ParseMembers(toks, pos, relations).value;
            (forall m :: m in ms ==> Printable(m)) && toks[pos..r.pos] == MembersText(ms) &&
            AllDeclared(ms, relations) == Ok(r.value)
    decreases |toks| - pos
  {
    if toks[pos].text == "}" {
      ms := [];
    } else {
      var m := MemberIsText(toks, pos, relations);
      hide ParseMember;
      hide Printable;
      hide MemberText;
      hide Declared;
      var next := ParseMember(toks, pos, relations).value;
      var rest := MembersAreText(toks, next.pos, next.value);
      ms := [m] + rest;
      Slices(toks, pos, next.pos, ParseMembers(toks, next.pos, next.value).value.pos);
      assert ms[1..] == rest && ms[0] == m;
    }
  }

  lemma BlockIsText(toks: seq<Token>, pos: nat, defs: map<string, Definition>) returns (b: Block)
    requires Lexed(toks) && InInput(toks, pos) && ParseDefinition(toks, pos, defs).Ok?
    ensures var r := ParseDefinition(toks, pos, defs).value;
            PrintableBlock(b) && toks[pos..r.pos] == BlockText(b) && b.name !in defs &&
            AllDeclared(b.members, map[]).Ok? &&
            r.value == defs[b.name := Definition(b.name, AllDeclared(b.members, map[]).value)]
  {
    hide *;
    var close := DefinitionParts(toks, pos, defs);
    SignsAreNoNames();
    DefinitionIs(toks, pos);
    NameIs(toks, pos + 1);
    TokenIs(toks, pos + 2, "{");
    TokenIs(toks, close, "}");
    var ms := MembersAreText(toks, pos + 3, map[]);
    b := Block(toks[pos + 1].text, ms);
    FourParts(toks, pos, close + 1);
    assert toks[pos + 3..close + 1] == toks[pos + 3..close] + [toks[close]];
    TextOfBlock(b);
  }

  lemma TextOfBlock(b: Block)
    ensures BlockText(b) == [Id("definition")] + ([Id(b.name)] + ([P("{")] + (MembersText(b.members) + [P("}")])))
    ensures IsName(b.name) && (forall m :: m in b.members ==> Printable(m)) ==> PrintableBlock(b)
  {
  }

  lemma DefinitionParts(toks: seq<Token>, pos: nat, defs: map<string, Definition>) returns (close: nat)
    requires InInput(toks, pos) && ParseDefinition(toks, pos, defs).Ok?
    ensures InInput(toks, pos + 1) && InInput(toks, pos + 2) && InInput(toks, pos + 3)
    ensures toks[pos].text == "definition" && toks[pos + 1].kind == Ident
    ensures toks[pos + 1].text !in defs && toks[pos + 2].text == "{"
    ensures ParseMembers(toks, pos + 3, map[]).Ok?
    ensures var ms, r, name := ParseMembers(toks, pos + 3, map[]).value, ParseDefinition(toks, pos, defs).value, toks[pos + 1].text;
            InInput(toks, close) && ms.pos == close && toks[close].text == "}" && r.pos == close + 1 &&
            r.value == defs[name := Definition(name, ms.value)]
  {
    close := ParseMembers(toks, pos + 3, map[]).value.pos;
    hide ParseMembers;
  }

  lemma EndsOnce(toks: seq<Token>, pos: nat)
    requires Lexed(toks) && InInput(toks, pos) && toks[pos].kind == EndOfInput
    ensures pos + 1 == |toks| && toks[pos..] == [] + [END]
  {
    if pos + 1 < |toks| {
      assert false;
    }
  }

  lemma {:induction false} DocumentIsText(toks: seq<Token>, pos: nat, defs: map<string, Definition>)
    returns (doc: seq<Block>)
    requires Lexed(toks) && InInput(toks, pos) && ParseDefinitions(toks, pos, defs).Ok?
    ensures PrintableDoc(doc) && toks[pos..] == DocText(doc) + [END]
    ensures AllDefined(doc, defs) == ParseDefinitions(toks, pos, defs)
    decreases |toks| - pos
  {
    if toks[pos].kind == EndOfInput {
      doc := [];
      EndsOnce(toks, pos);
    } else {
      hide *;
      NextDefinition(toks, pos, defs);
      var b := BlockIsText(toks, pos, defs);
      var next := ParseDefinition(toks, pos, defs).value;
      var rest := DocumentIsText(toks, next.pos, next.value);
      doc := [b] + rest;
      Slices(toks, pos, next.pos, |toks|);
      assert toks[pos..|toks|] == toks[pos..] && toks[next.pos..|toks|] == toks[next.pos..];
      MoreBlocks(b, rest, defs);
      assert BlockText(b) + (DocText(rest) + [END]) == BlockText(b) + DocText(rest) + [END];
    }
  }

  lemma NextDefinition(toks: seq<Token>, pos: nat, defs: map<string, Definition>)
    requires InInput(toks, pos) && toks[pos].kind != EndOfInput && ParseDefinitions(toks, pos, defs).Ok?
    ensures ParseDefinition(toks, pos, defs).Ok?
    ensures var next := ParseDefinition(toks, pos, defs).value;
            pos < next.pos < |toks| && InInput(toks, next.pos) &&
            ParseDefinitions(toks, next.pos, next.value) == ParseDefinitions(toks, pos, defs)
  {
    hide ParseDefinition;
  }

  lemma MoreBlocks(b: Block, rest: seq<Block>, defs: map<string, Definition>)
    requires PrintableBlock(b) && PrintableDoc(rest) && b.name !in defs && AllDeclared(b.members, map[]).Ok?
    ensures PrintableDoc([b] + rest) && DocText([b] + rest) == BlockText(b) + DocText(rest)
    ensures AllDefined([b] + rest, defs) ==
            AllDefined(rest, defs[b.name := Definition(b.name, AllDeclared(b.members, map[]).value)])
  {
    hide PrintableBlock;
    hide BlockText;
    hide AllDeclared;
    assert ([b] + rest)[1..] == rest;
  }

  // ---- Exactly -----------------------------------------------------------------------------------

  /** The text is a layout of the document. */
  ghost predicate IsTextOf(src: string, doc: seq<Block>, gaps: seq<seq<Piece>>, tail: string) {
    PrintableDoc(doc) && IsLayout(DocText(doc), gaps, tail) && src == LaidOut(DocText(doc), gaps, tail)
  }

  lemma AcceptedIsText(src: string) returns (doc: seq<Block>, gaps: seq<seq<Piece>>, tail: string)
    requires Parse(src).Ok?
    ensures IsTextOf(src, doc, gaps, tail)
  {
    var toks := Tokens(src, 0);
    TokensAreLexed(src, 0);
    LexedIsInput(toks, 0);
    doc := DocumentIsText(toks, 0, map[]);
    DocIsWritable(doc);
    hide PrintableDoc;
    hide DocText;
    hide Writable;
    hide Tokens;
    assert toks == toks[0..];
    var text: seq<Token>;
    text, gaps, tail := LexedIsLaidOut(src, 0);
    ReadIs(src, 0, text, gaps, tail);
    hide IsLayout;
    hide LaidOut;
    assert text == (text + [END])[..|text|] == (DocText(doc) + [END])[..|text|] == DocText(doc);
    assert src[0..] == src;
  }

  /** The parser accepts a text if and only if it is a layout of some document whose names
      are declared once and whose references are all declared; and whichever document the
      text is a layout of, it gives what that document declares. */
  lemma AcceptedExactly(src: string)
    ensures Parse(src).Ok? <==> exists doc, gaps, tail :: IsTextOf(src, doc, gaps, tail) && Meaning(doc).Ok?
    ensures forall doc, gaps, tail :: IsTextOf(src, doc, gaps, tail) ==> Parse(src) == Meaning(doc)
  {
    forall doc, gaps, tail | IsTextOf(src, doc, gaps, tail) ensures Parse(src) == Meaning(doc) {
      LaidOutDocumentsParseBack(doc, gaps, tail);
    }
    hide Parse;
    hide Meaning;
    hide IsTextOf;
    if Parse(src).Ok? {
      var doc, gaps, tail := AcceptedIsText(src);
      assert Meaning(doc).Ok?;
    }
  }
}
