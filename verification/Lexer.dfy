/** Splitting schema text into tokens, byte by byte. */
module Lexers {

  datatype TokenKind = EndOfInput | Ident | Punct

  datatype Token = Token(kind: TokenKind, text: string)

  const END := Token(EndOfInput, "")
  const PUNCTUATION := "{}:|=+&-()#"

  predicate IsPunctuation(c: char) { c in PUNCTUATION }

  /** White space, letters and digits as the standard library classifies single bytes. */
  predicate IsSpace(c: char) {
    var b := c as int;
    9 <= b <= 13 || b == 32 || b == 0x85 || b == 0xA0
  }

  predicate IsLetter(c: char) {
    var b := c as int;
    'A' <= c <= 'Z' || 'a' <= c <= 'z' || b == 0xAA || b == 0xB5 || b == 0xBA ||
    (0xC0 <= b <= 0xFF && b != 0xD7 && b != 0xF7)
  }

  predicate IsIdentChar(c: char) { c == '_' || IsLetter(c) || '0' <= c <= '9' }

  predicate IsName(s: string) { s != "" && forall i :: 0 <= i < |s| ==> IsIdentChar(s[i]) }

  /** Where the name that starts at i ends. */
  function NameEnd(src: string, i: nat): (j: nat)
    requires i <= |src|
    ensures i <= j <= |src| && (forall k :: i <= k < j ==> IsIdentChar(src[k])) && (j < |src| ==> !IsIdentChar(src[j]))
    decreases |src| - i
  {
    if i == |src| || !IsIdentChar(src[i]) then i else NameEnd(src, i + 1)
  }

  /** Where the line that i is on ends. */
  function LineEnd(src: string, i: nat): (j: nat)
    requires i <= |src|
    ensures i <= j <= |src| && (forall k :: i <= k < j ==> src[k] != '\n') && (j < |src| ==> src[j] == '\n')
    decreases |src| - i
  {
    if i == |src| || src[i] == '\n' then i else LineEnd(src, i + 1)
  }

  /** What the parser may rely on: only the last token ends the input, identifiers are
      names, and anything else is one character or an arrow. */
  ghost predicate Lexed(toks: seq<Token>) {
    && toks != [] && toks[|toks| - 1] == END
    && forall i :: 0 <= i < |toks| - 1 ==> Proper(toks[i])
  }

  ghost predicate Proper(t: Token) {
    match t.kind
    case Ident => IsName(t.text)
    case Punct => |t.text| == 1 || t.text == "->"
    case EndOfInput => false
  }

  /** One step of the lexer at offset i: the token there, if any, and where it ends. */
  function Next(src: string, i: nat): (step: (seq<Token>, nat))
    requires i < |src|
    ensures i < step.1 <= |src|
  {
    if IsSpace(src[i]) then ([], i + 1)
    else if src[i] == '/' && i + 1 < |src| && src[i + 1] == '/' then ([], LineEnd(src, i))
    else if src[i] == '-' && i + 1 < |src| && src[i + 1] == '>' then ([Token(Punct, "->")], i + 2)
    else if IsPunctuation(src[i]) then ([Token(Punct, [src[i]])], i + 1)
    else if IsIdentChar(src[i]) then ([Token(Ident, src[i..NameEnd(src, i)])], NameEnd(src, i))
    else ([Token(Punct, [src[i]])], i + 1)
  }

  function Tokens(src: string, i: nat): seq<Token>
    requires i <= |src|
    decreases |src| - i
  {
    if i == |src| then [END] else Next(src, i).0 + Tokens(src, Next(src, i).1)
  }

  lemma NextIsProper(src: string, i: nat)
    requires i < |src|
    ensures |Next(src, i).0| <= 1 && forall t :: t in Next(src, i).0 ==> Proper(t)
  {
    if IsIdentChar(src[i]) {
      IdentIsNoOther(src[i]);
      hide IsIdentChar;
      var j := NameEnd(src, i);
      assert j > i;
      assert forall k :: 0 <= k < j - i ==> src[i..j][k] == src[i + k];
    }
  }

  lemma {:induction false} TokensAreLexed(src: string, i: nat)
    requires i <= |src|
    ensures Lexed(Tokens(src, i))
    decreases |src| - i
  {
    if i < |src| {
      NextIsProper(src, i);
      TokensAreLexed(src, Next(src, i).1);
      hide Next;
      hide Proper;
    }
  }

  lemma Assoc(a: seq<Token>, b: seq<Token>, c: seq<Token>)
    ensures a + (b + c) == a + b + c
  {
  }

  method Lex(src: string) returns (toks: seq<Token>)
    ensures toks == Tokens(src, 0)
  {
    hide IsSpace;
    hide IsIdentChar;
    hide IsPunctuation;
    toks := [];
    var i := 0;
    while i < |src|
      invariant i <= |src| && toks + Tokens(src, i) == Tokens(src, 0)
    {
      ghost var found, end, before := Next(src, i).0, Next(src, i).1, toks;
      var c := src[i];
      if IsSpace(c) {
        i := i + 1;
      } else if c == '/' && i + 1 < |src| && src[i + 1] == '/' {
        while i < |src| && src[i] != '\n'
          invariant i <= |src| && LineEnd(src, i) == end
        {
          i := i + 1;
        }
      } else if c == '-' && i + 1 < |src| && src[i + 1] == '>' {
        toks := toks + [Token(Punct, "->")];
        i := i + 2;
      } else if IsPunctuation(c) {
        toks := toks + [Token(Punct, [c])];
        i := i + 1;
      } else if IsIdentChar(c) {
        var j := i;
        while j < |src| && IsIdentChar(src[j])
          invariant j <= |src| && NameEnd(src, j) == end
        {
          j := j + 1;
        }
        toks := toks + [Token(Ident, src[i..j])];
        i := j;
      } else {
        toks := toks + [Token(Punct, [c])];
        i := i + 1;
      }
      assert toks == before + found;
      Assoc(before, found, Tokens(src, end));
    }
    toks := toks + [END];
  }

  // ---- Writing tokens out and reading them back ------------------------------------------

  /** Tokens a schema is written with. */
  ghost predicate Writable(t: Token) {
    match t.kind
    case Ident => IsName(t.text)
    case Punct => t.text == "->" || (|t.text| == 1 && IsPunctuation(t.text[0]))
    case EndOfInput => false
  }

  /** What may stand between tokens: a blank, or a comment up to the end of its line. */
  datatype Piece = Blank(c: char) | Comment(line: string)

  /** Space, tab, the ends of lines and pages, and the two of the upper half. */
  predicate IsBlank(c: char) {
    c == ' ' || c == '\t' || c == '\n' || c == '\r' || c as int in {0x0B, 0x0C, 0x85, 0xA0}
  }

  predicate IsPiece(p: Piece) {
    match p
    case Blank(c) => IsBlank(c)
    case Comment(line) => '\n' !in line
  }

  function PieceText(p: Piece): string {
    match p
    case Blank(c) => [c]
    case Comment(line) => "//" + line + "\n"
  }

  function GapText(gap: seq<Piece>): string {
    if gap == [] then "" else PieceText(gap[0]) + GapText(gap[1..])
  }

  /** The tokens with a gap before each and one at the end; the last line may be a
      comment that nothing ends. */
  function LaidOut(toks: seq<Token>, gaps: seq<seq<Piece>>, tail: string): string
    requires |gaps| == |toks| + 1
  {
    GapText(gaps[0]) + if toks == [] then tail else toks[0].text + LaidOut(toks[1..], gaps[1..], tail)
  }

  predicate IsTail(tail: string) {
    tail == "" || (|tail| >= 2 && tail[0] == '/' && tail[1] == '/' && '\n' !in tail)
  }

  /** Only two identifiers in a row need something between them. */
  ghost predicate IsLayout(toks: seq<Token>, gaps: seq<seq<Piece>>, tail: string) {
    && |gaps| == |toks| + 1
    && (forall i :: 0 <= i < |gaps| ==> IsGap(gaps[i]))
    && (forall i :: 0 < i < |toks| && toks[i - 1].kind == Ident && toks[i].kind == Ident ==> gaps[i] != [])
    && IsTail(tail)
  }

  ghost predicate IsGap(gap: seq<Piece>) { forall p :: p in gap ==> IsPiece(p) }

  // ---- One step at a time --------------------------------------------------------------------

  /** The text stands in the source from offset i on. */
  ghost predicate Ahead(src: string, i: nat, text: string) {
    i + |text| <= |src| && src[i..i + |text|] == text
  }

  lemma Cut(src: string, i: nat, a: string, b: string)
    requires Ahead(src, i, a + b)
    ensures Ahead(src, i, a) && Ahead(src, i + |a|, b)
  {
    var s := src[i..i + |a + b|];
    assert s[..|a|] == a && s[|a|..] == b;
    assert src[i..i + |a|] == s[..|a|] && src[i + |a|..i + |a| + |b|] == s[|a|..];
  }

  lemma CharAhead(src: string, i: nat, text: string, k: nat)
    requires Ahead(src, i, text) && k < |text|
    ensures i + k < |src| && src[i + k] == text[k]
  {
    assert src[i..i + |text|][k] == text[k];
  }

  lemma {:induction false} LineStops(src: string, i: nat, end: nat)
    requires i <= end <= |src| && (forall k :: i <= k < end ==> src[k] != '\n') && (end < |src| ==> src[end] == '\n')
    ensures LineEnd(src, i) == end
    decreases end - i
  {
    if i < end {
      LineStops(src, i + 1, end);
    }
  }

  lemma SkipBlank(src: string, i: nat, c: char)
    requires i < |src| && src[i] == c && IsPiece(Blank(c))
    ensures Tokens(src, i) == Tokens(src, i + 1)
  {
    assert Next(src, i) == ([], i + 1);
    hide Next;
  }

  lemma SkipLine(src: string, i: nat, end: nat)
    requires i + 1 < end <= |src| && src[i] == '/' && src[i + 1] == '/'
    requires (forall k :: i <= k < end ==> src[k] != '\n') && (end < |src| ==> src[end] == '\n')
    ensures Tokens(src, i) == Tokens(src, end)
  {
    LineStops(src, i, end);
    assert Next(src, i) == ([], end);
    hide Next;
  }

  lemma SkipPiece(src: string, i: nat, p: Piece)
    requires Ahead(src, i, PieceText(p)) && IsPiece(p)
    ensures Tokens(src, i) == Tokens(src, i + |PieceText(p)|)
  {
    hide Tokens;
    match p
    case Blank(c) =>
      CharAhead(src, i, PieceText(p), 0);
      SkipBlank(src, i, c);
    case Comment(line) =>
      CommentText(line);
      hide *;
      SkipComment(src, i, PieceText(p));
  }

  lemma CommentText(line: string)
    requires IsPiece(Comment(line))
    ensures var text := PieceText(Comment(line));
            var n := |text| - 1;
            n >= 2 && text[0] == '/' && text[1] == '/' && text[n] == '\n' && forall k :: 0 <= k < n ==> text[k] != '\n'
  {
  }

  lemma SkipComment(src: string, i: nat, text: string)
    requires |text| >= 3 && Ahead(src, i, text)
    requires text[0] == '/' && text[1] == '/' && text[|text| - 1] == '\n'
    requires forall k :: 0 <= k < |text| - 1 ==> text[k] != '\n'
    ensures Tokens(src, i) == Tokens(src, i + |text|)
  {
    var end := i + |text| - 1;
    assert i + |text| <= |src|;
    forall k: nat | k < |text| ensures src[i + k] == text[k] { CharAhead(src, i, text, k); }
    hide *;
    forall k | i <= k < end ensures src[k] != '\n' {
      assert src[i + (k - i)] == text[k - i];
    }
    assert src[i + 0] == '/' && src[i + (|text| - 1)] == '\n';
    SkipLine(src, i, end);
    SkipEndOfLine(src, end);
  }

  lemma SkipEndOfLine(src: string, i: nat)
    requires i < |src| && src[i] == '\n'
    ensures Tokens(src, i) == Tokens(src, i + 1)
  {
    SkipBlank(src, i, '\n');
  }

  lemma GapParts(gap: seq<Piece>)
    requires IsGap(gap)
    ensures if gap == [] then GapText(gap) == ""
            else GapText(gap) == PieceText(gap[0]) + GapText(gap[1..]) && IsPiece(gap[0]) && IsGap(gap[1..])
  {
  }

  lemma {:induction false} SkipGap(src: string, i: nat, gap: seq<Piece>)
    requires Ahead(src, i, GapText(gap)) && IsGap(gap)
    ensures Tokens(src, i) == Tokens(src, i + |GapText(gap)|)
    decreases |gap|
  {
    hide *;
    GapParts(gap);
    if gap != [] {
      Cut(src, i, PieceText(gap[0]), GapText(gap[1..]));
      SkipPiece(src, i, gap[0]);
      SkipGap(src, i + |PieceText(gap[0])|, gap[1..]);
    }
  }

  /** What follows cannot be taken for a part of the token. */
  predicate Stops(t: Token, rest: string) {
    rest == "" || (rest[0] != '>' && (t.kind == Ident ==> !IsIdentChar(rest[0])))
  }

  lemma NextName(src: string, i: nat, end: nat)
    requires i < end <= |src| && IsName(src[i..end]) && (end < |src| ==> !IsIdentChar(src[end]))
    ensures Next(src, i) == ([Token(Ident, src[i..end])], end)
  {
    assert forall k :: i <= k < end ==> src[k] == src[i..end][k - i];
    IdentIsNoOther(src[i]);
    hide IsIdentChar;
    hide IsPunctuation;
    hide IsSpace;
    NameStops(src, i, end);
  }

  lemma NextPunct(src: string, i: nat, t: Token)
    requires i + |t.text| <= |src| && Writable(t) && t.kind == Punct
    requires src[i..i + |t.text|] == t.text && (i + |t.text| < |src| ==> src[i + |t.text|] != '>')
    ensures Next(src, i) == ([t], i + |t.text|)
  {
    assert src[i] == t.text[0];
    if t.text == "->" {
      assert src[i + 1] == t.text[1];
      assert !IsSpace('-') && IsPunctuation('-');
    } else {
      PunctuationIsNoOther(src[i]);
      assert t.text == [src[i]];
    }
  }

  lemma OneToken(src: string, i: nat, t: Token, rest: string)
    requires Ahead(src, i, t.text + rest) && i + |t.text + rest| == |src| && Writable(t) && Stops(t, rest)
    ensures Tokens(src, i) == [t] + Tokens(src, i + |t.text|) && Ahead(src, i + |t.text|, rest)
  {
    hide *;
    Cut(src, i, t.text, rest);
    Following(src, i + |t.text|, t, rest);
    NextWritten(src, i, t);
    ReadOne(src, i, t, i + |t.text|);
  }

  lemma Following(src: string, end: nat, t: Token, rest: string)
    requires Ahead(src, end, rest) && end + |rest| == |src| && Stops(t, rest)
    ensures end < |src| ==> src[end] != '>' && (t.kind == Ident ==> !IsIdentChar(src[end]))
  {
    hide IsIdentChar;
    if rest != "" { CharAhead(src, end, rest, 0); }
  }

  lemma ReadOne(src: string, i: nat, t: Token, end: nat)
    requires i < end <= |src| && Next(src, i) == ([t], end)
    ensures Tokens(src, i) == [t] + Tokens(src, end)
  {
    hide Next;
  }

  lemma NextWritten(src: string, i: nat, t: Token)
    requires Ahead(src, i, t.text) && Writable(t)
    requires i + |t.text| < |src| ==> src[i + |t.text|] != '>' && (t.kind == Ident ==> !IsIdentChar(src[i + |t.text|]))
    ensures i < i + |t.text| <= |src| && Next(src, i) == ([t], i + |t.text|)
  {
    if t.kind == Ident {
      hide Next;
      hide IsIdentChar;
      NextName(src, i, i + |t.text|);
    } else {
      TokenBegins(t);
      hide Next;
      hide IsIdentChar;
      NextPunct(src, i, t);
    }
  }

  lemma {:induction false} NameStops(src: string, i: nat, end: nat)
    requires i <= end <= |src| && (forall k :: i <= k < end ==> IsIdentChar(src[k]))
    requires end < |src| ==> !IsIdentChar(src[end])
    ensures NameEnd(src, i) == end
    decreases end - i
  {
    if i < end {
      NameStops(src, i + 1, end);
    }
  }

  lemma IdentIsNoOther(c: char)
    requires IsIdentChar(c)
    ensures !IsSpace(c) && c != '/' && !IsPunctuation(c) && c != '-' && c != '>'
  {
  }

  lemma PunctuationIsNoOther(c: char)
    requires IsPunctuation(c)
    ensures !IsSpace(c) && c != '/' && !IsIdentChar(c) && c != '>'
  {
  }

  // ---- Any layout ------------------------------------------------------------------------------

  lemma BlanksStop(c: char)
    requires IsBlank(c) || c == '/'
    ensures c != '>' && !IsIdentChar(c)
  {
  }

  lemma GapBegins(gap: seq<Piece>, rest: string)
    requires gap != [] && IsGap(gap)
    ensures GapText(gap) != "" && (GapText(gap) + rest)[0] == GapText(gap)[0]
    ensures GapText(gap)[0] != '>' && !IsIdentChar(GapText(gap)[0])
  {
    assert gap[0] in gap;
    var text := PieceText(gap[0]);
    BlanksStop(text[0]);
    hide IsIdentChar;
    assert GapText(gap) == text + GapText(gap[1..]);
  }

  lemma TokenBegins(t: Token)
    requires Writable(t)
    ensures t.text != "" && t.text[0] != '>' && (t.kind == Punct ==> !IsIdentChar(t.text[0]))
  {
    if t.kind == Ident {
      IdentIsNoOther(t.text[0]);
    } else if t.text != "->" {
      PunctuationIsNoOther(t.text[0]);
    }
  }

  /** In a layout what follows the first token never runs into it. */
  lemma FirstStops(toks: seq<Token>, gaps: seq<seq<Piece>>, tail: string)
    requires toks != [] && IsLayout(toks, gaps, tail) && forall t :: t in toks ==> Writable(t)
    ensures Stops(toks[0], LaidOut(toks[1..], gaps[1..], tail))
  {
    hide Writable;
    hide IsIdentChar;
    var toks', gaps' := toks[1..], gaps[1..];
    var rest := LaidOut(toks', gaps', tail);
    var gap := gaps[1];
    assert gap == gaps'[0] && IsGap(gap);
    var more := if toks' == [] then tail else toks'[0].text + LaidOut(toks'[1..], gaps'[1..], tail);
    assert rest == GapText(gap) + more;
    if gap != [] {
      GapBegins(gap, more);
    } else if toks' != [] {
      assert rest == more;
      assert toks'[0] == toks[1] && toks[1] in toks;
      if toks[1 - 1].kind == Ident && toks[1].kind == Ident {
        assert false;
      }
      TokenBegins(toks[1]);
      assert rest[0] == toks[1].text[0];
      KindsDiffer(toks[1]);
    } else {
      assert rest == tail;
      BlanksStop('/');
    }
  }

  lemma KindsDiffer(t: Token)
    requires Writable(t)
    ensures t.kind == Ident || t.kind == Punct
  {
  }

  lemma LayoutParts(toks: seq<Token>, gaps: seq<seq<Piece>>, tail: string)
    requires IsLayout(toks, gaps, tail) && forall t :: t in toks ==> Writable(t)
    ensures |gaps| == |toks| + 1 && IsGap(gaps[0])
    ensures if toks == [] then LaidOut(toks, gaps, tail) == GapText(gaps[0]) + tail && IsTail(tail)
            else var rest := LaidOut(toks[1..], gaps[1..], tail);
                 LaidOut(toks, gaps, tail) == GapText(gaps[0]) + (toks[0].text + rest) &&
                 Writable(toks[0]) && Stops(toks[0], rest) && IsLayout(toks[1..], gaps[1..], tail) &&
                 forall t :: t in toks[1..] ==> Writable(t)
  {
    hide Writable;
    hide Stops;
    if toks != [] {
      FirstStops(toks, gaps, tail);
      LayoutGoesOn(toks, gaps, tail);
      assert toks[0] in toks;
      hide IsLayout;
    }
  }

  /** What stands between tokens does not matter: blanks, line ends and comments, or
      nothing where two neighbours are not both identifiers, the text lexes to the
      tokens it is made of. */
  lemma {:induction false} LaidOutTokensLexBack(src: string, i: nat, toks: seq<Token>, gaps: seq<seq<Piece>>, tail: string)
    requires IsLayout(toks, gaps, tail) && forall t :: t in toks ==> Writable(t)
    requires Ahead(src, i, LaidOut(toks, gaps, tail)) && i + |LaidOut(toks, gaps, tail)| == |src|
    ensures Tokens(src, i) == toks + [END]
    decreases |toks|
  {
    hide *;
    LayoutParts(toks, gaps, tail);
    var gap := GapText(gaps[0]);
    if toks == [] {
      Cut(src, i, gap, tail);
      SkipGap(src, i, gaps[0]);
      AtTail(src, i + |gap|, tail);
      assert toks + [END] == [END];
    } else {
      var rest := LaidOut(toks[1..], gaps[1..], tail);
      var mid := i + |gap|;
      Cut(src, i, gap, toks[0].text + rest);
      SkipGap(src, i, gaps[0]);
      OneToken(src, mid, toks[0], rest);
      LaidOutTokensLexBack(src, mid + |toks[0].text|, toks[1..], gaps[1..], tail);
      Assoc([toks[0]], toks[1..], [END]);
      assert [toks[0]] + toks[1..] == toks;
    }
  }

  lemma LayoutGoesOn(toks: seq<Token>, gaps: seq<seq<Piece>>, tail: string)
    requires toks != [] && IsLayout(toks, gaps, tail)
    ensures IsLayout(toks[1..], gaps[1..], tail) && IsGap(gaps[0])
  {
    hide IsGap;
  }

  lemma AtTail(src: string, i: nat, tail: string)
    requires Ahead(src, i, tail) && i + |tail| == |src|
    requires IsTail(tail)
    ensures Tokens(src, i) == [END]
  {
    hide Next;
    if tail != "" {
      forall k: nat | k < |tail| ensures src[i + k] == tail[k] { CharAhead(src, i, tail, k); }
      hide Ahead;
      forall k | i <= k < |src| ensures src[k] != '\n' { assert src[i + (k - i)] == tail[k - i]; }
      assert src[i + 0] == '/';
      SkipLine(src, i, |src|);
    }
  }

  // ---- One space after each ----------------------------------------------------------------------

  function Written(toks: seq<Token>): string {
    if toks == [] then "" else toks[0].text + " " + Written(toks[1..])
  }

  function Spaces(n: nat): seq<seq<Piece>> { seq(n, i => [Blank(' ')]) }

  lemma {:induction false} WrittenIsLaidOut(toks: seq<Token>)
    ensures LaidOut(toks, [[]] + Spaces(|toks|), "") == Written(toks)
  {
    var gaps := [[]] + Spaces(|toks|);
    assert GapText(gaps[0]) == "";
    if toks != [] {
      WrittenIsLaidOut(toks[1..]);
      SpaceFirst(toks[1..]);
      assert gaps[1..] == [[Blank(' ')]] + Spaces(|toks[1..]|);
      assert toks[0].text + (" " + Written(toks[1..])) == toks[0].text + " " + Written(toks[1..]);
    }
  }

  lemma SpaceFirst(toks: seq<Token>)
    ensures LaidOut(toks, [[Blank(' ')]] + Spaces(|toks|), "") == " " + LaidOut(toks, [[]] + Spaces(|toks|), "")
  {
    var gaps, gaps' := [[]] + Spaces(|toks|), [[Blank(' ')]] + Spaces(|toks|);
    var more := if toks == [] then "" else toks[0].text + LaidOut(toks[1..], gaps[1..], "");
    assert gaps[1..] == Spaces(|toks|) == gaps'[1..];
    hide Spaces;
    OneSpace();
    assert LaidOut(toks, gaps, "") == GapText([]) + more == more;
    assert LaidOut(toks, gaps', "") == GapText([Blank(' ')]) + more;
  }

  lemma OneSpace()
    ensures GapText([Blank(' ')]) == " " && GapText([]) == ""
  {
    var blank := [Blank(' ')];
    assert blank[1..] == [];
    assert GapText(blank) == PieceText(blank[0]) + GapText([]);
  }

  /** Writing tokens with spaces between them and lexing gives the tokens back. */
  lemma WrittenTokensLexBack(src: string, i: nat, toks: seq<Token>)
    requires Ahead(src, i, Written(toks)) && i + |Written(toks)| == |src| && forall t :: t in toks ==> Writable(t)
    ensures Tokens(src, i) == toks + [END]
  {
    WrittenIsLaidOut(toks);
    SpacesLayOut(toks);
    hide *;
    LaidOutTokensLexBack(src, i, toks, [[]] + Spaces(|toks|), "");
  }

  lemma SpacesLayOut(toks: seq<Token>)
    ensures IsLayout(toks, [[]] + Spaces(|toks|), "")
  {
  }
}
