/** Expressions as they are spelled, with whatever parentheses: the parser accepts exactly
    these, and joins their operands from the left. */
module Shapes {
  import opened Names
  import opened Schemas
  import opened Lexers
  import opened Grammar
  import opened Writers

  datatype Shape =
    | Leaf(rw: Rewrite)
    | Parens(inner: Shape)
    | And(left: Shape, right: Shape)
    | Chained(left: Shape, minus: bool, right: Shape)

  predicate IsPrimary(s: Shape)
    decreases s, 0
  {
    match s
    case Leaf(rw) => IsLeaf(rw) && Normal(rw)
    case Parens(inner) => IsExpr(inner)
    case _ => false
  }

  predicate IsConjunction(s: Shape)
    decreases s, 1
  {
    IsPrimary(s) || (s.And? && IsConjunction(s.left) && IsPrimary(s.right))
  }

  predicate IsExpr(s: Shape)
    decreases s, 2
  {
    IsConjunction(s) || (s.Chained? && IsExpr(s.left) && IsConjunction(s.right))
  }

  lemma PartsAreExpressions(s: Shape)
    requires IsExpr(s)
    ensures match s
            case Leaf(rw) => IsLeaf(rw) && Normal(rw)
            case Parens(inner) => IsExpr(inner)
            case And(left, right) => IsExpr(left) && IsExpr(right)
            case Chained(left, _, right) => IsExpr(left) && IsExpr(right)
  {
    assert IsPrimary(s) || s.And? || s.Chained?;
  }

  function Spelling(s: Shape): seq<Token> {
    match s
    case Leaf(rw) => LeafText(rw)
    case Parens(inner) => [P("(")] + (Spelling(inner) + [P(")")])
    case And(left, right) => Spelling(left) + ([P("&")] + Spelling(right))
    case Chained(left, minus, right) => Spelling(left) + ([P(if minus then "-" else "+")] + Spelling(right))
  }

  /** What it stands for: parentheses group, and an operand is joined to what is on its left. */
  function Value(s: Shape): Rewrite {
    match s
    case Leaf(rw) => rw
    case Parens(inner) => Value(inner)
    case And(left, right) => JoinIntersection(Value(left), Value(right))
    case Chained(left, minus, right) => Joined(Value(left), Op(minus, Value(right)))
  }

  // ---- What is spelled is parsed --------------------------------------------------------------

  lemma {:induction false} ParsesPrimary(toks: seq<Token>, pos: nat, s: Shape, end: nat)
    requires IsPrimary(s) && Spans(toks, pos, Spelling(s), end) && toks[end].text != "->"
    ensures InInput(toks, pos) && ParsePrimary(toks, pos) == Ok(Parsed(Value(s), end))
    decreases s, 0
  {
    match s
    case Leaf(rw) => ReadLeaf(toks, pos, rw, end);
    case Parens(inner) =>
      SplitToken(toks, pos, P("("), Spelling(inner) + [P(")")], end);
      var close := Split(toks, pos + 1, Spelling(inner), [P(")")], end);
      assert [P(")")] + [] == [P(")")];
      SplitToken(toks, close, P(")"), [], end);
      hide *;
      ParsesExpr(toks, pos + 1, inner, close);
      NoMoreOperands(toks, close, Value(inner));
      Parenthesised(toks, pos, Value(inner), close);
      ValueOfParens(inner);
  }

  lemma ValueOfParens(inner: Shape)
    ensures Value(Parens(inner)) == Value(inner)
  {
  }

  lemma {:induction false} ParsesConjunction(toks: seq<Token>, pos: nat, s: Shape, end: nat)
    requires IsConjunction(s) && Spans(toks, pos, Spelling(s), end) && toks[end].text != "->"
    ensures InInput(toks, pos) && ParseIntersection(toks, pos) == IntersectionRest(toks, end, Value(s))
    decreases s, 1
  {
    if IsPrimary(s) {
      ParsesPrimary(toks, pos, s, end);
      hide *;
      FirstConjunct(toks, pos, Value(s), end);
    } else {
      var left, right := s.left, s.right;
      assert Value(s) == JoinIntersection(Value(left), Value(right));
      var mid := Split(toks, pos, Spelling(left), [P("&")] + Spelling(right), end);
      SplitToken(toks, mid, P("&"), Spelling(right), end);
      hide *;
      ParsesConjunction(toks, pos, left, mid);
      ParsesPrimary(toks, mid + 1, right, end);
      NextConjunct(toks, mid, Value(left), Value(right), end);
    }
  }

  lemma {:induction false} ParsesExpr(toks: seq<Token>, pos: nat, s: Shape, end: nat)
    requires IsExpr(s) && Spans(toks, pos, Spelling(s), end) && Ends(toks[end])
    ensures InInput(toks, pos) && ParseExpr(toks, pos) == ExprRest(toks, end, Value(s))
    decreases s, 2
  {
    if IsConjunction(s) {
      assert toks[end].text != "->" && toks[end].text != "&";
      ParsesConjunction(toks, pos, s, end);
      hide *;
      NoMoreConjuncts(toks, end, Value(s));
      FirstOperand(toks, pos, Value(s), end);
    } else {
      var left, right, op := s.left, s.right, Op(s.minus, Value(s.right));
      assert Value(s) == Joined(Value(left), op) && Sign(op) == (if s.minus then "-" else "+");
      var mid := Split(toks, pos, Spelling(left), [P(Sign(op))] + Spelling(right), end);
      SplitToken(toks, mid, P(Sign(op)), Spelling(right), end);
      assert Ends(toks[mid]) && toks[end].text != "->" && toks[end].text != "&";
      hide *;
      ParsesExpr(toks, pos, left, mid);
      ParsesConjunction(toks, mid + 1, right, end);
      NoMoreConjuncts(toks, end, Value(right));
      NextOperand(toks, mid, Value(left), op, end);
    }
  }

  // ---- What is parsed is spelled ---------------------------------------------------------------

  ghost predicate AtLevel(s: Shape, level: Level) {
    match level
    case ExprLevel => IsExpr(s)
    case ExprLoop(_) => IsExpr(s)
    case PrimaryLevel => IsPrimary(s)
    case _ => IsConjunction(s)
  }

  /** The tokens from start up to end spell the shape, which stands for the rewrite. */
  ghost predicate Spells(toks: seq<Token>, start: nat, end: nat, s: Shape, level: Level, rw: Rewrite) {
    start <= end <= |toks| && toks[start..end] == Spelling(s) && AtLevel(s, level) && Value(s) == rw
  }

  lemma PunctIs(toks: seq<Token>, pos: nat, text: string)
    requires Lexed(toks) && pos < |toks| - 1 && toks[pos].text == text
    requires text == "+" || text == "-" || text == "&" || text == "(" || text == ")"
    ensures toks[pos] == P(text)
  {
    assert Proper(toks[pos]);
    assert !IsIdentChar(text[0]);
  }

  lemma Signs(toks: seq<Token>, pos: nat)
    requires InInput(toks, pos) && toks[pos].text != ""
    ensures pos < |toks| - 1
  {
  }

  lemma SpellsParens(toks: seq<Token>, start: nat, end: nat, s: Shape, rw: Rewrite)
    requires Spells(toks, start + 1, end, s, ExprLevel, rw) && end < |toks| && toks[start] == P("(") && toks[end] == P(")")
    ensures Spells(toks, start, end + 1, Parens(s), PrimaryLevel, rw)
  {
    assert toks[start..end + 1] == [toks[start]] + (toks[start + 1..end] + [toks[end]]);
  }

  lemma SpellsAnd(toks: seq<Token>, start: nat, mid: nat, end: nat, left: Shape, right: Shape, l: Rewrite, r: Rewrite)
    requires Spells(toks, start, mid, left, IntersectionLevel, l) && mid < |toks| && toks[mid] == P("&")
    requires Spells(toks, mid + 1, end, right, PrimaryLevel, r)
    ensures Spells(toks, start, end, And(left, right), IntersectionLevel, JoinIntersection(l, r))
  {
    assert toks[start..end] == toks[start..mid] + ([toks[mid]] + toks[mid + 1..end]);
  }

  lemma SpellsChained(toks: seq<Token>, start: nat, mid: nat, end: nat, left: Shape, minus: bool, right: Shape,
                      l: Rewrite, r: Rewrite)
    requires Spells(toks, start, mid, left, ExprLevel, l) && mid < |toks|
    requires toks[mid] == P(if minus then "-" else "+") && Spells(toks, mid + 1, end, right, IntersectionLevel, r)
    ensures Spells(toks, start, end, Chained(left, minus, right), ExprLevel, Joined(l, Op(minus, r)))
  {
    assert toks[start..end] == toks[start..mid] + ([toks[mid]] + toks[mid + 1..end]);
  }

  lemma SpellsLeaf(toks: seq<Token>, pos: nat)
    requires Lexed(toks) && InInput(toks, pos) && toks[pos].text != "(" && ParsePrimary(toks, pos).Ok?
    ensures var r := ParsePrimary(toks, pos).value; Spells(toks, pos, r.pos, Leaf(r.value), PrimaryLevel, r.value)
  {
    var r := ParsePrimary(toks, pos).value;
    LeafIsNormal(r.value, toks, pos);
    hide Normal;
    if r.value.TupleToUserset? {
      assert Proper(toks[pos + 1]);
      ArrowIsPunct(toks[pos + 1]);
      assert toks[pos..pos + 3] == [toks[pos], toks[pos + 1], toks[pos + 2]];
    } else {
      assert toks[pos..pos + 1] == [toks[pos]];
    }
  }

  lemma ArrowIsPunct(t: Token)
    requires Proper(t) && t.text == "->"
    ensures t == P("->")
  {
    assert !IsIdentChar(t.text[0]);
  }

  /** Any successful parse, of any of the parser's functions, has read the spelling of what
      it returns; a loop has its left operand already spelled. */
  lemma {:induction false} ParsedIsSpelled(toks: seq<Token>, start: nat, pos: nat, level: Level, left: Shape)
    returns (s: Shape)
    requires Lexed(toks) && InInput(toks, pos) && ParseAt(toks, pos, level).Ok?
    requires if level.ExprLoop? || level.IntersectionLoop? then Spells(toks, start, pos, left, level, level.left)
             else start == pos
    ensures var r := ParseAt(toks, pos, level).value; Spells(toks, start, r.pos, s, level, r.value)
    decreases |toks| - pos, Rank(level)
  {
    hide Spells;
    hide Lexed;
    match level
    case ExprLevel =>
      var first := ParsedIsSpelled(toks, pos, pos, IntersectionLevel, left);
      var l := ParseIntersection(toks, pos).value;
      Rises(toks, pos, l.pos, first, l.value);
      s := ParsedIsSpelled(toks, pos, l.pos, ExprLoop(l.value), first);
      var r := ExprRest(toks, l.pos, l.value).value;
      SameLevels(toks, pos, r.pos, s, l.value, r.value);
    case ExprLoop(l) =>
      if toks[pos].text == "+" || toks[pos].text == "-" {
        PunctIs(toks, pos, toks[pos].text);
        var right := ParsedIsSpelled(toks, pos + 1, pos + 1, IntersectionLevel, left);
        var r := ParseIntersection(toks, pos + 1).value;
        var minus := toks[pos].text == "-";
        SameLevels(toks, start, pos, left, l, l);
        SpellsChained(toks, start, pos, r.pos, left, minus, right, l, r.value);
        var more, joined := Chained(left, minus, right), Joined(l, Op(minus, r.value));
        SameLevels(toks, start, r.pos, more, joined, joined);
        s := ParsedIsSpelled(toks, start, r.pos, ExprLoop(joined), more);
        var all := ExprRest(toks, r.pos, joined).value;
        SameLevels(toks, start, all.pos, s, joined, all.value);
        SameLevels(toks, start, all.pos, s, l, all.value);
      } else {
        s := left;
      }
    case IntersectionLevel =>
      var first := ParsedIsSpelled(toks, pos, pos, PrimaryLevel, left);
      var l := ParsePrimary(toks, pos).value;
      Rises(toks, pos, l.pos, first, l.value);
      s := ParsedIsSpelled(toks, pos, l.pos, IntersectionLoop(l.value), first);
      var r := IntersectionRest(toks, l.pos, l.value).value;
      SameLevels(toks, pos, r.pos, s, l.value, r.value);
    case IntersectionLoop(l) =>
      if toks[pos].text == "&" {
        PunctIs(toks, pos, "&");
        var right := ParsedIsSpelled(toks, pos + 1, pos + 1, PrimaryLevel, left);
        var r := ParsePrimary(toks, pos + 1).value;
        SameLevels(toks, start, pos, left, l, l);
        SpellsAnd(toks, start, pos, r.pos, left, right, l, r.value);
        var more, joined := And(left, right), JoinIntersection(l, r.value);
        SameLevels(toks, start, r.pos, more, joined, joined);
        s := ParsedIsSpelled(toks, start, r.pos, IntersectionLoop(joined), more);
        var all := IntersectionRest(toks, r.pos, joined).value;
        SameLevels(toks, start, all.pos, s, joined, all.value);
        SameLevels(toks, start, all.pos, s, l, all.value);
      } else {
        s := left;
      }
    case PrimaryLevel =>
      if toks[pos].text == "(" {
        PunctIs(toks, pos, "(");
        var inner := ParsedIsSpelled(toks, pos + 1, pos + 1, ExprLevel, left);
        var r := ParseExpr(toks, pos + 1).value;
        PunctIs(toks, r.pos, ")");
        SpellsParens(toks, pos, r.pos, inner, r.value);
        s := Parens(inner);
      } else {
        SpellsLeaf(toks, pos);
        s := Leaf(ParsePrimary(toks, pos).value.value);
      }
  }

  /** A tighter shape is also a looser one. */
  lemma Rises(toks: seq<Token>, start: nat, end: nat, s: Shape, rw: Rewrite)
    ensures Spells(toks, start, end, s, PrimaryLevel, rw) ==> Spells(toks, start, end, s, IntersectionLoop(rw), rw)
    ensures Spells(toks, start, end, s, IntersectionLevel, rw) ==> Spells(toks, start, end, s, ExprLoop(rw), rw)
  {
  }

  /** Inside a loop the level is that of what it extends. */
  lemma SameLevels(toks: seq<Token>, start: nat, end: nat, s: Shape, l: Rewrite, rw: Rewrite)
    ensures Spells(toks, start, end, s, ExprLoop(l), rw) <==> Spells(toks, start, end, s, ExprLevel, rw)
    ensures Spells(toks, start, end, s, IntersectionLoop(l), rw) <==> Spells(toks, start, end, s, IntersectionLevel, rw)
  {
  }

  /** An expression is accepted if and only if its tokens are the spelling of some shape,
      and then it is what the shape stands for. */
  lemma AcceptedExpressions(toks: seq<Token>, rw: Rewrite)
    requires Lexed(toks)
    ensures InInput(toks, 0) &&
            (ParseExpr(toks, 0) == Ok(Parsed(rw, |toks| - 1)) <==>
             exists s :: IsExpr(s) && toks == Spelling(s) + [END] && Value(s) == rw)
  {
    var end := |toks| - 1;
    hide Spelling;
    hide Value;
    hide IsExpr;
    if ParseExpr(toks, 0) == Ok(Parsed(rw, end)) {
      var s := ParsedIsSpelled(toks, 0, 0, ExprLevel, Leaf(This));
      assert toks == toks[0..end] + [toks[end]];
      assert IsExpr(s);
    }
    if s :| IsExpr(s) && toks == Spelling(s) + [END] && Value(s) == rw {
      assert toks[0..end] == Spelling(s);
      ParsesExpr(toks, 0, s, end);
      NoMoreOperands(toks, end, rw);
    }
  }
}
