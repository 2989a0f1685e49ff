/** Writing rewrites with the fewest parentheses, and parsing them back. */
module Writers {
  import opened Names
  import opened Schemas
  import opened Lexers
  import opened Grammar

  function P(text: string): Token { Token(Punct, text) }

  function Id(text: string): Token { Token(Ident, text) }

  predicate IsLeaf(rw: Rewrite) { rw.ComputedUserset? || rw.TupleToUserset? }

  function LeafText(rw: Rewrite): seq<Token> {
    match rw
    case ComputedUserset(r) => [Id(r)]
    case TupleToUserset(ts, cu) => [Id(ts), P("->"), Id(cu)]
    case _ => []
  }

  /** As a whole expression. */
  function ExprText(rw: Rewrite): seq<Token>
    decreases Weight(rw), 0
  {
    match rw
    case Union(cs) =>
      if cs == [] then [] else
      assert WeightAll(cs) == 2 + Weight(cs[0]) + WeightAll(cs[1..]);
      ExprText(cs[0]) + Operands("+", cs[1..])
    case Exclusion(b, s) => ExprText(b) + ([P("-")] + OperandText(s))
    case Intersection(cs) =>
      if cs == [] then [] else
      assert WeightAll(cs) == 2 + Weight(cs[0]) + WeightAll(cs[1..]);
      PrimaryText(cs[0]) + Operands("&", cs[1..])
    case _ => LeafText(rw)
  }

  /** As an operand of `+` or `-`. */
  function OperandText(rw: Rewrite): seq<Token>
    decreases Weight(rw), 2
  {
    if rw.Union? || rw.Exclusion? then InParentheses(rw) else ExprText(rw)
  }

  /** As an operand of `&`. */
  function PrimaryText(rw: Rewrite): seq<Token>
    decreases Weight(rw), 2
  {
    if IsLeaf(rw) then LeafText(rw) else InParentheses(rw)
  }

  function InParentheses(rw: Rewrite): seq<Token>
    decreases Weight(rw), 1
  {
    [P("(")] + (ExprText(rw) + [P(")")])
  }

  function Operands(op: string, rws: seq<Rewrite>): seq<Token>
    decreases WeightAll(rws), 0
  {
    if rws == [] then [] else
    [P(op)] + ((if op == "&" then PrimaryText(rws[0]) else OperandText(rws[0])) + Operands(op, rws[1..]))
  }

  // ---- Where a text stands among the tokens ------------------------------------------------

  /** The text stands from pos up to end, and something follows it. */
  ghost predicate Spans(toks: seq<Token>, pos: nat, text: seq<Token>, end: nat) {
    InInput(toks, end) && end == pos + |text| && toks[pos..end] == text
  }

  lemma Split(toks: seq<Token>, pos: nat, a: seq<Token>, b: seq<Token>, end: nat) returns (mid: nat)
    requires Spans(toks, pos, a + b, end)
    ensures Spans(toks, pos, a, mid) && Spans(toks, mid, b, end) && mid == pos + |a|
    ensures InInput(toks, pos) && InInput(toks, mid) && InInput(toks, end)
  {
    mid := pos + |a|;
    var s := toks[pos..end];
    assert s[..|a|] == a && s[|a|..] == b;
    assert toks[pos..mid] == s[..|a|] && toks[mid..end] == s[|a|..];
  }

  lemma SplitToken(toks: seq<Token>, pos: nat, t: Token, b: seq<Token>, end: nat)
    requires Spans(toks, pos, [t] + b, end)
    ensures InInput(toks, pos) && InInput(toks, pos + 1) && toks[pos] == t && Spans(toks, pos + 1, b, end)
  {
    var mid := Split(toks, pos, [t], b, end);
    assert toks[pos] == toks[pos..mid][0];
  }

  /** A list of operands is either over or goes on with its operator. */
  lemma OperandsGoOn(toks: seq<Token>, pos: nat, op: string, rws: seq<Rewrite>, end: nat)
    requires Spans(toks, pos, Operands(op, rws), end)
    ensures if rws == [] then pos == end else InInput(toks, pos) && toks[pos] == P(op)
  {
    if rws != [] {
      var text := if op == "&" then PrimaryText(rws[0]) else OperandText(rws[0]);
      SplitToken(toks, pos, P(op), text + Operands(op, rws[1..]), end);
    }
  }

  // ---- Reading leaves and operators ---------------------------------------------------------

  /** The token after a whole operand belongs to neither a tighter operator nor a walk. */
  predicate Ends(t: Token) { t.text != "&" && t.text != "->" }

  lemma NameIsNoParenthesis(s: string)
    requires IsName(s)
    ensures s != "("
  {
    assert s == "(" ==> IsIdentChar(s[0]);
  }

  lemma ReadLeaf(toks: seq<Token>, pos: nat, rw: Rewrite, end: nat)
    requires Normal(rw) && IsLeaf(rw) && Spans(toks, pos, LeafText(rw), end) && toks[end].text != "->"
    ensures InInput(toks, pos) && ParsePrimary(toks, pos) == Ok(Parsed(rw, end))
  {
    var text := LeafText(rw);
    assert forall i :: 0 <= i < |text| ==> toks[pos + i] == toks[pos..end][i];
    NameIsNoParenthesis(text[0].text);
  }

  lemma Parenthesised(toks: seq<Token>, pos: nat, rw: Rewrite, close: nat)
    requires InInput(toks, pos) && InInput(toks, pos + 1) && InInput(toks, close + 1)
    requires toks[pos] == P("(") && ParseExpr(toks, pos + 1) == Ok(Parsed(rw, close)) && toks[close] == P(")")
    ensures ParsePrimary(toks, pos) == Ok(Parsed(rw, close + 1))
  {
  }

  lemma FirstConjunct(toks: seq<Token>, pos: nat, rw: Rewrite, next: nat)
    requires InInput(toks, pos) && InInput(toks, next) && ParsePrimary(toks, pos) == Ok(Parsed(rw, next))
    ensures ParseIntersection(toks, pos) == IntersectionRest(toks, next, rw)
  {
  }

  lemma NextConjunct(toks: seq<Token>, pos: nat, left: Rewrite, rw: Rewrite, next: nat)
    requires InInput(toks, pos) && InInput(toks, pos + 1) && InInput(toks, next) && toks[pos] == P("&")
    requires ParsePrimary(toks, pos + 1) == Ok(Parsed(rw, next))
    ensures IntersectionRest(toks, pos, left) == IntersectionRest(toks, next, JoinIntersection(left, rw))
  {
  }

  lemma NoMoreConjuncts(toks: seq<Token>, pos: nat, left: Rewrite)
    requires InInput(toks, pos) && toks[pos].text != "&"
    ensures IntersectionRest(toks, pos, left) == Ok(Parsed(left, pos))
  {
  }

  lemma FirstOperand(toks: seq<Token>, pos: nat, rw: Rewrite, next: nat)
    requires InInput(toks, pos) && InInput(toks, next) && ParseIntersection(toks, pos) == Ok(Parsed(rw, next))
    ensures ParseExpr(toks, pos) == ExprRest(toks, next, rw)
  {
  }

  lemma NextOperand(toks: seq<Token>, pos: nat, left: Rewrite, op: Op, next: nat)
    requires InInput(toks, pos) && InInput(toks, pos + 1) && InInput(toks, next) && toks[pos] == P(Sign(op))
    requires ParseIntersection(toks, pos + 1) == Ok(Parsed(op.operand, next))
    ensures ExprRest(toks, pos, left) == ExprRest(toks, next, Joined(left, op))
  {
  }

  lemma NoMoreOperands(toks: seq<Token>, pos: nat, left: Rewrite)
    requires InInput(toks, pos) && toks[pos].text != "+" && toks[pos].text != "-"
    ensures ExprRest(toks, pos, left) == Ok(Parsed(left, pos))
  {
  }

  // ---- Chains of operands --------------------------------------------------------------------

  function Sign(op: Op): string { if op.minus then "-" else "+" }

  function ChainText(ops: seq<Op>): seq<Token> {
    if ops == [] then [] else [P(Sign(ops[0]))] + (OperandText(ops[0].operand) + ChainText(ops[1..]))
  }

  ghost predicate NormalOps(ops: seq<Op>, w: nat) {
    forall i :: 0 <= i < |ops| ==> Normal(ops[i].operand) && Weight(ops[i].operand) < w
  }

  lemma ChainGoesOn(toks: seq<Token>, pos: nat, ops: seq<Op>, end: nat)
    requires Spans(toks, pos, ChainText(ops), end)
    ensures if ops == [] then pos == end else InInput(toks, pos) && toks[pos] == P(Sign(ops[0]))
  {
    if ops != [] {
      SplitToken(toks, pos, P(Sign(ops[0])), OperandText(ops[0].operand) + ChainText(ops[1..]), end);
    }
  }

  function Pluses(rws: seq<Rewrite>): seq<Op> {
    if rws == [] then [] else [Op(false, rws[0])] + Pluses(rws[1..])
  }

  lemma {:induction false} PlusesAreWritten(rws: seq<Rewrite>, w: nat)
    requires NormalAll(rws) && WeightAll(rws) <= w
    ensures ChainText(Pluses(rws)) == Operands("+", rws) && NormalOps(Pluses(rws), w)
  {
    if rws != [] {
      hide Normal;
      var ops := Pluses(rws);
      assert ops[1..] == Pluses(rws[1..]);
      PlusesAreWritten(rws[1..], w);
      forall i | 0 <= i < |ops| ensures Normal(ops[i].operand) && Weight(ops[i].operand) < w {
        if i > 0 { assert ops[i] == ops[1..][i - 1]; }
      }
    }
  }

  lemma {:induction false} PlusesFold(done: seq<Rewrite>, rws: seq<Rewrite>)
    requires |done| >= 2
    ensures Chain(Union(done), Pluses(rws)) == Union(done + rws)
    decreases |rws|
  {
    if rws == [] {
      assert done + rws == done;
    } else {
      var more, ops := done + [rws[0]], Pluses(rws);
      assert ops[0] == Op(false, rws[0]) && ops[1..] == Pluses(rws[1..]);
      assert Joined(Union(done), ops[0]) == Union(more);
      hide Pluses;
      PlusesFold(more, rws[1..]);
      assert more + rws[1..] == done + rws;
    }
  }

  lemma PlusesMakeTheUnion(cs: seq<Rewrite>)
    requires |cs| >= 2 && !cs[0].Union?
    ensures Chain(cs[0], Pluses(cs[1..])) == Union(cs)
  {
    var rest := cs[1..];
    assert Pluses(rest)[1..] == Pluses(rest[1..]);
    PlusesFold([cs[0], cs[1]], rest[1..]);
    assert [cs[0], cs[1]] + rest[1..] == cs;
  }

  // ---- Reading expressions --------------------------------------------------------------------

  lemma {:induction false} ReadParentheses(toks: seq<Token>, pos: nat, rw: Rewrite, end: nat)
    requires Normal(rw) && Spans(toks, pos, InParentheses(rw), end)
    ensures InInput(toks, pos) && ParsePrimary(toks, pos) == Ok(Parsed(rw, end))
    decreases Weight(rw), 3
  {
    var text, last := ExprText(rw), P(")");
    SplitToken(toks, pos, P("("), text + [last], end);
    var close := Split(toks, pos + 1, text, [last], end);
    assert [last] + [] == [last];
    SplitToken(toks, close, last, [], end);
    hide *;
    ReadExpr(toks, pos + 1, rw, close);
    NoMoreOperands(toks, close, rw);
    Parenthesised(toks, pos, rw, close);
  }

  lemma {:induction false} ReadPrimary(toks: seq<Token>, pos: nat, rw: Rewrite, end: nat)
    requires Normal(rw) && Spans(toks, pos, PrimaryText(rw), end) && toks[end].text != "->"
    ensures InInput(toks, pos) && ParsePrimary(toks, pos) == Ok(Parsed(rw, end))
    decreases Weight(rw), 4
  {
    if IsLeaf(rw) {
      ReadLeaf(toks, pos, rw, end);
    } else {
      ReadParentheses(toks, pos, rw, end);
    }
  }

  lemma {:induction false} ReadOperand(toks: seq<Token>, pos: nat, rw: Rewrite, end: nat)
    requires Normal(rw) && Spans(toks, pos, OperandText(rw), end) && Ends(toks[end])
    ensures InInput(toks, pos) && ParseIntersection(toks, pos) == Ok(Parsed(rw, end))
    decreases Weight(rw), 4
  {
    if rw.Intersection? {
      ReadIntersection(toks, pos, rw, end);
    } else {
      if IsLeaf(rw) {
        ReadLeaf(toks, pos, rw, end);
      } else {
        ReadParentheses(toks, pos, rw, end);
      }
      hide *;
      FirstConjunct(toks, pos, rw, end);
      NoMoreConjuncts(toks, end, rw);
    }
  }

  lemma {:induction false} ReadIntersection(toks: seq<Token>, pos: nat, rw: Rewrite, end: nat)
    requires Normal(rw) && rw.Intersection? && Spans(toks, pos, ExprText(rw), end) && Ends(toks[end])
    ensures InInput(toks, pos) && ParseIntersection(toks, pos) == Ok(Parsed(rw, end))
    decreases Weight(rw), 1
  {
    var cs := rw.children;
    var first, rest := cs[0], cs[1..];
    assert [first] + rest == cs;
    assert WeightAll(cs) == 2 + Weight(first) + WeightAll(rest) && Weight(rw) == 1 + WeightAll(cs);
    assert NormalAll(rest) && Normal(first);
    var mid := Split(toks, pos, PrimaryText(first), Operands("&", rest), end);
    OperandsGoOn(toks, mid, "&", rest, end);
    hide *;
    ReadPrimary(toks, pos, first, mid);
    FirstConjunct(toks, pos, first, mid);
    ReadConjuncts(toks, mid, [first], rest, end);
  }

  function Conjunction(rws: seq<Rewrite>): Rewrite
    requires rws != []
  {
    if |rws| == 1 then rws[0] else Intersection(rws)
  }

  lemma {:induction false} ReadConjuncts(toks: seq<Token>, pos: nat, done: seq<Rewrite>, rws: seq<Rewrite>, end: nat)
    requires done != [] && (|done| == 1 ==> !done[0].Intersection?) && NormalAll(rws)
    requires Spans(toks, pos, Operands("&", rws), end) && Ends(toks[end])
    ensures InInput(toks, pos) && IntersectionRest(toks, pos, Conjunction(done)) ==
                                  Ok(Parsed(Conjunction(done + rws), end))
    decreases WeightAll(rws), 0
  {
    if rws == [] {
      assert done + rws == done;
      NoMoreConjuncts(toks, pos, Conjunction(done));
    } else {
      var first, rest, more := rws[0], rws[1..], done + [rws[0]];
      assert more + rest == done + rws;
      assert JoinIntersection(Conjunction(done), first) == Conjunction(more);
      SplitToken(toks, pos, P("&"), PrimaryText(first) + Operands("&", rest), end);
      var next := Split(toks, pos + 1, PrimaryText(first), Operands("&", rest), end);
      OperandsGoOn(toks, next, "&", rest, end);
      hide *;
      ReadPrimary(toks, pos + 1, first, next);
      NextConjunct(toks, pos, Conjunction(done), first, next);
      ReadConjuncts(toks, next, more, rest, end);
    }
  }

  /** Operands as written are parsed one by one and joined from the left. */
  lemma {:induction false} ReadChain(toks: seq<Token>, pos: nat, left: Rewrite, ops: seq<Op>, w: nat, end: nat)
    requires NormalOps(ops, w) && Spans(toks, pos, ChainText(ops), end) && Ends(toks[end])
    ensures InInput(toks, pos) && ExprRest(toks, pos, left) == ExprRest(toks, end, Chain(left, ops))
    decreases w, 0, |ops|
  {
    if ops == [] {
      assert ChainText(ops) == [];
    } else {
      var op, rest := ops[0], ops[1..];
      var text := OperandText(op.operand);
      SplitToken(toks, pos, P(Sign(op)), text + ChainText(rest), end);
      var next := Split(toks, pos + 1, text, ChainText(rest), end);
      ChainGoesOn(toks, next, rest, end);
      assert Normal(op.operand) && Weight(op.operand) < w;
      assert NormalOps(rest, w);
      hide *;
      ReadOperand(toks, pos + 1, op.operand, next);
      NextOperand(toks, pos, left, op, next);
      ReadChain(toks, next, Joined(left, op), rest, w, end);
    }
  }

  /** Parsing a written expression comes to the loop over what follows it, with
      exactly that expression built. */
  lemma {:induction false} ReadExpr(toks: seq<Token>, pos: nat, rw: Rewrite, end: nat)
    requires Normal(rw) && Spans(toks, pos, ExprText(rw), end) && Ends(toks[end])
    ensures InInput(toks, pos) && ParseExpr(toks, pos) == ExprRest(toks, end, rw)
    decreases Weight(rw), 2
  {
    if rw.Union? {
      ReadUnion(toks, pos, rw, end);
    } else if rw.Exclusion? {
      ReadExclusion(toks, pos, rw, end);
    } else {
      if rw.Intersection? {
        ReadIntersection(toks, pos, rw, end);
      } else {
        ReadLeaf(toks, pos, rw, end);
        FirstConjunct(toks, pos, rw, end);
        NoMoreConjuncts(toks, end, rw);
      }
      hide *;
      FirstOperand(toks, pos, rw, end);
    }
  }

  lemma {:induction false} ReadUnion(toks: seq<Token>, pos: nat, rw: Rewrite, end: nat)
    requires Normal(rw) && rw.Union? && Spans(toks, pos, ExprText(rw), end) && Ends(toks[end])
    ensures InInput(toks, pos) && ParseExpr(toks, pos) == ExprRest(toks, end, rw)
    decreases Weight(rw), 1
  {
    var cs := rw.children;
    var first, rest := cs[0], cs[1..];
    assert WeightAll(cs) == 2 + Weight(first) + WeightAll(rest) && Weight(rw) == 1 + WeightAll(cs);
    assert NormalAll(rest) && Normal(first);
    var mid := Split(toks, pos, ExprText(first), Operands("+", rest), end);
    OperandsGoOn(toks, mid, "+", rest, end);
    hide *;
    ReadExpr(toks, pos, first, mid);
    PlusesAreWritten(rest, WeightAll(rest));
    PlusesMakeTheUnion(cs);
    ReadChain(toks, mid, first, Pluses(rest), WeightAll(rest), end);
  }

  lemma {:induction false} ReadExclusion(toks: seq<Token>, pos: nat, rw: Rewrite, end: nat)
    requires Normal(rw) && rw.Exclusion? && Spans(toks, pos, ExprText(rw), end) && Ends(toks[end])
    ensures InInput(toks, pos) && ParseExpr(toks, pos) == ExprRest(toks, end, rw)
    decreases Weight(rw), 1
  {
    var text, op := OperandText(rw.subtract), Op(true, rw.subtract);
    var mid := Split(toks, pos, ExprText(rw.base), [P("-")] + text, end);
    SplitToken(toks, mid, P("-"), text, end);
    assert Joined(rw.base, op) == rw && Sign(op) == "-";
    hide *;
    ReadExpr(toks, pos, rw.base, mid);
    ReadOperand(toks, mid + 1, rw.subtract, end);
    NextOperand(toks, mid, rw.base, op, end);
  }

  // ---- Nothing shorter parses to it -----------------------------------------------------------

  lemma {:induction false} OperandsAppend(op: string, rws: seq<Rewrite>, rw: Rewrite)
    ensures |Operands(op, rws + [rw])| ==
            |Operands(op, rws)| + 1 + if op == "&" then |PrimaryText(rw)| else |OperandText(rw)|
    decreases |rws|
  {
    hide PrimaryText;
    hide OperandText;
    if rws == [] {
      assert rws + [rw] == [rw] && [rw][1..] == [];
      assert Operands(op, []) == [];
    } else {
      assert (rws + [rw])[1..] == rws[1..] + [rw] && (rws + [rw])[0] == rws[0];
      OperandsAppend(op, rws[1..], rw);
    }
  }

  lemma JoinedTextFits(left: Rewrite, op: Op)
    ensures |ExprText(Joined(left, op))| <= |ExprText(left)| + 1 + |OperandText(op.operand)|
  {
    if !op.minus {
      var cs := if left.Union? then left.children else [left];
      var all := cs + [op.operand];
      assert Joined(left, op) == Union(all);
      if cs == [] {
        assert all == [op.operand] && all[1..] == [];
        OperandsAppend("+", [], op.operand);
      } else {
        assert all[0] == cs[0] && all[1..] == cs[1..] + [op.operand];
        OperandsAppend("+", cs[1..], op.operand);
        if !left.Union? { assert cs[1..] == []; }
      }
    }
  }

  /** The length of what is left of an operand of `&`: a chain goes on, anything else
      becomes its first operand. */
  function ChainLength(left: Rewrite): nat { if left.Intersection? then |ExprText(left)| else |PrimaryText(left)| }

  lemma ConjoinedTextFits(left: Rewrite, right: Rewrite)
    ensures ChainLength(JoinIntersection(left, right)) <= ChainLength(left) + 1 + |PrimaryText(right)|
  {
    var cs := if left.Intersection? then left.children else [left];
    var all := cs + [right];
    assert JoinIntersection(left, right) == Intersection(all);
    if cs == [] {
      assert all == [right] && all[1..] == [];
      assert |Operands("&", [])| == 0;
    } else {
      assert all[0] == cs[0] && all[1..] == cs[1..] + [right];
      OperandsAppend("&", cs[1..], right);
      if !left.Intersection? { assert cs[1..] == []; }
    }
  }

  /** How long the writing is of what a function of the parser returns. */
  function WrittenLength(level: Level, rw: Rewrite): nat {
    match level
    case PrimaryLevel => |PrimaryText(rw)|
    case IntersectionLevel => |OperandText(rw)|
    case IntersectionLoop(_) => |OperandText(rw)|
    case _ => |ExprText(rw)|
  }

  /** What is parsed is never shorter than its writing; `spent` tokens went into the left
      operand of a loop. */
  lemma {:induction false} ParsedTextFits(toks: seq<Token>, pos: nat, level: Level, spent: nat)
    requires InInput(toks, pos) && ParseAt(toks, pos, level).Ok?
    requires level.ExprLoop? ==> |ExprText(level.left)| <= spent
    requires level.IntersectionLoop? ==> ChainLength(level.left) <= spent
    ensures var r := ParseAt(toks, pos, level).value;
            WrittenLength(level, r.value) <= spent + r.pos - pos
    decreases |toks| - pos, Rank(level)
  {
    hide ExprText;
    hide OperandText;
    hide PrimaryText;
    match level
    case ExprLevel =>
      ParsedTextFits(toks, pos, IntersectionLevel, 0);
      var left := ParseIntersection(toks, pos).value;
      TextsNest(left.value);
      ParsedTextFits(toks, left.pos, ExprLoop(left.value), left.pos - pos);
    case ExprLoop(left) =>
      if toks[pos].text == "+" || toks[pos].text == "-" {
        ParsedTextFits(toks, pos + 1, IntersectionLevel, 0);
        var right := ParseIntersection(toks, pos + 1).value;
        var op := Op(toks[pos].text == "-", right.value);
        JoinedTextFits(left, op);
        hide ParseIntersection;
        ParsedTextFits(toks, right.pos, ExprLoop(Joined(left, op)), spent + right.pos - pos);
      }
    case IntersectionLevel =>
      ParsedTextFits(toks, pos, PrimaryLevel, 0);
      var left := ParsePrimary(toks, pos).value;
      TextsNest(left.value);
      ParsedTextFits(toks, left.pos, IntersectionLoop(left.value), left.pos - pos);
    case IntersectionLoop(left) =>
      if toks[pos].text == "&" {
        ParsedTextFits(toks, pos + 1, PrimaryLevel, 0);
        var right := ParsePrimary(toks, pos + 1).value;
        ConjoinedTextFits(left, right.value);
        hide ParsePrimary;
        ParsedTextFits(toks, right.pos, IntersectionLoop(JoinIntersection(left, right.value)), spent + right.pos - pos);
      } else {
        TextsNest(left);
      }
    case PrimaryLevel =>
      if toks[pos].text == "(" {
        ParsedTextFits(toks, pos + 1, ExprLevel, 0);
        TextsNest(ParseExpr(toks, pos + 1).value.value);
      } else {
        LeafTextFits(ParsePrimary(toks, pos).value.value);
      }
  }

  lemma TextsNest(rw: Rewrite)
    ensures |ExprText(rw)| <= |OperandText(rw)| <= ChainLength(rw) <= |PrimaryText(rw)| <= |ExprText(rw)| + 2
  {
  }

  lemma LeafTextFits(rw: Rewrite)
    ensures rw.ComputedUserset? ==> |PrimaryText(rw)| == 1
    ensures rw.TupleToUserset? ==> |PrimaryText(rw)| == 3
  {
  }

  /** No text parses to a rewrite in fewer tokens than it is written with, so none has
      fewer parentheses. */
  lemma WritingIsShortest(toks: seq<Token>, rw: Rewrite)
    requires InInput(toks, 0) && ParseExpr(toks, 0) == Ok(Parsed(rw, |toks| - 1))
    ensures |ExprText(rw)| <= |toks| - 1
  {
    ParsedTextFits(toks, 0, ExprLevel, 0);
  }
}
