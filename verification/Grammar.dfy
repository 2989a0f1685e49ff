/** The rewrite expressions of the schema language: what the recursive-descent
    parser computes, how a rewrite is written, and that the two are inverse.

    `+` and `-` bind loosest and associate left, `&` binds tighter, and chains
    of `+` or `&` are flattened into the node on their left. */
module Grammar {
  import opened Names
  import opened Schemas
  import opened Lexers

  datatype ParseError =
    | Expected(text: string)
    | ExpectedName
    | ExpectedMember
    | DeclaredTwice
    | NeverClosed
    | UndefinedReference

  /** Where a parse got to, and with what. */
  datatype Parsed<T> = Parsed(value: T, pos: nat)

  /** Joining one more operand on the right with `+` or `&`. */
  function JoinUnion(left: Rewrite, right: Rewrite): Rewrite {
    if left.Union? then Union(left.children + [right]) else Union([left, right])
  }

  function JoinIntersection(left: Rewrite, right: Rewrite): Rewrite {
    if left.Intersection? then Intersection(left.children + [right]) else Intersection([left, right])
  }

  /** One more operand of an expression, and the sign before it. */
  datatype Op = Op(minus: bool, operand: Rewrite)

  function Joined(left: Rewrite, op: Op): Rewrite {
    if op.minus then Exclusion(left, op.operand) else JoinUnion(left, op.operand)
  }

  /** What a list of operands builds, joined one by one from the left. */
  function Chain(left: Rewrite, ops: seq<Op>): Rewrite
    decreases |ops|
  {
    if ops == [] then left else Chain(Joined(left, ops[0]), ops[1..])
  }

  /** A position of the token list; the end token is never passed. */
  predicate InInput(toks: seq<Token>, pos: nat) { pos < |toks| && toks[|toks| - 1] == END }

  function ParseExpr(toks: seq<Token>, pos: nat): (r: Result<Parsed<Rewrite>, ParseError>)
    requires InInput(toks, pos)
    ensures r.Ok? ==> pos < r.value.pos && InInput(toks, r.value.pos)
    decreases |toks| - pos, 3
  {
    match ParseIntersection(toks, pos)
    case Err(e) => Err(e)
    case Ok(left) => ExprRest(toks, left.pos, left.value)
  }

  /** The loop over `+` and `-`, with `left` built so far. */
  function ExprRest(toks: seq<Token>, pos: nat, left: Rewrite): (r: Result<Parsed<Rewrite>, ParseError>)
    requires InInput(toks, pos)
    ensures r.Ok? ==> pos <= r.value.pos && InInput(toks, r.value.pos)
    decreases |toks| - pos, 0
  {
    if toks[pos].text == "+" || toks[pos].text == "-" then
      match ParseIntersection(toks, pos + 1)
      case Err(e) => Err(e)
      case Ok(right) =>
        ExprRest(toks, right.pos, Joined(left, Op(toks[pos].text == "-", right.value)))
    else Ok(Parsed(left, pos))
  }

  function ParseIntersection(toks: seq<Token>, pos: nat): (r: Result<Parsed<Rewrite>, ParseError>)
    requires InInput(toks, pos)
    ensures r.Ok? ==> pos < r.value.pos && InInput(toks, r.value.pos)
    decreases |toks| - pos, 2
  {
    match ParsePrimary(toks, pos)
    case Err(e) => Err(e)
    case Ok(left) => IntersectionRest(toks, left.pos, left.value)
  }

  function IntersectionRest(toks: seq<Token>, pos: nat, left: Rewrite): (r: Result<Parsed<Rewrite>, ParseError>)
    requires InInput(toks, pos)
    ensures r.Ok? ==> pos <= r.value.pos && InInput(toks, r.value.pos)
    decreases |toks| - pos, 0
  {
    if toks[pos].text == "&" then
      match ParsePrimary(toks, pos + 1)
      case Err(e) => Err(e)
      case Ok(right) => IntersectionRest(toks, right.pos, JoinIntersection(left, right.value))
    else Ok(Parsed(left, pos))
  }

  function ParsePrimary(toks: seq<Token>, pos: nat): (r: Result<Parsed<Rewrite>, ParseError>)
    requires InInput(toks, pos)
    ensures r.Ok? ==> pos < r.value.pos && InInput(toks, r.value.pos)
    decreases |toks| - pos, 1
  {
    if toks[pos].text == "(" then
      match ParseExpr(toks, pos + 1)
      case Err(e) => Err(e)
      case Ok(inner) =>
        if toks[inner.pos].text != ")" then Err(Expected(")")) else Ok(Parsed(inner.value, inner.pos + 1))
    else if toks[pos].kind != Ident then Err(ExpectedName)
    else if toks[pos + 1].text != "->" then Ok(Parsed(ComputedUserset(toks[pos].text), pos + 1))
    else if toks[pos + 2].kind != Ident then Err(ExpectedName)
    else Ok(Parsed(TupleToUserset(toks[pos].text, toks[pos + 2].text), pos + 3))
  }

  // ---- Normal form -----------------------------------------------------------------------

  /** What the parser can build: no This, at least two children, no union first in
      a union, no intersection first in an intersection. */
  predicate Normal(rw: Rewrite) {
    match rw
    case This => false
    case ComputedUserset(r) => IsName(r)
    case TupleToUserset(ts, cu) => IsName(ts) && IsName(cu)
    case Union(cs) => |cs| >= 2 && !cs[0].Union? && NormalAll(cs)
    case Intersection(cs) => |cs| >= 2 && !cs[0].Intersection? && NormalAll(cs)
    case Exclusion(b, s) => Normal(b) && Normal(s)
  }

  predicate NormalAll(rws: seq<Rewrite>) { rws == [] || (Normal(rws[0]) && NormalAll(rws[1..])) }

  lemma {:induction false} NormalAllAppend(rws: seq<Rewrite>, rw: Rewrite)
    requires NormalAll(rws) && Normal(rw)
    ensures NormalAll(rws + [rw])
  {
    if rws == [] {
      assert rws + [rw] == [rw] && [rw][1..] == [];
    } else {
      NormalAllAppend(rws[1..], rw);
      assert (rws + [rw])[1..] == rws[1..] + [rw];
    }
  }

  lemma JoinsStayNormal(left: Rewrite, right: Rewrite)
    requires Normal(left) && Normal(right)
    ensures Normal(JoinUnion(left, right)) && Normal(JoinIntersection(left, right))
  {
    if left.Union? {
      NormalAllAppend(left.children, right);
    } else if left.Intersection? {
      NormalAllAppend(left.children, right);
    }
    assert [left, right][1..] == [right] && [right][1..] == [];
    assert NormalAll([right]) && NormalAll([left, right]);
  }

  /** Which of the parser's functions a lemma is about. */
  datatype Level = ExprLevel | ExprLoop(left: Rewrite) | IntersectionLevel | IntersectionLoop(left: Rewrite) | PrimaryLevel

  function ParseAt(toks: seq<Token>, pos: nat, level: Level): (r: Result<Parsed<Rewrite>, ParseError>)
    requires InInput(toks, pos)
  {
    match level
    case ExprLevel => ParseExpr(toks, pos)
    case ExprLoop(left) => ExprRest(toks, pos, left)
    case IntersectionLevel => ParseIntersection(toks, pos)
    case IntersectionLoop(left) => IntersectionRest(toks, pos, left)
    case PrimaryLevel => ParsePrimary(toks, pos)
  }

  function Rank(level: Level): nat {
    match level
    case ExprLevel => 3
    case IntersectionLevel => 2
    case PrimaryLevel => 1
    case _ => 0
  }

  /** Every successful parse is in normal form. */
  lemma {:induction false} ParsedIsNormal(toks: seq<Token>, pos: nat, level: Level)
    requires Lexed(toks) && InInput(toks, pos) && ParseAt(toks, pos, level).Ok?
    requires (level.ExprLoop? || level.IntersectionLoop?) ==> Normal(level.left)
    ensures Normal(ParseAt(toks, pos, level).value.value)
    decreases |toks| - pos, Rank(level)
  {
    hide Normal;
    match level
    case ExprLevel =>
      ParsedIsNormal(toks, pos, IntersectionLevel);
      var left := ParseIntersection(toks, pos).value;
      ParsedIsNormal(toks, left.pos, ExprLoop(left.value));
    case ExprLoop(left) =>
      if toks[pos].text == "+" || toks[pos].text == "-" {
        ParsedIsNormal(toks, pos + 1, IntersectionLevel);
        var right := ParseIntersection(toks, pos + 1).value;
        JoinsStayNormal(left, right.value);
        assert Normal(Exclusion(left, right.value)) by { ExclusionIsNormal(left, right.value); }
        ParsedIsNormal(toks, right.pos, ExprLoop(Joined(left, Op(toks[pos].text == "-", right.value))));
      }
    case IntersectionLevel =>
      ParsedIsNormal(toks, pos, PrimaryLevel);
      var left := ParsePrimary(toks, pos).value;
      ParsedIsNormal(toks, left.pos, IntersectionLoop(left.value));
    case IntersectionLoop(left) =>
      if toks[pos].text == "&" {
        ParsedIsNormal(toks, pos + 1, PrimaryLevel);
        var right := ParsePrimary(toks, pos + 1).value;
        JoinsStayNormal(left, right.value);
        ParsedIsNormal(toks, right.pos, IntersectionLoop(JoinIntersection(left, right.value)));
      }
    case PrimaryLevel =>
      if toks[pos].text == "(" {
        ParsedIsNormal(toks, pos + 1, ExprLevel);
      } else {
        LeafIsNormal(ParsePrimary(toks, pos).value.value, toks, pos);
      }
  }

  lemma ExclusionIsNormal(b: Rewrite, s: Rewrite)
    requires Normal(b) && Normal(s)
    ensures Normal(Exclusion(b, s))
  {
  }

  lemma LeafIsNormal(rw: Rewrite, toks: seq<Token>, pos: nat)
    requires Lexed(toks) && pos + 1 < |toks| && toks[pos].kind == Ident
    requires rw == ComputedUserset(toks[pos].text) ||
             (pos + 2 < |toks| && toks[pos + 2].kind == Ident && rw == TupleToUserset(toks[pos].text, toks[pos + 2].text))
    ensures Normal(rw)
  {
    assert Proper(toks[pos]);
    if rw.TupleToUserset? {
      assert Proper(toks[pos + 2]);
    }
  }
}
