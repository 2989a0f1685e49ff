/** What a chain of `+` and `-` means: the fold from the left, flattened or not. */
module Chains {
  import opened Schemas
  import opened Names
  import opened Semantics
  import opened Lexers
  import opened Grammar

  /** A rewrite's answer over an assumed set of granted nodes. */
  ghost predicate Grants(s: Scene, X: iset<Node>, n: Node, rw: Rewrite) { Sem(s, X, n, Apply(rw), true) }

  /** Operands taken one by one: `+` adds what it grants, `-` takes it away. */
  ghost predicate Folded(s: Scene, X: iset<Node>, n: Node, start: bool, ops: seq<Op>)
    decreases |ops|
  {
    if ops == [] then start
    else if ops[0].minus then Folded(s, X, n, start && !Grants(s, X, n, ops[0].operand), ops[1..])
    else Folded(s, X, n, start || Grants(s, X, n, ops[0].operand), ops[1..])
  }

  lemma {:induction false} OneMoreChild(s: Scene, X: iset<Node>, n: Node, cs: seq<Rewrite>, rw: Rewrite)
    ensures Sem(s, X, n, Children(cs + [rw], true), true) <==>
            Sem(s, X, n, Children(cs, true), true) || Grants(s, X, n, rw)
  {
    if cs == [] {
      assert cs + [rw] == [rw] && [rw][1..] == [];
      assert !Sem(s, X, n, Children([], true), true);
    } else {
      OneMoreChild(s, X, n, cs[1..], rw);
      assert (cs + [rw])[1..] == cs[1..] + [rw] && (cs + [rw])[0] == cs[0];
    }
  }

  lemma JoinedMeans(s: Scene, X: iset<Node>, n: Node, left: Rewrite, op: Op)
    ensures Grants(s, X, n, Joined(left, op)) <==>
            if op.minus then Grants(s, X, n, left) && !Grants(s, X, n, op.operand)
            else Grants(s, X, n, left) || Grants(s, X, n, op.operand)
  {
    if !op.minus {
      var cs := if left.Union? then left.children else [left];
      if !left.Union? {
        OneMoreChild(s, X, n, [], left);
        assert [] + [left] == [left];
        assert !Sem(s, X, n, Children([], true), true);
        assert [left] + [op.operand] == [left, op.operand];
      }
      OneMoreChild(s, X, n, cs, op.operand);
    }
  }

  /** The tree built for any list of operands means the left fold. */
  lemma {:induction false} ChainMeansFold(s: Scene, X: iset<Node>, n: Node, left: Rewrite, ops: seq<Op>)
    ensures Grants(s, X, n, Chain(left, ops)) <==> Folded(s, X, n, Grants(s, X, n, left), ops)
    decreases |ops|
  {
    if ops != [] {
      JoinedMeans(s, X, n, left, ops[0]);
      hide Grants;
      hide Joined;
      ChainMeansFold(s, X, n, Joined(left, ops[0]), ops[1..]);
    }
  }

  lemma {:induction false} FoldOfMore(s: Scene, X: iset<Node>, n: Node, start: bool, ops: seq<Op>, op: Op)
    ensures var before, last := Folded(s, X, n, start, ops), Grants(s, X, n, op.operand);
            Folded(s, X, n, start, ops + [op]) <==> if op.minus then before && !last else before || last
    decreases |ops|
  {
    hide Grants;
    if ops == [] {
      assert ops + [op] == [op] && [op][1..] == [];
    } else {
      assert (ops + [op])[1..] == ops[1..] + [op] && (ops + [op])[0] == ops[0];
      var first := Grants(s, X, n, ops[0].operand);
      FoldOfMore(s, X, n, if ops[0].minus then start && !first else start || first, ops[1..], op);
    }
  }

  /** A trailing `- c` excludes everything in c, whatever precedes it; a trailing
      `+ c` grants everything in c. */
  lemma LastOperandDecides(s: Scene, X: iset<Node>, n: Node, left: Rewrite, ops: seq<Op>, op: Op)
    requires Grants(s, X, n, op.operand)
    ensures Grants(s, X, n, Chain(left, ops + [op])) == !op.minus
  {
    ChainMeansFold(s, X, n, left, ops + [op]);
    FoldOfMore(s, X, n, Grants(s, X, n, left), ops, op);
  }

  // ---- Every parsed expression is such a chain ----------------------------------------------

  /** The operands from pos on are separated by their signs and end at `end`. */
  ghost predicate OperandsParse(toks: seq<Token>, pos: nat, ops: seq<Op>, end: nat)
    requires InInput(toks, pos)
    decreases |ops|
  {
    if ops == [] then end == pos && toks[pos].text != "+" && toks[pos].text != "-"
    else
      && toks[pos].text == (if ops[0].minus then "-" else "+")
      && ParseIntersection(toks, pos + 1).Ok?
      && ParseIntersection(toks, pos + 1).value.value == ops[0].operand
      && OperandsParse(toks, ParseIntersection(toks, pos + 1).value.pos, ops[1..], end)
  }

  lemma {:induction false} RestIsChain(toks: seq<Token>, pos: nat, left: Rewrite) returns (ops: seq<Op>)
    requires InInput(toks, pos) && ExprRest(toks, pos, left).Ok?
    ensures var r := ExprRest(toks, pos, left).value;
            OperandsParse(toks, pos, ops, r.pos) && r.value == Chain(left, ops)
    decreases |toks| - pos
  {
    hide ParseIntersection;
    if toks[pos].text == "+" || toks[pos].text == "-" {
      var right := ParseIntersection(toks, pos + 1).value;
      var op := Op(toks[pos].text == "-", right.value);
      var rest := RestIsChain(toks, right.pos, Joined(left, op));
      ops := [op] + rest;
      assert ops[1..] == rest;
    } else {
      ops := [];
    }
  }

  /** Whatever expression is parsed, with however many operands, its meaning is the
      left fold of set union and difference over the meanings of its operands. */
  lemma ParsedExpressionMeansFold(toks: seq<Token>, pos: nat, s: Scene, X: iset<Node>, n: Node)
    returns (first: Parsed<Rewrite>, ops: seq<Op>)
    requires InInput(toks, pos) && ParseExpr(toks, pos).Ok?
    ensures ParseIntersection(toks, pos) == Ok(first) && InInput(toks, first.pos)
    ensures var r := ParseExpr(toks, pos).value;
            OperandsParse(toks, first.pos, ops, r.pos) &&
            (Grants(s, X, n, r.value) <==> Folded(s, X, n, Grants(s, X, n, first.value), ops))
  {
    first := ParseIntersection(toks, pos).value;
    ops := RestIsChain(toks, first.pos, first.value);
    ChainMeansFold(s, X, n, first.value, ops);
  }
}
