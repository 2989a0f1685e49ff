/** The recursive-descent parser over a token cursor, proved against the grammar. */
module Parsers {
  import opened Names
  import opened Schemas
  import opened Lexers
  import opened Grammar
  import opened Declarations

  class Parser {
    const toks: seq<Token>
    var pos: nat

    constructor (src: string)
      ensures toks == Tokens(src, 0) && pos == 0 && Lexed(toks) && Ready()
    {
      var lexed := Lex(src);
      toks := lexed;
      pos := 0;
      TokensAreLexed(src, 0);
    }

    /** The cursor is on a token, at the latest on the one that ends the input. */
    predicate Ready() reads this { InInput(toks, pos) }

    /** An error stops the parse; a result is the grammar's, and so is the cursor. */
    ghost predicate Agrees<T(!new)>(r: Result<T, ParseError>, spec: Result<Parsed<T>, ParseError>)
      reads this
    {
      match spec
      case Err(e) => r == Err(e)
      case Ok(p) => r == Ok(p.value) && pos == p.pos && Ready()
    }

    function Peek(): Token
      requires Ready()
      reads this
    {
      toks[pos]
    }

    method Next() returns (t: Token)
      requires Ready() && Peek() != END
      modifies this
      ensures pos == old(pos) + 1 && t == toks[old(pos)] && Ready()
    {
      t := toks[pos];
      pos := pos + 1;
    }

    method Expect(text: string) returns (r: Result<Token, ParseError>)
      requires Ready() && text != ""
      modifies this
      ensures Agrees(r, if toks[old(pos)].text == text then Ok(Parsed(toks[old(pos)], old(pos) + 1)) else Err(Expected(text)))
    {
      if Peek().text != text { return Err(Expected(text)); }
      var t := Next();
      return Ok(t);
    }

    method ExpectIdent() returns (r: Result<Token, ParseError>)
      requires Ready()
      modifies this
      ensures Agrees(r, if toks[old(pos)].kind == Ident then Ok(Parsed(toks[old(pos)], old(pos) + 1)) else Err(ExpectedName))
    {
      if Peek().kind != Ident { return Err(ExpectedName); }
      var t := Next();
      return Ok(t);
    }

    // ---- Expressions -------------------------------------------------------------------

    method ParseExpr() returns (r: Result<Rewrite, ParseError>)
      requires Ready()
      modifies this
      ensures Agrees(r, Grammar.ParseExpr(toks, old(pos)))
      decreases |toks| - pos, 3
    {
      hide Grammar.ParseIntersection;
      r := ParseIntersection();
      if r.Err? { return; }
      var left := r.value;
      while Peek().text == "+" || Peek().text == "-"
        invariant Ready() && old(pos) < pos && ExprRest(toks, pos, left) == Grammar.ParseExpr(toks, old(pos))
        decreases |toks| - pos
      {
        hide Grammar.ParseExpr;
        var sign := Next();
        r := ParseIntersection();
        if r.Err? { return; }
        left := if sign.text == "-" then Exclusion(left, r.value)
                else if left.Union? then Union(left.children + [r.value])
                else Union([left, r.value]);
      }
      return Ok(left);
    }

    method ParseIntersection() returns (r: Result<Rewrite, ParseError>)
      requires Ready()
      modifies this
      ensures Agrees(r, Grammar.ParseIntersection(toks, old(pos)))
      decreases |toks| - pos, 2
    {
      hide Grammar.ParsePrimary;
      r := ParsePrimary();
      if r.Err? { return; }
      var left := r.value;
      while Peek().text == "&"
        invariant Ready() && old(pos) < pos
        invariant IntersectionRest(toks, pos, left) == Grammar.ParseIntersection(toks, old(pos))
        decreases |toks| - pos
      {
        hide Grammar.ParseIntersection;
        var amp := Next();
        r := ParsePrimary();
        if r.Err? { return; }
        left := if left.Intersection? then Intersection(left.children + [r.value]) else Intersection([left, r.value]);
      }
      return Ok(left);
    }

    method ParsePrimary() returns (r: Result<Rewrite, ParseError>)
      requires Ready()
      modifies this
      ensures Agrees(r, Grammar.ParsePrimary(toks, old(pos)))
      decreases |toks| - pos, 1
    {
      hide Grammar.ParseExpr;
      if Peek().text == "(" {
        var open := Next();
        r := ParseExpr();
        if r.Err? { return; }
        var close := Expect(")");
        return if close.Err? then Err(close.error) else r;
      }
      var name := ExpectIdent();
      if name.Err? { return Err(name.error); }
      if Peek().text == "->" {
        var arrow := Next();
        var computed := ExpectIdent();
        if computed.Err? { return Err(computed.error); }
        return Ok(TupleToUserset(name.value.text, computed.value.text));
      }
      return Ok(ComputedUserset(name.value.text));
    }

    // ---- Declarations ------------------------------------------------------------------

    method ParseTypeList() returns (r: Result<(), ParseError>)
      requires Ready()
      modifies this
      ensures match Declarations.ParseTypeList(toks, old(pos))
              case Err(e) => r == Err(e)
              case Ok(end) => r == Ok(()) && pos == end && Ready()
    {
      while true
        invariant Ready() && old(pos) <= pos
        invariant Declarations.ParseTypeList(toks, pos) == Declarations.ParseTypeList(toks, old(pos))
        decreases |toks| - pos
      {
        var name := ExpectIdent();
        if name.Err? { return Err(name.error); }
        if Peek().text == "#" {
          var hash := Next();
          name := ExpectIdent();
          if name.Err? { return Err(name.error); }
        }
        if Peek().text != "|" { return Ok(()); }
        var bar := Next();
      }
    }

    method ParseMember(relations: map<string, Relation>) returns (r: Result<map<string, Relation>, ParseError>)
      requires Ready()
      modifies this
      ensures Agrees(r, Declarations.ParseMember(toks, old(pos), relations))
    {
      hide Grammar.ParseExpr;
      hide Declarations.ParseTypeList;
      var kw := ExpectIdent();
      if kw.Err? { return Err(kw.error); }
      if kw.value.text == "relation" {
        var name := ExpectIdent();
        if name.Err? { return Err(name.error); }
        if name.value.text in relations { return Err(DeclaredTwice); }
        if Peek().text == ":" {
          var colon := Next();
          var types := ParseTypeList();
          if types.Err? { return Err(types.error); }
        }
        return Ok(relations[name.value.text := Relation(name.value.text, None)]);
      } else if kw.value.text == "permission" {
        var name := ExpectIdent();
        if name.Err? { return Err(name.error); }
        if name.value.text in relations { return Err(DeclaredTwice); }
        var equals := Expect("=");
        if equals.Err? { return Err(equals.error); }
        var rw := ParseExpr();
        if rw.Err? { return Err(rw.error); }
        return Ok(relations[name.value.text := Relation(name.value.text, Some(rw.value))]);
      }
      return Err(ExpectedMember);
    }

    method ParseDefinition(defs: map<string, Definition>) returns (r: Result<map<string, Definition>, ParseError>)
      requires Ready()
      modifies this
      ensures Agrees(r, Declarations.ParseDefinition(toks, old(pos), defs))
    {
      hide Declarations.ParseMember;
      var kw := Expect("definition");
      if kw.Err? { return Err(kw.error); }
      var name := ExpectIdent();
      if name.Err? { return Err(name.error); }
      if name.value.text in defs { return Err(DeclaredTwice); }
      var brace := Expect("{");
      if brace.Err? { return Err(brace.error); }
      var relations: map<string, Relation> := map[];
      while Peek().text != "}"
        invariant Ready() && old(pos) < pos
        invariant ParseMembers(toks, pos, relations) == ParseMembers(toks, old(pos) + 3, map[])
        decreases |toks| - pos
      {
        if Peek().kind == EndOfInput { return Err(NeverClosed); }
        var member := ParseMember(relations);
        if member.Err? { return Err(member.error); }
        relations := member.value;
      }
      brace := Expect("}");
      return Ok(defs[name.value.text := Definition(name.value.text, relations)]);
    }

    method ParseSchema() returns (r: Result<Schema, ParseError>)
      requires Ready()
      modifies this
      ensures r == ParseFrom(toks, old(pos), map[])
    {
      hide Declarations.ParseDefinition;
      var defs: map<string, Definition> := map[];
      while Peek().kind != EndOfInput
        invariant Ready() && ParseDefinitions(toks, pos, defs) == ParseDefinitions(toks, old(pos), map[])
        decreases |toks| - pos
      {
        var more := ParseDefinition(defs);
        if more.Err? { return Err(more.error); }
        defs := more.value;
      }
      var valid := Validate(Schema(defs));
      return if valid then Ok(Schema(defs)) else Err(UndefinedReference);
    }
  }

  /** Looks at the definitions and their relations in no particular order. */
  method Validate(s: Schema) returns (ok: bool)
    ensures ok == ValidSchema(s)
  {
    hide Resolves;
    var defs := s.definitions.Keys;
    while defs != {}
      invariant defs <= s.definitions.Keys
      invariant forall d :: d in s.definitions && d !in defs ==> ResolvesIn(s.definitions[d].relations)
      decreases |defs|
    {
      var d :| d in defs;
      defs := defs - {d};
      var relations := s.definitions[d].relations;
      var names := relations.Keys;
      while names != {}
        invariant names <= relations.Keys
        invariant forall r :: r in relations && r !in names && relations[r].rewrite.Some? ==>
                                Resolves(relations, relations[r].rewrite.value)
        decreases |names|
      {
        var name :| name in names;
        names := names - {name};
        if relations[name].rewrite.Some? {
          ok := ValidateRewrite(relations, relations[name].rewrite.value);
          if !ok { return; }
        }
      }
    }
    return true;
  }

  method ValidateRewrite(relations: map<string, Relation>, rw: Rewrite) returns (ok: bool)
    ensures ok == Resolves(relations, rw)
    decreases Weight(rw), 1
  {
    match rw
    case This => return true;
    case ComputedUserset(r) => return r in relations;
    case TupleToUserset(ts, _) => return ts in relations;
    case Union(cs) => ok := ValidateAll(relations, cs);
    case Intersection(cs) => ok := ValidateAll(relations, cs);
    case Exclusion(b, s) =>
      ok := ValidateRewrite(relations, b);
      if !ok { return; }
      ok := ValidateRewrite(relations, s);
  }

  method ValidateAll(relations: map<string, Relation>, rws: seq<Rewrite>) returns (ok: bool)
    ensures ok == ResolvesAll(relations, rws)
    decreases WeightAll(rws), 0
  {
    var i := 0;
    while i < |rws|
      invariant i <= |rws| && ResolvesAll(relations, rws[i..]) == ResolvesAll(relations, rws)
      invariant WeightAll(rws[i..]) <= WeightAll(rws)
    {
      assert rws[i..][1..] == rws[i + 1..];
      ok := ValidateRewrite(relations, rws[i]);
      if !ok { return; }
      i := i + 1;
    }
    return true;
  }

  method ParseText(src: string) returns (r: Result<Schema, ParseError>)
    ensures r == Parse(src)
  {
    var p := new Parser(src);
    r := p.ParseSchema();
  }
}
