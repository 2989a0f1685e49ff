/** Objects, subjects and tuples, and the strings that stand for them.

    The store indexes rows by concatenated strings and the caches and the
    explainer compare subjects by their printed form, so every result about
    them rests on which names print unambiguously. */
module Names {

  datatype Option<+T> = None | Some(value: T)

  datatype Result<+T, +E> = Ok(value: T) | Err(error: E)

  datatype Object = Object(kind: string, id: string) {
    function String(): string { kind + ":" + id }
  }

  /** A concrete object (no relation) or a userset such as group:eng#member. */
  datatype Subject = Subject(obj: Object, relation: string) {
    predicate IsUserset() { relation != "" }

    function String(): string {
      if IsUserset() then obj.String() + "#" + relation else obj.String()
    }
  }

  datatype Tuple = Tuple(obj: Object, relation: string, subject: Subject)

  /** One subproblem of a check: a relation on an obj. */
  datatype Node = Node(obj: Object, relation: string) {
    /** The index key of the node, which is also how the explainer marks it. */
    function Key(): string { obj.String() + "#" + relation }

    function AsUserset(): Subject { Subject(obj, relation) }
  }

  function NodeOf(t: Tuple): Node { Node(t.obj, t.relation) }

  // ---- Parsing ---------------------------------------------------------

  datatype NameError = NotTypeId(text: string) | EmptyRelation(text: string)

  /** Position of the first c in s, or -1. */
  function Index(s: string, c: char): (i: int)
    ensures -1 <= i < |s|
    ensures i == -1 <==> c !in s
    ensures i >= 0 ==> s[i] == c && c !in s[..i]
  {
    if s == "" then -1
    else if s[0] == c then 0
    else
      var rest := Index(s[1..], c);
      assert s == [s[0]] + s[1..];
      if rest < 0 then -1 else
        assert s[..rest + 1] == [s[0]] + s[1..][..rest];
        rest + 1
  }

  function ParseObject(s: string): Result<Object, NameError> {
    var i := Index(s, ':');
    if i <= 0 || i == |s| - 1 then Err(NotTypeId(s)) else Ok(Object(s[..i], s[i + 1..]))
  }

  function ParseSubject(s: string): Result<Subject, NameError> {
    var i := Index(s, '#');
    if i >= 0 && s[i + 1..] == "" then Err(EmptyRelation(s)) else
    var ref, relation := if i >= 0 then s[..i] else s, if i >= 0 then s[i + 1..] else "";
    match ParseObject(ref)
    case Ok(obj) => Ok(Subject(obj, relation))
    case Err(e) => Err(e)
  }

  // ---- Names that print unambiguously ------------------------------------

  /** A node whose index key determines it. */
  predicate PlainNode(n: Node) {
    ':' !in n.obj.kind && '#' !in n.relation
  }

  /** A subject whose printed form determines it. */
  predicate PlainSubject(s: Subject) {
    ':' !in s.obj.kind && '#' !in s.obj.kind && '#' !in s.obj.id
  }

  lemma SplitAtFirst(a: string, b: string, a': string, b': string, c: char)
    requires a + [c] + b == a' + [c] + b'
    requires c !in a && c !in a'
    ensures a == a' && b == b'
  {
    var s := a + [c] + b;
    assert s[|a|] == c && s[|a'|] == c;
    assert forall i :: 0 <= i < |a| ==> s[i] == a[i];
    assert forall i :: 0 <= i < |a'| ==> s[i] == a'[i];
    if |a| != |a'| { assert false; }
    assert a == s[..|a|] == a' && b == s[|a| + 1..] == b';
  }

  lemma SplitAtLast(a: string, b: string, a': string, b': string, c: char)
    requires a + [c] + b == a' + [c] + b'
    requires c !in b && c !in b'
    ensures a == a' && b == b'
  {
    var s := a + [c] + b;
    assert s[|a|] == c && s[|a'|] == c;
    assert forall i :: |a| < i < |s| ==> s[i] == b[i - |a| - 1];
    assert forall i :: |a'| < i < |s| ==> s[i] == b'[i - |a'| - 1];
    if |a| != |a'| { assert false; }
    assert a == s[..|a|] == a' && b == s[|a| + 1..] == b';
  }

  lemma ObjectStringDetermines(o: Object, o': Object)
    requires ':' !in o.kind && ':' !in o'.kind
    requires o.String() == o'.String()
    ensures o == o'
  {
    assert o.String() == o.kind + [':'] + o.id;
    assert o'.String() == o'.kind + [':'] + o'.id;
    SplitAtFirst(o.kind, o.id, o'.kind, o'.id, ':');
  }

  lemma KeyDetermines(n: Node, n': Node)
    requires PlainNode(n) && PlainNode(n')
    requires n.Key() == n'.Key()
    ensures n == n'
  {
    assert n.Key() == n.obj.String() + ['#'] + n.relation;
    assert n'.Key() == n'.obj.String() + ['#'] + n'.relation;
    SplitAtLast(n.obj.String(), n.relation, n'.obj.String(), n'.relation, '#');
    ObjectStringDetermines(n.obj, n'.obj);
  }

  lemma {:induction false} FirstCut(a: string, b: string, c: char) returns (front: string, back: string)
    ensures front + [c] + back == a + [c] + b && c !in front
  {
    if c !in a {
      front, back := a, b;
    } else {
      var i := Index(a, c);
      front, back := a[..i], a[i + 1..] + [c] + b;
      assert a == a[..i] + [c] + a[i + 1..];
    }
  }

  lemma {:induction false} LastCut(a: string, b: string, c: char) returns (front: string, back: string)
    ensures front + [c] + back == a + [c] + b && c !in back
    decreases |b|
  {
    if c !in b {
      front, back := a, b;
    } else {
      var i := Index(b, c);
      assert b == b[..i] + [c] + b[i + 1..];
      front, back := LastCut(a + [c] + b[..i], b[i + 1..], c);
    }
  }

  lemma Assoc(a: string, b: string, c: string, d: string, e: string)
    ensures a + b + c + d + e == a + b + (c + d + e)
  {
  }

  /** The node a key is read back as: type up to the first ':', relation after
      the last '#'. */
  lemma PlainReading(n: Node) returns (m: Node)
    ensures PlainNode(m) && m.Key() == n.Key()
  {
    var kind, more := FirstCut(n.obj.kind, n.obj.id, ':');
    var id, relation := LastCut(more, n.relation, '#');
    m := Node(Object(kind, id), relation);
    Assoc(kind, ":", id, "#", relation);
    Assoc(kind, ":", more, "#", n.relation);
  }

  /** Exactly the plain nodes are told apart by their index keys: any other node
      shares its key with a plain one. */
  lemma {:induction false} KeysDetermineExactlyPlainNodes(n: Node)
    ensures PlainNode(n) <==> forall m :: PlainNode(m) && m.Key() == n.Key() ==> m == n
  {
    if PlainNode(n) {
      forall m | PlainNode(m) && m.Key() == n.Key() ensures m == n { KeyDetermines(m, n); }
    } else {
      var m := PlainReading(n);
      assert PlainNode(m) && m.Key() == n.Key() && m != n;
    }
  }

  lemma SubjectStringDetermines(s: Subject, s': Subject)
    requires PlainSubject(s) && PlainSubject(s')
    requires s.String() == s'.String()
    ensures s == s'
  {
    if s.IsUserset() && s'.IsUserset() {
      assert s.String() == s.obj.String() + ['#'] + s.relation;
      assert s'.String() == s'.obj.String() + ['#'] + s'.relation;
      SplitAtFirst(s.obj.String(), s.relation, s'.obj.String(), s'.relation, '#');
    } else {
      HashMarksUsersets(s);
      HashMarksUsersets(s');
    }
    ObjectStringDetermines(s.obj, s'.obj);
  }

  lemma HashMarksUsersets(s: Subject)
    requires PlainSubject(s)
    ensures '#' in s.String() <==> s.IsUserset()
  {
    if s.IsUserset() {
      assert s.String()[|s.obj.String()|] == '#';
    }
  }

  lemma IndexOfJoin(a: string, b: string, c: char)
    requires c !in a
    ensures Index(a + [c] + b, c) == |a|
    ensures (a + [c] + b)[..|a|] == a && (a + [c] + b)[|a| + 1..] == b
  {
    var s := a + [c] + b;
    assert s[|a|] == c;
    var i := Index(s, c);
    assert s == s[..i] + [c] + s[i + 1..];
    SplitAtFirst(s[..i], s[i + 1..], a, b, c);
  }

  lemma ParseObjectRoundTrip(o: Object)
    requires ':' !in o.kind && o.kind != "" && o.id != ""
    ensures ParseObject(o.String()) == Ok(o)
  {
    assert o.String() == o.kind + [':'] + o.id;
    IndexOfJoin(o.kind, o.id, ':');
  }

  lemma ParsedObjectPrintsBack(text: string)
    requires ParseObject(text).Ok?
    ensures var o := ParseObject(text).value;
            o.String() == text && ':' !in o.kind && o.kind != "" && o.id != "" &&
            ('#' !in text ==> '#' !in o.kind && '#' !in o.id)
  {
    hide Index;
    var i := Index(text, ':');
    assert text == text[..i] + [':'] + text[i + 1..];
  }

  /** Whatever parses prints back to the text it came from, and is plain. */
  lemma ParsedSubjectPrintsBack(text: string)
    requires ParseSubject(text).Ok?
    ensures var s := ParseSubject(text).value;
            s.String() == text && PlainSubject(s) && s.obj.kind != "" && s.obj.id != ""
  {
    hide Index;
    var i := Index(text, '#');
    if i < 0 {
      ParsedObjectPrintsBack(text);
    } else {
      ParsedObjectPrintsBack(text[..i]);
      hide ParseObject;
      assert text == text[..i] + "#" + text[i + 1..];
    }
  }

  /** Printing a subject and parsing it back gives the same subject exactly when
      its names are plain and neither half of the object is empty. */
  lemma ParseSubjectRoundTrip(s: Subject)
    ensures ParseSubject(s.String()) == Ok(s)
       <==> PlainSubject(s) && s.obj.kind != "" && s.obj.id != ""
  {
    if ParseSubject(s.String()) == Ok(s) {
      ParsedSubjectPrintsBack(s.String());
    }
    if PlainSubject(s) && s.obj.kind != "" && s.obj.id != "" {
      ParseObjectRoundTrip(s.obj);
      assert '#' !in s.obj.String();
      if s.IsUserset() {
        assert s.String() == s.obj.String() + ['#'] + s.relation;
        IndexOfJoin(s.obj.String(), s.relation, '#');
      }
    }
  }
}
