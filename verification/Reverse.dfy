/** Reading the schema backwards: what can contribute to a permission, and which
    walks end in a relation. */
module Reverses {
  import opened Names
  import opened Schemas

  // ---- Contributors --------------------------------------------------------------------

  /** Relation r of the definition can be granted by its relation r' on the same object. */
  ghost predicate Links(def: Definition, r: string, r': string) {
    r in def.relations && def.relations[r].rewrite.Some? &&
    Mentions(def.relations[r].rewrite.value, ComputedUserset(r'), false)
  }

  ghost predicate LinkClosed(def: Definition, C: set<string>) {
    forall r, r' :: r in C && Links(def, r, r') ==> r' in C
  }

  /** Everything in `names` is linked to only what is in `within`. */
  ghost predicate LinksWithin(def: Definition, names: set<string>, within: set<string>) {
    forall r, r' :: r in names && Links(def, r, r') ==> r' in within
  }

  ghost predicate Distinct(s: seq<string>) { forall i, j :: 0 <= i < j < |s| ==> s[i] != s[j] }

  /** Every closed set that has the roots has the names. */
  ghost predicate Forced(def: Definition, roots: iset<string>, names: set<string>) {
    forall C: set<string> :: LinkClosed(def, C) && (forall r :: r in roots ==> r in C) ==> names <= C
  }

  ghost function Mentioned(rw: Rewrite): iset<string> { iset r | Mentions(rw, ComputedUserset(r), false) }

  ghost function MentionedIn(rws: seq<Rewrite>): iset<string> { iset r | MentionsAny(rws, ComputedUserset(r), false) }

  /** Adding to the seen in two goes. */
  lemma InTwoGoes(def: Definition, roots: iset<string>, roots1: iset<string>, roots2: iset<string>,
                  seen: set<string>, seen1: set<string>, seen2: set<string>)
    requires seen <= seen1 <= seen2 && roots1 <= roots && roots2 <= roots
    requires LinksWithin(def, seen1 - seen, seen1) && LinksWithin(def, seen2 - seen1, seen2)
    requires Forced(def, roots1, seen1 - seen) && Forced(def, roots2, seen2 - seen1)
    ensures LinksWithin(def, seen2 - seen, seen2) && Forced(def, roots, seen2 - seen)
  {
    forall C: set<string> | LinkClosed(def, C) && (forall r :: r in roots ==> r in C) ensures seen2 - seen <= C {
      assert seen1 - seen <= C && seen2 - seen1 <= C;
    }
  }

  /** Adding a name, then whatever its rewrite mentions. */
  lemma NameAndRewrite(def: Definition, name: string, seen: set<string>, seen': set<string>)
    requires name in def.relations && def.relations[name].rewrite.Some? && seen + {name} <= seen'
    requires Mentioned(def.relations[name].rewrite.value) <= iset r | r in seen'
    requires LinksWithin(def, seen' - (seen + {name}), seen')
    requires Forced(def, Mentioned(def.relations[name].rewrite.value), seen' - (seen + {name}))
    ensures LinksWithin(def, seen' - seen, seen') && Forced(def, iset{name}, seen' - seen)
  {
    forall r, r' | r in seen' - seen && Links(def, r, r') ensures r' in seen' {
      if r == name { assert r' in Mentioned(def.relations[name].rewrite.value); }
    }
    forall C: set<string> | LinkClosed(def, C) && (forall r :: r in iset{name} ==> r in C) ensures seen' - seen <= C {
      assert name in iset{name};
      forall r | r in Mentioned(def.relations[name].rewrite.value) ensures r in C {
        assert Links(def, name, r);
      }
    }
  }

  /** The state the recursive closures share. */
  class ContributorWalk {
    const def: Definition
    var seen: set<string>
    var found: seq<string>

    ghost predicate Valid()
      reads this
    {
      Distinct(found) && forall r :: r in seen <==> r in found
    }

    constructor (def: Definition)
      ensures Valid() && this.def == def && seen == {} && found == []
    {
      this.def, seen, found := def, {}, [];
    }

    /** Visits a relation and everything that can grant it, each once: all it adds
        has its links among the seen, and lies in any closed set that has `name`. */
    method Walk(name: string)
      requires Valid()
      modifies this
      ensures Valid() && old(found) <= found && old(seen) <= seen
      ensures name in seen && (name !in old(seen) ==> |found| > |old(found)| && found[|old(found)|] == name)
      ensures LinksWithin(def, seen - old(seen), seen) && Forced(def, iset{name}, seen - old(seen))
      decreases def.relations.Keys - seen, 0
    {
      if name in seen {
        return;
      }
      ghost var before := seen;
      seen := seen + {name};
      found := found + [name];
      if name !in def.relations || def.relations[name].rewrite == None {
        assert seen - before == {name};
        assert name in iset{name};
        return;
      }
      assert name in def.relations.Keys - before;
      hide LinksWithin;
      hide Forced;
      Expand(def.relations[name].rewrite.value);
      NameAndRewrite(def, name, before, seen);
    }

    /** Visits every relation the rewrite can be granted through on the same object. */
    method Expand(rw: Rewrite)
      requires Valid()
      modifies this
      ensures Valid() && old(found) <= found && old(seen) <= seen
      ensures Mentioned(rw) <= iset r | r in seen
      ensures LinksWithin(def, seen - old(seen), seen) && Forced(def, Mentioned(rw), seen - old(seen))
      decreases def.relations.Keys - seen, 1 + Weight(rw)
    {
      match rw
      case This =>
      case ComputedUserset(r) =>
        assert Mentioned(rw) == iset{r};
        Walk(r);
      case TupleToUserset(_, _) =>
      case Union(children) =>
        assert Mentioned(rw) == MentionedIn(children);
        ExpandAll(children);
      case Intersection(children) =>
        assert Mentioned(rw) == MentionedIn(children);
        ExpandAll(children);
      case Exclusion(base, _) =>
        assert Mentioned(rw) == Mentioned(base);
        Expand(base);
    }

    method ExpandAll(children: seq<Rewrite>)
      requires Valid()
      modifies this
      ensures Valid() && old(found) <= found && old(seen) <= seen
      ensures MentionedIn(children) <= iset r | r in seen
      ensures LinksWithin(def, seen - old(seen), seen) && Forced(def, MentionedIn(children), seen - old(seen))
      decreases def.relations.Keys - seen, 1 + WeightAll(children)
    {
      if children == [] {
        return;
      }
      hide LinksWithin;
      hide Forced;
      assert MentionedIn(children) == Mentioned(children[0]) + MentionedIn(children[1..]);
      Expand(children[0]);
      ghost var between := seen;
      assert def.relations.Keys - seen <= def.relations.Keys - old(seen);
      ExpandAll(children[1..]);
      InTwoGoes(def, MentionedIn(children), Mentioned(children[0]), MentionedIn(children[1..]), old(seen), between, seen);
    }
  }

  /** The relations whose satisfaction can make the permission true: the least set
      that has it and is closed under the granting links, each named once, the
      permission first. */
  method Contributors(s: Schema, kind: string, permission: string) returns (out: seq<string>)
    ensures kind !in s.definitions ==> out == []
    ensures kind in s.definitions ==>
              var def, C := s.definitions[kind], set r | r in out;
              out != [] && out[0] == permission && Distinct(out) && LinkClosed(def, C) &&
              forall D: set<string> :: LinkClosed(def, D) && permission in D ==> C <= D
  {
    if kind !in s.definitions {
      return [];
    }
    var walk := new ContributorWalk(s.definitions[kind]);
    walk.Walk(permission);
    out := walk.found;
    ghost var def, C := s.definitions[kind], set r | r in out;
    assert C == walk.seen == walk.seen - {};
    forall D: set<string> | LinkClosed(def, D) && permission in D ensures C <= D {
      assert Forced(def, iset{permission}, C);
    }
  }

  // ---- Walks ------------------------------------------------------------------------------

  /** An object of `kind` satisfies `permission` if the object beyond `tupleset`
      satisfies `computed`. */
  datatype Walk = Walk(kind: string, permission: string, tupleset: string, computed: string)

  ghost predicate IsWalkInto(s: Schema, computed: string, w: Walk) {
    w.computed == computed && w.kind in s.definitions && HasWalk(s.definitions[w.kind], w.permission, w)
  }

  ghost predicate HasWalk(def: Definition, r: string, w: Walk) {
    r in def.relations && def.relations[r].rewrite.Some? &&
    Mentions(def.relations[r].rewrite.value, TupleToUserset(w.tupleset, w.computed), false)
  }

  /** The order one pass over the schema's maps happens to take: every type once, and
      under each type every relation once. */
  datatype Ranges = Ranges(kinds: seq<string>, names: map<string, seq<string>>)

  ghost predicate Lists(order: seq<string>, keys: set<string>) {
    Distinct(order) && forall k :: k in order <==> k in keys
  }

  ghost predicate Ranging(s: Schema, r: Ranges) {
    && Lists(r.kinds, s.definitions.Keys)
    && forall kind :: kind in s.definitions ==> kind in r.names && Lists(r.names[kind], s.definitions[kind].relations.Keys)
  }

  /** The walks of one rewrite, from left to right. */
  function WalksOf(rw: Rewrite, kind: string, permission: string, computed: string): seq<Walk>
    decreases Weight(rw)
  {
    match rw
    case TupleToUserset(ts, cu) => if cu == computed then [Walk(kind, permission, ts, cu)] else []
    case Union(children) => WalksOfAll(children, kind, permission, computed)
    case Intersection(children) => WalksOfAll(children, kind, permission, computed)
    case Exclusion(base, _) => WalksOf(base, kind, permission, computed)
    case _ => []
  }

  function WalksOfAll(children: seq<Rewrite>, kind: string, permission: string, computed: string): seq<Walk>
    decreases WeightAll(children)
  {
    if children == [] then []
    else WalksOf(children[0], kind, permission, computed) + WalksOfAll(children[1..], kind, permission, computed)
  }

  function WalksUnder(def: Definition, names: seq<string>, kind: string, computed: string): seq<Walk>
    requires forall i :: 0 <= i < |names| ==> names[i] in def.relations
    decreases |names|
  {
    if names == [] then [] else
    var front, last := names[..|names| - 1], names[|names| - 1];
    var rw := def.relations[last].rewrite;
    WalksUnder(def, front, kind, computed) + if rw.Some? then WalksOf(rw.value, kind, last, computed) else []
  }

  ghost predicate Ranged(s: Schema, kinds: seq<string>, names: map<string, seq<string>>) {
    forall i :: 0 <= i < |kinds| ==>
      kinds[i] in s.definitions && kinds[i] in names &&
      forall j :: 0 <= j < |names[kinds[i]]| ==> names[kinds[i]][j] in s.definitions[kinds[i]].relations
  }

  ghost function WalksAlong(s: Schema, kinds: seq<string>, names: map<string, seq<string>>, computed: string): seq<Walk>
    requires Ranged(s, kinds, names)
    decreases |kinds|
  {
    if kinds == [] then [] else
    var front, last := kinds[..|kinds| - 1], kinds[|kinds| - 1];
    WalksAlong(s, front, names, computed) + WalksUnder(s.definitions[last], names[last], last, computed)
  }

  /** What one pass over the schema finds, in the order it takes. */
  ghost function WalkList(s: Schema, computed: string, r: Ranges): seq<Walk>
    requires Ranging(s, r)
  {
    RangesCover(s, r);
    WalksAlong(s, r.kinds, r.names, computed)
  }

  lemma RangesCover(s: Schema, r: Ranges)
    requires Ranging(s, r)
    ensures Ranged(s, r.kinds, r.names)
  {
    forall i | 0 <= i < |r.kinds|
      ensures r.kinds[i] in s.definitions && r.kinds[i] in r.names
      ensures forall j :: 0 <= j < |r.names[r.kinds[i]]| ==> r.names[r.kinds[i]][j] in s.definitions[r.kinds[i]].relations
    {
      assert r.kinds[i] in r.kinds;
      var names := r.names[r.kinds[i]];
      assert forall j :: 0 <= j < |names| ==> names[j] in names;
    }
  }

  lemma {:induction false} WalksOfExactly(rw: Rewrite, kind: string, permission: string, computed: string, w: Walk)
    ensures w in WalksOf(rw, kind, permission, computed) <==>
            w.kind == kind && w.permission == permission && w.computed == computed &&
            Mentions(rw, TupleToUserset(w.tupleset, w.computed), false)
    decreases Weight(rw)
  {
    match rw
    case Union(children) => WalksOfAllExactly(children, kind, permission, computed, w);
    case Intersection(children) => WalksOfAllExactly(children, kind, permission, computed, w);
    case Exclusion(base, _) => WalksOfExactly(base, kind, permission, computed, w);
    case _ =>
  }

  lemma {:induction false} WalksOfAllExactly(children: seq<Rewrite>, kind: string, permission: string, computed: string,
                                             w: Walk)
    ensures w in WalksOfAll(children, kind, permission, computed) <==>
            w.kind == kind && w.permission == permission && w.computed == computed &&
            MentionsAny(children, TupleToUserset(w.tupleset, w.computed), false)
    decreases WeightAll(children)
  {
    if children != [] {
      WalksOfExactly(children[0], kind, permission, computed, w);
      WalksOfAllExactly(children[1..], kind, permission, computed, w);
    }
  }

  lemma {:induction false} WalksUnderExactly(def: Definition, names: seq<string>, kind: string, computed: string, w: Walk)
    requires forall i :: 0 <= i < |names| ==> names[i] in def.relations
    ensures w in WalksUnder(def, names, kind, computed) <==>
            w.kind == kind && w.computed == computed && w.permission in names && HasWalk(def, w.permission, w)
    decreases |names|
  {
    if names != [] {
      var front, last := names[..|names| - 1], names[|names| - 1];
      WalksUnderExactly(def, front, kind, computed, w);
      assert forall x :: x in names <==> x in front || x == last;
      if def.relations[last].rewrite.Some? {
        WalksOfExactly(def.relations[last].rewrite.value, kind, last, computed, w);
      }
    }
  }

  lemma {:induction false} WalksAlongExactly(s: Schema, kinds: seq<string>, names: map<string, seq<string>>,
                                             computed: string, w: Walk)
    requires Ranged(s, kinds, names)
    ensures w in WalksAlong(s, kinds, names, computed) <==>
            w.computed == computed && w.kind in kinds && w.permission in names[w.kind] &&
            HasWalk(s.definitions[w.kind], w.permission, w)
    decreases |kinds|
  {
    if kinds != [] {
      hide HasWalk;
      var front, last := kinds[..|kinds| - 1], kinds[|kinds| - 1];
      WalksAlongExactly(s, front, names, computed, w);
      assert forall x :: x in kinds <==> x in front || x == last;
      WalksUnderExactly(s.definitions[last], names[last], last, computed, w);
    }
  }

  /** Whatever order the maps are passed over in, exactly the granting walks whose far
      side is `computed` are found. */
  lemma WalkListIsExact(s: Schema, computed: string, r: Ranges, w: Walk)
    requires Ranging(s, r)
    ensures w in WalkList(s, computed, r) <==> IsWalkInto(s, computed, w)
  {
    RangesCover(s, r);
    WalksAlongExactly(s, r.kinds, r.names, computed, w);
  }

  /** Every granting walk of the schema whose far side is `computed`, and nothing else,
      in the order the maps are passed over. */
  method WalksInto(s: Schema, computed: string, ranges: Ranges) returns (out: seq<Walk>)
    requires Ranging(s, ranges)
    ensures out == WalkList(s, computed, ranges)
    ensures forall w :: w in out <==> IsWalkInto(s, computed, w)
  {
    RangesCover(s, ranges);
    hide WalksUnder;
    hide Ranging;
    hide IsWalkInto;
    out := [];
    for i := 0 to |ranges.kinds|
      invariant Ranged(s, ranges.kinds[..i], ranges.names)
      invariant out == WalksAlong(s, ranges.kinds[..i], ranges.names, computed)
    {
      var kind := ranges.kinds[i];
      assert ranges.kinds[..i + 1][..i] == ranges.kinds[..i];
      var found := WalksIn(s.definitions[kind], ranges.names[kind], kind, computed);
      out := out + found;
    }
    assert ranges.kinds[..|ranges.kinds|] == ranges.kinds;
    forall w ensures w in out <==> IsWalkInto(s, computed, w) {
      WalkListIsExact(s, computed, ranges, w);
    }
  }

  method WalksIn(def: Definition, names: seq<string>, kind: string, computed: string) returns (out: seq<Walk>)
    requires forall i :: 0 <= i < |names| ==> names[i] in def.relations
    ensures out == WalksUnder(def, names, kind, computed)
  {
    hide WalksOf;
    out := [];
    for j := 0 to |names|
      invariant out == WalksUnder(def, names[..j], kind, computed)
    {
      var rw := def.relations[names[j]].rewrite;
      assert names[..j + 1][..j] == names[..j];
      if rw.Some? {
        var found := CollectWalks(rw.value, kind, names[j], computed);
        out := out + found;
      }
    }
    assert names[..|names|] == names;
  }

  method CollectWalks(rw: Rewrite, kind: string, permission: string, computed: string) returns (out: seq<Walk>)
    ensures out == WalksOf(rw, kind, permission, computed)
    decreases Weight(rw)
  {
    match rw
    case TupleToUserset(ts, cu) => out := if cu == computed then [Walk(kind, permission, ts, cu)] else [];
    case Union(children) => out := CollectAll(children, kind, permission, computed);
    case Intersection(children) => out := CollectAll(children, kind, permission, computed);
    case Exclusion(base, _) => out := CollectWalks(base, kind, permission, computed);
    case _ => out := [];
  }

  method CollectAll(children: seq<Rewrite>, kind: string, permission: string, computed: string) returns (out: seq<Walk>)
    ensures out == WalksOfAll(children, kind, permission, computed)
    decreases WeightAll(children)
  {
    if children == [] {
      return [];
    }
    var first := CollectWalks(children[0], kind, permission, computed);
    var rest := CollectAll(children[1..], kind, permission, computed);
    out := first + rest;
  }
}
