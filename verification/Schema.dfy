/** The rewrite language: how a relation computes its members. */
module Schemas {
  import opened Names

  datatype Rewrite =
    | This
    | ComputedUserset(relation: string)
    | TupleToUserset(tupleset: string, computedUserset: string)
    | Union(children: seq<Rewrite>)
    | Intersection(children: seq<Rewrite>)
    | Exclusion(base: Rewrite, subtract: Rewrite)

  /** A relation without a rewrite is satisfied by direct tuples only. */
  datatype Relation = Relation(name: string, rewrite: Option<Rewrite>)

  datatype Definition = Definition(name: string, relations: map<string, Relation>)

  datatype Schema = Schema(definitions: map<string, Definition>)

  datatype Failure = DepthExceeded | UnknownType | UnknownRelation

  /** An undefined type or relation is an error, never an empty relation. */
  function Lookup(s: Schema, kind: string, relation: string): Result<Relation, Failure> {
    if kind !in s.definitions then Err(UnknownType)
    else if relation !in s.definitions[kind].relations then Err(UnknownRelation)
    else Ok(s.definitions[kind].relations[relation])
  }

  /** The rewrite that decides a node; a nil rewrite stands for This. */
  function Rule(s: Schema, n: Node): Result<Rewrite, Failure> {
    match Lookup(s, n.obj.kind, n.relation)
    case Err(e) => Err(e)
    case Ok(rel) => Ok(if rel.rewrite.Some? then rel.rewrite.value else This)
  }

  predicate Defined(s: Schema, n: Node) { Rule(s, n).Ok? }

  /** A permission: defined, and computed by a rewrite of its own. */
  predicate IsPermission(s: Schema, n: Node) {
    Lookup(s, n.obj.kind, n.relation).Ok? && Lookup(s, n.obj.kind, n.relation).value.rewrite.Some?
  }

  // ---- Sizes, for termination ------------------------------------------------

  function Weight(rw: Rewrite): nat {
    match rw
    case Union(cs) => 1 + WeightAll(cs)
    case Intersection(cs) => 1 + WeightAll(cs)
    case Exclusion(b, s) => 5 + Weight(b) + Weight(s)
    case _ => 1
  }

  function WeightAll(rws: seq<Rewrite>): nat {
    if rws == [] then 1 else 2 + Weight(rws[0]) + WeightAll(rws[1..])
  }

  /** The leaf rewrite appears in rw; with `all` false, only where it can help to
      grant (the subtracted side of an exclusion cannot). */
  predicate Mentions(rw: Rewrite, leaf: Rewrite, all: bool) {
    match rw
    case Union(cs) => MentionsAny(cs, leaf, all)
    case Intersection(cs) => MentionsAny(cs, leaf, all)
    case Exclusion(b, s) => Mentions(b, leaf, all) || (all && Mentions(s, leaf, all))
    case _ => rw == leaf
  }

  predicate MentionsAny(rws: seq<Rewrite>, leaf: Rewrite, all: bool) {
    rws != [] && (Mentions(rws[0], leaf, all) || MentionsAny(rws[1..], leaf, all))
  }

  /** No rewrite names a relation its own definition lacks. */
  ghost predicate LocallyClosed(s: Schema) {
    && (forall n, r :: Rule(s, n).Ok? && Mentions(Rule(s, n).value, ComputedUserset(r), true) ==>
          Defined(s, Node(n.obj, r)))
    && (forall n, ts, cu :: Rule(s, n).Ok? && Mentions(Rule(s, n).value, TupleToUserset(ts, cu), true) ==>
          Defined(s, Node(n.obj, ts)))
  }

  /** No relation name in the schema contains the '#' that separates it from an object. */
  ghost predicate PlainSchema(s: Schema) {
    forall n, leaf :: Rule(s, n).Ok? && Mentions(Rule(s, n).value, leaf, true) ==> PlainLeaf(leaf)
  }

  predicate PlainLeaf(leaf: Rewrite) {
    match leaf
    case ComputedUserset(r) => '#' !in r
    case TupleToUserset(ts, cu) => '#' !in ts && '#' !in cu
    case _ => true
  }

  // ---- Fragments of the language --------------------------------------------------

  /** No exclusion anywhere below; with `intersections` false, no intersection either. */
  predicate Monotone(rw: Rewrite, intersections: bool) {
    match rw
    case Union(cs) => MonotoneAll(cs, intersections)
    case Intersection(cs) => intersections && MonotoneAll(cs, intersections)
    case Exclusion(_, _) => false
    case _ => true
  }

  predicate MonotoneAll(rws: seq<Rewrite>, intersections: bool) {
    rws == [] || (Monotone(rws[0], intersections) && MonotoneAll(rws[1..], intersections))
  }

  /** Schemas without `-`. */
  ghost predicate ExclusionFree(s: Schema) {
    forall n :: Rule(s, n).Ok? ==> Monotone(Rule(s, n).value, true)
  }

  /** Schemas with neither `&` nor `-`. */
  ghost predicate UnionOnly(s: Schema) {
    forall n :: Rule(s, n).Ok? ==> Monotone(Rule(s, n).value, false)
  }
}
