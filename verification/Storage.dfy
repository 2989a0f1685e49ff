/** What the tuple store means: a log of rows, and the snapshots it holds.

    Rows are appended with the revision that created them and tombstoned with
    the revision that removed them. The view at a revision is the sequence of
    tuples visible then, in row order; every read is a bucket of a view. */
module Storage {
  import opened Names

  /** deleted == 0 means live. */
  datatype Row = Row(tuple: Tuple, created: nat, deleted: nat) {
    predicate Live() { deleted == 0 }
    predicate Visible(rev: nat) { created <= rev && (deleted == 0 || deleted > rev) }
  }

  datatype Log = Log(head: nat, rows: seq<Row>)

  const EMPTY := Log(0, [])

  /** The two indexes: by object and relation, or by subject. */
  datatype Direction = Forward | Reverse

  function Slot(t: Tuple, d: Direction): string {
    if d.Forward? then NodeOf(t).Key() else t.subject.String()
  }

  /** The tuples a write treats as one: equal index key and equal subject. */
  predicate SameGrant(a: Tuple, b: Tuple) {
    NodeOf(a).Key() == NodeOf(b).Key() && a.subject == b.subject
  }

  // ---- Reads -----------------------------------------------------------------

  function View(rows: seq<Row>, rev: nat): seq<Tuple> {
    if rows == [] then [] else
    var rest, last := View(rows[..|rows| - 1], rev), rows[|rows| - 1];
    if last.Visible(rev) then rest + [last.tuple] else rest
  }

  function Bucket(view: seq<Tuple>, d: Direction, slot: string): seq<Tuple> {
    if view == [] then [] else
    var rest, last := Bucket(view[..|view| - 1], d, slot), view[|view| - 1];
    if Slot(last, d) == slot then rest + [last] else rest
  }

  function OfRelation(ts: seq<Tuple>, relation: string): seq<Tuple> {
    if ts == [] then [] else
    var rest, last := OfRelation(ts[..|ts| - 1], relation), ts[|ts| - 1];
    if relation != "" && last.relation != relation then rest else rest + [last]
  }

  function Read(view: seq<Tuple>, obj: Object, relation: string): seq<Tuple> {
    Bucket(view, Forward, Node(obj, relation).Key())
  }

  function ReadBySubject(view: seq<Tuple>, subject: Subject, relation: string): seq<Tuple> {
    OfRelation(Bucket(view, Reverse, subject.String()), relation)
  }

  // ---- Writes -----------------------------------------------------------------

  predicate Revoked(remove: seq<Tuple>, t: Tuple) {
    exists r :: r in remove && SameGrant(t, r)
  }

  function BuriedRow(row: Row, remove: seq<Tuple>, rev: nat): Row {
    if row.Live() && Revoked(remove, row.tuple) then row.(deleted := rev) else row
  }

  function BuryAll(rows: seq<Row>, remove: seq<Tuple>, rev: nat): seq<Row> {
    seq(|rows|, i requires 0 <= i < |rows| => BuriedRow(rows[i], remove, rev))
  }

  /** A live row already grants t. */
  predicate Held(rows: seq<Row>, t: Tuple) {
    exists i :: 0 <= i < |rows| && rows[i].Live() && SameGrant(rows[i].tuple, t)
  }

  function Grant(rows: seq<Row>, t: Tuple, rev: nat): seq<Row> {
    if Held(rows, t) then rows else rows + [Row(t, rev, 0)]
  }

  function GrantAll(rows: seq<Row>, add: seq<Tuple>, rev: nat): seq<Row> {
    if add == [] then rows
    else Grant(GrantAll(rows, add[..|add| - 1], rev), add[|add| - 1], rev)
  }

  function Write(log: Log, add: seq<Tuple>, remove: seq<Tuple>): Log {
    var rev := log.head + 1;
    Log(rev, GrantAll(BuryAll(log.rows, remove, rev), add, rev))
  }

  datatype Batch = Batch(add: seq<Tuple>, remove: seq<Tuple>)

  function WriteEach(log: Log, batches: seq<Batch>): Log {
    if batches == [] then log else
    var last := batches[|batches| - 1];
    Write(WriteEach(log, batches[..|batches| - 1]), last.add, last.remove)
  }

  // ---- The history a log stands for -----------------------------------------------

  /** Snapshot n, as each batch is documented to change it. */
  function Snapshot(batches: seq<Batch>): set<Tuple> {
    if batches == [] then {} else
    var last := batches[|batches| - 1];
    Snapshot(batches[..|batches| - 1]) - Elements(last.remove) + Elements(last.add)
  }

  function Elements(ts: seq<Tuple>): set<Tuple> { set t | t in ts }

  /** Every row was created by some revision up to `head` and removed strictly
      later, and rows of one grant follow each other: at most the last is live. */
  ghost predicate Orderly(rows: seq<Row>, head: nat) {
    && (forall i :: 0 <= i < |rows| ==>
          1 <= rows[i].created <= head && (rows[i].Live() || rows[i].created < rows[i].deleted <= head))
    && (forall i, j :: 0 <= i < j < |rows| && SameGrant(rows[i].tuple, rows[j].tuple) ==>
          !rows[i].Live() && rows[i].deleted <= rows[j].created)
  }

  ghost predicate NoDuplicates(ts: seq<Tuple>) {
    forall i, j :: 0 <= i < j < |ts| ==> ts[i] != ts[j]
  }

  // ---- Views are frozen ---------------------------------------------------------

  lemma {:induction false} InView(rows: seq<Row>, rev: nat, i: nat)
    requires i < |rows| && rows[i].Visible(rev)
    ensures rows[i].tuple in View(rows, rev)
  {
    if i < |rows| - 1 {
      InView(rows[..|rows| - 1], rev, i);
    }
  }

  lemma {:induction false} RowInView(rows: seq<Row>, rev: nat, t: Tuple) returns (i: nat)
    requires t in View(rows, rev)
    ensures i < |rows| && rows[i].tuple == t && rows[i].Visible(rev)
  {
    i := |rows| - 1;
    if !rows[i].Visible(rev) || rows[i].tuple != t {
      i := RowInView(rows[..i], rev, t);
    }
  }

  /** Two logs whose rows show the same tuples at rev have the same view. */
  lemma {:induction false} SameView(rows: seq<Row>, rows': seq<Row>, rev: nat, rev': nat)
    requires |rows| == |rows'|
    requires forall i :: 0 <= i < |rows| ==>
               rows[i].tuple == rows'[i].tuple && rows[i].Visible(rev) == rows'[i].Visible(rev')
    ensures View(rows, rev) == View(rows', rev')
  {
    if rows != [] {
      SameView(rows[..|rows| - 1], rows'[..|rows| - 1], rev, rev');
    }
  }

  lemma {:induction false} GrantAllKeepsView(rows: seq<Row>, add: seq<Tuple>, rev: nat, past: nat)
    requires past < rev
    ensures View(GrantAll(rows, add, rev), past) == View(rows, past)
  {
    if add != [] {
      var before := GrantAll(rows, add[..|add| - 1], rev);
      GrantAllKeepsView(rows, add[..|add| - 1], rev, past);
      var after := GrantAll(rows, add, rev);
      assert after == before || after[..|after| - 1] == before;
    }
  }

  /** A write never changes what any revision up to the old head shows, down to
      the order of the tuples. */
  lemma EarlierViewsNeverChange(log: Log, add: seq<Tuple>, remove: seq<Tuple>, rev: nat)
    requires rev <= log.head
    ensures View(Write(log, add, remove).rows, rev) == View(log.rows, rev)
  {
    hide Revoked;
    SameView(log.rows, BuryAll(log.rows, remove, log.head + 1), rev, rev);
    GrantAllKeepsView(BuryAll(log.rows, remove, log.head + 1), add, log.head + 1, rev);
  }

  lemma {:induction false} EarlierViewsSurviveHistory(log: Log, batches: seq<Batch>, rev: nat)
    requires rev <= log.head
    ensures WriteEach(log, batches).head == log.head + |batches|
    ensures View(WriteEach(log, batches).rows, rev) == View(log.rows, rev)
  {
    if batches != [] {
      var front, last := batches[..|batches| - 1], batches[|batches| - 1];
      EarlierViewsSurviveHistory(log, front, rev);
      EarlierViewsNeverChange(WriteEach(log, front), last.add, last.remove, rev);
    }
  }

  // ---- What writes do to the rows ---------------------------------------------------

  lemma BuryAllStaysOrderly(rows: seq<Row>, remove: seq<Tuple>, head: nat)
    requires Orderly(rows, head)
    ensures Orderly(BuryAll(rows, remove, head + 1), head + 1)
  {
    hide SameGrant;
    hide Revoked;
  }

  lemma GrantStaysOrderly(rows: seq<Row>, t: Tuple, rev: nat)
    requires Orderly(rows, rev) && rev > 0
    ensures Orderly(Grant(rows, t, rev), rev) && rows <= Grant(rows, t, rev) && Held(Grant(rows, t, rev), t)
  {
    assert SameGrant(t, t);
    hide SameGrant;
    var after := Grant(rows, t, rev);
    if !Held(rows, t) {
      assert after[|rows|].Live();
    }
  }

  lemma HeldForGood(rows: seq<Row>, after: seq<Row>, t: Tuple)
    requires rows <= after && Held(rows, t)
    ensures Held(after, t)
  {
    hide SameGrant;
    var i :| 0 <= i < |rows| && rows[i].Live() && SameGrant(rows[i].tuple, t);
    assert after[i] == rows[i];
  }

  /** After granting `add`, the rows are the old ones followed by fresh live rows
      for tuples of `add`, and every tuple of `add` is held. */
  lemma {:induction false} GrantAllStaysOrderly(rows: seq<Row>, add: seq<Tuple>, rev: nat)
    requires Orderly(rows, rev) && rev > 0
    ensures var after := GrantAll(rows, add, rev);
            rows <= after && Orderly(after, rev) &&
            (forall i :: |rows| <= i < |after| ==> after[i].tuple in add && after[i] == Row(after[i].tuple, rev, 0)) &&
            forall t :: t in add ==> Held(after, t)
  {
    if add != [] {
      var front, last := add[..|add| - 1], add[|add| - 1];
      assert add == front + [last];
      GrantAllStaysOrderly(rows, front, rev);
      hide SameGrant;
      var before := GrantAll(rows, front, rev);
      GrantStaysOrderly(before, last, rev);
      hide Orderly;
      hide Held;
      forall t | t in front ensures Held(Grant(before, last, rev), t) {
        HeldForGood(before, Grant(before, last, rev), t);
      }
    }
  }

  lemma WriteStaysOrderly(log: Log, add: seq<Tuple>, remove: seq<Tuple>)
    requires Orderly(log.rows, log.head)
    ensures Orderly(Write(log, add, remove).rows, log.head + 1)
  {
    hide Orderly;
    hide BuryAll;
    hide GrantAll;
    hide Held;
    BuryAllStaysOrderly(log.rows, remove, log.head);
    assert Orderly(log.rows, log.head);
    GrantAllStaysOrderly(BuryAll(log.rows, remove, log.head + 1), add, log.head + 1);
  }

  lemma {:induction false} HistoryStaysOrderly(log: Log, batches: seq<Batch>)
    requires Orderly(log.rows, log.head)
    ensures WriteEach(log, batches).head == log.head + |batches|
    ensures Orderly(WriteEach(log, batches).rows, log.head + |batches|)
  {
    if batches != [] {
      var front, last := batches[..|batches| - 1], batches[|batches| - 1];
      HistoryStaysOrderly(log, front);
      WriteStaysOrderly(WriteEach(log, front), last.add, last.remove);
    }
  }

  // ---- Refinement: a log is a history of snapshots -------------------------------

  ghost predicate PlainTuples(ts: seq<Tuple>) {
    forall t :: t in ts ==> PlainNode(NodeOf(t))
  }

  ghost predicate PlainRows(rows: seq<Row>) {
    forall i :: 0 <= i < |rows| ==> PlainNode(NodeOf(rows[i].tuple))
  }

  lemma PlainGrantsDiffer(a: Tuple, b: Tuple)
    requires PlainNode(NodeOf(a)) && PlainNode(NodeOf(b)) && SameGrant(a, b)
    ensures a == b
  {
    KeyDetermines(NodeOf(a), NodeOf(b));
  }

  lemma PlainRevoked(remove: seq<Tuple>, t: Tuple)
    requires PlainNode(NodeOf(t)) && PlainTuples(remove)
    ensures Revoked(remove, t) <==> t in remove
  {
    assert SameGrant(t, t);
    forall r | r in remove && SameGrant(t, r) ensures r == t { PlainGrantsDiffer(t, r); }
  }

  lemma BuriedView(rows: seq<Row>, head: nat, remove: seq<Tuple>, t: Tuple)
    requires Orderly(rows, head) && PlainRows(rows) && PlainTuples(remove)
    ensures PlainRows(BuryAll(rows, remove, head + 1))
    ensures t in View(BuryAll(rows, remove, head + 1), head + 1) <==> t in View(rows, head) && t !in remove
  {
    hide SameGrant;
    hide Revoked;
    hide PlainNode;
    hide View;
    var buried := BuryAll(rows, remove, head + 1);
    if t in View(buried, head + 1) {
      var i := RowInView(buried, head + 1, t);
      PlainRevoked(remove, rows[i].tuple);
      InView(rows, head, i);
    } else if t in View(rows, head) {
      var i := RowInView(rows, head, t);
      PlainRevoked(remove, rows[i].tuple);
      if t !in remove {
        InView(buried, head + 1, i);
      }
    }
  }

  lemma GrantedView(rows: seq<Row>, rev: nat, add: seq<Tuple>, t: Tuple)
    requires Orderly(rows, rev) && rev > 0 && PlainRows(rows) && PlainTuples(add)
    ensures PlainRows(GrantAll(rows, add, rev))
    ensures t in View(GrantAll(rows, add, rev), rev) <==> t in add || t in View(rows, rev)
  {
    hide SameGrant;
    hide PlainNode;
    hide View;
    hide Orderly;
    hide GrantAll;
    var after := GrantAll(rows, add, rev);
    GrantAllStaysOrderly(rows, add, rev);
    if t in View(after, rev) {
      var i := RowInView(after, rev, t);
      if i < |rows| {
        InView(rows, rev, i);
      }
    } else if t in View(rows, rev) {
      var i := RowInView(rows, rev, t);
      InView(after, rev, i);
    } else if t in add {
      var i :| 0 <= i < |after| && after[i].Live() && SameGrant(after[i].tuple, t);
      PlainGrantsDiffer(after[i].tuple, t);
      LiveIsVisible(after, rev, i);
      InView(after, rev, i);
      assert false;
    }
  }

  lemma LiveIsVisible(rows: seq<Row>, rev: nat, i: nat)
    requires Orderly(rows, rev) && i < |rows| && rows[i].Live()
    ensures rows[i].Visible(rev)
  {
  }

  /** With plain names, a write changes the head view by exactly its own batch:
      everything in `remove` goes, then everything in `add` comes. */
  lemma WriteStep(log: Log, add: seq<Tuple>, remove: seq<Tuple>, t: Tuple)
    requires Orderly(log.rows, log.head) && PlainRows(log.rows) && PlainTuples(add) && PlainTuples(remove)
    ensures PlainRows(Write(log, add, remove).rows)
    ensures t in View(Write(log, add, remove).rows, log.head + 1)
       <==> t in add || (t in View(log.rows, log.head) && t !in remove)
  {
    hide Orderly;
    hide PlainRows;
    hide PlainTuples;
    hide View;
    assert Orderly(BuryAll(log.rows, remove, log.head + 1), log.head + 1) by {
      BuryAllStaysOrderly(log.rows, remove, log.head);
    }
    BuriedView(log.rows, log.head, remove, t);
    GrantedView(BuryAll(log.rows, remove, log.head + 1), log.head + 1, add, t);
  }

  lemma ViewPastHead(log: Log, rev: nat)
    requires Orderly(log.rows, log.head) && rev >= log.head
    ensures View(log.rows, rev) == View(log.rows, log.head)
  {
    SameView(log.rows, log.rows, rev, log.head);
  }

  lemma {:induction false} HeadTracksHistory(batches: seq<Batch>, t: Tuple)
    requires forall b :: b in batches ==> PlainTuples(b.add) && PlainTuples(b.remove)
    ensures var log := WriteEach(EMPTY, batches);
            log.head == |batches| && Orderly(log.rows, log.head) && PlainRows(log.rows) &&
            (t in View(log.rows, log.head) <==> t in Snapshot(batches))
  {
    if batches != [] {
      hide PlainTuples;
      hide PlainRows;
      hide Orderly;
      hide View;
      hide Write;
      var front, last := batches[..|batches| - 1], batches[|batches| - 1];
      assert last in batches;
      HeadTracksHistory(front, t);
      WriteStaysOrderly(WriteEach(EMPTY, front), last.add, last.remove);
      WriteStep(WriteEach(EMPTY, front), last.add, last.remove, t);
    }
  }

  lemma {:induction false} WriteEachInTwo(log: Log, front: seq<Batch>, back: seq<Batch>)
    ensures WriteEach(log, front + back) == WriteEach(WriteEach(log, front), back)
  {
    if back == [] {
      assert front + back == front;
    } else {
      hide Write;
      var n := |back| - 1;
      assert (front + back)[..|front + back| - 1] == front + back[..n];
      WriteEachInTwo(log, front, back[..n]);
    }
  }

  /** The log written by any batches refines the history of snapshots: the view
      at revision n holds exactly snapshot n, and past the head the last one;
      no view holds a tuple twice. */
  lemma LogRefinesHistory(batches: seq<Batch>, rev: nat, t: Tuple)
    requires forall b :: b in batches ==> PlainTuples(b.add) && PlainTuples(b.remove)
    ensures var view, n := View(WriteEach(EMPTY, batches).rows, rev), if rev <= |batches| then rev else |batches|;
            NoDuplicates(view) && (t in view <==> t in Snapshot(batches[..n]))
  {
    hide PlainTuples;
    hide Write;
    hide View;
    hide WriteEach;
    var log, n := WriteEach(EMPTY, batches), if rev <= |batches| then rev else |batches|;
    HeadTracksHistory(batches, t);
    ViewHasNoDuplicates(log.rows, log.head, rev);
    hide Orderly;
    if rev > |batches| {
      ViewPastHead(log, rev);
    }
    HeadTracksHistory(batches[..n], t);
    assert batches == batches[..n] + batches[n..];
    WriteEachInTwo(EMPTY, batches[..n], batches[n..]);
    EarlierViewsSurviveHistory(WriteEach(EMPTY, batches[..n]), batches[n..], n);
  }

  lemma {:induction false} ViewHasNoDuplicates(rows: seq<Row>, head: nat, rev: nat)
    requires Orderly(rows, head)
    ensures NoDuplicates(View(rows, rev))
  {
    if rows != [] {
      var n := |rows| - 1;
      var front := rows[..n];
      assert Orderly(front, head) by {
        hide SameGrant;
        assert forall i :: 0 <= i < n ==> front[i] == rows[i];
      }
      ViewHasNoDuplicates(front, head, rev);
      if rows[n].Visible(rev) && rows[n].tuple in View(front, rev) {
        var i := RowInView(front, rev, rows[n].tuple);
        assert false;
      }
    }
  }

  /** Before the first write there is nothing. */
  lemma {:induction false} NothingAtZero(rows: seq<Row>, head: nat)
    requires Orderly(rows, head)
    ensures View(rows, 0) == []
  {
    if rows != [] {
      var n := |rows| - 1;
      assert forall i :: 0 <= i < n ==> rows[..n][i] == rows[i];
      NothingAtZero(rows[..n], head);
    }
  }

  // ---- Buckets -------------------------------------------------------------------

  lemma {:induction false} BucketOf(view: seq<Tuple>, d: Direction, slot: string, t: Tuple)
    ensures t in Bucket(view, d, slot) <==> t in view && Slot(t, d) == slot
    ensures NoDuplicates(view) ==> NoDuplicates(Bucket(view, d, slot))
  {
    if view != [] {
      var front, last := view[..|view| - 1], view[|view| - 1];
      assert view == front + [last];
      BucketOf(front, d, slot, t);
      if NoDuplicates(view) {
        BucketOf(front, d, slot, last);
        assert NoDuplicates(front);
      }
    }
  }

  lemma {:induction false} OfRelationOf(ts: seq<Tuple>, relation: string, t: Tuple)
    ensures t in OfRelation(ts, relation) <==> t in ts && (relation == "" || t.relation == relation)
    ensures NoDuplicates(ts) ==> NoDuplicates(OfRelation(ts, relation))
  {
    if ts != [] {
      var front, last := ts[..|ts| - 1], ts[|ts| - 1];
      assert ts == front + [last];
      OfRelationOf(front, relation, t);
      if NoDuplicates(ts) {
        OfRelationOf(front, relation, last);
        assert NoDuplicates(front);
      }
    }
  }

  /** With plain names a forward read returns exactly the visible tuples of the
      asked object and relation, none twice. */
  lemma ReadIsExact(view: seq<Tuple>, obj: Object, relation: string, t: Tuple)
    requires PlainTuples(view) && PlainNode(Node(obj, relation))
    ensures t in Read(view, obj, relation) <==> t in view && t.obj == obj && t.relation == relation
    ensures NoDuplicates(view) ==> NoDuplicates(Read(view, obj, relation))
  {
    BucketOf(view, Forward, Node(obj, relation).Key(), t);
    if t in view && NodeOf(t).Key() == Node(obj, relation).Key() {
      KeyDetermines(NodeOf(t), Node(obj, relation));
    }
  }

  ghost predicate PlainSubjects(ts: seq<Tuple>) {
    forall t :: t in ts ==> PlainSubject(t.subject)
  }

  /** With plain names a reverse read returns exactly the visible tuples naming the
      subject, of the asked relation if there is one, none twice. */
  lemma ReadBySubjectIsExact(view: seq<Tuple>, subject: Subject, relation: string, t: Tuple)
    requires PlainSubjects(view) && PlainSubject(subject)
    ensures t in ReadBySubject(view, subject, relation) <==>
            t in view && t.subject == subject && (relation == "" || t.relation == relation)
    ensures NoDuplicates(view) ==> NoDuplicates(ReadBySubject(view, subject, relation))
  {
    BucketOf(view, Reverse, subject.String(), t);
    OfRelationOf(Bucket(view, Reverse, subject.String()), relation, t);
    if t in view && t.subject.String() == subject.String() {
      SubjectStringDetermines(t.subject, subject);
    }
  }

  // ---- Order -----------------------------------------------------------------------

  /** `out` is `all` at the positions `where`, which are in increasing order and exactly
      those of the wanted. */
  ghost predicate Picks<A>(all: seq<A>, where: seq<nat>, wanted: A -> bool, out: seq<A>) {
    Increasing(where) && Taken(all, where, wanted, out) && forall k :: 0 <= k < |all| && wanted(all[k]) ==> k in where
  }

  ghost predicate Increasing(where: seq<nat>) { forall i, j :: 0 <= i < j < |where| ==> where[i] < where[j] }

  ghost predicate Taken<A>(all: seq<A>, where: seq<nat>, wanted: A -> bool, out: seq<A>) {
    |out| == |where| &&
    forall i :: 0 <= i < |where| ==> where[i] < |all| && wanted(all[where[i]]) && out[i] == all[where[i]]
  }

  lemma TakenMore<A>(all: seq<A>, where: seq<nat>, wanted: A -> bool, out: seq<A>, x: A)
    requires Taken(all, where, wanted, out)
    ensures Taken(all + [x], where, wanted, out) && (wanted(x) ==> Taken(all + [x], where + [|all|], wanted, out + [x]))
    ensures Increasing(where) ==> Increasing(where + [|all|])
  {
  }

  /** One more element at the end, picked if it is wanted. */
  lemma PicksMore<A>(all: seq<A>, where: seq<nat>, wanted: A -> bool, out: seq<A>, x: A) returns (where': seq<nat>)
    requires Picks(all, where, wanted, out)
    ensures Picks(all + [x], where', wanted, if wanted(x) then out + [x] else out)
  {
    TakenMore(all, where, wanted, out, x);
    hide Taken;
    hide Increasing;
    where' := if wanted(x) then where + [|all|] else where;
    forall k | 0 <= k < |all| + 1 && wanted((all + [x])[k]) ensures k in where' {
      if k < |all| {
        assert wanted(all[k]);
      }
    }
  }

  /** A read keeps the order of the view: it is the view at the positions of all the
      tuples under the key. */
  lemma {:induction false} BucketKeepsOrder(view: seq<Tuple>, d: Direction, slot: string) returns (where: seq<nat>)
    ensures Picks(view, where, (t: Tuple) => Slot(t, d) == slot, Bucket(view, d, slot))
  {
    if view == [] {
      where := [];
    } else {
      var front, last := view[..|view| - 1], view[|view| - 1];
      assert view == front + [last];
      where := BucketKeepsOrder(front, d, slot);
      hide Slot;
      where := PicksMore(front, where, (t: Tuple) => Slot(t, d) == slot, Bucket(front, d, slot), last);
    }
  }

  lemma ReadKeepsOrder(view: seq<Tuple>, obj: Object, relation: string) returns (where: seq<nat>)
    requires PlainTuples(view) && PlainNode(Node(obj, relation))
    ensures Picks(view, where, (t: Tuple) => t.obj == obj && t.relation == relation, Read(view, obj, relation))
  {
    where := BucketKeepsOrder(view, Forward, Node(obj, relation).Key());
    forall t | t in view ensures Slot(t, Forward) == Node(obj, relation).Key() <==> t.obj == obj && t.relation == relation {
      if Slot(t, Forward) == Node(obj, relation).Key() { KeyDetermines(NodeOf(t), Node(obj, relation)); }
    }
    hide Slot;
    hide PlainNode;
    assert forall k :: 0 <= k < |view| ==> view[k] in view;
  }

  predicate NamesSubject(t: Tuple, subject: Subject, relation: string) {
    t.subject == subject && (relation == "" || t.relation == relation)
  }

  lemma {:induction false} ReadBySubjectKeepsOrder(view: seq<Tuple>, subject: Subject, relation: string)
    returns (where: seq<nat>)
    requires PlainSubjects(view) && PlainSubject(subject)
    ensures Picks(view, where, (t: Tuple) => NamesSubject(t, subject, relation), ReadBySubject(view, subject, relation))
  {
    if view == [] {
      where := [];
    } else {
      var front, last := view[..|view| - 1], view[|view| - 1];
      assert view == front + [last];
      where := ReadBySubjectKeepsOrder(front, subject, relation);
      where := PicksMore(front, where, (t: Tuple) => NamesSubject(t, subject, relation), ReadBySubject(front, subject, relation), last);
      if last.subject.String() == subject.String() { SubjectStringDetermines(last.subject, subject); }
      ReadBySubjectMore(front, subject, relation, last);
      hide *;
    }
  }

  lemma ReadBySubjectMore(front: seq<Tuple>, subject: Subject, relation: string, last: Tuple)
    requires last.subject.String() == subject.String() <==> last.subject == subject
    ensures var before := ReadBySubject(front, subject, relation);
            ReadBySubject(front + [last], subject, relation) == if NamesSubject(last, subject, relation) then before + [last] else before
  {
    var bucket := Bucket(front, Reverse, subject.String());
    assert (front + [last])[..|front|] == front;
    assert (bucket + [last])[..|bucket|] == bucket;
  }

  function TuplesOf(rows: seq<Row>): seq<Tuple> { seq(|rows|, i requires 0 <= i < |rows| => rows[i].tuple) }

  lemma TuplesOfMore(rows: seq<Row>, last: Row)
    ensures TuplesOf(rows + [last]) == TuplesOf(rows) + [last.tuple]
  {
  }

  /** The view itself is the rows visible then, in the order they were written. */
  lemma {:induction false} ViewKeepsOrder(rows: seq<Row>, rev: nat) returns (where: seq<nat>, shown: seq<Row>)
    ensures Picks(rows, where, (r: Row) => r.Visible(rev), shown) && View(rows, rev) == TuplesOf(shown)
  {
    if rows == [] {
      where, shown := [], [];
    } else {
      var front, last := rows[..|rows| - 1], rows[|rows| - 1];
      assert rows == front + [last];
      where, shown := ViewKeepsOrder(front, rev);
      hide Picks;
      hide TuplesOf;
      hide Row.Visible;
      TuplesOfMore(shown, last);
      where := PicksMore(front, where, (r: Row) => r.Visible(rev), shown, last);
      shown := if last.Visible(rev) then shown + [last] else shown;
    }
  }

  /** The two indexes agree at every revision after every write: a tuple is found
      under its object exactly when it is found under its subject. */
  lemma IndexesAgree(batches: seq<Batch>, rev: nat, t: Tuple)
    ensures var view := View(WriteEach(EMPTY, batches).rows, rev);
            (t in Read(view, t.obj, t.relation) <==> t in ReadBySubject(view, t.subject, t.relation)) &&
            (t in Read(view, t.obj, t.relation) <==> t in ReadBySubject(view, t.subject, ""))
  {
    var view := View(WriteEach(EMPTY, batches).rows, rev);
    BucketOf(view, Forward, NodeOf(t).Key(), t);
    BucketOf(view, Reverse, t.subject.String(), t);
    OfRelationOf(Bucket(view, Reverse, t.subject.String()), t.relation, t);
    OfRelationOf(Bucket(view, Reverse, t.subject.String()), "", t);
  }

  // ---- One first write --------------------------------------------------------------------

  ghost predicate Different(ts: seq<Tuple>) { forall i, j :: 0 <= i < j < |ts| ==> !SameGrant(ts[i], ts[j]) }

  function RowsOf(ts: seq<Tuple>, rev: nat): seq<Row> {
    seq(|ts|, i requires 0 <= i < |ts| => Row(ts[i], rev, 0))
  }

  lemma {:induction false} FreshRows(ts: seq<Tuple>, rev: nat)
    requires Different(ts)
    ensures GrantAll([], ts, rev) == RowsOf(ts, rev)
  {
    if ts != [] {
      var front, last := ts[..|ts| - 1], ts[|ts| - 1];
      assert forall i :: 0 <= i < |front| ==> front[i] == ts[i];
      FreshRows(front, rev);
      assert !Held(RowsOf(front, rev), last);
      assert RowsOf(ts, rev) == RowsOf(front, rev) + [Row(last, rev, 0)];
    }
  }

  lemma {:induction false} FreshView(ts: seq<Tuple>, rev: nat)
    ensures View(RowsOf(ts, rev), rev) == ts
  {
    if ts != [] {
      var front := ts[..|ts| - 1];
      FreshView(front, rev);
      assert RowsOf(ts, rev)[..|ts| - 1] == RowsOf(front, rev);
      assert front + [ts[|ts| - 1]] == ts;
    }
  }

  /** A first write of different grants shows exactly them, in order. */
  lemma FirstWriteShows(ts: seq<Tuple>)
    requires Different(ts)
    ensures WriteEach(EMPTY, [Batch(ts, [])]) == Log(1, RowsOf(ts, 1))
    ensures View(WriteEach(EMPTY, [Batch(ts, [])]).rows, 1) == ts
  {
    FreshRows(ts, 1);
    FreshView(ts, 1);
    var batches := [Batch(ts, [])];
    assert batches[..0] == [];
    assert WriteEach(EMPTY, []) == EMPTY;
    assert BuryAll([], [], 1) == [];
    hide GrantAll;
    hide View;
  }

  lemma PlainTuplesDiffer(ts: seq<Tuple>)
    requires PlainTuples(ts) && forall i, j :: 0 <= i < j < |ts| ==> ts[i] != ts[j]
    ensures Different(ts)
  {
    forall i, j | 0 <= i < j < |ts| ensures !SameGrant(ts[i], ts[j]) {
      if SameGrant(ts[i], ts[j]) { PlainGrantsDiffer(ts[i], ts[j]); }
    }
  }

  /** Without plain names two objects can share an index key, and after one write of a
      tuple a removal aimed at another revokes it. */
  lemma CollidingKeysRevokeTheWrongTuple()
    ensures exists mine: Tuple, other: Tuple :: RevokesTheWrongTuple(mine, other)
  {
    var user := Subject(Object("user", "riya"), "");
    var mine := Tuple(Object("doc", "a#b"), "c", user);
    var other := Tuple(Object("doc", "a"), "b#c", user);
    assert NodeOf(mine).Key() == "doc:a#b#c" == NodeOf(other).Key();
    FirstWriteShows([mine]);
    var log := WriteEach(EMPTY, [Batch([mine], [])]);
    assert log.rows == [Row(mine, 1, 0)];
    assert mine in View(log.rows, 1);
    var after := Write(log, [], [other]);
    assert BuryAll(log.rows, [other], 2) == [Row(mine, 1, 2)] by {
      assert other in [other] && SameGrant(mine, other);
    }
    assert after.rows == [Row(mine, 1, 2)] && after.rows[..0] == [];
    assert View(after.rows, 2) == [];
    assert RevokesTheWrongTuple(mine, other);
  }

  ghost predicate RevokesTheWrongTuple(mine: Tuple, other: Tuple) {
    var log := WriteEach(EMPTY, [Batch([mine], [])]);
    mine != other && mine in View(log.rows, log.head) && mine !in View(Write(log, [], [other]).rows, log.head + 1)
  }
}
