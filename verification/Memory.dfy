/** The in-process store: rows, a head counter, and the two indexes. */
module MemoryStore {
  import opened Names
  import opened Storage

  /** The offsets an index should list for a slot: every row of the slot, in order. */
  ghost function Offsets(rows: seq<Row>, d: Direction, slot: string): seq<nat> {
    if rows == [] then [] else
    var n := |rows| - 1;
    var rest := Offsets(rows[..n], d, slot);
    if Slot(rows[n].tuple, d) == slot then rest + [n] else rest
  }

  function Listed(index: map<string, seq<nat>>, slot: string): seq<nat> {
    if slot in index then index[slot] else []
  }

  ghost predicate Indexes(index: map<string, seq<nat>>, rows: seq<Row>, d: Direction) {
    forall slot :: Listed(index, slot) == Offsets(rows, d, slot)
  }

  ghost predicate InRange(rows: seq<Row>, offsets: seq<nat>) {
    forall j :: 0 <= j < |offsets| ==> offsets[j] < |rows|
  }

  lemma {:induction false} OffsetsOf(rows: seq<Row>, d: Direction, slot: string)
    ensures InRange(rows, Offsets(rows, d, slot))
    ensures forall j :: 0 <= j < |Offsets(rows, d, slot)| ==> Slot(rows[Offsets(rows, d, slot)[j]].tuple, d) == slot
    ensures forall i :: 0 <= i < |rows| && Slot(rows[i].tuple, d) == slot ==> i in Offsets(rows, d, slot)
  {
    if rows != [] {
      var n := |rows| - 1;
      var front, before := rows[..n], Offsets(rows[..n], d, slot);
      OffsetsOf(front, d, slot);
      hide Slot;
      var all := Offsets(rows, d, slot);
      assert all == if Slot(rows[n].tuple, d) == slot then before + [n] else before;
      hide Offsets;
      forall j | 0 <= j < |all| ensures all[j] < |rows| && Slot(rows[all[j]].tuple, d) == slot {
        if j < |before| { assert front[before[j]] == rows[all[j]]; }
      }
      forall i | 0 <= i < |rows| && Slot(rows[i].tuple, d) == slot ensures i in all {
        if i < n { assert front[i] == rows[i] && i in before; }
      }
    }
  }

  lemma Lists(index: map<string, seq<nat>>, rows: seq<Row>, d: Direction, slot: string)
    requires Indexes(index, rows, d)
    ensures Listed(index, slot) == Offsets(rows, d, slot)
  {
  }

  lemma AppendedIndex(index: map<string, seq<nat>>, rows: seq<Row>, row: Row, d: Direction)
    requires Indexes(index, rows, d)
    ensures var slot := Slot(row.tuple, d);
            Indexes(index[slot := Listed(index, slot) + [|rows|]], rows + [row], d)
  {
    hide Slot;
    assert (rows + [row])[..|rows|] == rows;
    var slot := Slot(row.tuple, d);
    var index' := index[slot := Listed(index, slot) + [|rows|]];
    forall other ensures Listed(index', other) == Offsets(rows + [row], d, other) {
      assert Listed(index, other) == Offsets(rows, d, other);
    }
  }

  lemma NoneHeld(rows: seq<Row>, offsets: seq<nat>, t: Tuple)
    requires offsets == Offsets(rows, Forward, Slot(t, Forward)) && InRange(rows, offsets)
    requires forall p :: 0 <= p < |offsets| ==> !(rows[offsets[p]].Live() && rows[offsets[p]].tuple.subject == t.subject)
    ensures !Held(rows, t)
  {
    OffsetsOf(rows, Forward, Slot(t, Forward));
  }

  /** Tombstoning rows leaves the indexes right. */
  lemma {:induction false} SameOffsets(rows: seq<Row>, rows': seq<Row>, d: Direction, slot: string)
    requires |rows| == |rows'| && forall i :: 0 <= i < |rows| ==> rows[i].tuple == rows'[i].tuple
    ensures Offsets(rows, d, slot) == Offsets(rows', d, slot)
  {
    if rows != [] {
      SameOffsets(rows[..|rows| - 1], rows'[..|rows| - 1], d, slot);
    }
  }

  lemma SameIndexes(index: map<string, seq<nat>>, rows: seq<Row>, rows': seq<Row>, d: Direction)
    requires |rows| == |rows'| && forall i :: 0 <= i < |rows| ==> rows[i].tuple == rows'[i].tuple
    requires Indexes(index, rows, d)
    ensures Indexes(index, rows', d)
  {
    forall slot ensures Listed(index, slot) == Offsets(rows', d, slot) {
      SameOffsets(rows, rows', d, slot);
    }
  }

  /** The tuples a read collects from a list of offsets. */
  ghost function Collected(rows: seq<Row>, offsets: seq<nat>, rev: nat): seq<Tuple>
    requires InRange(rows, offsets)
  {
    if offsets == [] then [] else
    var rest, row := Collected(rows, offsets[..|offsets| - 1], rev), rows[offsets[|offsets| - 1]];
    if row.Visible(rev) then rest + [row.tuple] else rest
  }

  lemma {:induction false} CollectedFromPrefix(rows: seq<Row>, n: nat, offsets: seq<nat>, rev: nat)
    requires n <= |rows| && InRange(rows[..n], offsets)
    ensures Collected(rows, offsets, rev) == Collected(rows[..n], offsets, rev)
  {
    if offsets != [] {
      CollectedFromPrefix(rows, n, offsets[..|offsets| - 1], rev);
    }
  }

  /** Reading through an index is taking a bucket of the view. */
  lemma {:induction false} CollectedIsBucket(rows: seq<Row>, d: Direction, slot: string, rev: nat)
    ensures InRange(rows, Offsets(rows, d, slot)) &&
            Collected(rows, Offsets(rows, d, slot), rev) == Bucket(View(rows, rev), d, slot)
  {
    OffsetsOf(rows, d, slot);
    if rows != [] {
      var n := |rows| - 1;
      CollectedIsBucket(rows[..n], d, slot, rev);
      OffsetsOf(rows[..n], d, slot);
      CollectedFromPrefix(rows, n, Offsets(rows[..n], d, slot), rev);
      CollectedMore(rows, d, slot, rev);
    }
  }

  lemma CollectedMore(rows: seq<Row>, d: Direction, slot: string, rev: nat)
    requires rows != [] && InRange(rows, Offsets(rows, d, slot)) && InRange(rows, Offsets(rows[..|rows| - 1], d, slot))
    requires Collected(rows, Offsets(rows[..|rows| - 1], d, slot), rev) == Bucket(View(rows[..|rows| - 1], rev), d, slot)
    ensures Collected(rows, Offsets(rows, d, slot), rev) == Bucket(View(rows, rev), d, slot)
  {
    hide Slot;
    hide InRange;
    var n := |rows| - 1;
    var front, view := Offsets(rows[..n], d, slot), View(rows[..n], rev);
    assert (front + [n])[..|front|] == front;
    assert (view + [rows[n].tuple])[..|view|] == view;
  }

  lemma HeldAt(rows: seq<Row>, i: nat, t: Tuple)
    requires i < |rows| && rows[i].Live() && SameGrant(rows[i].tuple, t)
    ensures Held(rows, t)
  {
  }

  class Memory {
    var head: nat
    var rows: seq<Row>
    var index: map<string, seq<nat>>
    var reverse: map<string, seq<nat>>

    ghost function Contents(): Log
      reads this
    {
      Log(head, rows)
    }

    /** Both indexes list exactly the rows of every slot, in order. */
    ghost predicate Indexed()
      reads this
    {
      Indexes(index, rows, Forward) && Indexes(reverse, rows, Reverse)
    }

    /** ... and at most one row of a grant is live, each created strictly before deleted. */
    ghost predicate Valid()
      reads this
    {
      Indexed() && Orderly(rows, head)
    }

    constructor ()
      ensures Valid() && Contents() == EMPTY
    {
      head, rows, index, reverse := 0, [], map[], map[];
    }

    method Write(add: seq<Tuple>, remove: seq<Tuple>) returns (rev: nat)
      requires Valid()
      modifies this
      ensures Valid() && Contents() == Storage.Write(old(Contents()), add, remove) && rev == head
    {
      head := head + 1;
      rev := head;
      for k := 0 to |remove|
        invariant Indexed() && rev == head == old(head) + 1
        invariant rows == BuryAll(old(rows), remove[..k], rev)
      {
        Tombstone(remove[k], rev);
        BuryOneMore(old(rows), remove, k, rev);
      }
      ghost var buried := rows;
      assert remove[..|remove|] == remove;
      for k := 0 to |add|
        invariant Indexed() && rev == head == old(head) + 1
        invariant rows == GrantAll(buried, add[..k], rev)
      {
        assert add[..k + 1][..k] == add[..k];
        Append(add[k], rev);
      }
      assert add[..|add|] == add;
      WriteStaysOrderly(old(Contents()), add, remove);
    }

    /** One entry of `remove`: tombstone the live rows of its grant. */
    method Tombstone(t: Tuple, rev: nat)
      requires Indexed() && rev > 0
      modifies this`rows
      ensures Indexed() && rows == BuryAll(old(rows), [t], rev)
    {
      var slot := Slot(t, Forward);
      hide Slot;
      hide Indexes;
      var offsets := Listed(index, slot);
      Lists(index, rows, Forward, slot);
      OffsetsOf(rows, Forward, slot);
      for j := 0 to |offsets|
        invariant |rows| == |old(rows)|
        invariant forall i :: 0 <= i < |rows| ==>
                    rows[i] == if i in offsets[..j] && old(rows)[i].Live() && old(rows)[i].tuple.subject == t.subject
                               then old(rows)[i].(deleted := rev) else old(rows)[i]
      {
        var i := offsets[j];
        if rows[i].deleted == 0 && rows[i].tuple.subject == t.subject {
          rows := rows[i := rows[i].(deleted := rev)];
        }
        assert offsets[..j + 1] == offsets[..j] + [offsets[j]];
      }
      assert offsets[..|offsets|] == offsets;
      BuryOne(old(rows), t, rev);
      SameIndexes(index, old(rows), rows, Forward);
      SameIndexes(reverse, old(rows), rows, Reverse);
    }

    /** One entry of `add`: a no-op when a live row already grants it. */
    method Append(t: Tuple, rev: nat)
      requires Indexed()
      modifies this`rows, this`index, this`reverse
      ensures Indexed() && rows == Grant(old(rows), t, rev)
    {
      var slot, bySubject := Slot(t, Forward), Slot(t, Reverse);
      hide Indexes;
      assert Listed(index, slot) == Offsets(rows, Forward, slot) by { Lists(index, rows, Forward, slot); }
      var offsets := Listed(index, slot);
      OffsetsOf(rows, Forward, slot);
      var dup := false;
      for j := 0 to |offsets|
        invariant !dup
        invariant rows == old(rows) && index == old(index) && reverse == old(reverse)
        invariant forall p :: 0 <= p < j ==> !(rows[offsets[p]].Live() && rows[offsets[p]].tuple.subject == t.subject)
      {
        var row := rows[offsets[j]];
        if row.deleted == 0 && row.tuple.subject == t.subject {
          dup := true;
          HeldAt(rows, offsets[j], t);
          break;
        }
      }
      if dup {
        return;
      }
      NoneHeld(rows, offsets, t);
      AppendedIndex(index, rows, Row(t, rev, 0), Forward);
      AppendedIndex(reverse, rows, Row(t, rev, 0), Reverse);
      rows := rows + [Row(t, rev, 0)];
      index := index[slot := Listed(index, slot) + [|rows| - 1]];
      reverse := reverse[bySubject := Listed(reverse, bySubject) + [|rows| - 1]];
    }

    method Read(rev: nat, obj: Object, relation: string) returns (out: seq<Tuple>)
      requires Valid()
      ensures out == Storage.Read(View(rows, rev), obj, relation)
      ensures NoDuplicates(out)
    {
      var slot := Node(obj, relation).Key();
      hide Node.Key;
      hide View;
      hide Bucket;
      hide Offsets;
      var offsets := Listed(index, slot);
      OffsetsOf(rows, Forward, slot);
      out := [];
      for j := 0 to |offsets|
        invariant out == Collected(rows, offsets[..j], rev)
      {
        var row := rows[offsets[j]];
        assert offsets[..j + 1][..j] == offsets[..j];
        if row.created <= rev && (row.deleted == 0 || row.deleted > rev) {
          out := out + [row.tuple];
        }
      }
      assert offsets[..|offsets|] == offsets;
      CollectedIsBucket(rows, Forward, slot, rev);
      ReadsNoneTwice(rows, head, rev, Forward, slot, "");
    }

    method Head() returns (rev: nat)
      ensures rev == head
    {
      rev := head;
    }

    method ReadBySubject(rev: nat, subject: Subject, relation: string) returns (out: seq<Tuple>)
      requires Valid()
      ensures out == Storage.ReadBySubject(View(rows, rev), subject, relation)
      ensures NoDuplicates(out)
    {
      var slot := subject.String();
      hide Subject.String;
      hide View;
      hide Bucket;
      hide Offsets;
      var offsets := Listed(reverse, slot);
      OffsetsOf(rows, Reverse, slot);
      out := [];
      for j := 0 to |offsets|
        invariant out == OfRelation(Collected(rows, offsets[..j], rev), relation)
      {
        var row := rows[offsets[j]];
        assert offsets[..j + 1][..j] == offsets[..j];
        ghost var before := Collected(rows, offsets[..j], rev);
        assert (before + [row.tuple])[..|before|] == before;
        if relation != "" && row.tuple.relation != relation {
          continue;
        }
        if row.created <= rev && (row.deleted == 0 || row.deleted > rev) {
          out := out + [row.tuple];
        }
      }
      assert offsets[..|offsets|] == offsets;
      CollectedIsBucket(rows, Reverse, slot, rev);
      ReadsNoneTwice(rows, head, rev, Reverse, slot, relation);
    }

    /** Everything other clients may do between two calls of one request: any
        number of writes, of anything. */
    method OtherClients() returns (ghost batches: seq<Batch>)
      requires Valid()
      modifies this
      ensures Valid() && Contents() == WriteEach(old(Contents()), batches)
      ensures forall rev: nat :: rev <= old(head) ==> View(rows, rev) == View(old(rows), rev)
      ensures head >= old(head)
    {
      var pending: seq<Batch> := *;
      for k := 0 to |pending|
        invariant Valid() && Contents() == WriteEach(old(Contents()), pending[..k])
      {
        var _ := Write(pending[k].add, pending[k].remove);
        assert pending[..k + 1][..k] == pending[..k];
      }
      assert pending[..|pending|] == pending;
      batches := pending;
      forall rev: nat | rev <= old(head) ensures View(rows, rev) == View(old(rows), rev) {
        EarlierViewsSurviveHistory(old(Contents()), batches, rev);
      }
      EarlierViewsSurviveHistory(old(Contents()), batches, 0);
    }
  }

  lemma ReadsNoneTwice(rows: seq<Row>, head: nat, rev: nat, d: Direction, slot: string, relation: string)
    requires Orderly(rows, head)
    ensures var bucket := Bucket(View(rows, rev), d, slot);
            NoDuplicates(bucket) && NoDuplicates(OfRelation(bucket, relation))
  {
    var view := View(rows, rev);
    ViewHasNoDuplicates(rows, head, rev);
    if view != [] {
      BucketOf(view, d, slot, view[0]);
      OfRelationOf(Bucket(view, d, slot), relation, view[0]);
    }
  }

  lemma BuryOne(rows: seq<Row>, t: Tuple, rev: nat)
    ensures forall i :: 0 <= i < |rows| ==>
              BuryAll(rows, [t], rev)[i] ==
                if Slot(rows[i].tuple, Forward) == Slot(t, Forward) && rows[i].Live() && rows[i].tuple.subject == t.subject
                then rows[i].(deleted := rev) else rows[i]
  {
    forall i | 0 <= i < |rows| ensures Revoked([t], rows[i].tuple) == SameGrant(rows[i].tuple, t) {
      assert t in [t];
    }
  }

  lemma BuryOneMore(rows: seq<Row>, remove: seq<Tuple>, k: nat, rev: nat)
    requires k < |remove| && rev > 0
    ensures BuryAll(BuryAll(rows, remove[..k], rev), [remove[k]], rev) == BuryAll(rows, remove[..k + 1], rev)
  {
    hide SameGrant;
    forall t ensures Revoked(remove[..k + 1], t) <==> Revoked(remove[..k], t) || Revoked([remove[k]], t) {
      assert remove[..k + 1] == remove[..k] + [remove[k]];
    }
    hide Revoked;
  }
}
