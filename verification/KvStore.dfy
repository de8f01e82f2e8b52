/** kvstore_htable.c: a table from features to the newest index_value_length container or segment ids. */
module KvStore {
  import opened Common
  import opened DedupSpec

  /** The value array that stands for the ids, newest first. */
  function Padded(ids: seq<int>, length: nat): seq<int>
    requires |ids| <= length
  {
    ids + seq(length - |ids|, _ => TEMPORARY_ID)
  }

  predicate Newest(ids: seq<int>) {
    (forall i :: 0 <= i < |ids| ==> ids[i] >= 0) && forall i, j :: 0 <= i < j < |ids| ==> ids[i] > ids[j]
  }

  function Pushed(ids: seq<int>, length: nat, id: int): seq<int> {
    var all := [id] + ids;
    if |all| > length then all[..length] else all
  }

  function Popped(ids: seq<int>, id: int): seq<int> {
    if id in ids then ids[..|ids| - 1] else ids
  }

  /** What kvstore_htable_delete asserts when it finds the id. */
  predicate DeleteAssert(value: seq<int>, id: int) {
    forall i :: 0 <= i < |value| && value[i] == id ==> i == |value| - 1 || value[i + 1] == TEMPORARY_ID
  }

  /** The assert holds exactly when no older id is left in the value. */
  lemma DeleteAssertIff(ids: seq<int>, length: nat, id: int)
    requires Newest(ids) && |ids| <= length && id >= 0
    ensures DeleteAssert(Padded(ids, length), id) <==> (id in ids ==> forall j :: j in ids ==> j >= id)
  {
    var v := Padded(ids, length);
    if id in ids {
      var i :| 0 <= i < |ids| && ids[i] == id;
      assert v[i] == id;
      if i < |ids| - 1 {
        assert v[i + 1] == ids[i + 1] && ids[i + 1] in ids;
      }
    }
  }

  /** Two ids of which the newer one is deleted first make it fail. */
  lemma OutOfOrderDeleteFails()
    ensures !DeleteAssert(Padded([2, 1], 2), 2)
  {
    assert Padded([2, 1], 2)[0] == 2 && Padded([2, 1], 2)[1] == 1;
  }

  lemma PushedNewest(ids: seq<int>, length: nat, id: int)
    requires length > 0 && Newest(ids) && |ids| <= length && id >= 0 && forall j :: j in ids ==> j < id
    ensures Newest(Pushed(ids, length, id)) && 0 < |Pushed(ids, length, id)| <= length
  {
    assert forall i :: 0 <= i < |ids| ==> ids[i] in ids;
  }

  /** Under the assert exactly the id is lost, and the others keep their order. */
  lemma PoppedIs(ids: seq<int>, id: int)
    requires OnlyLast(ids, id)
    ensures Popped(ids, id) <= ids && forall j :: j in Popped(ids, id) <==> j in ids && j != id
  {}

  /** The id is in the value at most once, and then at the end. */
  predicate OnlyLast(ids: seq<int>, id: int) {
    forall i :: 0 <= i < |ids| - 1 ==> ids[i] != id
  }

  lemma OldestLeaves(ids: seq<int>, id: int)
    requires Newest(ids) && (id in ids ==> forall j :: j in ids ==> j >= id)
    ensures OnlyLast(ids, id)
  {
    if id in ids {
      var i :| 0 <= i < |ids| && ids[i] == id;
      assert ids[|ids| - 1] in ids;
    }
  }

  /** Whatever the order of the ids, the assert holds exactly when the id is in the last place only. */
  lemma AssertIsOnlyLast(ids: seq<int>, length: nat, id: int)
    requires |ids| <= length && id >= 0 && forall i :: 0 <= i < |ids| ==> ids[i] >= 0
    ensures DeleteAssert(Padded(ids, length), id) <==> OnlyLast(ids, id)
  {
    var v := Padded(ids, length);
    if i :| 0 <= i < |ids| - 1 && ids[i] == id {
      assert v[i] == id && v[i + 1] == ids[i + 1];
    } else {
      assert forall i :: 0 <= i < |v| && v[i] == id ==> i == |ids| - 1;
    }
  }

  /** The search of kvstore_htable_delete through one value. */
  method ClearId(value: seq<int>, ghost mine: seq<int>, id: int) returns (r: seq<int>)
    requires Represents(value, mine, |value|) && id >= 0 && OnlyLast(mine, id)
    ensures r == Padded(Popped(mine, id), |value|)
  {
    AssertIsOnlyLast(mine, |value|, id);
    r := value;
    var i := 0;
    while i < |value| && value[i] != id
      invariant 0 <= i <= |value|
      invariant forall j :: 0 <= j < i ==> value[j] != id
    {
      i := i + 1;
    }
    if i < |value| {
      assert i == |value| - 1 || value[i + 1] == TEMPORARY_ID;
      assert i < |mine| && mine[i] == id;
      r := value[i := TEMPORARY_ID];
      assert r == Padded(mine[..|mine| - 1], |value|);
    } else {
      assert forall j :: 0 <= j < |mine| ==> mine[j] == value[j];
    }
  }

  ghost predicate Represents(value: seq<int>, ids: seq<int>, length: nat) {
    0 < |ids| <= length && (forall i :: 0 <= i < |ids| ==> ids[i] >= 0) && value == Padded(ids, length)
  }

  lemma PushedRepresents(mine: seq<int>, length: nat, id: int, value: seq<int>, shifted: seq<int>)
    requires |mine| <= length == |shifted| && 0 < length && id >= 0 && (forall i :: 0 <= i < |mine| ==> mine[i] >= 0)
    requires value == Padded(mine, length) && shifted[0] == id && forall j :: 0 < j < length ==> shifted[j] == value[j - 1]
    ensures Represents(shifted, Pushed(mine, length, id), length)
  {
    assert shifted == Padded(Pushed(mine, length, id), length);
  }

  lemma PoppedRepresents(mine: seq<int>, id: int, value: seq<int>, length: nat)
    requires 0 < |mine| <= length && (forall i :: 0 <= i < |mine| ==> mine[i] >= 0) && OnlyLast(mine, id)
    requires value == Padded(Popped(mine, id), length)
    ensures var left := Popped(mine, id);
      id !in left && (value[0] == TEMPORARY_ID <==> left == []) && (left != [] ==> Represents(value, left, length))
  {}

  class Table {
    const length: nat
    var table: map<Key, seq<int>>
    ghost var ids: map<Key, seq<int>>

    ghost predicate Valid()
      reads this
    {
      && length > 0
      && table.Keys == ids.Keys
      && forall k :: k in ids ==> Represents(table[k], ids[k], length)
    }

    /** Every value lists its ids newest first, as it does when ids are entered in increasing order. */
    ghost predicate Ordered()
      reads this
    {
      forall k :: k in ids ==> Newest(ids[k])
    }

    ghost function Ids(key: Key): seq<int>
      reads this
    {
      if key in ids then ids[key] else []
    }

    constructor (valueLength: nat)
      requires valueLength > 0
      ensures Valid() && Ordered() && length == valueLength && ids == map[]
    {
      length, table, ids := valueLength, map[], map[];
    }

    method Lookup(key: Key) returns (value: Option<seq<int>>)
      requires Valid()
      ensures value.None? <==> Ids(key) == []
      ensures value.Some? ==> value.value == Padded(Ids(key), length) && value.value[0] == Ids(key)[0]
    {
      value := if key in table then Some(table[key]) else None;
    }

    method Update(key: Key, id: int)
      requires Valid() && id >= 0
      modifies this
      ensures Valid() && ids == old(ids)[key := Pushed(old(Ids(key)), length, id)]
      ensures var before := if key in old(table) then old(table)[key] else seq(length, _ => TEMPORARY_ID);
        table == old(table)[key := [id] + before[..length - 1]]
      ensures old(Ordered()) && (forall j :: j in old(Ids(key)) ==> j < id) ==> Ordered()
    {
      var value := if key in table then table[key] else seq(length, _ => TEMPORARY_ID);
      ghost var mine := Ids(key);
      assert value == Padded(mine, length) && forall i :: 0 <= i < |mine| ==> mine[i] >= 0;
      var shifted := value;
      var i := length - 1;
      while i > 0
        invariant 0 <= i < length == |shifted|
        invariant forall j :: i < j < length ==> shifted[j] == value[j - 1]
        invariant forall j :: 0 <= j <= i ==> shifted[j] == value[j]
      {
        shifted := shifted[i := shifted[i - 1]];
        i := i - 1;
      }
      shifted := shifted[0 := id];
      assert shifted == [id] + value[..length - 1];
      PushedRepresents(mine, length, id, value, shifted);
      table := table[key := shifted];
      ids := ids[key := Pushed(mine, length, id)];
      if Newest(mine) && forall j :: j in mine ==> j < id { PushedNewest(mine, length, id); }
    }

    /** With the assert, the id that leaves is the oldest one; an empty value leaves the table. */
    method Delete(key: Key, id: int)
      requires Valid() && id >= 0 && OnlyLast(Ids(key), id)
      modifies this
      ensures Valid() && (old(Ordered()) ==> Ordered())
      ensures var left := Popped(old(Ids(key)), id);
        id !in left && ids == if left == [] then old(ids) - {key} else old(ids)[key := left]
    {
      if key !in table { return; }
      ghost var mine := ids[key];
      var value := ClearId(table[key], mine, id);
      ghost var left := Popped(mine, id);
      PoppedRepresents(mine, id, value, length);
      if value[0] == TEMPORARY_ID {
        table, ids := table - {key}, ids - {key};
      } else {
        table, ids := table[key := value], ids[key := left];
      }
    }
  }

  // ---- one key while do_delete walks the reclaimed containers

  /** Deletions in some order; None when an assert fires. */
  function Removing(ids: seq<int>, length: nat, order: seq<int>): Option<seq<int>>
    requires |ids| <= length
  {
    if order == [] then Some(ids)
    else if !DeleteAssert(Padded(ids, length), order[0]) then None
    else Removing(Popped(ids, order[0]), length, order[1..])
  }

  predicate AllIn(order: seq<int>, gone: set<int>) {
    forall id :: id in order ==> id in gone
  }

  /** The hash table of reclaimed containers may be walked in any order: no assert fires whatever the order if
      and only if a value has no reclaimed id besides its oldest. */
  lemma AnyOrderIff(ids: seq<int>, length: nat, gone: set<int>)
    requires Newest(ids) && |ids| <= length && forall id :: id in gone ==> id >= 0
    ensures (forall order :: AllIn(order, gone) ==> Removing(ids, length, order).Some?)
       <==> (forall i :: 0 <= i < |ids| - 1 ==> ids[i] !in gone)
  {
    if forall i :: 0 <= i < |ids| - 1 ==> ids[i] !in gone {
      forall order: seq<int> | AllIn(order, gone) ensures Removing(ids, length, order).Some? {
        OldestGoes(ids, length, gone, order);
      }
    } else {
      var i :| 0 <= i < |ids| - 1 && ids[i] in gone;
      AssertIsOnlyLast(ids, length, ids[i]);
      var order := [ids[i]];
      assert Removing(ids, length, order).None?;
      assert AllIn(order, gone);
    }
  }

  lemma {:induction false} OldestGoes(ids: seq<int>, length: nat, gone: set<int>, order: seq<int>)
    requires Newest(ids) && |ids| <= length && (forall id :: id in gone ==> id >= 0)
    requires (forall i :: 0 <= i < |ids| - 1 ==> ids[i] !in gone) && AllIn(order, gone)
    ensures Removing(ids, length, order).Some?
  {
    if order != [] {
      assert order[0] in order;
      AssertIsOnlyLast(ids, length, order[0]);
      OldestGoes(Popped(ids, order[0]), length, gone, order[1..]);
    }
  }

  /** With values of length one, as physical locality uses the store, every order is safe. */
  lemma LengthOneNeverAsserts(ids: seq<int>, order: seq<int>)
    requires Newest(ids) && |ids| <= 1 && forall id :: id in order ==> id >= 0
    ensures Removing(ids, 1, order).Some?
  {
    OldestGoes(ids, 1, (set id | id in order), order);
  }

  // ---- one key under FIFO deletion

  datatype Op = Insert(id: int) | Remove(id: int)

  function After(length: nat, ops: seq<Op>): seq<int> {
    if ops == [] then []
    else
      var before, op := After(length, ops[..|ops| - 1]), ops[|ops| - 1];
      match op
      case Insert(id) => Pushed(before, length, id)
      case Remove(id) => Popped(before, id)
  }

  /** Ids are inserted in increasing order; when one is removed, every older one has been removed. */
  ghost predicate InOrder(ops: seq<Op>) {
    && (forall n, m :: 0 <= m < n < |ops| && ops[n].Insert? && ops[m].Insert? ==> ops[m].id < ops[n].id)
    && (forall n :: 0 <= n < |ops| && ops[n].Insert? ==> ops[n].id >= 0 && Remove(ops[n].id) !in ops[..n])
    && (forall n, m :: 0 <= m < n < |ops| && ops[n].Remove? && ops[m].Insert? && ops[m].id < ops[n].id ==>
          Remove(ops[m].id) in ops[..n])
  }

  lemma InOrderPrefix(ops: seq<Op>, n: nat)
    requires InOrder(ops) && n <= |ops|
    ensures InOrder(ops[..n])
  {
    forall k | 0 <= k < n ensures ops[..n][..k] == ops[..k] {}
  }

  /** Under FIFO order the value holds only ids that were inserted and not yet removed, newest first, and
      the assert of every removal holds. */
  lemma {:induction false} FifoNeverAsserts(length: nat, ops: seq<Op>)
    requires length > 0 && InOrder(ops)
    ensures var ids := After(length, ops);
      Newest(ids) && |ids| <= length && (forall j :: j in ids ==> Insert(j) in ops && Remove(j) !in ops)
    ensures ops != [] && ops[|ops| - 1].Remove? ==>
      var id := ops[|ops| - 1].id;
      var before := After(length, ops[..|ops| - 1]);
      |before| <= length && (id >= 0 ==> DeleteAssert(Padded(before, length), id))
  {
    if ops != [] {
      var n := |ops| - 1;
      InOrderPrefix(ops, n);
      FifoNeverAsserts(length, ops[..n]);
      var before, id := After(length, ops[..n]), ops[n].id;
      forall j | j in before ensures if ops[n].Insert? then j < id else j >= id {
        var m :| 0 <= m < n && ops[m] == Insert(j);
      }
      assert ops == ops[..n] + [ops[n]];
      if ops[n].Insert? {
        PushedNewest(before, length, id);
      } else {
        FifoRemove(before, length, id);
      }
    }
  }

  lemma FifoRemove(before: seq<int>, length: nat, id: int)
    requires Newest(before) && |before| <= length && forall j :: j in before ==> j >= id
    ensures id >= 0 ==> DeleteAssert(Padded(before, length), id)
    ensures Newest(Popped(before, id)) && forall j :: j in Popped(before, id) ==> j in before && j != id
  {
    if id >= 0 { DeleteAssertIff(before, length, id); }
    OldestLeaves(before, id);
  }
}
