/** What the accessors emitted by the `FastMap` derive do, stated over the
    declared key list and the row of slots they act on.

    The derive emits, for each accessor, one `match` on the incoming key whose
    arms are the declared keys in declaration order, arm i touching slot i,
    followed by a catch-all arm that yields `Err(KeyNotFound)`. Match arms are
    tried in order, so a key is served by the FIRST declared key equal to it. */
module Accessors {
  import opened Runtime

  /** Slot i is where key k is dispatched: keys[i] is the first declared key equal to k. */
  ghost predicate FirstMatch<K>(keys: seq<K>, k: K, i: int)
  {
    0 <= i < |keys| && keys[i] == k && forall j :: 0 <= j < i ==> keys[j] != k
  }

  /** The arm a key falls into: the position of the first declared key equal
      to it, or `None` for the catch-all arm. */
  function IndexOf<K(==)>(keys: seq<K>, k: K): (r: Option<nat>)
    ensures r.None? <==> k !in keys
    ensures r.Some? ==> FirstMatch(keys, k, r.value)
  {
    if keys == [] then None
    else if keys[0] == k then Some(0)
    else match IndexOf(keys[1..], k)
      case None => None
      case Some(i) => Some(i + 1)
  }

  /** The outcome of a mutating accessor: what it returns and the row it leaves. */
  datatype Step<T> = Step(result: Result<Option<T>, Error>, row: seq<Option<T>>)

  /** `get`: the contents of the dispatched slot, without changing any slot. */
  function Get<K(==), T>(keys: seq<K>, row: seq<Option<T>>, k: K): (r: Result<Option<T>, Error>)
    requires |keys| <= |row|
    ensures k !in keys <==> r == Err(KeyNotFound)
    ensures forall i {:trigger FirstMatch(keys, k, i)} :: FirstMatch(keys, k, i) ==> r == Ok(row[i])
  {
    match IndexOf(keys, k)
    case None => Err(KeyNotFound)
    case Some(i) => Ok(row[i])
  }

  /** `get_mut`: the exclusive reference into the dispatched slot, modelled by
      that slot's position, present when the slot is occupied. */
  function GetMut<K(==), T>(keys: seq<K>, row: seq<Option<T>>, k: K): (r: Result<Option<nat>, Error>)
    requires |keys| <= |row|
    ensures k !in keys <==> r == Err(KeyNotFound)
    ensures forall i {:trigger FirstMatch(keys, k, i)} :: FirstMatch(keys, k, i) ==>
      r == Ok(if row[i].Some? then Some(i) else None)
  {
    match IndexOf(keys, k)
    case None => Err(KeyNotFound)
    case Some(i) => Ok(if row[i].Some? then Some(i) else None)
  }

  /** `insert`: `Option::replace` on the dispatched slot. */
  function Insert<K(==), T>(keys: seq<K>, row: seq<Option<T>>, k: K, v: T): (s: Step<T>)
    requires |keys| <= |row|
    ensures |s.row| == |row|
    ensures k !in keys <==> s.result == Err(KeyNotFound)
    ensures k !in keys ==> s.row == row
    ensures forall i {:trigger FirstMatch(keys, k, i)} :: FirstMatch(keys, k, i) ==>
      s.result == Ok(row[i]) && s.row[i] == Some(v) &&
      forall j :: 0 <= j < |row| && j != i ==> s.row[j] == row[j]
  {
    match IndexOf(keys, k)
    case None => Step(Err(KeyNotFound), row)
    case Some(i) => Step(Ok(row[i]), row[i := Some(v)])
  }

  /** `remove`: `Option::take` on the dispatched slot. */
  function Remove<K(==), T>(keys: seq<K>, row: seq<Option<T>>, k: K): (s: Step<T>)
    requires |keys| <= |row|
    ensures |s.row| == |row|
    ensures k !in keys <==> s.result == Err(KeyNotFound)
    ensures k !in keys ==> s.row == row
    ensures forall i {:trigger FirstMatch(keys, k, i)} :: FirstMatch(keys, k, i) ==>
      s.result == Ok(row[i]) && s.row[i] == None &&
      forall j :: 0 <= j < |row| && j != i ==> s.row[j] == row[j]
  {
    match IndexOf(keys, k)
    case None => Step(Err(KeyNotFound), row)
    case Some(i) => Step(Ok(row[i]), row[i := None])
  }

  /** `values`: the occupied slots among the first |keys|, in declaration
      order; slots past the declared keys are never looked at. */
  function Values<K, T>(keys: seq<K>, row: seq<Option<T>>): (r: seq<T>)
    requires |keys| <= |row|
    ensures |r| <= |keys|
  {
    Occupied(row[..|keys|])
  }

  /** `values` yields one item per occupied slot of a declared key. */
  lemma ValuesCount<K, T>(keys: seq<K>, row: seq<Option<T>>)
    requires |keys| <= |row|
    ensures |Values(keys, row)| == |keys| - multiset(row[..|keys|])[None]
  {
    OccupiedLength(row[..|keys|]);
  }

  /** Inserting under a declared key and reading it back gives the inserted value. */
  lemma InsertThenGet<K, T>(keys: seq<K>, row: seq<Option<T>>, k: K, v: T)
    requires |keys| <= |row| && k in keys
    ensures Get(keys, Insert(keys, row, k, v).row, k) == Ok(Some(v))
  {
  }

  /** `insert` swaps: a second insert returns what the first one stored. */
  lemma InsertTwice<K, T>(keys: seq<K>, row: seq<Option<T>>, k: K, v1: T, v2: T)
    requires |keys| <= |row| && k in keys
    ensures var once := Insert(keys, row, k, v1).row;
      Insert(keys, once, k, v2).result == Ok(Some(v1)) &&
      Get(keys, Insert(keys, once, k, v2).row, k) == Ok(Some(v2))
  {
  }

  /** An insert leaves every key dispatched to another slot reading as before. */
  lemma InsertKeepsOtherKeys<K, T>(keys: seq<K>, row: seq<Option<T>>, k: K, v: T, other: K)
    requires |keys| <= |row|
    requires IndexOf(keys, other) != IndexOf(keys, k)
    ensures Get(keys, Insert(keys, row, k, v).row, other) == Get(keys, row, other)
  {
  }

  /** Removing what was just inserted returns it and leaves the slot vacant. */
  lemma RemoveAfterInsert<K, T>(keys: seq<K>, row: seq<Option<T>>, k: K, v: T)
    requires |keys| <= |row| && k in keys
    ensures var removed := Remove(keys, Insert(keys, row, k, v).row, k);
      removed.result == Ok(Some(v)) && Get(keys, removed.row, k) == Ok(None)
  {
  }

  /** A second `remove` finds nothing and changes nothing. */
  lemma RemoveTwice<K, T>(keys: seq<K>, row: seq<Option<T>>, k: K)
    requires |keys| <= |row| && k in keys
    ensures var once := Remove(keys, row, k).row;
      Remove(keys, once, k) == Step(Ok(None), once)
  {
  }

  /** An undeclared key falls into the catch-all arm of every accessor: every
      one reports `KeyNotFound` and no slot changes. */
  lemma UnknownKeyChangesNothing<K, T>(keys: seq<K>, row: seq<Option<T>>, k: K, v: T)
    requires |keys| <= |row| && k !in keys
    ensures Get(keys, row, k) == Err(KeyNotFound)
    ensures GetMut(keys, row, k) == Err(KeyNotFound)
    ensures Insert(keys, row, k, v) == Step(Err(KeyNotFound), row)
    ensures Remove(keys, row, k) == Step(Err(KeyNotFound), row)
  {
  }

  /** The reference `get_mut` hands out points at the value `get` reads. */
  lemma GetMutAgreesWithGet<K, T>(keys: seq<K>, row: seq<Option<T>>, k: K)
    requires |keys| <= |row|
    ensures GetMut(keys, row, k).Err? <==> Get(keys, row, k).Err?
    ensures GetMut(keys, row, k) == Ok(None) <==> Get(keys, row, k) == Ok(None)
    ensures GetMut(keys, row, k).Ok? && GetMut(keys, row, k).value.Some? ==>
      var i := GetMut(keys, row, k).value.value;
      i < |row| && Get(keys, row, k) == Ok(row[i])
  {
  }

  /** With a duplicated declared key, the later copy's slot is unreachable:
      the earlier arm always wins, so inserting never touches the later slot. */
  lemma DuplicateKeyIsShadowed<K, T>(keys: seq<K>, row: seq<Option<T>>, i: nat, j: nat, v: T)
    requires |keys| <= |row| && i < j < |keys| && keys[i] == keys[j]
    ensures IndexOf(keys, keys[j]) != Some(j)
    ensures Insert(keys, row, keys[j], v).row[j] == row[j]
  {
  }

  /** `values` depends only on the slots of the declared keys, not on the
      container's capacity. */
  lemma ValuesIgnoreSpareSlots<K, T>(keys: seq<K>, row: seq<Option<T>>, spare: seq<Option<T>>)
    requires |keys| <= |row|
    ensures Values(keys, row + spare) == Values(keys, row)
  {
    assert (row + spare)[..|keys|] == row[..|keys|];
  }

  /** `values` yields a value exactly when a declared key's slot holds it. */
  lemma ValuesMembership<K, T>(keys: seq<K>, row: seq<Option<T>>, v: T)
    requires |keys| <= |row|
    ensures v in Values(keys, row) <==> exists i :: 0 <= i < |keys| && row[i] == Some(v)
  {
    OccupiedMembership(row[..|keys|], v);
    if Some(v) in row[..|keys|] {
      var i :| 0 <= i < |keys| && row[..|keys|][i] == Some(v);
      assert row[i] == Some(v);
    }
    if exists i :: 0 <= i < |keys| && row[i] == Some(v) {
      var i :| 0 <= i < |keys| && row[i] == Some(v);
      assert row[..|keys|][i] == Some(v);
    }
  }

  /** Inserting into a vacant slot adds its value to `values` at that slot's
      place in declaration order. */
  lemma InsertIntoVacantSlot<K, T>(keys: seq<K>, row: seq<Option<T>>, k: K, v: T)
    requires |keys| <= |row| && k in keys && row[IndexOf(keys, k).value].None?
    ensures var i := IndexOf(keys, k).value;
      Values(keys, row) == Occupied(row[..i]) + Occupied(row[i + 1..|keys|]) &&
      Values(keys, Insert(keys, row, k, v).row) ==
        Occupied(row[..i]) + [v] + Occupied(row[i + 1..|keys|])
    ensures |Values(keys, Insert(keys, row, k, v).row)| == |Values(keys, row)| + 1
  {
    var i := IndexOf(keys, k).value;
    var s := row[..|keys|];
    assert Insert(keys, row, k, v).row[..|keys|] == s[i := Some(v)];
    assert s == s[i := None];
    assert s[..i] == row[..i] && s[i + 1..] == row[i + 1..|keys|];
    OccupiedAround(s, i, v);
  }

  /** Removing from an occupied slot drops exactly its value from `values`. */
  lemma RemoveFromOccupiedSlot<K, T>(keys: seq<K>, row: seq<Option<T>>, k: K)
    requires |keys| <= |row| && k in keys && row[IndexOf(keys, k).value].Some?
    ensures var i := IndexOf(keys, k).value;
      Values(keys, row) == Occupied(row[..i]) + [row[i].value] + Occupied(row[i + 1..|keys|]) &&
      Values(keys, Remove(keys, row, k).row) == Occupied(row[..i]) + Occupied(row[i + 1..|keys|])
    ensures |Values(keys, Remove(keys, row, k).row)| == |Values(keys, row)| - 1
  {
    var i := IndexOf(keys, k).value;
    var s := row[..|keys|];
    assert Remove(keys, row, k).row[..|keys|] == s[i := None];
    assert s == s[i := Some(row[i].value)];
    assert s[..i] == row[..i] && s[i + 1..] == row[i + 1..|keys|];
    OccupiedAround(s, i, row[i].value);
  }

  /** The easy mode cannot tell an undeclared key from a declared key whose
      slot is vacant: both read as `None`. */
  lemma EasyConflatesUnknownAndVacant<K, T>(keys: seq<K>, row: seq<Option<T>>, k: K)
    requires |keys| <= |row|
    ensures Flatten(Get(keys, row, k)) == None <==>
      k !in keys || row[IndexOf(keys, k).value].None?
  {
  }
}
