/** A struct deriving `FastMap`: one field wrapping a container of a fixed
    number of `Option` slots, and the accessors the derive emits for it.

    The derive emits one of two accessor sets, chosen by the `infallible`
    flag it parsed: the strict set, whose results carry `KeyNotFound` for an
    undeclared key, or the infallible set, which unwraps that same result and
    so panics on an undeclared key. Both sets are given here; the easy
    adapters sit on top of the strict set. */
module Wrapper {
  import opened Runtime
  import Accessors

  class FastMap<K(==), T> {
    /** The declared keys, in declaration order: key i is bound to slot i. */
    const keys: seq<K>
    /** The container's slots; the container may have more slots than keys. */
    const slots: array<Option<T>>

    ghost predicate Valid()
    {
      |keys| <= slots.Length
    }

    /** `Default::default()`: every slot of a container of `capacity` slots is empty. */
    constructor (keys: seq<K>, capacity: nat)
      requires |keys| <= capacity
      ensures Valid() && this.keys == keys
      ensures fresh(slots) && slots.Length == capacity
      ensures forall i :: 0 <= i < capacity ==> slots[i] == None
    {
      this.keys := keys;
      slots := new Option<T>[capacity](_ => None);
    }

    // ----- strict accessors -----

    method Get(k: K) returns (r: Result<Option<T>, Error>)
      requires Valid()
      ensures r == Accessors.Get(keys, slots[..], k)
    {
      match Accessors.IndexOf(keys, k)
      case None =>
        r := Err(KeyNotFound);
      case Some(i) =>
        r := Ok(slots[i]);
    }

    /** The slot an exclusive reference would point into, when it is occupied. */
    method GetMut(k: K) returns (r: Result<Option<nat>, Error>)
      requires Valid()
      ensures r == Accessors.GetMut(keys, slots[..], k)
    {
      match Accessors.IndexOf(keys, k)
      case None =>
        r := Err(KeyNotFound);
      case Some(i) =>
        r := Ok(if slots[i].Some? then Some(i) else None);
    }

    method Insert(k: K, v: T) returns (r: Result<Option<T>, Error>)
      requires Valid()
      modifies slots
      ensures Accessors.Insert(keys, old(slots[..]), k, v) == Accessors.Step(r, slots[..])
    {
      match Accessors.IndexOf(keys, k)
      case None =>
        r := Err(KeyNotFound);
      case Some(i) =>
        r := Ok(slots[i]);
        slots[i] := Some(v);
    }

    method Remove(k: K) returns (r: Result<Option<T>, Error>)
      requires Valid()
      modifies slots
      ensures Accessors.Remove(keys, old(slots[..]), k) == Accessors.Step(r, slots[..])
    {
      match Accessors.IndexOf(keys, k)
      case None =>
        r := Err(KeyNotFound);
      case Some(i) =>
        r := Ok(slots[i]);
        slots[i] := None;
    }

    /** The same in both modes: an iterator over the declared keys' slots. */
    method Values() returns (it: Runtime.Values<T>)
      requires Valid()
      ensures fresh(it) && it.Remaining() == Accessors.Values(keys, slots[..])
    {
      it := new Runtime.Values(slots[..|keys|]);
    }

    // ----- infallible accessors: the strict outcome, unwrapped -----

    method InfallibleGet(k: K) returns (o: Option<T>)
      requires Valid() && k in keys
      ensures Accessors.Get(keys, slots[..], k) == Ok(o)
    {
      var r := Get(k);
      o := r.value;
    }

    method InfallibleGetMut(k: K) returns (o: Option<nat>)
      requires Valid() && k in keys
      ensures Accessors.GetMut(keys, slots[..], k) == Ok(o)
    {
      var r := GetMut(k);
      o := r.value;
    }

    method InfallibleInsert(k: K, v: T) returns (o: Option<T>)
      requires Valid() && k in keys
      modifies slots
      ensures Accessors.Insert(keys, old(slots[..]), k, v) == Accessors.Step(Ok(o), slots[..])
    {
      var r := Insert(k, v);
      o := r.value;
    }

    method InfallibleRemove(k: K) returns (o: Option<T>)
      requires Valid() && k in keys
      modifies slots
      ensures Accessors.Remove(keys, old(slots[..]), k) == Accessors.Step(Ok(o), slots[..])
    {
      var r := Remove(k);
      o := r.value;
    }

    // ----- easy adapters: the strict outcome, flattened -----

    method EasyGet(k: K) returns (o: Option<T>)
      requires Valid()
      ensures o == Flatten(Accessors.Get(keys, slots[..], k))
      ensures k !in keys ==> o == None
    {
      var r := Get(k);
      o := Flatten(r);
    }

    method EasyInsert(k: K, v: T) returns (o: Option<T>)
      requires Valid()
      modifies slots
      ensures var step := Accessors.Insert(keys, old(slots[..]), k, v);
        o == Flatten(step.result) && slots[..] == step.row
      ensures k !in keys ==> o == None && slots[..] == old(slots[..])
    {
      var r := Insert(k, v);
      o := Flatten(r);
    }

    method EasyRemove(k: K) returns (o: Option<T>)
      requires Valid()
      modifies slots
      ensures var step := Accessors.Remove(keys, old(slots[..]), k);
        o == Flatten(step.result) && slots[..] == step.row
      ensures k !in keys ==> o == None && slots[..] == old(slots[..])
    {
      var r := Remove(k);
      o := Flatten(r);
    }
  }
}
