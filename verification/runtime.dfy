/** Runtime support of fast-map: the one error kind, the iterator over the
    values a map holds, and the flattening that the easy access mode applies
    to the strict outcomes. */
module Runtime {

  datatype Option<T> = None | Some(value: T)

  datatype Result<T, E> = Ok(value: T) | Err(error: E)

  /** The only error: a key equal to none of the declared keys. */
  datatype Error = KeyNotFound

  /** The text an `Error` displays as. */
  function Display(e: Error): string
  {
    match e
    case KeyNotFound => "Key not found"
  }

  lemma ErrorIsKeyNotFound(e: Error)
    ensures e == KeyNotFound && Display(e) == "Key not found"
  {
  }

  /** The values of the occupied entries of `s`, in the order of `s`. */
  function Occupied<T>(s: seq<Option<T>>): (r: seq<T>)
    ensures |r| <= |s|
  {
    if s == [] then []
    else (if s[0].Some? then [s[0].value] else []) + Occupied(s[1..])
  }

  lemma {:induction false} OccupiedAppend<T>(s: seq<Option<T>>, t: seq<Option<T>>)
    ensures Occupied(s + t) == Occupied(s) + Occupied(t)
  {
    if s == [] {
      assert s + t == t;
    } else {
      assert (s + t)[0] == s[0];
      assert (s + t)[1..] == s[1..] + t;
      OccupiedAppend(s[1..], t);
    }
  }

  /** One value per occupied entry: the vacant entries are all that is dropped. */
  lemma {:induction false} OccupiedLength<T>(s: seq<Option<T>>)
    ensures |Occupied(s)| == |s| - multiset(s)[None]
  {
    if s != [] {
      assert s == [s[0]] + s[1..];
      assert multiset(s) == multiset([s[0]]) + multiset(s[1..]);
      OccupiedLength(s[1..]);
    }
  }

  /** A value is yielded exactly when some entry holds it. */
  lemma {:induction false} OccupiedMembership<T>(s: seq<Option<T>>, v: T)
    ensures v in Occupied(s) <==> Some(v) in s
  {
    if s != [] {
      assert s == [s[0]] + s[1..];
      OccupiedMembership(s[1..], v);
    }
  }

  /** Changing one entry changes only that entry's contribution, in place. */
  lemma OccupiedUpdate<T>(s: seq<Option<T>>, i: nat, x: Option<T>)
    requires i < |s|
    ensures Occupied(s[i := x]) == Occupied(s[..i]) + Occupied([x]) + Occupied(s[i + 1..])
  {
    assert s[i := x] == s[..i] + [x] + s[i + 1..];
    OccupiedAppend(s[..i] + [x], s[i + 1..]);
    OccupiedAppend(s[..i], [x]);
  }

  /** Entry i splits the yielded values into those before it, its own, and
      those after it; filling or emptying it only adds or drops its own. */
  lemma OccupiedAround<T>(s: seq<Option<T>>, i: nat, v: T)
    requires i < |s|
    ensures Occupied(s[i := Some(v)]) == Occupied(s[..i]) + [v] + Occupied(s[i + 1..])
    ensures Occupied(s[i := None]) == Occupied(s[..i]) + Occupied(s[i + 1..])
  {
    OccupiedUpdate(s, i, Some(v));
    OccupiedUpdate(s, i, None);
  }

  /** The easy access mode's reading of a strict outcome: an unknown key reads
      as absence, exactly like a declared key whose slot is vacant. */
  function Flatten<T>(r: Result<Option<T>, Error>): (o: Option<T>)
    ensures o.Some? <==> r.Ok? && r.value.Some?
    ensures o.Some? ==> r == Ok(o)
  {
    match r
    case Ok(inner) => inner
    case Err(_) => None
  }

  /** Iterator over existing values. It walks a materialised list of entries
      (the vector the accessors build) and yields the occupied ones. */
  class Values<T> {
    /** The entries the underlying vector iterator has not handed out yet. */
    var rest: seq<Option<T>>

    /** What the iterator has still to yield. */
    ghost function Remaining(): seq<T>
      reads this
    {
      Occupied(rest)
    }

    constructor (entries: seq<Option<T>>)
      ensures rest == entries && Remaining() == Occupied(entries)
    {
      rest := entries;
    }

    /** The next occupied entry's value; vacant entries are skipped, and
        `None` once the entries are exhausted. */
    method Next() returns (r: Option<T>)
      modifies this
      ensures old(Remaining()) == [] ==> r == None && Remaining() == []
      ensures old(Remaining()) != [] ==>
        r == Some(old(Remaining())[0]) && Remaining() == old(Remaining())[1..]
      ensures |rest| <= old(|rest|) && (r.Some? ==> |rest| < old(|rest|))
    {
      while true
        invariant Occupied(rest) == old(Occupied(rest))
        invariant |rest| <= old(|rest|)
        decreases |rest|
      {
        var item: Option<Option<T>>;
        if rest == [] {
          item := None;
        } else {
          item := Some(rest[0]);
          rest := rest[1..];
        }
        match item
        case Some(Some(inner)) =>
          return Some(inner);
        case Some(None) =>
        case None =>
          return None;
      }
    }
  }

  /** Drains an iterator into a list, as `collect::<Vec<_>>()` does. */
  method Collect<T>(it: Values<T>) returns (items: seq<T>)
    modifies it
    ensures items == old(it.Remaining()) && it.Remaining() == []
  {
    items := [];
    while true
      invariant items + it.Remaining() == old(it.Remaining())
      decreases |it.rest|
    {
      var next := it.Next();
      match next
      case None =>
        return;
      case Some(v) =>
        items := items + [v];
    }
  }
}
