/** The usage example and the unit tests of fast-map, as clients of the model:
    each method builds a map the way the test declares it, runs the same
    calls, and promises the outcomes the test asserts. */
module Scenarios {
  import opened Runtime
  import Wrapper
  import Accessors

  datatype Letter = A | B | C | D

  // The lemmas below establish the concrete facts the scenarios rely on (which
  // slot a key dispatches to, what a literal row of slots yields), each on its
  // own, so that the scenario methods only chain them and stay cheap to verify.

  lemma OccupiedBC()
    ensures Occupied([None, Some("B"), Some("C"), None]) == ["B", "C"]
  {
    var row := [None, Some("B"), Some("C"), None];
    assert Occupied(row[3..]) == [];
    assert Occupied(row[2..]) == ["C"];
    assert Occupied(row[1..]) == ["B", "C"];
  }

  lemma OccupiedX()
    ensures Occupied([Some("x"), None, None]) == ["x"]
  {
    var row := [Some("x"), None, None];
    assert Occupied(row[2..]) == [];
    assert Occupied(row[1..]) == [];
  }

  lemma OccupiedNone()
    ensures Occupied<string>([None, None, None]) == []
  {
    var row: seq<Option<string>> := [None, None, None];
    assert Occupied(row[2..]) == [];
    assert Occupied(row[1..]) == [];
  }

  lemma OccupiedTwoThree()
    ensures Occupied([None, Some("2"), Some("3")]) == ["2", "3"]
  {
    var row := [None, Some("2"), Some("3")];
    assert Occupied(row[2..]) == ["3"];
    assert Occupied(row[1..]) == ["2", "3"];
  }

  /** Under the keys A, B, C, D, the keys B and C dispatch to slots 1 and 2. */
  lemma DispatchLetters()
    ensures Accessors.IndexOf([A, B, C, D], B) == Some(1)
    ensures Accessors.IndexOf([A, B, C, D], C) == Some(2)
  {
    assert [A, B, C, D][1..] == [B, C, D];
    assert [B, C, D][1..] == [C, D];
  }

  /** The crate-level usage example: four enum keys in a four-slot container,
      used through the easy adapters. */
  method UsageExample() returns (gotB: Option<string>, gotC: Option<string>, count: nat)
    ensures gotB == Some("B") && gotC == None && count == 2
  {
    var foo := new Wrapper.FastMap<Letter, string>([A, B, C, D], 4);
    DispatchLetters();
    assert foo.slots[..] == [None, None, None, None];
    var _ := foo.EasyInsert(B, "B");
    assert foo.slots[..] == [None, Some("B"), None, None];
    gotB := foo.EasyGet(B);
    gotC := foo.EasyGet(C);
    var _ := foo.EasyInsert(C, "C");
    assert foo.slots[..] == [None, Some("B"), Some("C"), None];
    var it := foo.Values();
    assert foo.slots[..][..4] == [None, Some("B"), Some("C"), None];
    OccupiedBC();
    var all := Collect(it);
    count := |all|;
  }

  /** `it_works`: the same keys in a 64-slot container, strict accessors;
      `values` counts only the declared keys' slots. */
  method ItWorks() returns (inserted: Result<Option<string>, Error>, gotB: Result<Option<string>, Error>,
                            gotC: Result<Option<string>, Error>, insertedC: Result<Option<string>, Error>,
                            count: nat)
    ensures inserted == Ok(None) && insertedC == Ok(None)
    ensures gotB == Ok(Some("B")) && gotC == Ok(None) && count == 2
  {
    var foo := new Wrapper.FastMap<Letter, string>([A, B, C, D], 64);
    DispatchLetters();
    ghost var empty := foo.slots[..];
    inserted := foo.Insert(B, "B");
    assert foo.slots[..] == empty[1 := Some("B")];
    gotB := foo.Get(B);
    gotC := foo.Get(C);
    insertedC := foo.Insert(C, "C");
    assert foo.slots[..] == empty[1 := Some("B")][2 := Some("C")];
    assert empty[0] == None && empty[3] == None;
    var it := foo.Values();
    assert foo.slots[..][..4] == [None, Some("B"), Some("C"), None];
    OccupiedBC();
    var all := Collect(it);
    count := |all|;
  }

  /** Under the keys "x", "y", "z", the key "x" dispatches to slot 0. */
  lemma DispatchX()
    ensures Accessors.Insert(["x", "y", "z"], [None, None, None], "x", "x")
      == Accessors.Step(Ok(None), [Some("x"), None, None])
    ensures Accessors.Remove(["x", "y", "z"], [Some("x"), None, None], "x")
      == Accessors.Step(Ok(Some("x")), [None, None, None])
  {
    var keys := ["x", "y", "z"];
    assert Accessors.IndexOf(keys, "x") == Some(0);
    var row: seq<Option<string>> := [None, None, None];
    assert row[0 := Some("x")] == [Some("x"), None, None];
    assert [Some("x"), None, None][0 := None] == row;
  }

  /** `it_works_2`: string keys; what is inserted under "x" comes back out of
      `remove`, after which nothing is left. */
  method ItWorks2() returns (countBefore: nat, removed: Option<string>, after: seq<string>)
    ensures countBefore == 1 && removed == Some("x") && after == []
  {
    var foo := new Wrapper.FastMap<string, string>(["x", "y", "z"], 3);
    assert foo.slots[..] == [None, None, None];
    DispatchX();
    var _ := foo.EasyInsert("x", "x");
    var it := foo.Values();
    assert foo.slots[..][..3] == [Some("x"), None, None];
    OccupiedX();
    var before := Collect(it);
    countBefore := |before|;
    removed := foo.EasyRemove("x");
    it := foo.Values();
    assert foo.slots[..][..3] == [None, None, None];
    OccupiedNone();
    after := Collect(it);
  }

  /** `it_works_3`: integer keys, through the strict accessors the derived
      type has; the test ignores every outcome. Inserting under the undeclared
      key 4 reports `KeyNotFound`, and after removing key 1 the values are
      those of 2 and 3. */
  method ItWorks3() returns (ignored: Result<Option<string>, Error>, after: seq<string>)
    ensures ignored == Err(KeyNotFound) && after == ["2", "3"]
  {
    var foo := new Wrapper.FastMap<int, string>([1, 2, 3], 3);
    assert foo.slots[..] == [None, None, None];
    var _ := foo.Insert(1, "1");
    assert foo.slots[..] == [Some("1"), None, None];
    var _ := foo.Insert(2, "2");
    assert foo.slots[..] == [Some("1"), Some("2"), None];
    var _ := foo.Insert(3, "3");
    assert foo.slots[..] == [Some("1"), Some("2"), Some("3")];
    ignored := foo.Insert(4, "4");
    assert foo.slots[..] == [Some("1"), Some("2"), Some("3")];
    var _ := foo.Remove(1);
    assert foo.slots[..] == [None, Some("2"), Some("3")];
    var it := foo.Values();
    assert foo.slots[..][..3] == [None, Some("2"), Some("3")];
    OccupiedTwoThree();
    after := Collect(it);
  }
}
