# fast-map, modelled in Dafny

fast-map gives a Rust struct map-like accessors over a fixed set of keys
that are known when the type is declared. The struct wraps a container
with a fixed number of `Option<T>` slots. The `FastMap` derive reads the
`#[fast_map(keys(...), crate_name = "...", infallible = ...)]` attribute
and binds declared key i to slot i. It then emits `get`, `get_mut`,
`insert`, `remove` and `values`. Each of `get`, `get_mut`, `insert` and
`remove` is one `match` on the key: its arms are the declared keys in
order, and a catch-all arm yields `KeyNotFound`. `values` has no match: it
walks the declared keys' slots in order.

The model has five modules:

- `Runtime` (runtime.dfy) models the runtime crate. It holds the
  one-variant `Error`, the `Values` iterator and its `next` loop, and
  `Flatten`. `Flatten` is the `.ok().and_then(|x| x)` that the easy
  `MapLike` defaults apply to a strict outcome.
- `Accessors` (accessors.dfy) gives the meaning of the emitted code as
  pure functions over the key list and the slot row. `IndexOf` is the
  ordered match: it finds the first declared key equal to the incoming
  one. The lemmas state the round-trip, swap, frame, unknown-key and
  `values` properties.
- `Wrapper` (wrapper.dfy) is the derived struct, written as a class. The
  keys are a `seq` and the container's slots are an `array<Option<T>>`,
  which may hold more slots than there are keys. The class has:
  - the strict accessors, proved against `Accessors`;
  - the infallible accessors, which unwrap the strict result and so
    require a declared key (the source panics on any other key);
  - the easy adapters, which flatten the strict result.
- `Derive` (derive.dfy) models the derive's reading of the item as a pure
  function over a small syntax of attributes and field types. The result
  is either the shape error or the key list, the crate name and the
  `infallible` flag.
- `Scenarios` (scenarios.dfy) holds the crate's usage example and its
  three unit tests, written as verified client methods.

The derive emits inherent methods, one of two sets, depending on the
`infallible` flag. `Wrapper.FastMap` carries both sets; `Derive.Derived.infallible`
records which set a declaration gets. The easy adapters are modelled the way
the easy trait's default methods define them: on top of the strict accessors.
A derived type does not in fact receive them (see "## Left out").

## Model

| member | source | states |
|---|---|---|
| Derive.DeriveInner | fast-map-derive/src/lib.rs:20-116 | the derive fails with the shape message exactly when the shape check finds no container; on success it keeps the item's name, takes the container's two arguments as key and value types, binds the declared keys, names a crate that is an identifier, and is infallible exactly when the first `infallible` option says `true` |
| Derive.WrappedTypes | fast-map-derive/src/lib.rs:28-48 | types are found only for a struct with exactly one unnamed field whose type is a non-empty path |
| Derive.MetaItems | fast-map-derive/src/lib.rs:73-77 | the meta items of a list are exactly its entries that are meta items, never more than the entries |
| Derive.AttributeOptions | fast-map-derive/src/lib.rs:64-77 | only a parsed `fast_map(...)` list contributes options, and such a list contributes exactly the meta items among its entries |
| Derive.OptionsOfOneAttribute | fast-map-derive/src/lib.rs:64-116 | a single `fast_map(...)` attribute's options are all the meta items of its list, in order, so its crate name and `infallible` flag are the first ones among them |
| Derive.OptionsOrigin | fast-map-derive/src/lib.rs:64-77 | the options are exactly what the attributes contribute: every option comes from some attribute's `fast_map(...)` list, every attribute's contribution is among the options, and attributes contributing nothing give no options |
| Derive.KeyEntries | fast-map-derive/src/lib.rs:79-87 | every key entry comes from some `keys(...)` option, and without such an option there is no key |
| Derive.DeclaredKeys | fast-map-derive/src/lib.rs:79-87 | every declared key is an entry of a `keys(...)` option of the item's `fast_map(...)` attributes |
| Derive.FirstCrateName | fast-map-derive/src/lib.rs:89-102 | a crate name found is a `crate_name = "..."` option present in the list, and none is found exactly when no such option is present |
| Derive.FirstInfallible | fast-map-derive/src/lib.rs:104-116 | a flag found is an `infallible = <bool>` option present in the list, and none is found exactly when no such option is present |
| Derive.WrappedTypesExactly | fast-map-derive/src/lib.rs:28-48 | the shape check finds key and value types (k, v) exactly when the item is a struct with one unnamed field whose type path ends in a segment with exactly the two angle-bracketed arguments k, v |
| Derive.DeriveRejectsExactlyBadShapes | fast-map-derive/src/lib.rs:28-55 | the derive fails with "`FastMap` can only be derived on a `MapX` wrapping struct" exactly when the item wraps no two-argument container; on success its key and value types are the container's two arguments |
| Derive.MisshapenItemsRejected | fast-map-derive/src/lib.rs:28-55 | a second field, a named field, or a container with one type argument is refused with the shape message |
| Derive.MetaItemsAppend | fast-map-derive/src/lib.rs:73-77 | dropping the bare literals of a `fast_map(...)` list distributes over concatenation, so item order is kept |
| Derive.OptionsAppend | fast-map-derive/src/lib.rs:64-77 | the options gathered from a list of attributes are those of each attribute, in attribute order |
| Derive.KeyEntriesAppend | fast-map-derive/src/lib.rs:79-87 | the entries of `keys(...)` lists are gathered in option order |
| Derive.DeclaredKeysAppend | fast-map-derive/src/lib.rs:64-87 | the declared keys of several attributes are each attribute's keys, concatenated in attribute order |
| Derive.DeclaredKeysOfOneAttribute | fast-map-derive/src/lib.rs:64-87 | within one `fast_map(...)` attribute the keys are the entries of its `keys(...)` lists; bare literals among its options are skipped |
| Derive.KeysListIsDeclared | fast-map-derive/src/lib.rs:79-87 | `fast_map(keys(k0, k1, ...))` declares exactly k0, k1, ... in that order |
| Derive.FirstCrateNameAppend | fast-map-derive/src/lib.rs:89-102 | the first `crate_name = "..."` string literal wins; later ones are never read |
| Derive.FirstInfallibleAppend | fast-map-derive/src/lib.rs:104-116 | the first `infallible = <bool>` literal wins; later ones are never read |
| Derive.OtherLiteralKindsIgnored | fast-map-derive/src/lib.rs:89-116 | `crate_name` with a literal that is not a string, and `infallible` with a literal that is not a boolean, are skipped |
| Derive.DefaultsWhenUnset | fast-map-derive/src/lib.rs:89-116 | for an accepted item without a `crate_name` option the derive succeeds with crate name `fast_map` and the declared keys, and without an `infallible` option it is strict |
| Derive.NamedCrateAccepted | fast-map-derive/src/lib.rs:89-116 | for an accepted item whose first `crate_name` is an identifier, the derive succeeds with that crate name, the declared keys, and infallible mode exactly when the first `infallible` option says `true` |
| Derive.BadCrateNamePanics | fast-map-derive/src/lib.rs:100-102 | the first crate name is turned into an identifier; a string that is not one makes the derive panic, and only then does it fail |
| Derive.ItWorksDerivation | src/lib.rs:152-154 | the test's declaration derives a strict map over `A::A`..`A::D` in that order, over key type `A` and value type `String`, with crate name `crate` |
| Accessors.IndexOf | fast-map-derive/src/lib.rs:209-212 | the arm a key falls into is the first declared key equal to it; there is none exactly when the key is not declared |
| Accessors.Get | fast-map-derive/src/lib.rs:118-126 | `get` yields `Ok` of the first matching key's slot, and `Err(KeyNotFound)` exactly for an undeclared key |
| Accessors.GetMut | fast-map-derive/src/lib.rs:128-136 | `get_mut` points into the first matching key's slot when it is occupied, yields `Ok(None)` when it is vacant, and `Err(KeyNotFound)` exactly for an undeclared key |
| Accessors.Insert | fast-map-derive/src/lib.rs:138-146 | `insert` returns the previous contents of the first matching key's slot, fills that slot and no other, and for an undeclared key returns `Err(KeyNotFound)` and changes nothing |
| Accessors.Remove | fast-map-derive/src/lib.rs:148-156 | `remove` returns the previous contents of the first matching key's slot, empties that slot and no other, and for an undeclared key returns `Err(KeyNotFound)` and changes nothing |
| Accessors.InsertThenGet | fast-map-derive/src/lib.rs:222-228 | after `insert(k, v)` on a declared key, `get(k)` is `Ok(Some(v))` |
| Accessors.InsertTwice | fast-map-derive/src/lib.rs:143 | a second `insert(k, v2)` returns the `v1` of the first (a swap), and `get(k)` then yields `v2` |
| Accessors.InsertKeepsOtherKeys | fast-map-derive/src/lib.rs:138-146 | an insert leaves every key dispatched to another slot reading as before |
| Accessors.RemoveAfterInsert | fast-map-derive/src/lib.rs:230-235 | removing what was just inserted returns it, and `get` then yields `Ok(None)` |
| Accessors.RemoveTwice | fast-map-derive/src/lib.rs:153 | a second `remove` returns `Ok(None)` and changes nothing |
| Accessors.UnknownKeyChangesNothing | fast-map-derive/src/lib.rs:208-235 | for an undeclared key every strict accessor returns `Err(KeyNotFound)` and no slot changes |
| Accessors.GetMutAgreesWithGet | fast-map-derive/src/lib.rs:215-220 | `get_mut` fails, finds nothing, or points at a value exactly as `get` does for the same key |
| Accessors.DuplicateKeyIsShadowed | fast-map-derive/src/lib.rs:118-126 | a later duplicate of a declared key is never dispatched to, so its slot is never written |
| Accessors.Values | fast-map-derive/src/lib.rs:158-165 | `values` yields at most one item per declared key |
| Accessors.ValuesCount | fast-map-derive/src/lib.rs:158-165 | `values` yields one item per occupied slot among the slots of the declared keys |
| Accessors.ValuesIgnoreSpareSlots | fast-map-derive/src/lib.rs:158-165 | `values` reads only the declared keys' slots; slots beyond them in a larger container do not matter |
| Accessors.ValuesMembership | fast-map-derive/src/lib.rs:158-165 | `values` yields v exactly when some declared key's slot holds v |
| Accessors.InsertIntoVacantSlot | fast-map-derive/src/lib.rs:143 | inserting into a vacant slot adds the value to `values` at that slot's place in declaration order, and the count grows by one |
| Accessors.RemoveFromOccupiedSlot | fast-map-derive/src/lib.rs:153 | removing from an occupied slot drops exactly its value from `values`, and the count shrinks by one |
| Accessors.EasyConflatesUnknownAndVacant | src/lib.rs:93-95 | the easy `get` yields `None` exactly when the key is undeclared or its slot is vacant |
| Wrapper.FastMap.constructor | build.rs:19-27 | a default container of the given capacity has every slot empty |
| Wrapper.FastMap.Get | fast-map-derive/src/lib.rs:208-213 | strict `get` returns `Accessors.Get` of the current slots and changes nothing |
| Wrapper.FastMap.GetMut | fast-map-derive/src/lib.rs:215-220 | strict `get_mut` returns `Accessors.GetMut` of the current slots and changes nothing |
| Wrapper.FastMap.Insert | fast-map-derive/src/lib.rs:222-228 | strict `insert` returns the result of `Accessors.Insert` and leaves exactly its row in the slots |
| Wrapper.FastMap.Remove | fast-map-derive/src/lib.rs:230-235 | strict `remove` returns the result of `Accessors.Remove` and leaves exactly its row in the slots |
| Wrapper.FastMap.Values | fast-map-derive/src/lib.rs:237-239 | `values` returns a fresh iterator that will yield `Accessors.Values` of the current slots |
| Wrapper.FastMap.InfallibleGet | fast-map-derive/src/lib.rs:170-175 | for a declared key, infallible `get` returns the bare outcome of strict `get` |
| Wrapper.FastMap.InfallibleGetMut | fast-map-derive/src/lib.rs:177-182 | for a declared key, infallible `get_mut` returns the bare outcome of strict `get_mut` |
| Wrapper.FastMap.InfallibleInsert | fast-map-derive/src/lib.rs:184-189 | for a declared key, infallible `insert` returns the bare outcome of strict `insert` and updates the slots as it does |
| Wrapper.FastMap.InfallibleRemove | fast-map-derive/src/lib.rs:191-196 | for a declared key, infallible `remove` returns the bare outcome of strict `remove` and updates the slots as it does |
| Wrapper.FastMap.EasyGet | src/lib.rs:93-95 | easy `get` is strict `get` flattened; an undeclared key reads as `None` |
| Wrapper.FastMap.EasyInsert | src/lib.rs:97-99 | easy `insert` is strict `insert` flattened; an undeclared key returns `None` and changes nothing |
| Wrapper.FastMap.EasyRemove | src/lib.rs:101-103 | easy `remove` is strict `remove` flattened; an undeclared key returns `None` and changes nothing |
| Runtime.ErrorIsKeyNotFound | src/lib.rs:38-50 | `Error` has the single variant `KeyNotFound`, which displays as "Key not found" |
| Runtime.Flatten | src/lib.rs:93-103 | the flattened outcome is `Some(v)` exactly when the strict outcome is `Ok(Some(v))`; `Err` and `Ok(None)` both become `None` |
| Runtime.Values.constructor | src/lib.rs:61-66 | a new iterator will yield the occupied entries of the list it wraps |
| Runtime.Values.Next | src/lib.rs:68-85 | `next` skips vacant entries and returns the next occupied entry's value, or `None` once no occupied entry is left; what remains to be yielded loses exactly that value |
| Runtime.Occupied | src/lib.rs:68-85 | what iteration over a list of entries yields is never longer than the list |
| Runtime.Collect | src/lib.rs:31 | `collect` gathers exactly what the iterator still had to yield, in order, and leaves it exhausted |
| Runtime.OccupiedAppend | src/lib.rs:68-85 | what iteration yields over two lists run one after the other is what it yields over each, in order |
| Runtime.OccupiedLength | src/lib.rs:68-85 | iteration yields one value per occupied entry: only the vacant entries are dropped |
| Runtime.OccupiedMembership | src/lib.rs:68-85 | iteration yields v exactly when some entry holds `Some(v)` |
| Scenarios.UsageExample | src/lib.rs:11-33 | through the easy adapters: after inserting under `A::B`, `get(A::B)` is `Some("B")`, `get(A::C)` is `None`, and after a second insert `values` has two items |
| Scenarios.ItWorks | src/lib.rs:141-167 | with 4 keys in a 64-slot container, strictly: both inserts return `Ok(None)` (so both `unwrap`s succeed), `get(B)` is `Ok(Some("B"))`, `get(C)` is `Ok(None)`, and `values` has two items |
| Scenarios.ItWorks2 | src/lib.rs:169-190 | inserting under "x" gives one value; `remove("x")` returns the inserted value; then `values` is empty |
| Scenarios.ItWorks3 | src/lib.rs:192-210 | strictly: inserting under the undeclared key 4 returns `Err(KeyNotFound)`, which the test ignores; after removing key 1, `values` is exactly `["2", "3"]` |

## Left out

- Token-stream generation is not modelled. This covers the `quote!` output, the `impl` generics split, the `proc_macro` entry point and its `unwrap` (fast-map-derive/src/lib.rs:14-18, 57). The model states what the emitted code means, not its Rust text.
- Declared keys are modelled as values of the key type, compared by equality. Rust reads them as match patterns, so a key written as a lower-case identifier would be a catch-all binding. That case is not modelled.
- `Borrow<K>` on the key argument and the lifetimes of the returned references are left out. The key is passed as a `K`.
- Wrapper.FastMap.GetMut: the exclusive reference is modelled as the position of the occupied slot. A write through that reference is not modelled; `Insert` covers replacing a value.
- The `maps` module is not part of this model. A `MapN<K, T>` container is an array of N `Option<T>` slots. The derive's compile-time requirement that every declared key has a slot becomes the constructor's `requires |keys| <= capacity`.
- The generation of the `Tup1`..`Tup32` definitions (build.rs) is left out, apart from their all-empty default. The benchmarks (benches/all.rs) are left out.
- `Display` is reduced to its message string. The `std::error::Error` impl has no behaviour and is left out.
- Derive.IsIdent accepts ASCII identifiers only. The non-ASCII identifier characters that identifier construction also accepts are not modelled.
- Literal kinds the derive never reads (byte strings, bytes, chars, floats, verbatim) are merged into one `LitOther`. A type that is not a path is `OtherType`. Generic arguments are kept as opaque tokens.
- The derive emits only inherent methods on the struct (fast-map-derive/src/lib.rs:168, 206) and no `strict::MapLike` impl, so the blanket `easy::MapLike` impl (src/lib.rs:110) never applies to a derived type: a derived type gets the strict set or the infallible set, nothing else. In the usage example (src/lib.rs:11-33) and in `it_works_2` (src/lib.rs:169-190), `get` and `remove` therefore resolve to the strict methods, and those tests compare a `Result` with an `Option`, or an `Option` with a `&str`. Scenarios.UsageExample and Scenarios.ItWorks2 follow what these tests evidently intend: they call the easy adapters, which apply `Flatten` to the strict outcome. `it_works_3` (src/lib.rs:192-210) ignores every accessor outcome and compares two lists of values, so it holds as written against the strict methods, and Scenarios.ItWorks3 uses them.
- The easy `MapLike` trait and the strict `MapLike` trait are not modelled as traits. The easy defaults are methods on the class, defined on top of the strict accessors. Easy `values` is the strict `Values` method itself.
- The iterator's lazy, single-pass, borrowed nature is not modelled. `Values` copies the list of the declared keys' slots when it is built, as the emitted `vec![...]` does.
