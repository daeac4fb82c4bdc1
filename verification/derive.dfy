/** The `FastMap` derive's reading of the item it is attached to: the check
    that the item wraps a two-parameter container, and the options of its
    `fast_map(...)` attributes (the key list, the crate name, the infallible
    flag). The syntax is the part of a Rust item the derive inspects. */
module Derive {
  import opened Runtime

  // ----- attributes -----

  /** A path such as `fast_map`, `keys` or `A::B`. */
  datatype Path = Path(leadingColon: bool, segments: seq<string>)

  /** A literal, by kind; kinds the derive never inspects keep only their tokens. */
  datatype Lit =
    | LitStr(text: string)
    | LitBool(flag: bool)
    | LitInt(digits: string)
    | LitOther(tokens: string)

  /** A meta item: a bare path, a parenthesised list, or `path = literal`. */
  datatype Meta =
    | Word(path: Path)
    | List(path: Path, nested: seq<NestedMeta>)
    | NameValue(path: Path, lit: Lit)

  /** An entry of a meta list: a meta item or a bare literal. */
  datatype NestedMeta = Item(meta: Meta) | Literal(lit: Lit)

  /** An outer attribute of the item; `Unparsable` when its tokens do not
      form a meta item. */
  datatype Attribute = Parsed(meta: Meta) | Unparsable

  // ----- the item -----

  /** One generic argument of a path segment: a type, a lifetime or a const, as tokens. */
  datatype GenericArgument = GenericArgument(tokens: string)

  datatype PathArguments =
    | NoArguments
    | AngleBracketed(args: seq<GenericArgument>)
    | Parenthesized(tokens: string)

  datatype PathSegment = PathSegment(ident: string, arguments: PathArguments)

  /** A field's type: a path type such as `fast_map::Map4<A, String>`, or any other type. */
  datatype Type = TypePath(segments: seq<PathSegment>) | OtherType(tokens: string)

  datatype Fields = Named(names: seq<string>) | Unnamed(types: seq<Type>) | Unit

  datatype Data = Struct(fields: Fields) | Enum | Union

  datatype DeriveInput = DeriveInput(name: string, attrs: seq<Attribute>, data: Data)

  // ----- the shape check -----

  /** The key and value arguments of the wrapped container: present when the
      item is a struct with exactly one unnamed field whose type is a path
      whose last segment carries exactly two angle-bracketed arguments. */
  function WrappedTypes(input: DeriveInput): (r: Option<(GenericArgument, GenericArgument)>)
    ensures r.Some? ==> input.data.Struct? && input.data.fields.Unnamed? && |input.data.fields.types| == 1
    ensures r.Some? ==> input.data.fields.types[0].TypePath? && input.data.fields.types[0].segments != []
  {
    match input.data
    case Struct(Unnamed(types)) =>
      if |types| == 1 then
        match types[0]
        case TypePath(segments) =>
          if |segments| > 0 then
            match segments[|segments| - 1].arguments
            case AngleBracketed(args) =>
              if |args| == 2 then Some((args[0], args[1])) else None
            case _ => None
          else None
        case _ => None
      else None
    case _ => None
  }

  /** The item is `struct Name(path::Container<key, value>);` for some path prefix. */
  ghost predicate WrapsContainer(input: DeriveInput, key: GenericArgument, value: GenericArgument)
  {
    exists prefix: seq<PathSegment>, container: string ::
      input.data == Struct(Unnamed([TypePath(prefix + [PathSegment(container, AngleBracketed([key, value]))])]))
  }

  lemma WrappedTypesExactly(input: DeriveInput, key: GenericArgument, value: GenericArgument)
    ensures WrappedTypes(input) == Some((key, value)) <==> WrapsContainer(input, key, value)
  {
    if WrappedTypes(input) == Some((key, value)) {
      var types := input.data.fields.types;
      var segments := types[0].segments;
      var last := segments[|segments| - 1];
      assert last.arguments == AngleBracketed([key, value]);
      var prefix := segments[..|segments| - 1];
      assert segments == prefix + [PathSegment(last.ident, AngleBracketed([key, value]))];
      assert types == [TypePath(prefix + [PathSegment(last.ident, AngleBracketed([key, value]))])];
    }
    if WrapsContainer(input, key, value) {
      var prefix: seq<PathSegment>, container: string :|
        input.data == Struct(Unnamed([TypePath(prefix + [PathSegment(container, AngleBracketed([key, value]))])]));
      var segments := prefix + [PathSegment(container, AngleBracketed([key, value]))];
      assert segments[|segments| - 1] == PathSegment(container, AngleBracketed([key, value]));
    }
  }

  // ----- the `fast_map(...)` options -----

  const FastMapPath := Path(false, ["fast_map"])
  const KeysPath := Path(false, ["keys"])
  const CrateNamePath := Path(false, ["crate_name"])
  const InfalliblePath := Path(false, ["infallible"])

  /** The meta items of a meta list, its bare literals dropped. */
  function MetaItems(nested: seq<NestedMeta>): (r: seq<Meta>)
    ensures |r| <= |nested|
    ensures forall m :: m in r <==> Item(m) in nested
  {
    if nested == [] then []
    else (if nested[0].Item? then [nested[0].meta] else []) + MetaItems(nested[1..])
  }

  /** The options one attribute contributes: the meta items of a `fast_map(...)` list. */
  function AttributeOptions(a: Attribute): (r: seq<Meta>)
    ensures r != [] ==> a.Parsed? && a.meta.List? && a.meta.path == FastMapPath
    ensures a.Parsed? && a.meta.List? && a.meta.path == FastMapPath ==>
      forall m :: m in r <==> Item(m) in a.meta.nested
  {
    match a
    case Parsed(List(path, nested)) => if path == FastMapPath then MetaItems(nested) else []
    case _ => []
  }

  /** The options of all attributes, in attribute order. */
  function Options(attrs: seq<Attribute>): seq<Meta>
  {
    if attrs == [] then [] else AttributeOptions(attrs[0]) + Options(attrs[1..])
  }

  /** A `keys(...)` list option. */
  predicate IsKeysOption(m: Meta)
  {
    m.List? && m.path == KeysPath
  }

  /** The options are exactly what the attributes contribute: every option
      comes from the `fast_map(...)` list of some attribute, every attribute's
      contribution is among the options, and attributes that contribute
      nothing leave no options. */
  lemma {:induction false} OptionsOrigin(attrs: seq<Attribute>)
    ensures (forall i :: 0 <= i < |attrs| ==> AttributeOptions(attrs[i]) == []) ==> Options(attrs) == []
    ensures forall m :: m in Options(attrs) ==> exists i :: 0 <= i < |attrs| && m in AttributeOptions(attrs[i])
    ensures forall i, m :: 0 <= i < |attrs| && m in AttributeOptions(attrs[i]) ==> m in Options(attrs)
  {
    if attrs != [] {
      OptionsOrigin(attrs[1..]);
      forall i, m | 0 <= i < |attrs| && m in AttributeOptions(attrs[i])
        ensures m in Options(attrs)
      {
        if i > 0 {
          assert attrs[1..][i - 1] == attrs[i];
        }
      }
      forall m | m in Options(attrs)
        ensures exists i :: 0 <= i < |attrs| && m in AttributeOptions(attrs[i])
      {
        if m !in AttributeOptions(attrs[0]) {
          var j :| 0 <= j < |attrs[1..]| && m in AttributeOptions(attrs[1..][j]);
          assert attrs[1..][j] == attrs[j + 1];
        }
      }
    }
  }

  /** The entries of every `keys(...)` option, in order. */
  function KeyEntries(options: seq<Meta>): (r: seq<NestedMeta>)
    ensures (forall i :: 0 <= i < |options| ==> !IsKeysOption(options[i])) ==> r == []
    ensures forall e :: e in r ==> exists i :: 0 <= i < |options| && IsKeysOption(options[i]) && e in options[i].nested
  {
    if options == [] then []
    else
      (match options[0]
       case List(path, nested) => if path == KeysPath then nested else []
       case _ => []) + KeyEntries(options[1..])
  }

  /** The first `crate_name = "..."` option's string. */
  function FirstCrateName(options: seq<Meta>): (r: Option<string>)
    ensures r.Some? ==> NameValue(CrateNamePath, LitStr(r.value)) in options
    ensures r.None? <==> forall s :: NameValue(CrateNamePath, LitStr(s)) !in options
  {
    if options == [] then None
    else match options[0]
      case NameValue(path, LitStr(s)) =>
        if path == CrateNamePath then Some(s) else FirstCrateName(options[1..])
      case _ => FirstCrateName(options[1..])
  }

  /** The first `infallible = true|false` option's value. */
  function FirstInfallible(options: seq<Meta>): (r: Option<bool>)
    ensures r.Some? ==> NameValue(InfalliblePath, LitBool(r.value)) in options
    ensures r.None? <==> forall b :: NameValue(InfalliblePath, LitBool(b)) !in options
  {
    if options == [] then None
    else match options[0]
      case NameValue(path, LitBool(b)) =>
        if path == InfalliblePath then Some(b) else FirstInfallible(options[1..])
      case _ => FirstInfallible(options[1..])
  }

  /** The declared keys of an item's attributes: slot i is bound to entry i. */
  function DeclaredKeys(attrs: seq<Attribute>): (r: seq<NestedMeta>)
    ensures forall e :: e in r ==> exists m :: m in Options(attrs) && IsKeysOption(m) && e in m.nested
  {
    KeyEntries(Options(attrs))
  }

  // ----- identifiers -----

  predicate IsIdentStart(c: char)
  {
    'a' <= c <= 'z' || 'A' <= c <= 'Z' || c == '_'
  }

  predicate IsIdentContinue(c: char)
  {
    IsIdentStart(c) || '0' <= c <= '9'
  }

  /** What turning a string into an identifier accepts; anything else panics. */
  predicate IsIdent(s: string)
  {
    |s| > 0 && IsIdentStart(s[0]) && forall i :: 1 <= i < |s| ==> IsIdentContinue(s[i])
  }

  // ----- the derivation -----

  const ShapeError := "`FastMap` can only be derived on a `MapX` wrapping struct"
  const DefaultCrateName := "fast_map"

  /** What the emitted accessors are built from. `infallible` selects the
      accessor set: unwrapping, or returning `Result`s that carry `KeyNotFound`. */
  datatype Derived = Derived(
    name: string,
    keyType: GenericArgument,
    valueType: GenericArgument,
    keys: seq<NestedMeta>,
    crateName: string,
    infallible: bool)

  /** `Rejected` is the derive's error return; `InvalidIdent` is the panic of
      turning a crate name that is not an identifier into one. */
  datatype DeriveError = Rejected(message: string) | InvalidIdent(text: string)

  function DeriveInner(input: DeriveInput): (r: Result<Derived, DeriveError>)
    ensures r == Err(Rejected(ShapeError)) <==> WrappedTypes(input).None?
    ensures r.Ok? ==> (r.value.keyType, r.value.valueType) == WrappedTypes(input).value
    ensures r.Ok? ==> r.value.name == input.name && r.value.keys == DeclaredKeys(input.attrs)
    ensures r.Ok? ==> IsIdent(r.value.crateName)
    ensures r.Ok? ==> (r.value.infallible <==> FirstInfallible(Options(input.attrs)) == Some(true))
  {
    match WrappedTypes(input)
    case None => Err(Rejected(ShapeError))
    case Some((keyType, valueType)) =>
      var options := Options(input.attrs);
      var crateName := match FirstCrateName(options)
        case Some(s) => s
        case None => DefaultCrateName;
      if !IsIdent(crateName) then Err(InvalidIdent(crateName))
      else
        var infallible := match FirstInfallible(options)
          case Some(b) => b
          case None => false;
        Ok(Derived(input.name, keyType, valueType, KeyEntries(options), crateName, infallible))
  }

  // ----- properties -----

  /** The derive rejects an item with the shape message exactly when the item
      does not wrap a two-argument container; when it succeeds, its key and
      value types are that container's two arguments. */
  lemma DeriveRejectsExactlyBadShapes(input: DeriveInput)
    ensures DeriveInner(input) == Err(Rejected(ShapeError)) <==>
      forall key, value :: !WrapsContainer(input, key, value)
    ensures DeriveInner(input).Ok? ==>
      WrapsContainer(input, DeriveInner(input).value.keyType, DeriveInner(input).value.valueType)
  {
    match WrappedTypes(input)
    case None =>
      forall key, value ensures !WrapsContainer(input, key, value) {
        WrappedTypesExactly(input, key, value);
      }
    case Some((key, value)) =>
      WrappedTypesExactly(input, key, value);
  }

  lemma {:induction false} MetaItemsAppend(a: seq<NestedMeta>, b: seq<NestedMeta>)
    ensures MetaItems(a + b) == MetaItems(a) + MetaItems(b)
  {
    if a == [] {
      assert a + b == b;
    } else {
      assert (a + b)[0] == a[0];
      assert (a + b)[1..] == a[1..] + b;
      MetaItemsAppend(a[1..], b);
    }
  }

  lemma {:induction false} OptionsAppend(a: seq<Attribute>, b: seq<Attribute>)
    ensures Options(a + b) == Options(a) + Options(b)
  {
    if a == [] {
      assert a + b == b;
    } else {
      assert (a + b)[0] == a[0];
      assert (a + b)[1..] == a[1..] + b;
      OptionsAppend(a[1..], b);
    }
  }

  lemma {:induction false} KeyEntriesAppend(a: seq<Meta>, b: seq<Meta>)
    ensures KeyEntries(a + b) == KeyEntries(a) + KeyEntries(b)
  {
    if a == [] {
      assert a + b == b;
    } else {
      assert (a + b)[1..] == a[1..] + b;
      KeyEntriesAppend(a[1..], b);
    }
  }

  /** The declared keys of a list of attributes are the keys of each
      attribute, concatenated in attribute order. */
  lemma DeclaredKeysAppend(a: seq<Attribute>, b: seq<Attribute>)
    ensures DeclaredKeys(a + b) == DeclaredKeys(a) + DeclaredKeys(b)
  {
    OptionsAppend(a, b);
    KeyEntriesAppend(Options(a), Options(b));
  }

  /** A single `fast_map(...)` attribute's options are all the meta items of
      its list, in order, so its `crate_name` and `infallible` entries are read. */
  lemma OptionsOfOneAttribute(nested: seq<NestedMeta>)
    ensures Options([Parsed(List(FastMapPath, nested))]) == MetaItems(nested)
    ensures FirstCrateName(Options([Parsed(List(FastMapPath, nested))])) == FirstCrateName(MetaItems(nested))
    ensures FirstInfallible(Options([Parsed(List(FastMapPath, nested))])) == FirstInfallible(MetaItems(nested))
  {
    var attrs := [Parsed(List(FastMapPath, nested))];
    assert attrs[1..] == [];
    assert Options(attrs) == MetaItems(nested) + Options([]);
    assert MetaItems(nested) + Options([]) == MetaItems(nested);
  }

  /** Within one `fast_map(...)` attribute, the keys are the entries of its
      `keys(...)` lists in order; bare literals among its options are skipped. */
  lemma DeclaredKeysOfOneAttribute(nested: seq<NestedMeta>)
    ensures DeclaredKeys([Parsed(List(FastMapPath, nested))]) == KeyEntries(MetaItems(nested))
  {
    OptionsOfOneAttribute(nested);
  }

  /** A `keys(...)` list nested in a `fast_map(...)` list binds its entries,
      in order, to slots 0, 1, ... */
  lemma {:induction false} KeysListIsDeclared(keys: seq<NestedMeta>)
    ensures DeclaredKeys([Parsed(List(FastMapPath, [Item(List(KeysPath, keys))]))]) == keys
  {
    DeclaredKeysOfOneAttribute([Item(List(KeysPath, keys))]);
    assert MetaItems([Item(List(KeysPath, keys))]) == [List(KeysPath, keys)] + MetaItems([]);
    assert KeyEntries([List(KeysPath, keys)]) == keys + KeyEntries([]);
  }

  /** The first `crate_name` string wins: later ones are never read. */
  lemma {:induction false} FirstCrateNameAppend(a: seq<Meta>, b: seq<Meta>)
    ensures FirstCrateName(a + b) == if FirstCrateName(a).Some? then FirstCrateName(a) else FirstCrateName(b)
  {
    if a != [] {
      assert (a + b)[0] == a[0];
      assert (a + b)[1..] == a[1..] + b;
      FirstCrateNameAppend(a[1..], b);
    } else {
      assert a + b == b;
    }
  }

  /** The first `infallible` flag wins: later ones are never read. */
  lemma {:induction false} FirstInfallibleAppend(a: seq<Meta>, b: seq<Meta>)
    ensures FirstInfallible(a + b) == if FirstInfallible(a).Some? then FirstInfallible(a) else FirstInfallible(b)
  {
    if a != [] {
      assert (a + b)[0] == a[0];
      assert (a + b)[1..] == a[1..] + b;
      FirstInfallibleAppend(a[1..], b);
    } else {
      assert a + b == b;
    }
  }

  /** `crate_name` given as anything but a string literal, and `infallible`
      given as anything but a boolean literal, are skipped. */
  lemma OtherLiteralKindsIgnored(options: seq<Meta>, lit: Lit)
    ensures !lit.LitStr? ==> FirstCrateName([NameValue(CrateNamePath, lit)] + options) == FirstCrateName(options)
    ensures !lit.LitBool? ==> FirstInfallible([NameValue(InfalliblePath, lit)] + options) == FirstInfallible(options)
  {
    assert ([NameValue(CrateNamePath, lit)] + options)[1..] == options;
    assert ([NameValue(InfalliblePath, lit)] + options)[1..] == options;
  }

  /** Without a `crate_name` option the crate name is `fast_map`; without an
      `infallible` option the mode is strict. The keys are the declared ones,
      whatever else the attributes hold. */
  lemma DefaultsWhenUnset(input: DeriveInput)
    requires WrappedTypes(input).Some? && FirstCrateName(Options(input.attrs)) == None
    ensures DeriveInner(input).Ok?
    ensures DeriveInner(input).value.crateName == DefaultCrateName
    ensures FirstInfallible(Options(input.attrs)) == None ==> !DeriveInner(input).value.infallible
    ensures DeriveInner(input).value.keys == DeclaredKeys(input.attrs)
  {
    DefaultCrateNameIsIdent();
  }

  lemma DefaultCrateNameIsIdent()
    ensures IsIdent(DefaultCrateName)
  {
    assert DefaultCrateName == ['f', 'a', 's', 't', '_', 'm', 'a', 'p'];
  }

  /** A crate name that is an identifier is the one the emitted code refers to,
      and the derive succeeds with the declared keys and the first `infallible`
      value, or strict mode when there is none. */
  lemma NamedCrateAccepted(input: DeriveInput, s: string)
    requires WrappedTypes(input).Some? && FirstCrateName(Options(input.attrs)) == Some(s) && IsIdent(s)
    ensures DeriveInner(input).Ok?
    ensures DeriveInner(input).value.crateName == s
    ensures DeriveInner(input).value.keys == DeclaredKeys(input.attrs)
    ensures DeriveInner(input).value.infallible == (FirstInfallible(Options(input.attrs)) == Some(true))
  {
  }

  /** A crate name that is not an identifier makes the derive panic, whatever
      the shape is as long as it passes. */
  lemma BadCrateNamePanics(input: DeriveInput, s: string)
    requires WrappedTypes(input).Some? && FirstCrateName(Options(input.attrs)) == Some(s)
    ensures DeriveInner(input).Err? <==> !IsIdent(s)
    ensures !IsIdent(s) ==> DeriveInner(input) == Err(InvalidIdent(s))
  {
  }

  // ----- the declarations of the crate's own tests -----

  function EnumKey(variant: string): NestedMeta
  {
    Item(Word(Path(false, ["A", variant])))
  }

  /** `#[fast_map(crate_name = "crate", keys(A::A, A::B, A::C, A::D))]` on
      `struct Foo(crate::Map64<A, String>)`. */
  function ItWorksInput(): DeriveInput
  {
    var options := [
      Item(NameValue(CrateNamePath, LitStr("crate"))),
      Item(List(KeysPath, [EnumKey("A"), EnumKey("B"), EnumKey("C"), EnumKey("D")]))];
    var container := PathSegment("Map64", AngleBracketed([GenericArgument("A"), GenericArgument("String")]));
    DeriveInput("Foo", [Parsed(List(FastMapPath, options))],
      Struct(Unnamed([TypePath([PathSegment("crate", NoArguments), container])])))
  }

  /** The test's declaration derives a strict map over the four variants, in
      declaration order, with the errors and iterator taken from `crate`. */
  lemma ItWorksDerivation()
    ensures DeriveInner(ItWorksInput()) == Ok(Derived("Foo", GenericArgument("A"), GenericArgument("String"),
      [EnumKey("A"), EnumKey("B"), EnumKey("C"), EnumKey("D")], "crate", false))
  {
    var input := ItWorksInput();
    var options := Options(input.attrs);
    var keys := [EnumKey("A"), EnumKey("B"), EnumKey("C"), EnumKey("D")];
    var items := [NameValue(CrateNamePath, LitStr("crate")), List(KeysPath, keys)];
    assert MetaItems([Item(List(KeysPath, keys))]) == [List(KeysPath, keys)] + MetaItems([]);
    assert options == items by {
      DeclaredKeysOfOneAttribute([Item(NameValue(CrateNamePath, LitStr("crate"))), Item(List(KeysPath, keys))]);
      assert Options(input.attrs) == MetaItems(input.attrs[0].meta.nested) + Options([]);
    }
    assert KeyEntries(items) == keys by {
      assert items[1..] == [List(KeysPath, keys)];
      assert KeyEntries([List(KeysPath, keys)]) == keys + KeyEntries([]);
    }
    assert FirstCrateName(items) == Some("crate");
    assert FirstInfallible(items) == None by {
      assert items[1..][1..] == [];
      assert FirstInfallible(items[1..]) == FirstInfallible(items[1..][1..]);
    }
    assert IsIdent("crate") by {
      assert "crate" == ['c', 'r', 'a', 't', 'e'];
    }
  }

  /** A second field, a named field or a container with one type argument
      is refused with the shape message. */
  lemma MisshapenItemsRejected(attrs: seq<Attribute>, container: PathSegment, extra: Type)
    ensures DeriveInner(DeriveInput("Foo", attrs, Struct(Unnamed([TypePath([container]), extra])))) == Err(Rejected(ShapeError))
    ensures DeriveInner(DeriveInput("Foo", attrs, Struct(Named(["inner"])))) == Err(Rejected(ShapeError))
    ensures DeriveInner(DeriveInput("Foo", attrs, Struct(Unnamed([TypePath([PathSegment("Map4",
      AngleBracketed([GenericArgument("String")]))])])))) == Err(Rejected(ShapeError))
  {
  }
}
