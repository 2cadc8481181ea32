/**
 * `TClass2Name`: the compile-time generator of the type names the signature
 * registry compares. A C++ type is described by `TypeDesc`; reflection
 * lookups (class names, struct names, an enum's `CppType`) arrive as the
 * strings inside it.
 */
module Class2Name {
  import opened Wrappers

  /** The types named by `GMP_NAME_OF`: their name is the C++ spelling. */
  datatype Primitive = Bool | Char | Int8 | UInt8 | Int16 | UInt16 | Int32 | UInt32 | Int64 | UInt64 | Float | Double

  /** `UEnum::ECppForm`. */
  datatype EnumForm = Regular | Namespaced | EnumClass

  /** What `StaticEnum<T>()` supplies: its `CppType` (possibly empty), its own name and its form. */
  datatype EnumInfo = EnumInfo(cppType: string, objectName: string, form: EnumForm)

  datatype TypeDesc =
    | Prim(prim: Primitive)
      /** `FString`, `FName`, `FText` (`GMP_FNAME_OF`). */
    | StringType | NameType | TextType
      /** A C++ enum `T` over the integral type `underlying`; `scoped` is `is_scoped_enum<T>`. */
    | Enum(info: EnumInfo, underlying: Primitive, scoped: bool)
      /** `TEnumAsByte<T>`. */
    | EnumAsByte(info: EnumInfo)
      /** A pointer to a `UObject`-derived class; `className` is what the class reports as its name. */
    | Object(className: string)
      /** A struct with a static struct; `structName` is its registered name. */
    | Struct(structName: string)
    | TArray(elem: TypeDesc)
    | TSet(elem: TypeDesc)
    | TMap(mapKey: TypeDesc, mapValue: TypeDesc)
    | TOptional(elem: TypeDesc)

  /** The name `UObject`'s own class reports, used for every object in non-exact mode. */
  const UObjectName: string := "Object"

  function PrimitiveName(p: Primitive): string
  {
    match p
    case Bool => "bool"
    case Char => "char"
    case Int8 => "int8"
    case UInt8 => "uint8"
    case Int16 => "int16"
    case UInt16 => "uint16"
    case Int32 => "int32"
    case UInt32 => "uint32"
    case Int64 => "int64"
    case UInt64 => "uint64"
    case Float => "float"
    case Double => "double"
  }

  /** `sizeof` of a primitive type, and so of an enum over it. */
  function ByteSize(p: Primitive): nat
  {
    match p
    case Bool | Char | Int8 | UInt8 => 1
    case Int16 | UInt16 => 2
    case Int32 | UInt32 | Float => 4
    case Int64 | UInt64 | Double => 8
  }

  /**
   * `EnumAsBytesPrefix(uint32 N)`: the prefix chosen by the enum's byte size.
   * Every prefix has the same length, which the source checks statically.
   */
  function EnumPrefix(bytes: nat): (p: string)
    ensures |p| == 11
    ensures bytes == 2 <==> p == "TEnum2Bytes"
    ensures bytes == 4 <==> p == "TEnum4Bytes"
    ensures bytes == 8 <==> p == "TEnum8Bytes"
    ensures bytes !in {2, 4, 8} <==> p == "TEnumAsByte"
  {
    if bytes == 2 then "TEnum2Bytes"
    else if bytes == 4 then "TEnum4Bytes"
    else if bytes == 8 then "TEnum8Bytes"
    else "TEnumAsByte"
  }

  /** `TTraitsEnumBase::GetFName`: an `enum class` is always named as one byte wide. */
  function EnumName(info: EnumInfo, bytes: nat): (name: string)
    ensures var inner := if info.cppType == [] then info.objectName else info.cppType;
      |name| == 13 + |inner| && name[11] == '<' && name[|name| - 1] == '>'
      && name[12..|name| - 1] == inner
    ensures name[..11] == EnumPrefix(if info.form == EnumClass then 1 else bytes)
  {
    var width := if info.form == EnumClass then 1 else bytes;
    var inner := if info.cppType == [] then info.objectName else info.cppType;
    EnumPrefix(width) + "<" + inner + ">"
  }

  /** The containers `TTraitsTemplate` marks as `nested`; `TOptional` is not one of them. */
  predicate Nested(t: TypeDesc)
  {
    t.TArray? || t.TSet? || t.TMap?
  }

  /**
   * The types whose name the generator produces: no container holds a
   * nested container directly, and a scoped enum is backed by `uint8`.
   */
  predicate Nameable(t: TypeDesc)
  {
    match t
    case Enum(_, underlying, scoped) => !scoped || underlying == UInt8
    case TArray(e) => !Nested(e) && Nameable(e)
    case TSet(e) => !Nested(e) && Nameable(e)
    case TOptional(e) => !Nested(e) && Nameable(e)
    case TMap(k, v) => !Nested(k) && !Nested(v) && Nameable(k) && Nameable(v)
    case _ => true
  }

  /**
   * `TClass2NameImpl<T, bExactType>::GetFName()`. None stands for a type the
   * source refuses to compile (a `static_assert` fails). Containers pass the
   * exactness down to their elements.
   */
  function NameOf(t: TypeDesc, exact: bool): (r: Option<string>)
  {
    match t
    case Prim(p) => Some(PrimitiveName(p))
    case StringType => Some("String")
    case NameType => Some("Name")
    case TextType => Some("Text")
    case Enum(info, underlying, scoped) =>
      if scoped && underlying != UInt8 then None else Some(EnumName(info, ByteSize(underlying)))
    case EnumAsByte(info) => Some(EnumName(info, 1))
    case Object(className) => Some(if exact then className else UObjectName)
    case Struct(structName) => Some(structName)
    case TArray(e) => Wrap("TArray<", NameOf(e, exact), Nested(e))
    case TSet(e) => Wrap("TSet<", NameOf(e, exact), Nested(e))
    case TOptional(e) => Wrap("TOptional<", NameOf(e, exact), Nested(e))
    case TMap(k, v) =>
      var kn := NameOf(k, exact);
      var vn := NameOf(v, exact);
      if Nested(k) || Nested(v) || kn.None? || vn.None? then None
      else Some("TMap<" + kn.value + "," + vn.value + ">")
  }

  /** One-element container name: `prefix` + element + `>`, refused for a nested element. */
  function Wrap(prefix: string, inner: Option<string>, nested: bool): (r: Option<string>)
    ensures r.Some? <==> !nested && inner.Some?
    ensures r.Some? ==> r.value == prefix + inner.value + ">"
  {
    if nested || inner.None? then None else Some(prefix + inner.value + ">")
  }

  /** `TClass2Name<T>`: the public alias names types exactly. */
  function ClassToName(t: TypeDesc): Option<string>
  {
    NameOf(t, true)
  }

  /** A name exists exactly for the nameable types, in either mode. */
  lemma {:induction false} NameOfDefinedIffNameable(t: TypeDesc, exact: bool)
    ensures NameOf(t, exact).Some? <==> Nameable(t)
  {
    match t
    case TArray(e) => NameOfDefinedIffNameable(e, exact);
    case TSet(e) => NameOfDefinedIffNameable(e, exact);
    case TOptional(e) => NameOfDefinedIffNameable(e, exact);
    case TMap(k, v) =>
      NameOfDefinedIffNameable(k, exact);
      NameOfDefinedIffNameable(v, exact);
    case _ =>
  }

  /** Every object type replaced by `UObject` itself, as non-exact mode sees types. */
  function Collapse(t: TypeDesc): (c: TypeDesc)
    ensures Nested(c) <==> Nested(t)
  {
    match t
    case Object(_) => Object(UObjectName)
    case TArray(e) => TArray(Collapse(e))
    case TSet(e) => TSet(Collapse(e))
    case TOptional(e) => TOptional(Collapse(e))
    case TMap(k, v) => TMap(Collapse(k), Collapse(v))
    case _ => t
  }

  /** Non-exact naming is exact naming of the type with every object class collapsed to `UObject`. */
  lemma {:induction false} NonExactIsCollapsedExact(t: TypeDesc)
    ensures NameOf(t, false) == NameOf(Collapse(t), true)
  {
    match t
    case TArray(e) => NonExactIsCollapsedExact(e);
    case TSet(e) => NonExactIsCollapsedExact(e);
    case TOptional(e) => NonExactIsCollapsedExact(e);
    case TMap(k, v) =>
      NonExactIsCollapsedExact(k);
      NonExactIsCollapsedExact(v);
    case _ =>
  }

  /** A type without object classes is named the same in both modes. */
  predicate ObjectFree(t: TypeDesc)
  {
    match t
    case Object(_) => false
    case TArray(e) => ObjectFree(e)
    case TSet(e) => ObjectFree(e)
    case TOptional(e) => ObjectFree(e)
    case TMap(k, v) => ObjectFree(k) && ObjectFree(v)
    case _ => true
  }

  lemma {:induction false} ObjectFreeNamesAgree(t: TypeDesc)
    requires ObjectFree(t)
    ensures NameOf(t, false) == NameOf(t, true)
  {
    match t
    case TArray(e) => ObjectFreeNamesAgree(e);
    case TSet(e) => ObjectFreeNamesAgree(e);
    case TOptional(e) => ObjectFreeNamesAgree(e);
    case TMap(k, v) =>
      ObjectFreeNamesAgree(k);
      ObjectFreeNamesAgree(v);
    case _ =>
  }

  /** An `enum class` is named as one byte wide whatever its size, and `TEnumAsByte` names it the same way. */
  lemma EnumClassNamedAsByte(info: EnumInfo, size: nat)
    requires info.form == EnumClass
    ensures EnumName(info, size) == EnumName(info, 1)
    ensures NameOf(EnumAsByte(info), true) == NameOf(Enum(info, UInt8, true), true)
  {
  }

  /**
   * A scoped enum is named iff it is declared over `uint8`; an unscoped enum
   * is always named, with the prefix of its byte size.
   */
  lemma ScopedEnumNeedsUInt8(info: EnumInfo, underlying: Primitive, scoped: bool, exact: bool)
    ensures scoped ==> (NameOf(Enum(info, underlying, scoped), exact).Some? <==> underlying == UInt8)
    ensures !scoped && info.form != EnumClass ==>
      NameOf(Enum(info, underlying, scoped), exact).Some?
      && NameOf(Enum(info, underlying, scoped), exact).value[..11] == EnumPrefix(ByteSize(underlying))
  {
  }

  /** The four enum prefixes are pairwise distinct, so an enum's width shows in its name. */
  lemma EnumWidthShowsInName(info: EnumInfo, a: nat, b: nat)
    requires info.form != EnumClass && a in {1, 2, 4, 8} && b in {1, 2, 4, 8} && a != b
    ensures EnumName(info, a) != EnumName(info, b)
  {
    assert EnumName(info, a)[..11] == EnumPrefix(a);
    assert EnumName(info, b)[..11] == EnumPrefix(b);
  }

  // ---- Bracket structure of generated names ----

  function Delta(c: char): int
  {
    if c == '<' then 1 else if c == '>' then -1 else 0
  }

  /** The bracket depth after reading `s` from depth `d`, or -1 once a `>` closes nothing. */
  function Walk(s: string, d: nat): int
    decreases |s|
  {
    if |s| == 0 then d
    else if d + Delta(s[0]) < 0 then -1
    else Walk(s[1..], d + Delta(s[0]))
  }

  /** Every `>` closes an earlier `<` and every `<` is closed. */
  predicate Balanced(s: string)
  {
    Walk(s, 0) == 0
  }

  /** No angle brackets: the leaf names reflection supplies are plain identifiers. */
  predicate Plain(s: string)
  {
    forall i :: 0 <= i < |s| ==> s[i] != '<' && s[i] != '>'
  }

  predicate PlainLeaves(t: TypeDesc)
  {
    match t
    case Enum(info, _, _) => Plain(info.cppType) && Plain(info.objectName)
    case EnumAsByte(info) => Plain(info.cppType) && Plain(info.objectName)
    case Object(className) => Plain(className)
    case Struct(structName) => Plain(structName)
    case TArray(e) => PlainLeaves(e)
    case TSet(e) => PlainLeaves(e)
    case TOptional(e) => PlainLeaves(e)
    case TMap(k, v) => PlainLeaves(k) && PlainLeaves(v)
    case _ => true
  }

  lemma {:induction false} WalkPlain(s: string, d: nat)
    requires Plain(s)
    ensures Walk(s, d) == d
    decreases |s|
  {
    if |s| > 0 {
      WalkPlain(s[1..], d);
    }
  }

  lemma {:induction false} WalkConcat(a: string, b: string, d: nat)
    ensures Walk(a + b, d) == if Walk(a, d) < 0 then -1 else Walk(b, Walk(a, d))
    decreases |a|
  {
    if |a| > 0 {
      assert (a + b)[0] == a[0];
      assert (a + b)[1..] == a[1..] + b;
      if d + Delta(a[0]) >= 0 {
        WalkConcat(a[1..], b, d + Delta(a[0]));
      }
    } else {
      assert a + b == b;
    }
  }

  /** Reading a balanced string from any depth comes back to that depth. */
  lemma {:induction false} WalkBalancedFrom(s: string, d: nat, e: nat)
    requires Walk(s, d) == d
    ensures Walk(s, d + e) == d + e
    decreases |s|
  {
    WalkShift(s, d, e);
  }

  lemma {:induction false} WalkShift(s: string, d: nat, e: nat)
    requires Walk(s, d) >= 0
    ensures Walk(s, d + e) == Walk(s, d) + e
    decreases |s|
  {
    if |s| > 0 {
      WalkShift(s[1..], d + Delta(s[0]), e);
    }
  }

  /** `prefix` + balanced + `>` is balanced when `prefix` is plain text followed by one `<`. */
  lemma Enclosed(plain: string, inner: string)
    requires Plain(plain) && Balanced(inner)
    ensures Balanced(plain + "<" + inner + ">")
  {
    WalkPlain(plain, 0);
    WalkConcat(plain, "<", 0);
    assert Walk("<", 0) == 1 by {
      assert "<"[1..] == [];
    }
    WalkConcat(plain + "<", inner, 0);
    WalkBalancedFrom(inner, 0, 1);
    WalkConcat(plain + "<" + inner, ">", 0);
    assert Walk(">", 1) == 0 by {
      assert ">"[1..] == [];
    }
  }

  /** Two balanced strings joined by a plain separator stay balanced. */
  lemma Joined(a: string, sep: string, b: string)
    requires Balanced(a) && Plain(sep) && Balanced(b)
    ensures Balanced(a + sep + b)
  {
    WalkConcat(a, sep, 0);
    WalkPlain(sep, 0);
    WalkConcat(a + sep, b, 0);
  }

  lemma EnumNameIsBalanced(info: EnumInfo, bytes: nat)
    requires Plain(info.cppType) && Plain(info.objectName)
    ensures Balanced(EnumName(info, bytes))
  {
    var inner := if info.cppType == [] then info.objectName else info.cppType;
    WalkPlain(inner, 0);
    Enclosed(EnumPrefix(if info.form == EnumClass then 1 else bytes), inner);
  }

  /** A name built without recursion: a fixed word, a reflected name or an enum name. */
  lemma LeafNamesAreBalanced(t: TypeDesc, exact: bool)
    requires PlainLeaves(t) && NameOf(t, exact).Some? && !Nested(t) && !t.TOptional?
    ensures Balanced(NameOf(t, exact).value)
  {
    match t
    case Prim(p) => WalkPlain(PrimitiveName(p), 0);
    case StringType => WalkPlain("String", 0);
    case NameType => WalkPlain("Name", 0);
    case TextType => WalkPlain("Text", 0);
    case Enum(info, underlying, _) => EnumNameIsBalanced(info, ByteSize(underlying));
    case EnumAsByte(info) => EnumNameIsBalanced(info, 1);
    case Object(className) =>
      WalkPlain(className, 0);
      WalkPlain(UObjectName, 0);
    case Struct(structName) => WalkPlain(structName, 0);
  }

  /** A one-element container name around a balanced element name is balanced. */
  lemma WrapIsBalanced(word: string, inner: Option<string>, nested: bool)
    requires Plain(word) && Wrap(word + "<", inner, nested).Some?
    requires Balanced(inner.value)
    ensures Balanced(Wrap(word + "<", inner, nested).value)
  {
    Enclosed(word, inner.value);
  }

  /** A map name around balanced key and value names is balanced. */
  lemma MapNameIsBalanced(kn: string, vn: string)
    requires Balanced(kn) && Balanced(vn)
    ensures Balanced("TMap<" + kn + "," + vn + ">")
  {
    WalkPlain(",", 0);
    Joined(kn, ",", vn);
    WalkPlain("TMap", 0);
    Enclosed("TMap", kn + "," + vn);
    assert "TMap<" + kn + "," + vn + ">" == "TMap" + "<" + (kn + "," + vn) + ">";
  }

  /** With plain leaf names, every generated name has balanced angle brackets. */
  lemma {:induction false} NamesAreBalanced(t: TypeDesc, exact: bool)
    requires PlainLeaves(t) && NameOf(t, exact).Some?
    ensures Balanced(NameOf(t, exact).value)
  {
    match t
    case TArray(e) =>
      NamesAreBalanced(e, exact);
      assert "TArray<" == "TArray" + "<";
      WrapIsBalanced("TArray", NameOf(e, exact), Nested(e));
    case TSet(e) =>
      NamesAreBalanced(e, exact);
      assert "TSet<" == "TSet" + "<";
      WrapIsBalanced("TSet", NameOf(e, exact), Nested(e));
    case TOptional(e) =>
      NamesAreBalanced(e, exact);
      assert "TOptional<" == "TOptional" + "<";
      WrapIsBalanced("TOptional", NameOf(e, exact), Nested(e));
    case TMap(k, v) =>
      NamesAreBalanced(k, exact);
      NamesAreBalanced(v, exact);
      MapNameIsBalanced(NameOf(k, exact).value, NameOf(v, exact).value);
    case _ => LeafNamesAreBalanced(t, exact);
  }
}
