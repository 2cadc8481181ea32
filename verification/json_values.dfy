/**
 * Value types of the JSON serializer: `Json::StringView`, a pointer and a
 * signed 64-bit length whose sign tells the character width, and
 * `FJsonBuilderBase::FStrIndexPair`, the span of output a write produced.
 */
module JsonValues {
  import SequenceIds

  const TwoTo32: int := 0x1_0000_0000
  const Int32Min: int := -0x8000_0000
  const Int32Max: int := 0x7FFF_FFFF

  /** `static_cast<int32>` of a 64-bit value: keep the low 32 bits, two's complement. */
  function Int32Cast(x: int): (r: int)
    ensures Int32Min <= r <= Int32Max
    ensures Int32Min <= x <= Int32Max ==> r == x
  {
    (x - Int32Min) % TwoTo32 + Int32Min
  }

  /** `FMath::Abs` on an `int64`: the negation of the least value wraps back to itself. */
  function Abs64(x: int): (r: int)
    requires SequenceIds.IsInt64(x)
    ensures SequenceIds.IsInt64(r)
    ensures x != SequenceIds.Int64Min ==> r == if x < 0 then -x else x
  {
    SequenceIds.Wrap64(if x < 0 then -x else x)
  }

  /** `data` is the address (0 for null); `length` is the stored `int64 Length`. */
  datatype StringView = StringView(data: nat, length: int)

  /** The default view: null data, length 0. */
  const DefaultView := StringView(0, 0)

  ghost predicate WellTyped(v: StringView) { SequenceIds.IsInt64(v.length) }

  /** `IsValid` / `operator bool`: the data pointer is not null. */
  function IsValid(v: StringView): (valid: bool)
    ensures valid <==> v.data != 0
  {
    v.data != 0
  }

  /** `IsTCHAR`: a non-negative length marks wide characters, a negative one ANSI characters. */
  function IsTChar(v: StringView): (wide: bool)
    ensures wide <==> v.length >= 0
  {
    v.length >= 0
  }

  /** `Len`: the magnitude of the length, cast to `int32`. */
  function Len(v: StringView): (n: int)
    requires WellTyped(v)
    ensures Int32Min <= n <= Int32Max
  {
    Int32Cast(Abs64(v.length))
  }

  /** Below 2^31 characters, `Len` is the magnitude of the stored length whichever the width. */
  lemma LenIsMagnitude(v: StringView)
    requires WellTyped(v) && -Int32Max <= v.length <= Int32Max
    ensures Len(v) == if v.length < 0 then -v.length else v.length
    ensures Len(v) >= 0
  {
  }

  /** The width tag and the length are independent: flipping the sign keeps the length and flips the width. */
  lemma WidthTagKeepsLength(v: StringView)
    requires WellTyped(v) && v.length != SequenceIds.Int64Min && v.length != 0
    ensures var w := StringView(v.data, -v.length);
      Len(w) == Len(v) && IsTChar(w) != IsTChar(v) && IsValid(w) == IsValid(v)
  {
  }

  /** A default view is invalid, wide and empty. */
  lemma DefaultViewIsEmpty()
    ensures !IsValid(DefaultView) && IsTChar(DefaultView) && Len(DefaultView) == 0
  {
  }

  /** A view of 2^31 characters reports a negative length: the `int32` cast drops the high bit. */
  lemma LongViewLengthWraps()
    ensures Len(StringView(1, 0x8000_0000)) == Int32Min
  {
  }

  /** `FStrIndexPair`: the output span [First, Last]; the default is {0, 0}. */
  datatype StrIndexPair = StrIndexPair(first: int, last: int)

  const DefaultPair := StrIndexPair(0, 0)

  /** `operator bool`: a span that starts at a real index and does not end before it starts. */
  function Truthy(p: StrIndexPair): (ok: bool)
    ensures ok <==> p.first >= 0 && p.last >= p.first
  {
    p.last >= p.first && p.first >= 0
  }

  /** `outer` spans at least what `inner` spans. */
  predicate Covers(outer: StrIndexPair, inner: StrIndexPair)
  {
    outer.first <= inner.first && inner.last <= outer.last
  }

  /**
   * `Append`: a span that has not ended past index 0 is replaced by the
   * other; otherwise the result is the least span covering both.
   */
  function Append(p: StrIndexPair, other: StrIndexPair): (r: StrIndexPair)
    ensures p.last <= 0 ==> r == other
    ensures p.last > 0 ==> Covers(r, p) && Covers(r, other)
    ensures p.last > 0 ==> (r.first == p.first || r.first == other.first) && (r.last == p.last || r.last == other.last)
  {
    if p.last <= 0 then other
    else StrIndexPair(if p.first <= other.first then p.first else other.first,
                      if p.last >= other.last then p.last else other.last)
  }

  /** The covering span is the least one: any span covering both covers the result. */
  lemma AppendIsLeastCover(p: StrIndexPair, other: StrIndexPair, c: StrIndexPair)
    requires p.last > 0 && Covers(c, p) && Covers(c, other)
    ensures Covers(c, Append(p, other))
  {
  }

  /** Appending truthy spans gives a truthy span, and the default span is a left identity. */
  lemma AppendKeepsTruthy(p: StrIndexPair, other: StrIndexPair)
    requires Truthy(p) && Truthy(other)
    ensures Truthy(Append(p, other))
    ensures Append(DefaultPair, other) == other
  {
  }

  /** A span with `Last > 0` absorbs itself: appending it to itself changes nothing. */
  lemma AppendIdempotent(p: StrIndexPair)
    ensures p.last > 0 ==> Append(p, p) == p
  {
  }

  /** `FJsonBuilderBase::Key` and `Value` as the builder's writers: each returns the builder and the span it wrote. */
  datatype Writers<!B> = Writers(key: B -> (B, StrIndexPair), value: B -> (B, StrIndexPair))

  /**
   * `AddKeyValue(FStringView, …)`: a falsy key span is returned before any
   * value is written; a falsy value span is returned as it is; otherwise
   * the two spans are appended.
   */
  function AddKeyValue<B>(w: Writers<B>, b: B): (r: (B, StrIndexPair))
    ensures var (b1, k) := w.key(b);
      && (!Truthy(k) ==> r == (b1, k))
      && (Truthy(k) ==> var (b2, v) := w.value(b1);
            && r.0 == b2 && (Truthy(r.1) <==> Truthy(v))
            && (!Truthy(v) ==> r == (b2, v))
            && (Truthy(v) ==> r.1 == Append(k, v) && Covers(r.1, v) && (k.last > 0 ==> Covers(r.1, k))))
  {
    var (b1, k) := w.key(b);
    if !Truthy(k) then (b1, k)
    else
      var (b2, v) := w.value(b1);
      if !Truthy(v) then (b2, v)
      else (b2, Append(k, v))
  }

  /**
   * When both writes succeed and the key span ends past index 0, the span
   * `AddKeyValue` reports is the least one covering the key and the value.
   */
  lemma AddKeyValueSpansPair<B>(w: Writers<B>, b: B, c: StrIndexPair)
    requires Truthy(w.key(b).1) && w.key(b).1.last > 0 && Truthy(w.value(w.key(b).0).1)
    ensures var k := w.key(b).1; var v := w.value(w.key(b).0).1;
      && Covers(AddKeyValue(w, b).1, k) && Covers(AddKeyValue(w, b).1, v)
      && (Covers(c, k) && Covers(c, v) ==> Covers(c, AddKeyValue(w, b).1))
  {
    var k := w.key(b).1;
    var v := w.value(w.key(b).0).1;
    if Covers(c, k) && Covers(c, v) {
      AppendIsLeastCover(k, v, c);
    }
  }

  /** `AddKeyValue(FAnsiStringView, …)`: the same two writes, reporting only success. */
  function AddKeyValueAnsi<B>(w: Writers<B>, b: B): (r: (B, bool))
    ensures r.1 <==> Truthy(w.key(b).1) && Truthy(w.value(w.key(b).0).1)
  {
    var (b1, k) := w.key(b);
    if !Truthy(k) then (b1, false)
    else
      var (b2, v) := w.value(b1);
      if !Truthy(v) then (b2, false)
      else (b2, true)
  }

  /** Both overloads leave the builder in the same state, and succeed together. */
  lemma AnsiOverloadAgrees<B>(w: Writers<B>, b: B)
    ensures AddKeyValueAnsi(w, b).0 == AddKeyValue(w, b).0
    ensures AddKeyValueAnsi(w, b).1 == Truthy(AddKeyValue(w, b).1)
  {
  }
}
