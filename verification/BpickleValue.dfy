/** The Go values that the bpickle package handles, and the text form of floats. */
module BpickleValue {
  import opened Common

  function Scaled(mantissa: int, exponent: int): real
    decreases if exponent < 0 then -exponent else exponent
  {
    if exponent == 0 then mantissa as real
    else if exponent > 0 then 2.0 * Scaled(mantissa, exponent - 1)
    else Scaled(mantissa, exponent + 1) / 2.0
  }

  /** The reals that a finite, non-negative-zero IEEE double can hold. */
  ghost predicate IsDouble(r: real) {
    exists m: int, e: int ::
      -0x20_0000_0000_0000 < m < 0x20_0000_0000_0000 && -1074 <= e <= 971 && r == Scaled(m, e)
  }

  lemma ZeroIsDouble()
    ensures IsDouble(0.0)
  {
    assert Scaled(0, 0) == 0.0;
  }

  type Double = r: real | IsDouble(r) witness (ZeroIsDouble(); 0.0)

  datatype Float64 = Finite(value: Double) | NegativeZero | Infinite(negative: bool) | NaN {
    predicate IsFinite() { Finite? || NegativeZero? }
  }

  /**
   `strconv.FormatFloat(x, 'g', -1, 64)` and `strconv.ParseFloat(s, 64)`, which the
   repository only calls.
   */
  datatype FloatText = FloatText(format: Float64 -> Bytes, parse: Bytes -> Option<Float64>)

  const SEMICOLON: Byte := 59
  const POINT: Byte := 46    // '.'
  const LOWER_E: Byte := 101 // 'e'
  const UPPER_E: Byte := 69  // 'E'

  /** The text between `f` and `;`: whole numbers without an exponent gain ".0". */
  function FloatBody(text: FloatText, x: Float64): Bytes {
    var s := text.format(x);
    if POINT !in s && LOWER_E !in s && UPPER_E !in s then s + [POINT, 48] else s
  }

  /**
   What the Go library guarantees: shortest formatting parses back exactly, with or
   without the ".0"; "NaN.0", "+Inf.0" and "-Inf.0" are not numbers; no text has a ';'.
   */
  ghost predicate Lawful(text: FloatText) {
    forall x: Float64 ::
      && SEMICOLON !in text.format(x)
      && text.parse(FloatBody(text, x)) == (if x.IsFinite() then Some(x) else None)
  }

  datatype Value =
    | Null
    | Bool(b: bool)
    | Int(n: Int64)              // int, int8..int64, uint8..uint32
    | Uint(u: Uint64)            // uint
    | Uint64(u64: Uint64)        // uint64
    | Float(x: Float64)
    | ByteString(data: Bytes)    // []byte
    | Str(text: Bytes)           // string
    | List(items: seq<Value>)
    | Tuple(items: seq<Value>)
    | Dict(entries: map<Bytes, Value>)
    | BytesDict(entries: map<Bytes, Value>)
    | Unsupported
  {
    predicate IsSeq() { List? || Tuple? }

    predicate IsMap() { Dict? || BytesDict? }
  }

  /** `int64(u)` for a Go `uint`: no overflow check. */
  function Wrap64(u: Uint64): Int64 {
    if u <= MAX_INT64 then u else u - TWO_64
  }

  /** The values Marshal accepts: nothing of an unsupported type, no uint64 above the int64 range. */
  ghost predicate Encodable(v: Value) {
    if v.IsSeq() then forall x | x in v.items :: Encodable(x)
    else if v.IsMap() then forall k | k in v.entries :: Encodable(v.entries[k])
    else !v.Unsupported? && (v.Uint64? ==> v.u64 <= MAX_INT64)
  }

  /** Case by case. */
  lemma EncodableTells(v: Value)
    ensures v.Unsupported? ==> !Encodable(v)
    ensures v.Uint64? ==> (Encodable(v) <==> v.u64 < 0x8000_0000_0000_0000)
    ensures v.List? || v.Tuple? ==> (Encodable(v) <==> forall i | 0 <= i < |v.items| :: Encodable(v.items[i]))
    ensures v.Dict? || v.BytesDict? ==> (Encodable(v) <==> forall k | k in v.entries :: Encodable(v.entries[k]))
    ensures v.Null? || v.Bool? || v.Int? || v.Uint? || v.Float? || v.ByteString? || v.Str? ==> Encodable(v)
  {
    if v.IsSeq() { assert forall x :: x in v.items <==> exists i :: 0 <= i < |v.items| && v.items[i] == x; }
  }

  /** No NaN or infinity anywhere in the tree. */
  ghost predicate FloatsFinite(v: Value) {
    if v.IsSeq() then forall x | x in v.items :: FloatsFinite(x)
    else if v.IsMap() then forall k | k in v.entries :: FloatsFinite(v.entries[k])
    else v.Float? ==> v.x.IsFinite()
  }

  const MAX_NESTING_DEPTH: int := 100

  /** With `v` itself at `depth`, nothing inside it lies deeper than the limit. */
  ghost predicate Fits(v: Value, depth: int) {
    && depth <= MAX_NESTING_DEPTH
    && (v.IsSeq() ==> forall x | x in v.items :: Fits(x, depth + 1))
    && (v.IsMap() && v.entries != map[] ==> depth < MAX_NESTING_DEPTH)
    && (v.IsMap() ==> forall k | k in v.entries :: Fits(v.entries[k], depth + 1))
  }

  /** What a value becomes on the other side: one int type, no tuples, string keys only. */
  ghost function Normal(v: Value): Value
    decreases v, 1
  {
    match v
    case Uint(u) => Int(Wrap64(u))
    case Uint64(u) => Int(Wrap64(u))
    case List(_) => List(NormalSeq(v.items))
    case Tuple(_) => List(NormalSeq(v.items))
    case Dict(_) => Dict(NormalMap(v))
    case BytesDict(_) => Dict(NormalMap(v))
    case _ => v
  }

  ghost function NormalMap(v: Value): map<Bytes, Value>
    requires v.IsMap()
    decreases v, 0
  {
    map k | k in v.entries :: Normal(v.entries[k])
  }

  ghost function NormalSeq(vs: seq<Value>): (r: seq<Value>)
    ensures |r| == |vs|
    ensures forall i | 0 <= i < |vs| :: r[i] == Normal(vs[i])
    decreases vs, 0
  {
    if vs == [] then [] else [Normal(vs[0])] + NormalSeq(vs[1..])
  }
}
