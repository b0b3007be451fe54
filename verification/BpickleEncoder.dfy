/** The bpickle printer: its byte format, and the loops of the Go encoder. */
module BpickleEncoder {
  import opened Common
  import opened Decimal
  import opened BpickleValue
  import KeyOrder

  const TAG_NULL: Byte := 110   // 'n'
  const TAG_BOOL: Byte := 98    // 'b'
  const TAG_INT: Byte := 105    // 'i'
  const TAG_FLOAT: Byte := 102  // 'f'
  const TAG_BYTES: Byte := 115  // 's'
  const TAG_STR: Byte := 117    // 'u'
  const TAG_LIST: Byte := 108   // 'l'
  const TAG_TUPLE: Byte := 116  // 't'
  const TAG_DICT: Byte := 100   // 'd'
  const COLON: Byte := 58
  const ONE: Byte := 49         // '1'

  function EncodeInt(n: Int64): Bytes { [TAG_INT] + IntText(n) + [SEMICOLON] }

  function EncodeBool(b: bool): Bytes { [TAG_BOOL, if b then ONE else ZERO] }

  function EncodeFloat(text: FloatText, x: Float64): Bytes {
    [TAG_FLOAT] + FloatBody(text, x) + [SEMICOLON]
  }

  /** A length-prefixed run of bytes, for `s` and `u`. */
  function EncodeRun(tag: Byte, run: Bytes): Bytes { [tag] + IntText(|run|) + [COLON] + run }

  function KeyTag(v: Value): Byte { if v.BytesDict? then TAG_BYTES else TAG_STR }

  /** The wire format: what `Marshal` must return for every encodable value. */
  ghost function Encode(text: FloatText, v: Value): (r: Bytes)
    requires Encodable(v)
    ensures |r| > 0 && r[0] != SEMICOLON
    decreases v, 1
  {
    match v
    case Null => [TAG_NULL]
    case Bool(b) => EncodeBool(b)
    case Int(n) => EncodeInt(n)
    case Uint(u) => EncodeInt(Wrap64(u))
    case Uint64(u) => EncodeInt(u)
    case Float(x) => EncodeFloat(text, x)
    case ByteString(bs) => EncodeRun(TAG_BYTES, bs)
    case Str(bs) => EncodeRun(TAG_STR, bs)
    case List(_) => [TAG_LIST] + EncodeSeq(text, v.items) + [SEMICOLON]
    case Tuple(_) => [TAG_TUPLE] + EncodeSeq(text, v.items) + [SEMICOLON]
    case Dict(_) => [TAG_DICT] + EncodePairs(text, v, KeyOrder.Sorted(v.entries.Keys)) + [SEMICOLON]
    case BytesDict(_) => [TAG_DICT] + EncodePairs(text, v, KeyOrder.Sorted(v.entries.Keys)) + [SEMICOLON]
  }

  ghost function EncodeSeq(text: FloatText, vs: seq<Value>): Bytes
    requires forall v | v in vs :: Encodable(v)
    decreases vs, 0
  {
    if vs == [] then [] else Encode(text, vs[0]) + EncodeSeq(text, vs[1..])
  }

  ghost function EncodePairs(text: FloatText, v: Value, keys: seq<Bytes>): Bytes
    requires Encodable(v) && v.IsMap()
    requires forall k | k in keys :: k in v.entries
    decreases v, 0, |keys|
  {
    if keys == [] then []
    else EncodePair(text, v, keys[0]) + EncodePairs(text, v, keys[1..])
  }

  ghost function EncodePair(text: FloatText, v: Value, k: Bytes): Bytes
    requires Encodable(v) && v.IsMap() && k in v.entries
    decreases v, 0, 0
  {
    EncodeRun(KeyTag(v), k) + Encode(text, v.entries[k])
  }

  function SeqTag(v: Value): Byte { if v.List? then TAG_LIST else TAG_TUPLE }

  lemma EncodedSeq(text: FloatText, v: Value)
    requires Encodable(v) && v.IsSeq()
    ensures Encode(text, v) == [SeqTag(v)] + EncodeSeq(text, v.items) + [SEMICOLON]
  {
    hide EncodeSeq;
  }

  lemma EncodedMap(text: FloatText, v: Value)
    requires Encodable(v) && v.IsMap()
    ensures Encode(text, v) == [TAG_DICT] + EncodePairs(text, v, KeyOrder.Sorted(v.entries.Keys)) + [SEMICOLON]
  {
    hide EncodePairs;
  }

  datatype Marshalled = Written(bytes: Bytes) | Refused

  /** `marshalValue`, and with it `Marshal`. */
  method MarshalValue(text: FloatText, v: Value) returns (r: Marshalled)
    ensures r.Written? <==> Encodable(v)
    ensures r.Written? ==> r.bytes == Encode(text, v)
    decreases v, 1
  {
    match v
    case Null => r := Written([TAG_NULL]);
    case Bool(b) => r := Written(EncodeBool(b));
    case Int(n) => r := Written(EncodeInt(n));
    case Uint(u) => r := Written(EncodeInt(Wrap64(u)));
    case Uint64(u) =>
      if u > MAX_INT64 { r := Refused; } else { r := Written(EncodeInt(u)); }
    case Float(x) => r := Written(EncodeFloat(text, x));
    case ByteString(bs) => r := Written(EncodeRun(TAG_BYTES, bs));
    case Str(bs) => r := Written(EncodeRun(TAG_STR, bs));
    case List(_) => r := MarshalSeq(text, v, TAG_LIST);
    case Tuple(_) => r := MarshalSeq(text, v, TAG_TUPLE);
    case Dict(_) => r := MarshalPairs(text, v);
    case BytesDict(_) => r := MarshalPairs(text, v);
    case Unsupported => r := Refused;
  }

  /** `marshalList` and `marshalTuple`. */
  method MarshalSeq(text: FloatText, v: Value, tag: Byte) returns (r: Marshalled)
    requires (v.List? && tag == TAG_LIST) || (v.Tuple? && tag == TAG_TUPLE)
    ensures r.Written? <==> Encodable(v)
    ensures r.Written? ==> r.bytes == Encode(text, v)
    decreases v, 0
  {
    var vs := v.items;
    var result := [tag];
    for i := 0 to |vs|
      invariant forall x | x in vs[..i] :: Encodable(x)
      invariant Encodable(v) ==> [tag] + EncodeSeq(text, vs) == result + EncodeSeq(text, vs[i..])
    {
      var encoded := MarshalValue(text, vs[i]);
      if encoded.Refused? { return Refused; }
      if Encodable(v) {
        assert vs[i..][1..] == vs[i + 1..];
        Reassociate(result, encoded.bytes, EncodeSeq(text, vs[i + 1..]));
      }
      result := result + encoded.bytes;
    }
    r := Written(result + [SEMICOLON]);
  }

  /** `for k := range v`: Go visits the keys of a map in an arbitrary order. */
  method CollectKeys(m: map<Bytes, Value>) returns (keys: seq<Bytes>)
    ensures KeyOrder.NoDuplicates(keys) && KeyOrder.Elements(keys) == m.Keys
  {
    keys := [];
    var rest := m.Keys;
    while rest != {}
      invariant KeyOrder.NoDuplicates(keys)
      invariant rest <= m.Keys && forall k :: k in keys <==> k in m.Keys - rest
      decreases rest
    {
      var k :| k in rest;
      assert k !in keys;
      keys := keys + [k];
      rest := rest - {k};
    }
  }

  /** `marshalDict` and `marshalBytesKeyMap`: the result is one value, whatever order the map was visited in. */
  method MarshalPairs(text: FloatText, v: Value) returns (r: Marshalled)
    requires v.IsMap()
    ensures r.Written? <==> Encodable(v)
    ensures r.Written? ==> r.bytes == Encode(text, v)
    decreases v, 0, 2
  {
    var m := v.entries;
    var keys := CollectKeys(m);
    KeyOrder.SortForgetsOrder(keys);
    keys := KeyOrder.Sort(keys);
    assert forall k :: k in keys <==> k in m;
    r := MarshalSortedPairs(text, v, keys);
  }

  /** With the first `i` pairs written, `result` lacks only the remaining pairs and the terminator. */
  ghost predicate PairsWritten(text: FloatText, v: Value, keys: seq<Bytes>, i: nat, result: Bytes)
    requires Encodable(v) && v.IsMap()
    requires i <= |keys| && forall k | k in keys :: k in v.entries
  {
    [TAG_DICT] + EncodePairs(text, v, keys) == result + EncodePairs(text, v, keys[i..])
  }

  lemma PairsWrittenNone(text: FloatText, v: Value, keys: seq<Bytes>)
    requires Encodable(v) && v.IsMap() && forall k | k in keys :: k in v.entries
    ensures PairsWritten(text, v, keys, 0, [TAG_DICT])
  {
    assert keys[0..] == keys;
  }

  lemma PairsWrittenAll(text: FloatText, v: Value, keys: seq<Bytes>, result: Bytes)
    requires Encodable(v) && v.IsMap() && forall k | k in keys :: k in v.entries
    requires PairsWritten(text, v, keys, |keys|, result)
    ensures result == [TAG_DICT] + EncodePairs(text, v, keys)
  {
    assert keys[|keys|..] == [] && result + [] == result;
  }

  lemma PairsWrittenStep(text: FloatText, v: Value, keys: seq<Bytes>, i: nat, result: Bytes)
    requires Encodable(v) && v.IsMap()
    requires i < |keys| && forall k | k in keys :: k in v.entries
    requires PairsWritten(text, v, keys, i, result)
    ensures PairsWritten(text, v, keys, i + 1, result + EncodePair(text, v, keys[i]))
  {
    assert keys[i..][1..] == keys[i + 1..];
    Reassociate(result, EncodePair(text, v, keys[i]), EncodePairs(text, v, keys[i + 1..]));
  }

  method MarshalPair(text: FloatText, v: Value, k: Bytes) returns (r: Marshalled)
    requires v.IsMap() && k in v.entries
    ensures r.Written? <==> Encodable(v.entries[k])
    ensures Encodable(v) ==> r.Written? && r.bytes == EncodePair(text, v, k)
    decreases v, 0, 0
  {
    var encodedKey := EncodeRun(KeyTag(v), k);
    r := MarshalValue(text, v.entries[k]);
    if r.Written? { r := Written(encodedKey + r.bytes); }
  }

  method MarshalSortedPairs(text: FloatText, v: Value, keys: seq<Bytes>) returns (r: Marshalled)
    requires v.IsMap()
    requires forall i | 0 <= i < |keys| :: keys[i] in v.entries
    requires forall k | k in v.entries :: k in keys
    ensures r.Written? <==> Encodable(v)
    ensures r.Written? ==> r.bytes == [TAG_DICT] + EncodePairs(text, v, keys) + [SEMICOLON]
    decreases v, 0, 1
  {
    hide Encode, EncodePair, PairsWritten;
    var result := [TAG_DICT];
    if Encodable(v) { PairsWrittenNone(text, v, keys); }
    for i := 0 to |keys|
      invariant forall j | 0 <= j < i :: Encodable(v.entries[keys[j]])
      invariant Encodable(v) ==> PairsWritten(text, v, keys, i, result)
    {
      var pair := MarshalPair(text, v, keys[i]);
      if pair.Refused? { return Refused; }
      if Encodable(v) { PairsWrittenStep(text, v, keys, i, result); }
      result := result + pair.bytes;
    }
    if Encodable(v) { PairsWrittenAll(text, v, keys, result); }
    r := Written(result + [SEMICOLON]);
  }
}
