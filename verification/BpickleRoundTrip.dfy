/** The parser inverts the printer, in any surrounding bytes, for exactly the values it can. */
module BpickleRoundTrip {
  import opened Common
  import opened Decimal
  import opened BpickleValue
  import opened BpickleEncoder
  import opened BpickleDecoder
  import KeyOrder

  /** `data` holds `piece` at `pos`. */
  ghost predicate At(data: Bytes, pos: nat, piece: Bytes) {
    pos + |piece| <= |data| && forall i | 0 <= i < |piece| :: piece[i] == data[pos + i]
  }

  lemma AtSplit(data: Bytes, pos: nat, a: Bytes, b: Bytes)
    requires At(data, pos, a + b)
    ensures At(data, pos, a) && At(data, pos + |a|, b)
  {
    forall i | 0 <= i < |a| ensures a[i] == data[pos + i] { assert (a + b)[i] == a[i]; }
    forall i | 0 <= i < |b| ensures b[i] == data[pos + |a| + i] { assert (a + b)[|a| + i] == b[i]; }
  }

  /** Two pieces followed by a closing byte. */
  lemma AtSplit3(data: Bytes, pos: nat, a: Bytes, b: Bytes, end: Byte)
    requires At(data, pos, a + b + [end])
    ensures At(data, pos, a) && At(data, pos + |a|, b + [end])
    ensures a != [] ==> data[pos] == a[0]
  {
    assert a + b + [end] == a + (b + [end]);
    AtSplit(data, pos, a, b + [end]);
  }

  lemma AtTerminated(data: Bytes, pos: nat, tag: Byte, body: Bytes, end: Byte)
    requires At(data, pos, [tag] + body + [end])
    requires forall i | 0 <= i < |body| :: body[i] != end
    ensures data[pos] == tag && data[pos + 1..pos + 1 + |body|] == body && data[pos + 1 + |body|] == end
    ensures IndexFrom(data, pos + 1, end) == pos + 1 + |body|
    ensures tag != end ==> IndexFrom(data, pos, end) == pos + 1 + |body|
  {
    AtSplit3(data, pos, [tag], body, end);
    AtSplit(data, pos + 1, body, [end]);
    var last := pos + 1 + |body|;
    assert [end][0] == data[last];
    forall i | pos + 1 <= i < last ensures data[i] != end {
      assert data[i] == body[i - pos - 1];
    }
  }

  lemma DecodeIntAt(data: Bytes, pos: nat, n: Int64)
    requires At(data, pos, EncodeInt(n))
    ensures data[pos] == TAG_INT && DecodeInt(data, pos) == Read(Int(n), pos + |EncodeInt(n)|)
  {
    AtTerminated(data, pos, TAG_INT, IntText(n), SEMICOLON);
    ParseIntText(n);
  }

  lemma DecodeRunAt(data: Bytes, pos: nat, tag: Byte, run: Bytes)
    requires At(data, pos, EncodeRun(tag, run)) && |data| <= MAX_INT64
    ensures data[pos] == tag && DecodeRun(data, pos) == Read(run, pos + |EncodeRun(tag, run)|)
  {
    AtSplit(data, pos, [tag] + IntText(|run|) + [COLON], run);
    AtTerminated(data, pos, tag, IntText(|run|), COLON);
    ParseIntText(|run|);
    var colon := pos + 1 + |IntText(|run|)|;
    assert IndexFrom(data, pos + 1, COLON) == colon;
    assert data[colon + 1..colon + 1 + |run|] == run;
  }

  lemma DecodeKeyAt(text: FloatText, data: Bytes, pos: nat, depth: int, tag: Byte, key: Bytes)
    requires tag == TAG_BYTES || tag == TAG_STR
    requires depth <= MAX_NESTING_DEPTH
    requires At(data, pos, EncodeRun(tag, key)) && |data| <= MAX_INT64
    ensures DecodeValue(text, data, pos, depth).Read?
    ensures KeyOf(DecodeValue(text, data, pos, depth).value) == Some(key)
    ensures DecodeValue(text, data, pos, depth).next == pos + |EncodeRun(tag, key)|
  {
    DecodeRunAt(data, pos, tag, key);
  }

  lemma DecodeFloatAt(text: FloatText, data: Bytes, pos: nat, x: Float64)
    requires Lawful(text) && At(data, pos, EncodeFloat(text, x))
    ensures data[pos] == TAG_FLOAT
    ensures DecodeFloat(text, data, pos)
         == if x.IsFinite() then Read(Float(x), pos + |EncodeFloat(text, x)|) else Failed(BadFloat)
  {
    AtTerminated(data, pos, TAG_FLOAT, FloatBody(text, x), SEMICOLON);
  }

  lemma RoundTripLeaf(text: FloatText, v: Value, data: Bytes, pos: nat, depth: int)
    requires Lawful(text) && Encodable(v) && FloatsFinite(v) && Fits(v, depth) && !v.IsSeq() && !v.IsMap()
    requires |data| <= MAX_INT64 && At(data, pos, Encode(text, v))
    ensures DecodeValue(text, data, pos, depth) == Read(Normal(v), pos + |Encode(text, v)|)
  {
    hide EncodeSeq, EncodePairs, DecodeItems, DecodePairs;
    var e := Encode(text, v);
    assert e[0] == data[pos];
    match v
    case Null =>
    case Bool(b) => assert e[1] == data[pos + 1];
    case Int(n) => DecodeIntAt(data, pos, n);
    case Uint(u) => DecodeIntAt(data, pos, Wrap64(u));
    case Uint64(u) => DecodeIntAt(data, pos, u);
    case Float(x) => DecodeFloatAt(text, data, pos, x);
    case ByteString(bs) => DecodeRunAt(data, pos, TAG_BYTES, bs);
    case Str(bs) => DecodeRunAt(data, pos, TAG_STR, bs);
  }

  /**
   Round trip in context: wherever the encoding of `v` lies in the data, the parser
   reads back the normal form of `v` and stops exactly behind the encoding.
   */
  lemma {:induction false} RoundTripAt(text: FloatText, v: Value, data: Bytes, pos: nat, depth: int)
    requires Lawful(text) && Encodable(v) && FloatsFinite(v) && Fits(v, depth)
    requires |data| <= MAX_INT64 && At(data, pos, Encode(text, v))
    ensures DecodeValue(text, data, pos, depth) == Read(Normal(v), pos + |Encode(text, v)|)
    decreases v, 1
  {
    hide Encode, DecodeValue, Normal, Encodable, FloatsFinite, Fits;
    if v.IsSeq() {
      RoundTripList(text, v, data, pos, depth);
    } else if v.IsMap() {
      RoundTripDict(text, v, data, pos, depth);
    } else {
      RoundTripLeaf(text, v, data, pos, depth);
    }
  }

  lemma NormalOfSeq(v: Value, depth: int)
    requires v.IsSeq() && Encodable(v) && Fits(v, depth)
    ensures Normal(v) == List(NormalSeq(v.items)) && depth <= MAX_NESTING_DEPTH
    ensures v.items[0..] == v.items && forall x | x in v.items :: Encodable(x)
  {
  }

  lemma {:induction false} RoundTripList(text: FloatText, v: Value, data: Bytes, pos: nat, depth: int)
    requires v.IsSeq()
    requires Lawful(text) && Encodable(v) && FloatsFinite(v) && Fits(v, depth)
    requires |data| <= MAX_INT64 && At(data, pos, Encode(text, v))
    ensures DecodeValue(text, data, pos, depth) == Read(Normal(v), pos + |Encode(text, v)|)
    decreases v, 0
  {
    hide Encode, EncodeSeq, DecodeValue, DecodeItems, Normal, NormalSeq, Encodable, FloatsFinite, Fits;
    EncodedSeq(text, v);
    NormalOfSeq(v, depth);
    AtSplit3(data, pos, [SeqTag(v)], EncodeSeq(text, v.items), SEMICOLON);
    RoundTripItems(text, v, 0, data, pos + 1, depth);
    DecodeList(text, data, pos, depth);
  }

  lemma ItemsEnd(text: FloatText, vs: seq<Value>, data: Bytes, pos: nat, depth: int)
    requires vs == [] && At(data, pos, EncodeSeq(text, vs) + [SEMICOLON])
    ensures DecodeItems(text, data, pos, depth) == Read(NormalSeq(vs), pos + |EncodeSeq(text, vs)| + 1)
  {
    hide Encode, DecodeValue;
    AtSplit(data, pos, [], [SEMICOLON]);
    assert [SEMICOLON][0] == data[pos];
  }

  lemma ItemSurvives(v: Value, x: Value, depth: int)
    requires v.IsSeq() && x in v.items && Encodable(v) && FloatsFinite(v) && Fits(v, depth)
    ensures Encodable(x) && FloatsFinite(x) && Fits(x, depth + 1)
  {
  }

  lemma {:induction false} RoundTripItems(text: FloatText, v: Value, i: nat, data: Bytes, pos: nat, depth: int)
    requires v.IsSeq() && i <= |v.items|
    requires Lawful(text) && Encodable(v) && FloatsFinite(v) && Fits(v, depth)
    requires |data| <= MAX_INT64 && At(data, pos, EncodeSeq(text, v.items[i..]) + [SEMICOLON])
    ensures DecodeItems(text, data, pos, depth)
         == Read(NormalSeq(v.items[i..]), pos + |EncodeSeq(text, v.items[i..])| + 1)
    decreases v, 0, |v.items| - i
  {
    hide Encode, EncodeSeq, DecodeValue, DecodeItems, Normal, NormalSeq, Encodable, FloatsFinite, Fits;
    if i == |v.items| {
      ItemsEnd(text, v.items[i..], data, pos, depth);
    } else {
      var first, rest := v.items[i], v.items[i + 1..];
      assert v.items[i..] == [first] + rest && first in v.items;
      NormalOfSeq(v, depth);
      ItemSurvives(v, first, depth);
      SeqSplit(text, first, rest, data, pos);
      var mid := pos + |Encode(text, first)|;
      RoundTripAt(text, first, data, pos, depth + 1);
      RoundTripItems(text, v, i + 1, data, mid, depth);
      DecodeItemsFrom(text, data, pos, depth, Normal(first), mid, NormalSeq(rest), mid + |EncodeSeq(text, rest)| + 1);
    }
  }

  lemma SeqSplit(text: FloatText, first: Value, rest: seq<Value>, data: Bytes, pos: nat)
    requires Encodable(first) && forall v | v in rest :: Encodable(v)
    requires At(data, pos, EncodeSeq(text, [first] + rest) + [SEMICOLON])
    ensures At(data, pos, Encode(text, first)) && data[pos] != SEMICOLON
    ensures At(data, pos + |Encode(text, first)|, EncodeSeq(text, rest) + [SEMICOLON])
    ensures |EncodeSeq(text, [first] + rest)| == |Encode(text, first)| + |EncodeSeq(text, rest)|
    ensures NormalSeq([first] + rest) == [Normal(first)] + NormalSeq(rest)
  {
    assert ([first] + rest)[1..] == rest;
    AtSplit3(data, pos, Encode(text, first), EncodeSeq(text, rest), SEMICOLON);
  }

  ghost function NormalOver(v: Value, keys: seq<Bytes>): map<Bytes, Value>
    requires v.IsMap() && forall k | k in keys :: k in v.entries
  {
    map k | k in keys :: Normal(v.entries[k])
  }

  lemma NormalOverCons(v: Value, keys: seq<Bytes>)
    requires v.IsMap() && keys != [] && forall k | k in keys :: k in v.entries
    ensures NormalOver(v, keys) == map[keys[0] := Normal(v.entries[keys[0]])] + NormalOver(v, keys[1..])
  {
  }

  lemma NormalOfMap(v: Value, depth: int)
    requires v.IsMap() && Fits(v, depth)
    ensures Normal(v) == Dict(NormalOver(v, KeyOrder.Sorted(v.entries.Keys))) && depth <= MAX_NESTING_DEPTH
  {
  }

  lemma {:induction false} RoundTripDict(text: FloatText, v: Value, data: Bytes, pos: nat, depth: int)
    requires v.IsMap()
    requires Lawful(text) && Encodable(v) && FloatsFinite(v) && Fits(v, depth)
    requires |data| <= MAX_INT64 && At(data, pos, Encode(text, v))
    ensures DecodeValue(text, data, pos, depth) == Read(Normal(v), pos + |Encode(text, v)|)
    decreases v, 0
  {
    hide Encode, EncodePairs, DecodeValue, DecodePairs, Normal, NormalOver, NormalMap, Encodable, FloatsFinite, Fits;
    var keys := KeyOrder.Sorted(v.entries.Keys);
    EncodedMap(text, v);
    NormalOfMap(v, depth);
    AtSplit3(data, pos, [TAG_DICT], EncodePairs(text, v, keys), SEMICOLON);
    RoundTripPairs(text, v, keys, data, pos + 1, depth);
    DecodeDict(text, data, pos, depth);
  }

  lemma PairsEnd(text: FloatText, v: Value, keys: seq<Bytes>, data: Bytes, pos: nat, depth: int)
    requires v.IsMap() && Encodable(v) && keys == [] && At(data, pos, EncodePairs(text, v, keys) + [SEMICOLON])
    ensures DecodePairs(text, data, pos, depth) == Read(NormalOver(v, keys), pos + |EncodePairs(text, v, keys)| + 1)
  {
    hide EncodePair, DecodePair;
    AtSplit(data, pos, [], [SEMICOLON]);
    assert [SEMICOLON][0] == data[pos];
  }

  lemma EntrySurvives(v: Value, k: Bytes, depth: int)
    requires v.IsMap() && k in v.entries && Encodable(v) && FloatsFinite(v) && Fits(v, depth)
    ensures Encodable(v.entries[k]) && FloatsFinite(v.entries[k]) && Fits(v.entries[k], depth + 1)
  {
  }

  lemma {:induction false} RoundTripPairs(text: FloatText, v: Value, keys: seq<Bytes>, data: Bytes, pos: nat, depth: int)
    requires v.IsMap()
    requires Lawful(text) && Encodable(v) && FloatsFinite(v) && Fits(v, depth)
    requires forall k | k in keys :: k in v.entries
    requires |data| <= MAX_INT64 && At(data, pos, EncodePairs(text, v, keys) + [SEMICOLON])
    ensures DecodePairs(text, data, pos, depth)
         == Read(NormalOver(v, keys), pos + |EncodePairs(text, v, keys)| + 1)
    decreases v, 0, |keys|
  {
    hide Encode, EncodeRun, EncodePairs, DecodeValue, DecodePair, DecodePairs, Normal, NormalOver, Encodable,
         FloatsFinite, Fits;
    if keys == [] {
      PairsEnd(text, v, keys, data, pos, depth);
    } else {
      PairsSplit(text, v, keys, data, pos);
      EntrySurvives(v, keys[0], depth);
      RoundTripPair(text, KeyTag(v), keys[0], v.entries[keys[0]], data, pos, depth);
      var mid := pos + |EncodePair(text, v, keys[0])|;
      RoundTripPairs(text, v, keys[1..], data, mid, depth);
      DecodePairsFrom(text, data, pos, depth, keys[0], Normal(v.entries[keys[0]]), mid,
                      NormalOver(v, keys[1..]), mid + |EncodePairs(text, v, keys[1..])| + 1);
      NormalOverCons(v, keys);
    }
  }

  lemma PairsSplit(text: FloatText, v: Value, keys: seq<Bytes>, data: Bytes, pos: nat)
    requires Encodable(v) && v.IsMap()
    requires keys != [] && forall k | k in keys :: k in v.entries
    requires At(data, pos, EncodePairs(text, v, keys) + [SEMICOLON])
    ensures At(data, pos, EncodePair(text, v, keys[0])) && data[pos] != SEMICOLON
    ensures At(data, pos + |EncodePair(text, v, keys[0])|, EncodePairs(text, v, keys[1..]) + [SEMICOLON])
    ensures |EncodePairs(text, v, keys)| == |EncodePair(text, v, keys[0])| + |EncodePairs(text, v, keys[1..])|
  {
    var pair := EncodePair(text, v, keys[0]);
    AtSplit3(data, pos, pair, EncodePairs(text, v, keys[1..]), SEMICOLON);
    assert pair[0] == KeyTag(v);
  }

  lemma {:induction false} RoundTripPair(text: FloatText, tag: Byte, k: Bytes, val: Value, data: Bytes, pos: nat, depth: int)
    requires tag == TAG_BYTES || tag == TAG_STR
    requires Lawful(text) && Encodable(val) && FloatsFinite(val) && Fits(val, depth + 1)
    requires |data| <= MAX_INT64 && At(data, pos, EncodeRun(tag, k) + Encode(text, val))
    ensures DecodePair(text, data, pos, depth)
         == Read((k, Normal(val)), pos + |EncodeRun(tag, k)| + |Encode(text, val)|)
    decreases val, 2
  {
    hide Encode, EncodeRun, DecodeValue, DecodePair, Normal, Encodable, FloatsFinite, Lawful;
    AtSplit(data, pos, EncodeRun(tag, k), Encode(text, val));
    var mid := pos + |EncodeRun(tag, k)|;
    DecodeKeyAt(text, data, pos, depth + 1, tag, k);
    RoundTripAt(text, val, data, mid, depth + 1);
    DecodePairFrom(text, data, pos, depth, k, mid, Normal(val), mid + |Encode(text, val)|);
  }
}
