/** A successful decode looks at the bytes it consumes and at nothing else. */
module BpickleLocality {
  import opened Common
  import opened BpickleValue
  import opened BpickleEncoder
  import opened BpickleDecoder

  /** The bytes of `a` from `p` up to `e` also lie in `b`, `d` places further on. */
  ghost predicate Same(a: Bytes, p: nat, e: nat, b: Bytes, d: int) {
    && p <= e <= |a| && 0 <= p + d && e + d <= |b|
    && forall i | p <= i < e :: a[i] == b[i + d]
  }

  lemma SameSlice(a: Bytes, p: nat, e: nat, b: Bytes, d: int)
    requires Same(a, p, e, b, d)
    ensures a[p..e] == b[p + d..e + d]
  {
  }

  lemma SameIndex(a: Bytes, p: nat, e: nat, b: Bytes, d: int, x: Byte)
    requires Same(a, p, e, b, d) && IndexFrom(a, p, x) < e
    ensures IndexFrom(b, p + d, x) == IndexFrom(a, p, x) + d
  {
    var i := IndexFrom(a, p, x);
    assert a[i] == b[i + d];
    forall k | p + d <= k < i + d ensures b[k] != x { assert a[k - d] == b[k]; }
  }

  lemma IntLocal(a: Bytes, p: nat, e: nat, b: Bytes, d: int)
    requires Same(a, p, e, b, d) && p < e && a[p] == TAG_INT
    requires DecodeInt(a, p).Read? && DecodeInt(a, p).next == e
    ensures b[p + d] == TAG_INT && DecodeInt(b, p + d) == Read(DecodeInt(a, p).value, e + d)
  {
    assert a[p] == b[p + d];
    SameIndex(a, p, e, b, d, SEMICOLON);
    SameSlice(a, p + 1, e - 1, b, d);
  }

  lemma FloatLocal(text: FloatText, a: Bytes, p: nat, e: nat, b: Bytes, d: int)
    requires Same(a, p, e, b, d) && p < e && a[p] == TAG_FLOAT
    requires DecodeFloat(text, a, p).Read? && DecodeFloat(text, a, p).next == e
    ensures b[p + d] == TAG_FLOAT && DecodeFloat(text, b, p + d) == Read(DecodeFloat(text, a, p).value, e + d)
  {
    assert a[p] == b[p + d];
    SameIndex(a, p, e, b, d, SEMICOLON);
    SameSlice(a, p + 1, e - 1, b, d);
  }

  lemma RunLocal(a: Bytes, p: nat, e: nat, b: Bytes, d: int)
    requires Same(a, p, e, b, d) && p < e
    requires DecodeRun(a, p).Read? && DecodeRun(a, p).next == e
    ensures DecodeRun(b, p + d) == Read(DecodeRun(a, p).value, e + d)
  {
    SameIndex(a, p + 1, e, b, d, COLON);
    var colon := IndexFrom(a, p + 1, COLON);
    SameSlice(a, p + 1, colon, b, d);
    SameSlice(a, colon + 1, e, b, d);
  }

  /**
   Locality: the bytes that a successful decode consumes determine its value and its
   length, wherever they lie and whatever surrounds them.
   */
  lemma {:induction false} DecodeLocal(text: FloatText, a: Bytes, p: nat, v: Value, e: nat, b: Bytes, d: int, depth: int)
    requires Same(a, p, e, b, d)
    requires DecodeValue(text, a, p, depth) == Read(v, e)
    ensures DecodeValue(text, b, p + d, depth) == Read(v, e + d)
    decreases e - p, 1
  {
    hide DecodeItems, DecodePairs, DecodeRun;
    assert a[p] == b[p + d];
    if a[p] == TAG_BOOL {
      assert a[p + 1] == b[p + 1 + d];
    } else if a[p] == TAG_INT {
      IntLocal(a, p, e, b, d);
    } else if a[p] == TAG_FLOAT {
      FloatLocal(text, a, p, e, b, d);
    } else if a[p] == TAG_BYTES || a[p] == TAG_STR {
      RunLocal(a, p, e, b, d);
    } else if a[p] == TAG_LIST || a[p] == TAG_TUPLE {
      ItemsLocal(text, a, p + 1, v.items, e, b, d, depth);
    } else if a[p] == TAG_DICT {
      PairsLocal(text, a, p + 1, v.entries, e, b, d, depth);
    }
  }

  lemma {:induction false} ItemsLocal(text: FloatText, a: Bytes, p: nat, vs: seq<Value>, e: nat, b: Bytes, d: int, depth: int)
    requires Same(a, p, e, b, d)
    requires DecodeItems(text, a, p, depth) == Read(vs, e)
    ensures DecodeItems(text, b, p + d, depth) == Read(vs, e + d)
    decreases e - p, 2
  {
    hide DecodeValue;
    assert a[p] == b[p + d];
    if a[p] != SEMICOLON {
      var Read(first, mid) := DecodeValue(text, a, p, depth + 1);
      var Read(rest, end) := DecodeItems(text, a, mid, depth);
      DecodeLocal(text, a, p, first, mid, b, d, depth + 1);
      ItemsLocal(text, a, mid, rest, e, b, d, depth);
      DecodeItemsFrom(text, b, p + d, depth, first, mid + d, rest, e + d);
    }
  }

  lemma {:induction false} PairLocal(text: FloatText, a: Bytes, p: nat, pair: (Bytes, Value), e: nat, b: Bytes, d: int, depth: int)
    requires Same(a, p, e, b, d)
    requires DecodePair(text, a, p, depth) == Read(pair, e)
    ensures DecodePair(text, b, p + d, depth) == Read(pair, e + d)
    decreases e - p, 2
  {
    hide DecodeValue;
    var Read(key, mid) := DecodeValue(text, a, p, depth + 1);
    DecodeLocal(text, a, p, key, mid, b, d, depth + 1);
    DecodeLocal(text, a, mid, pair.1, e, b, d, depth + 1);
    DecodePairFrom(text, b, p + d, depth, pair.0, mid + d, pair.1, e + d);
  }

  lemma {:induction false} PairsLocal(text: FloatText, a: Bytes, p: nat, m: map<Bytes, Value>, e: nat, b: Bytes, d: int, depth: int)
    requires Same(a, p, e, b, d)
    requires DecodePairs(text, a, p, depth) == Read(m, e)
    ensures DecodePairs(text, b, p + d, depth) == Read(m, e + d)
    decreases e - p, 3
  {
    hide DecodeValue, DecodePair;
    assert a[p] == b[p + d];
    if a[p] != SEMICOLON {
      var Read(pair, mid) := DecodePair(text, a, p, depth);
      var Read(rest, end) := DecodePairs(text, a, mid, depth);
      PairLocal(text, a, p, pair, mid, b, d, depth);
      PairsLocal(text, a, mid, rest, e, b, d, depth);
      DecodePairsFrom(text, b, p + d, depth, pair.0, pair.1, mid + d, rest, e + d);
    }
  }
}
