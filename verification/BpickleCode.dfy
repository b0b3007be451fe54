/** The encodings as a code: a byte string starts with at most one of them. */
module BpickleCode {
  import opened Common
  import opened Decimal
  import opened BpickleValue
  import opened BpickleEncoder
  import KeyOrder

  /** The first byte of an encoding. */
  function Tag(v: Value): Byte
    requires !v.Unsupported?
  {
    match v
    case Null => TAG_NULL
    case Bool(_) => TAG_BOOL
    case Int(_) => TAG_INT
    case Uint(_) => TAG_INT
    case Uint64(_) => TAG_INT
    case Float(_) => TAG_FLOAT
    case ByteString(_) => TAG_BYTES
    case Str(_) => TAG_STR
    case List(_) => TAG_LIST
    case Tuple(_) => TAG_TUPLE
    case Dict(_) => TAG_DICT
    case BytesDict(_) => TAG_DICT
  }

  lemma SplitAt<T>(a: seq<T>, x: seq<T>, b: seq<T>, y: seq<T>)
    requires a + x == b + y && |a| == |b|
    ensures a == b && x == y
  {
    assert a == (a + x)[..|a|] && b == (b + y)[..|b|];
    assert x == (a + x)[|a|..] && y == (b + y)[|b|..];
  }

  /** Two tokens that end at the first terminator. */
  lemma SplitAtTerminator(a: Bytes, x: Bytes, b: Bytes, y: Bytes, end: Byte)
    requires a + ([end] + x) == b + ([end] + y)
    requires forall i | 0 <= i < |a| :: a[i] != end
    requires forall i | 0 <= i < |b| :: b[i] != end
    ensures a == b && x == y
  {
    var s := a + ([end] + x);
    assert s[|a|] == end && s[|b|] == end;
    assert forall i | 0 <= i < |a| :: s[i] == a[i];
    assert forall i | 0 <= i < |b| :: s[i] == b[i];
    SplitAt(a, [end] + x, b, [end] + y);
    SplitAt([end], x, [end], y);
  }

  /** A tag, a token and its terminator. */
  lemma SplitTagged(tag: Byte, a: Bytes, x: Bytes, b: Bytes, y: Bytes, end: Byte)
    requires [tag] + a + [end] + x == [tag] + b + [end] + y
    requires forall i | 0 <= i < |a| :: a[i] != end
    requires forall i | 0 <= i < |b| :: b[i] != end
    ensures a == b && x == y
  {
    assert [tag] + a + [end] + x == [tag] + (a + ([end] + x));
    assert [tag] + b + [end] + y == [tag] + (b + ([end] + y));
    SplitAt([tag], a + ([end] + x), [tag], b + ([end] + y));
    SplitAtTerminator(a, x, b, y, end);
  }

  lemma SplitRun(tag: Byte, k: Bytes, x: Bytes, l: Bytes, y: Bytes)
    requires EncodeRun(tag, k) + x == EncodeRun(tag, l) + y
    ensures k == l && x == y
  {
    Reassociate([tag] + IntText(|k|) + [COLON], k, x);
    Reassociate([tag] + IntText(|l|) + [COLON], l, y);
    SplitTagged(tag, IntText(|k|), k + x, IntText(|l|), l + y, COLON);
    DigitTextValue(|k|);
    DigitTextValue(|l|);
    SplitAt(k, x, l, y);
  }

  lemma FirstByte(text: FloatText, v: Value, x: Bytes)
    requires Encodable(v) && !v.Unsupported?
    ensures (Encode(text, v) + x)[0] == Tag(v)
  {
  }

  /** Unique parsing: from where two encodings start together, they end together. */
  lemma {:induction false} CodeSplit(text: FloatText, v: Value, x: Bytes, w: Value, y: Bytes)
    requires Lawful(text) && Encodable(v) && Encodable(w)
    requires Encode(text, v) + x == Encode(text, w) + y
    ensures Encode(text, v) == Encode(text, w) && x == y
    decreases v, 2
  {
    FirstByte(text, v, x);
    FirstByte(text, w, y);
    if v.IsSeq() {
      SeqSplit(text, v, x, w, y);
    } else if v.IsMap() {
      MapSplit(text, v, x, w, y);
    } else {
      LeafSplit(text, v, x, w, y);
    }
  }

  lemma LeafSplit(text: FloatText, v: Value, x: Bytes, w: Value, y: Bytes)
    requires Lawful(text) && Encodable(v) && Encodable(w) && !v.IsSeq() && !v.IsMap() && Tag(v) == Tag(w)
    requires Encode(text, v) + x == Encode(text, w) + y
    ensures Encode(text, v) == Encode(text, w) && x == y
  {
    match v
    case Null => SplitAt([TAG_NULL], x, [TAG_NULL], y);
    case Bool(b) => SplitAt(EncodeBool(b), x, EncodeBool(w.b), y);
    case Int(n) => SplitInt(text, v, x, w, y);
    case Uint(u) => SplitInt(text, v, x, w, y);
    case Uint64(u) => SplitInt(text, v, x, w, y);
    case Float(f) =>
      BodyHasNoTerminator(text, f);
      BodyHasNoTerminator(text, w.x);
      SplitTagged(TAG_FLOAT, FloatBody(text, f), x, FloatBody(text, w.x), y, SEMICOLON);
    case ByteString(data) => SplitRun(TAG_BYTES, data, x, w.data, y);
    case Str(s) => SplitRun(TAG_STR, s, x, w.text, y);
  }

  lemma BodyHasNoTerminator(text: FloatText, x: Float64)
    requires Lawful(text)
    ensures forall i | 0 <= i < |FloatBody(text, x)| :: FloatBody(text, x)[i] != SEMICOLON
  {
    var s := text.format(x);
    assert SEMICOLON !in s;
    assert forall i | 0 <= i < |s| :: s[i] in s;
  }

  /** The number on the wire. */
  function Number(v: Value): Int64
    requires v.Int? || v.Uint? || v.Uint64?
  {
    if v.Int? then v.n else if v.Uint? then Wrap64(v.u) else Wrap64(v.u64)
  }

  lemma SplitInt(text: FloatText, v: Value, x: Bytes, w: Value, y: Bytes)
    requires (v.Int? || v.Uint? || v.Uint64?) && (w.Int? || w.Uint? || w.Uint64?)
    requires Encodable(v) && Encodable(w) && Encode(text, v) + x == Encode(text, w) + y
    ensures Encode(text, v) == Encode(text, w) && x == y
  {
    assert Encode(text, v) == EncodeInt(Number(v)) && Encode(text, w) == EncodeInt(Number(w));
    SplitTagged(TAG_INT, IntText(Number(v)), x, IntText(Number(w)), y, SEMICOLON);
  }

  lemma {:induction false} SeqSplit(text: FloatText, v: Value, x: Bytes, w: Value, y: Bytes)
    requires Lawful(text) && Encodable(v) && Encodable(w) && v.IsSeq() && Tag(v) == Tag(w)
    requires Encode(text, v) + x == Encode(text, w) + y
    ensures Encode(text, v) == Encode(text, w) && x == y
    ensures w.IsSeq() && SameItems(text, v.items, w.items)
    decreases v, 1
  {
    var a, b := EncodeSeq(text, v.items), EncodeSeq(text, w.items);
    EncodedSeq(text, v);
    EncodedSeq(text, w);
    hide Encode, EncodeSeq;
    Unwrap(Tag(v), a, x, b, y);
    ItemsSplit(text, v.items, x, w.items, y);
    SameItemsEncode(text, v.items, w.items);
  }

  lemma Unwrap(tag: Byte, a: Bytes, x: Bytes, b: Bytes, y: Bytes)
    requires [tag] + a + [SEMICOLON] + x == [tag] + b + [SEMICOLON] + y
    ensures a + ([SEMICOLON] + x) == b + ([SEMICOLON] + y)
  {
    assert [tag] + a + [SEMICOLON] + x == [tag] + (a + ([SEMICOLON] + x));
    assert [tag] + b + [SEMICOLON] + y == [tag] + (b + ([SEMICOLON] + y));
    SplitAt([tag], a + ([SEMICOLON] + x), [tag], b + ([SEMICOLON] + y));
  }

  ghost predicate AllEncodable(vs: seq<Value>) { forall v | v in vs :: Encodable(v) }

  /** Item by item the same encodings. */
  ghost predicate SameItems(text: FloatText, vs: seq<Value>, ws: seq<Value>)
    requires AllEncodable(vs) && AllEncodable(ws)
  {
    |vs| == |ws| && forall i | 0 <= i < |vs| :: Encode(text, vs[i]) == Encode(text, ws[i])
  }

  lemma {:induction false} SameItemsEncode(text: FloatText, vs: seq<Value>, ws: seq<Value>)
    requires AllEncodable(vs) && AllEncodable(ws) && SameItems(text, vs, ws)
    ensures EncodeSeq(text, vs) == EncodeSeq(text, ws)
  {
    if vs != [] {
      assert Encode(text, vs[0]) == Encode(text, ws[0]);
      SameItemsEncode(text, vs[1..], ws[1..]);
    }
  }

  lemma {:induction false} ItemsSplit(text: FloatText, vs: seq<Value>, x: Bytes, ws: seq<Value>, y: Bytes)
    requires Lawful(text) && AllEncodable(vs) && AllEncodable(ws)
    requires EncodeSeq(text, vs) + ([SEMICOLON] + x) == EncodeSeq(text, ws) + ([SEMICOLON] + y)
    ensures SameItems(text, vs, ws) && x == y
    decreases vs, 0
  {
    if vs == [] || ws == [] {
      NothingLeft(text, vs, x, ws, y);
    } else {
      var p, q := EncodeSeq(text, vs[1..]) + ([SEMICOLON] + x), EncodeSeq(text, ws[1..]) + ([SEMICOLON] + y);
      Reassociate(Encode(text, vs[0]), EncodeSeq(text, vs[1..]), [SEMICOLON] + x);
      Reassociate(Encode(text, ws[0]), EncodeSeq(text, ws[1..]), [SEMICOLON] + y);
      CodeSplit(text, vs[0], p, ws[0], q);
      ItemsSplit(text, vs[1..], x, ws[1..], y);
      ConsItems(text, vs, ws);
    }
  }

  lemma NothingLeft(text: FloatText, vs: seq<Value>, x: Bytes, ws: seq<Value>, y: Bytes)
    requires AllEncodable(vs) && AllEncodable(ws) && (vs == [] || ws == [])
    requires EncodeSeq(text, vs) + ([SEMICOLON] + x) == EncodeSeq(text, ws) + ([SEMICOLON] + y)
    ensures vs == [] && ws == [] && x == y
  {
    FirstOfItems(text, vs, x);
    FirstOfItems(text, ws, y);
    SplitAt([], [SEMICOLON] + x, [], [SEMICOLON] + y);
    SplitAt([SEMICOLON], x, [SEMICOLON], y);
  }

  /** A terminator comes first exactly when no items are left. */
  lemma FirstOfItems(text: FloatText, vs: seq<Value>, x: Bytes)
    requires AllEncodable(vs)
    ensures (EncodeSeq(text, vs) + ([SEMICOLON] + x))[0] == SEMICOLON <==> vs == []
  {
    if vs != [] { assert (EncodeSeq(text, vs) + ([SEMICOLON] + x))[0] == Encode(text, vs[0])[0]; }
  }

  lemma ConsItems(text: FloatText, vs: seq<Value>, ws: seq<Value>)
    requires AllEncodable(vs) && AllEncodable(ws) && vs != [] && ws != []
    requires Encode(text, vs[0]) == Encode(text, ws[0]) && SameItems(text, vs[1..], ws[1..])
    ensures SameItems(text, vs, ws)
  {
    forall i | 0 <= i < |vs| ensures Encode(text, vs[i]) == Encode(text, ws[i]) {
      if i > 0 { assert vs[i] == vs[1..][i - 1] && ws[i] == ws[1..][i - 1]; }
    }
  }

  // Dicts.

  ghost predicate KeysOf(v: Value, keys: seq<Bytes>)
    requires v.IsMap()
  {
    forall k | k in keys :: k in v.entries
  }

  /** The same keys under the same tag, and entry by entry the same encodings. */
  ghost predicate SamePairs(text: FloatText, v: Value, ks: seq<Bytes>, w: Value, ls: seq<Bytes>)
    requires Encodable(v) && Encodable(w) && v.IsMap() && w.IsMap() && KeysOf(v, ks) && KeysOf(w, ls)
  {
    && ks == ls
    && (ks != [] ==> KeyTag(v) == KeyTag(w))
    && forall k | k in ks :: Encode(text, v.entries[k]) == Encode(text, w.entries[k])
  }

  lemma {:induction false} SamePairsEncode(text: FloatText, v: Value, ks: seq<Bytes>, w: Value, ls: seq<Bytes>)
    requires Encodable(v) && Encodable(w) && v.IsMap() && w.IsMap() && KeysOf(v, ks) && KeysOf(w, ls)
    requires SamePairs(text, v, ks, w, ls)
    ensures EncodePairs(text, v, ks) == EncodePairs(text, w, ls)
    decreases |ks|
  {
    if ks != [] { SamePairsEncode(text, v, ks[1..], w, ls[1..]); }
  }

  lemma {:induction false} MapSplit(text: FloatText, v: Value, x: Bytes, w: Value, y: Bytes)
    requires Lawful(text) && Encodable(v) && Encodable(w) && v.IsMap() && Tag(v) == Tag(w)
    requires Encode(text, v) + x == Encode(text, w) + y
    ensures Encode(text, v) == Encode(text, w) && x == y
    ensures w.IsMap()
    ensures SamePairs(text, v, KeyOrder.Sorted(v.entries.Keys), w, KeyOrder.Sorted(w.entries.Keys))
    decreases v, 1
  {
    var ks, ls := KeyOrder.Sorted(v.entries.Keys), KeyOrder.Sorted(w.entries.Keys);
    EncodedMap(text, v);
    EncodedMap(text, w);
    hide Encode, EncodePairs;
    Unwrap(TAG_DICT, EncodePairs(text, v, ks), x, EncodePairs(text, w, ls), y);
    PairsSplit(text, v, ks, x, w, ls, y);
    SamePairsEncode(text, v, ks, w, ls);
  }

  lemma PairsCons(text: FloatText, v: Value, ks: seq<Bytes>, x: Bytes)
    requires Encodable(v) && v.IsMap() && KeysOf(v, ks) && ks != []
    ensures EncodePairs(text, v, ks) + x == EncodePair(text, v, ks[0]) + (EncodePairs(text, v, ks[1..]) + x)
  {
    hide EncodePair;
    Reassociate(EncodePair(text, v, ks[0]), EncodePairs(text, v, ks[1..]), x);
  }

  lemma ConsPairs(text: FloatText, v: Value, ks: seq<Bytes>, w: Value, ls: seq<Bytes>)
    requires Encodable(v) && Encodable(w) && v.IsMap() && w.IsMap() && KeysOf(v, ks) && KeysOf(w, ls)
    requires ks != [] && ls != [] && ks[0] == ls[0] && KeyTag(v) == KeyTag(w)
    requires Encode(text, v.entries[ks[0]]) == Encode(text, w.entries[ls[0]]) && SamePairs(text, v, ks[1..], w, ls[1..])
    ensures SamePairs(text, v, ks, w, ls)
  {
    hide Encode;
    assert ks == [ks[0]] + ks[1..] && ls == [ls[0]] + ls[1..];
  }

  lemma {:induction false} PairsSplit(text: FloatText, v: Value, ks: seq<Bytes>, x: Bytes, w: Value, ls: seq<Bytes>, y: Bytes)
    requires Lawful(text) && Encodable(v) && Encodable(w) && v.IsMap() && w.IsMap() && KeysOf(v, ks) && KeysOf(w, ls)
    requires EncodePairs(text, v, ks) + ([SEMICOLON] + x) == EncodePairs(text, w, ls) + ([SEMICOLON] + y)
    ensures SamePairs(text, v, ks, w, ls) && x == y
    decreases v, 0, |ks|
  {
    hide Encode, EncodePair, EncodePairs;
    if ks == [] || ls == [] {
      NoPairsLeft(text, v, ks, x, w, ls, y);
    } else {
      hide SamePairs;
      PairsCons(text, v, ks, [SEMICOLON] + x);
      PairsCons(text, w, ls, [SEMICOLON] + y);
      PairSplit(text, v, ks[0], EncodePairs(text, v, ks[1..]) + ([SEMICOLON] + x),
                w, ls[0], EncodePairs(text, w, ls[1..]) + ([SEMICOLON] + y));
      PairsSplit(text, v, ks[1..], x, w, ls[1..], y);
      ConsPairs(text, v, ks, w, ls);
    }
  }

  lemma {:induction false} PairSplit(text: FloatText, v: Value, k: Bytes, x: Bytes, w: Value, l: Bytes, y: Bytes)
    requires Lawful(text) && Encodable(v) && Encodable(w) && v.IsMap() && w.IsMap() && k in v.entries && l in w.entries
    requires EncodePair(text, v, k) + x == EncodePair(text, w, l) + y
    ensures k == l && KeyTag(v) == KeyTag(w) && Encode(text, v.entries[k]) == Encode(text, w.entries[l]) && x == y
    decreases v, 0, 0
  {
    var e, f := Encode(text, v.entries[k]), Encode(text, w.entries[l]);
    Reassociate(EncodeRun(KeyTag(v), k), e, x);
    Reassociate(EncodeRun(KeyTag(w), l), f, y);
    assert (EncodeRun(KeyTag(v), k) + (e + x))[0] == KeyTag(v);
    assert (EncodeRun(KeyTag(w), l) + (f + y))[0] == KeyTag(w);
    SplitRun(KeyTag(v), k, e + x, l, f + y);
    CodeSplit(text, v.entries[k], x, w.entries[l], y);
  }

  lemma NoPairsLeft(text: FloatText, v: Value, ks: seq<Bytes>, x: Bytes, w: Value, ls: seq<Bytes>, y: Bytes)
    requires Encodable(v) && Encodable(w) && v.IsMap() && w.IsMap() && KeysOf(v, ks) && KeysOf(w, ls)
    requires ks == [] || ls == []
    requires EncodePairs(text, v, ks) + ([SEMICOLON] + x) == EncodePairs(text, w, ls) + ([SEMICOLON] + y)
    ensures ks == [] && ls == [] && x == y
  {
    FirstOfPairs(text, v, ks, x);
    FirstOfPairs(text, w, ls, y);
    SplitAt([], [SEMICOLON] + x, [], [SEMICOLON] + y);
    SplitAt([SEMICOLON], x, [SEMICOLON], y);
  }

  lemma FirstOfPairs(text: FloatText, v: Value, ks: seq<Bytes>, x: Bytes)
    requires Encodable(v) && v.IsMap() && KeysOf(v, ks)
    ensures (EncodePairs(text, v, ks) + ([SEMICOLON] + x))[0] == SEMICOLON <==> ks == []
  {
    if ks != [] {
      assert ks[0] in ks;
      assert (EncodePairs(text, v, ks) + ([SEMICOLON] + x))[0] == EncodePair(text, v, ks[0])[0] == KeyTag(v);
    }
  }
}
