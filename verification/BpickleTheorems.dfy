/** What the codec promises as a whole: which values survive, and which byte strings are equal in meaning. */
module BpickleTheorems {
  import opened Common
  import opened Decimal
  import opened BpickleValue
  import opened BpickleEncoder
  import opened BpickleDecoder
  import opened BpickleRoundTrip
  import BpickleCode
  import BpickleLocality
  import KeyOrder

  /** All floats are finite and no part lies below the depth limit. */
  ghost predicate Survives(v: Value, depth: int) {
    FloatsFinite(v) && Fits(v, depth)
  }

  lemma BadItem(v: Value, depth: int)
    requires v.IsSeq() && depth <= MAX_NESTING_DEPTH && !Survives(v, depth)
    ensures exists i :: 0 <= i < |v.items| && !Survives(v.items[i], depth + 1)
  {
    if forall i | 0 <= i < |v.items| :: Survives(v.items[i], depth + 1) {
      forall x | x in v.items ensures FloatsFinite(x) && Fits(x, depth + 1) {
        var i :| 0 <= i < |v.items| && v.items[i] == x;
        assert Survives(v.items[i], depth + 1);
      }
      assert false;
    }
  }

  /** Whatever does not survive is refused, never misread. */
  lemma {:induction false} RefusedAt(text: FloatText, v: Value, data: Bytes, pos: nat, depth: int)
    requires Lawful(text) && Encodable(v) && !Survives(v, depth)
    requires |data| <= MAX_INT64 && At(data, pos, Encode(text, v))
    ensures DecodeValue(text, data, pos, depth).Failed?
    decreases v, 1
  {
    var e := Encode(text, v);
    assert e[0] == data[pos];
    if depth <= MAX_NESTING_DEPTH {
      if v.Float? {
        DecodeFloatAt(text, data, pos, v.x);
      } else if v.IsSeq() {
        RefusedList(text, v, data, pos, depth);
      } else if v.IsMap() {
        RefusedDict(text, v, data, pos, depth);
      }
    }
  }

  lemma {:induction false} RefusedList(text: FloatText, v: Value, data: Bytes, pos: nat, depth: int)
    requires Lawful(text) && Encodable(v) && v.IsSeq() && depth <= MAX_NESTING_DEPTH && !Survives(v, depth)
    requires |data| <= MAX_INT64 && At(data, pos, Encode(text, v))
    ensures DecodeValue(text, data, pos, depth).Failed?
    decreases v, 0
  {
    hide Encode, EncodeSeq, DecodeValue, DecodeItems, Survives;
    EncodedSeq(text, v);
    AtSplit3(data, pos, [SeqTag(v)], EncodeSeq(text, v.items), SEMICOLON);
    BadItem(v, depth);
    var bad :| 0 <= bad < |v.items| && !Survives(v.items[bad], depth + 1);
    assert v.items[0..] == v.items;
    RefusedItems(text, v, 0, bad, data, pos + 1, depth);
    DecodeList(text, data, pos, depth);
  }

  lemma {:induction false} RefusedItems(text: FloatText, v: Value, i: nat, bad: nat, data: Bytes, pos: nat, depth: int)
    requires Lawful(text) && Encodable(v) && v.IsSeq()
    requires i <= bad < |v.items| && !Survives(v.items[bad], depth + 1)
    requires |data| <= MAX_INT64 && At(data, pos, EncodeSeq(text, v.items[i..]) + [SEMICOLON])
    ensures DecodeItems(text, data, pos, depth).Failed?
    decreases v, 0, |v.items| - i
  {
    hide Encode, EncodeSeq, DecodeValue, DecodeItems;
    var first, rest := v.items[i], v.items[i + 1..];
    assert v.items[i..] == [first] + rest && first in v.items;
    SeqSplit(text, first, rest, data, pos);
    if Survives(first, depth + 1) {
      var mid := pos + |Encode(text, first)|;
      RoundTripAt(text, first, data, pos, depth + 1);
      RefusedItems(text, v, i + 1, bad, data, mid, depth);
      DecodeItemsFails(text, data, pos, depth, mid);
    } else {
      RefusedAt(text, first, data, pos, depth + 1);
      DecodeItemsFails(text, data, pos, depth, pos);
    }
  }

  /** A list fails when its first item fails, or when what follows the first item fails. */
  lemma DecodeItemsFails(text: FloatText, data: Bytes, pos: nat, depth: int, mid: nat)
    requires pos < |data| && data[pos] != SEMICOLON && mid <= |data|
    requires
      var first := DecodeValue(text, data, pos, depth + 1);
      first.Failed? || (first.next == mid && DecodeItems(text, data, mid, depth).Failed?)
    ensures DecodeItems(text, data, pos, depth).Failed?
  {
  }

  lemma DecodePairsFails(text: FloatText, data: Bytes, pos: nat, depth: int, mid: nat)
    requires pos < |data| && data[pos] != SEMICOLON && mid <= |data|
    requires
      var first := DecodePair(text, data, pos, depth);
      first.Failed? || (first.next == mid && DecodePairs(text, data, mid, depth).Failed?)
    ensures DecodePairs(text, data, pos, depth).Failed?
  {
  }

  lemma BadEntry(v: Value, depth: int)
    requires v.IsMap() && depth <= MAX_NESTING_DEPTH && !Survives(v, depth)
    ensures exists k :: k in v.entries && !Survives(v.entries[k], depth + 1)
  {
    if forall k | k in v.entries :: Survives(v.entries[k], depth + 1) {
      forall k | k in v.entries ensures FloatsFinite(v.entries[k]) && Fits(v.entries[k], depth + 1) {
        assert Survives(v.entries[k], depth + 1);
      }
      assert false;
    }
  }

  lemma {:induction false} RefusedDict(text: FloatText, v: Value, data: Bytes, pos: nat, depth: int)
    requires Lawful(text) && Encodable(v) && v.IsMap() && depth <= MAX_NESTING_DEPTH && !Survives(v, depth)
    requires |data| <= MAX_INT64 && At(data, pos, Encode(text, v))
    ensures DecodeValue(text, data, pos, depth).Failed?
    decreases v, 0
  {
    hide Encode, EncodePairs, DecodeValue, DecodePairs, Encodable, Survives;
    var keys := KeyOrder.Sorted(v.entries.Keys);
    EncodedMap(text, v);
    AtSplit3(data, pos, [TAG_DICT], EncodePairs(text, v, keys), SEMICOLON);
    BadEntry(v, depth);
    var bad :| bad in v.entries && !Survives(v.entries[bad], depth + 1);
    RefusedPairs(text, v, keys, bad, data, pos + 1, depth);
    DecodeDict(text, data, pos, depth);
  }

  lemma {:induction false} RefusedPairs(text: FloatText, v: Value, keys: seq<Bytes>, bad: Bytes, data: Bytes, pos: nat, depth: int)
    requires Lawful(text) && Encodable(v) && v.IsMap()
    requires forall k | k in keys :: k in v.entries
    requires bad in keys && !Survives(v.entries[bad], depth + 1)
    requires |data| <= MAX_INT64 && At(data, pos, EncodePairs(text, v, keys) + [SEMICOLON])
    ensures DecodePairs(text, data, pos, depth).Failed?
    decreases v, 0, |keys|
  {
    hide Encode, EncodeRun, EncodePairs, DecodeValue, DecodePair, DecodePairs;
    var k := keys[0];
    var tag, val := KeyTag(v), v.entries[k];
    PairsSplit(text, v, keys, data, pos);
    if Survives(val, depth + 1) {
      var mid := pos + |EncodePair(text, v, k)|;
      RoundTripPair(text, tag, k, val, data, pos, depth);
      RefusedPairs(text, v, keys[1..], bad, data, mid, depth);
      DecodePairsFails(text, data, pos, depth, mid);
    } else {
      RefusedPair(text, tag, k, val, data, pos, depth);
      DecodePairsFails(text, data, pos, depth, pos);
    }
  }

  lemma {:induction false} RefusedPair(text: FloatText, tag: Byte, k: Bytes, val: Value, data: Bytes, pos: nat, depth: int)
    requires tag == TAG_BYTES || tag == TAG_STR
    requires Lawful(text) && Encodable(val) && !Survives(val, depth + 1)
    requires |data| <= MAX_INT64 && At(data, pos, EncodeRun(tag, k) + Encode(text, val))
    ensures DecodePair(text, data, pos, depth).Failed?
    decreases val, 2
  {
    hide Encode, EncodeRun, DecodeValue, DecodePair, Encodable, Survives, Lawful;
    AtSplit(data, pos, EncodeRun(tag, k), Encode(text, val));
    var mid := pos + |EncodeRun(tag, k)|;
    if depth < MAX_NESTING_DEPTH {
      DecodeKeyAt(text, data, pos, depth + 1, tag, k);
      RefusedAt(text, val, data, mid, depth + 1);
    } else {
      TooDeepFails(text, data, pos, depth + 1);
    }
    DecodePairFails(text, data, pos, depth, mid);
  }

  lemma TooDeepFails(text: FloatText, data: Bytes, pos: nat, depth: int)
    requires pos <= |data| && depth > MAX_NESTING_DEPTH
    ensures DecodeValue(text, data, pos, depth).Failed?
  {
  }

  lemma DecodePairFails(text: FloatText, data: Bytes, pos: nat, depth: int, mid: nat)
    requires pos <= |data| && mid <= |data|
    requires
      var key := DecodeValue(text, data, pos, depth + 1);
      key.Failed? || (key.next == mid && DecodeValue(text, data, mid, depth + 1).Failed?)
    ensures DecodePair(text, data, pos, depth).Failed?
  {
    hide DecodeValue;
  }

  /** In normal form, printable, and within the depth limit. */
  ghost predicate Shaped(v: Value, depth: int) {
    Encodable(v) && Normal(v) == v && Fits(v, depth)
  }

  lemma LeafShape(text: FloatText, data: Bytes, pos: nat, depth: int, v: Value, next: nat)
    requires pos <= |data| && DecodeValue(text, data, pos, depth) == Read(v, next) && !v.List? && !v.Dict?
    ensures Shaped(v, depth)
  {
    hide DecodeItems, DecodePairs, DecodeRun;
  }

  /** Only a list or a tuple is read as a list, and only a dict as a dict. */
  lemma DecodedTag(text: FloatText, data: Bytes, pos: nat, depth: int, v: Value, next: nat)
    requires pos <= |data| && DecodeValue(text, data, pos, depth) == Read(v, next)
    ensures depth <= MAX_NESTING_DEPTH
    ensures v.List? ==> DecodeItems(text, data, pos + 1, depth) == Read(v.items, next)
    ensures v.Dict? ==> DecodePairs(text, data, pos + 1, depth) == Read(v.entries, next)
  {
    hide DecodeItems, DecodePairs, DecodeRun;
  }

  lemma ListShape(vs: seq<Value>, depth: int)
    requires depth <= MAX_NESTING_DEPTH && forall x | x in vs :: Shaped(x, depth + 1)
    ensures Shaped(List(vs), depth)
  {
    forall x | x in vs ensures Encodable(x) && Normal(x) == x && Fits(x, depth + 1) {
      assert Shaped(x, depth + 1);
    }
    assert NormalSeq(vs) == vs;
  }

  lemma DictShape(m: map<Bytes, Value>, depth: int)
    requires depth <= MAX_NESTING_DEPTH && (m != map[] ==> depth < MAX_NESTING_DEPTH)
    requires forall k | k in m :: Shaped(m[k], depth + 1)
    ensures Shaped(Dict(m), depth)
  {
    assert NormalMap(Dict(m)) == m;
  }

  /** Whatever the parser returns is already in normal form, can be printed again, and respects the depth limit. */
  lemma {:induction false} DecodedShape(text: FloatText, data: Bytes, pos: nat, depth: int, v: Value, next: nat)
    requires pos <= |data| && DecodeValue(text, data, pos, depth) == Read(v, next)
    ensures Encodable(v) && Normal(v) == v && Fits(v, depth)
    decreases |data| - pos, 1
  {
    assert Shaped(v, depth) by {
      hide DecodeValue, Shaped;
      DecodedTag(text, data, pos, depth, v, next);
      if v.List? {
        ItemsShape(text, data, pos + 1, depth, v.items, next);
        ListShape(v.items, depth);
      } else if v.Dict? {
        PairsShape(text, data, pos + 1, depth, v.entries, next);
        DictShape(v.entries, depth);
      } else {
        LeafShape(text, data, pos, depth, v, next);
      }
    }
  }

  lemma {:induction false} ItemsShape(text: FloatText, data: Bytes, pos: nat, depth: int, vs: seq<Value>, next: nat)
    requires pos <= |data| && DecodeItems(text, data, pos, depth) == Read(vs, next)
    ensures forall x | x in vs :: Shaped(x, depth + 1)
    decreases |data| - pos, 2
  {
    hide DecodeValue;
    if data[pos] != SEMICOLON {
      var Read(first, mid) := DecodeValue(text, data, pos, depth + 1);
      var Read(rest, end) := DecodeItems(text, data, mid, depth);
      DecodedShape(text, data, pos, depth + 1, first, mid);
      ItemsShape(text, data, mid, depth, rest, next);
    }
  }

  lemma {:induction false} PairShape(text: FloatText, data: Bytes, pos: nat, depth: int, pair: (Bytes, Value), next: nat)
    requires pos <= |data| && DecodePair(text, data, pos, depth) == Read(pair, next)
    ensures depth < MAX_NESTING_DEPTH && Shaped(pair.1, depth + 1)
    decreases |data| - pos, 2
  {
    hide DecodeValue;
    var Read(key, colon) := DecodeValue(text, data, pos, depth + 1);
    DecodedTag(text, data, pos, depth + 1, key, colon);
    DecodedShape(text, data, colon, depth + 1, pair.1, next);
  }

  lemma {:induction false} PairsShape(text: FloatText, data: Bytes, pos: nat, depth: int, m: map<Bytes, Value>, next: nat)
    requires pos <= |data| && DecodePairs(text, data, pos, depth) == Read(m, next)
    ensures m != map[] ==> depth < MAX_NESTING_DEPTH
    ensures forall k | k in m :: Shaped(m[k], depth + 1)
    decreases |data| - pos, 3
  {
    hide DecodePair, Shaped;
    if data[pos] != SEMICOLON {
      var Read(pair, mid) := DecodePair(text, data, pos, depth);
      var Read(rest, end) := DecodePairs(text, data, mid, depth);
      PairShape(text, data, pos, depth, pair, mid);
      PairsShape(text, data, mid, depth, rest, next);
    }
  }

  /** In any surrounding bytes: an encoding is read back whole if its value survives, and refused otherwise. */
  lemma RoundTripInContext(text: FloatText, before: Bytes, v: Value, after: Bytes, depth: int)
    requires Lawful(text) && Encodable(v)
    requires |before + Encode(text, v) + after| <= MAX_INT64
    ensures
      var read := DecodeValue(text, before + Encode(text, v) + after, |before|, depth);
      if Survives(v, depth) then read == Read(Normal(v), |before| + |Encode(text, v)|) else read.Failed?
  {
    var e := Encode(text, v);
    var data := before + e + after;
    forall i | 0 <= i < |e| ensures e[i] == data[|before| + i] {}
    if Survives(v, depth) {
      RoundTripAt(text, v, data, |before|, depth);
    } else {
      RefusedAt(text, v, data, |before|, depth);
    }
  }

  /** `Unmarshal(Marshal(v))` is the normal form of `v` exactly for the values that survive. */
  lemma UnmarshalMarshal(text: FloatText, v: Value)
    requires Lawful(text) && Encodable(v) && |Encode(text, v)| <= MAX_INT64
    ensures Unmarshal(text, Encode(text, v)) == Ok(Normal(v)) <==> Survives(v, 0)
    ensures Unmarshal(text, Encode(text, v)).Ok? <==> Survives(v, 0)
  {
    var e := Encode(text, v);
    assert [] + e + [] == e;
    RoundTripInContext(text, [], v, [], 0);
  }

  /** Bytes behind a decodable value never change what Unmarshal returns. */
  lemma TrailingBytesIgnored(text: FloatText, data: Bytes, after: Bytes)
    requires Unmarshal(text, data).Ok?
    ensures Unmarshal(text, data + after) == Unmarshal(text, data)
  {
    var Read(v, next) := DecodeValue(text, data, 0, 0);
    BpickleLocality.DecodeLocal(text, data, 0, v, next, data + after, 0, 0);
  }

  /** Printing what was parsed and parsing it again changes nothing, exactly when no float is NaN or infinite. */
  lemma Canonicalisation(text: FloatText, data: Bytes)
    requires Lawful(text) && Unmarshal(text, data).Ok?
    ensures Encodable(Unmarshal(text, data).value)
    ensures
      var v := Unmarshal(text, data).value;
      |Encode(text, v)| <= MAX_INT64 ==>
        (Unmarshal(text, Encode(text, v)) == Ok(v) <==> FloatsFinite(v))
  {
    var Read(v, next) := DecodeValue(text, data, 0, 0);
    DecodedShape(text, data, 0, 0, v, next);
    if |Encode(text, v)| <= MAX_INT64 { UnmarshalMarshal(text, v); }
  }

  lemma {:induction false} FitsAbove(v: Value, depth: int, less: int)
    requires Fits(v, depth) && less <= depth
    ensures Fits(v, less)
  {
    if v.IsSeq() {
      forall x | x in v.items ensures Fits(x, less + 1) { FitsAbove(x, depth + 1, less + 1); }
    } else if v.IsMap() {
      forall k | k in v.entries ensures Fits(v.entries[k], less + 1) { FitsAbove(v.entries[k], depth + 1, less + 1); }
    }
  }

  /** Every value fits if it starts high enough. */
  lemma {:induction false} FitsSomewhere(v: Value) returns (depth: int)
    ensures Fits(v, depth)
    decreases v, 1
  {
    depth := MAX_NESTING_DEPTH;
    if v.IsSeq() {
      depth := ItemsFitSomewhere(v, |v.items|);
      assert v.items[..|v.items|] == v.items;
    } else if v.IsMap() {
      depth := EntriesFitSomewhere(v, v.entries.Keys);
    }
  }

  lemma {:induction false} ItemsFitSomewhere(v: Value, n: nat) returns (depth: int)
    requires v.IsSeq() && n <= |v.items|
    ensures depth <= MAX_NESTING_DEPTH && forall x | x in v.items[..n] :: Fits(x, depth + 1)
    decreases v, 0, n
  {
    depth := MAX_NESTING_DEPTH;
    if n > 0 {
      var rest := ItemsFitSomewhere(v, n - 1);
      var last := FitsSomewhere(v.items[n - 1]);
      depth := Min(rest, last - 1);
      forall x | x in v.items[..n] ensures Fits(x, depth + 1) {
        if x in v.items[..n - 1] { FitsAbove(x, rest + 1, depth + 1); } else { FitsAbove(x, last, depth + 1); }
      }
    }
  }

  lemma {:induction false} EntriesFitSomewhere(v: Value, keys: set<Bytes>) returns (depth: int)
    requires v.IsMap() && keys <= v.entries.Keys
    ensures depth < MAX_NESTING_DEPTH && forall k | k in keys :: Fits(v.entries[k], depth + 1)
    decreases v, 0, |keys|
  {
    depth := MAX_NESTING_DEPTH - 1;
    if keys != {} {
      var k :| k in keys;
      var rest := EntriesFitSomewhere(v, keys - {k});
      var last := FitsSomewhere(v.entries[k]);
      depth := Min(rest, last - 1);
      forall x | x in keys ensures Fits(v.entries[x], depth + 1) {
        if x == k { FitsAbove(v.entries[x], last, depth + 1); } else { FitsAbove(v.entries[x], rest + 1, depth + 1); }
      }
    }
  }

  /** No encoding is a proper prefix of another; and values with finite floats that share one have the same normal form. */
  lemma PrefixFree(text: FloatText, v: Value, w: Value)
    requires Lawful(text) && Encodable(v) && Encodable(w)
    requires Encode(text, v) <= Encode(text, w)
    ensures Encode(text, v) == Encode(text, w)
    ensures FloatsFinite(v) && |Encode(text, v)| <= MAX_INT64 ==> Normal(v) == Normal(w)
  {
    var e, f := Encode(text, v), Encode(text, w);
    assert e + f[|e|..] == f + [];
    BpickleCode.CodeSplit(text, v, f[|e|..], w, []);
    if FloatsFinite(v) && |e| <= MAX_INT64 { SameReading(text, v, w); }
  }

  /** At a depth where both fit, the shared bytes are read back as either. */
  lemma SameReading(text: FloatText, v: Value, w: Value)
    requires Lawful(text) && Encodable(v) && Encodable(w) && FloatsFinite(v)
    requires Encode(text, v) == Encode(text, w) && |Encode(text, v)| <= MAX_INT64
    ensures Normal(v) == Normal(w)
  {
    var a := FitsSomewhere(v);
    var b := FitsSomewhere(w);
    var depth := Min(a, b);
    FitsAbove(v, a, depth);
    FitsAbove(w, b, depth);
    assert [] + Encode(text, v) + [] == Encode(text, v);
    RoundTripInContext(text, [], v, [], depth);
    RoundTripInContext(text, [], w, [], depth);
  }

  /** A map's key, as the value that it is written as: a string in a dict, bytes in a `BytesDict`. */
  function KeyValue(v: Value, k: Bytes): Value { if v.Dict? then Str(k) else ByteString(k) }

  /** How far behind the first of these keys the key at place `i` stands. */
  ghost function KeyOffset(text: FloatText, v: Value, keys: seq<Bytes>, i: nat): nat
    requires Encodable(v) && v.IsMap() && i < |keys| && forall k | k in keys :: k in v.entries
    decreases i
  {
    if i == 0 then 0
    else |Encode(text, KeyValue(v, keys[0]))| + |Encode(text, v.entries[keys[0]])| + KeyOffset(text, v, keys[1..], i - 1)
  }

  /** The keys of an encoded map are its keys, each once, in the order of Go's strings. */
  lemma KeysInOrder(v: Value)
    requires v.IsMap()
    ensures
      var keys := KeyOrder.Sorted(v.entries.Keys);
      KeyOrder.Ascending(keys) && forall k :: k in keys <==> k in v.entries
  {
    KeyOrder.SortedAscending(v.entries.Keys);
  }

  /** What a reader finds at the place of each key: a string in a dict, bytes in a `BytesDict`. */
  lemma KeysRead(text: FloatText, v: Value, i: nat, depth: int)
    requires Encodable(v) && v.IsMap() && depth <= 100 && |Encode(text, v)| <= MAX_INT64
    requires i < |KeyOrder.Sorted(v.entries.Keys)|
    ensures
      var keys := KeyOrder.Sorted(v.entries.Keys);
      var pos := 1 + KeyOffset(text, v, keys, i);
      && pos <= |Encode(text, v)|
      && DecodeValue(text, Encode(text, v), pos, depth)
           == Read(if v.Dict? then Str(keys[i]) else ByteString(keys[i]), pos + |Encode(text, KeyValue(v, keys[i]))|)
  {
    hide DecodeValue, Encode, EncodePairs, Encodable, KeyOffset, KeyValue, KeyOrder.Sorted;
    var keys, data := KeyOrder.Sorted(v.entries.Keys), Encode(text, v);
    EncodedMap(text, v);
    AtSplit3(data, 0, [TAG_DICT], EncodePairs(text, v, keys), SEMICOLON);
    KeyFound(text, v, keys, i, data, 1, depth);
  }

  lemma {:induction false} KeyFound(text: FloatText, v: Value, keys: seq<Bytes>, i: nat, data: Bytes, pos: nat, depth: int)
    requires Encodable(v) && v.IsMap() && depth <= 100 && |data| <= MAX_INT64
    requires i < |keys| && forall k | k in keys :: k in v.entries
    requires At(data, pos, EncodePairs(text, v, keys) + [SEMICOLON])
    ensures
      var start := pos + KeyOffset(text, v, keys, i);
      && start <= |data|
      && DecodeValue(text, data, start, depth)
           == Read(if v.Dict? then Str(keys[i]) else ByteString(keys[i]), start + |Encode(text, KeyValue(v, keys[i]))|)
    decreases i
  {
    hide DecodeValue, Encode, EncodePairs, EncodePair, Encodable;
    PairsSplit(text, v, keys, data, pos);
    KeyWritten(text, v, keys[0]);
    if i == 0 {
      KeyDecoded(text, v, keys[0], data, pos, depth);
    } else {
      KeyFound(text, v, keys[1..], i - 1, data, pos + |EncodePair(text, v, keys[0])|, depth);
    }
  }

  lemma KeyWritten(text: FloatText, v: Value, k: Bytes)
    requires Encodable(v) && v.IsMap() && k in v.entries
    ensures EncodePair(text, v, k) == Encode(text, KeyValue(v, k)) + Encode(text, v.entries[k])
  {
    assert Encode(text, KeyValue(v, k)) == EncodeRun(KeyTag(v), k);
  }

  lemma KeyDecoded(text: FloatText, v: Value, k: Bytes, data: Bytes, pos: nat, depth: int)
    requires Encodable(v) && v.IsMap() && k in v.entries && depth <= 100 && |data| <= MAX_INT64
    requires At(data, pos, EncodePair(text, v, k))
    ensures DecodeValue(text, data, pos, depth)
         == Read(if v.Dict? then Str(k) else ByteString(k), pos + |Encode(text, KeyValue(v, k))|)
  {
    hide DecodeRun, DecodeItems, DecodePairs;
    AtSplit(data, pos, EncodeRun(KeyTag(v), k), Encode(text, v.entries[k]));
    DecodeRunAt(data, pos, if v.Dict? then TAG_STR else TAG_BYTES, k);
  }

  /** `uint` has no overflow check: a number above the int64 maximum is read back as a negative one. */
  lemma UintPreserved(text: FloatText, u: Uint64)
    requires Lawful(text)
    ensures
      var read := Unmarshal(text, Encode(text, Uint(u)));
      && read.Ok? && read.value.Int?
      && (read.value.n == u <==> u < 0x8000_0000_0000_0000)
      && (u >= 0x8000_0000_0000_0000 ==> read.value.n == u - 0x1_0000_0000_0000_0000 < 0)
  {
    var n: int := Wrap64(u);
    DigitTextLength(if n < 0 then -n else n);
    UnmarshalMarshal(text, Uint(u));
  }
}
