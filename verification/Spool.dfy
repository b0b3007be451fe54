/** A message's way through the spool file: written as JSON, read back, and its numbers put right. */
module Spool {
  import opened Common
  import opened BpickleValue
  import opened BpickleEncoder
  import BpickleCode
  import KeyOrder

  /** 2^53: every integer up to it is a float64. */
  const MAX_EXACT: int := 0x20_0000_0000_0000

  /**
   What is left to the platform and the Go library: how a string reads back from JSON
   (unchanged if it is valid UTF-8), `float64(n)`, and `int64(x)` for an x out of range.
   */
  datatype Platform = Platform(text: Bytes -> Bytes, nearest: Int64 -> Float64, overflow: Float64 -> Int64)

  ghost predicate Lawful(p: Platform) {
    forall n: Int64 ::
      && p.nearest(n).Finite? && IsWhole(p.nearest(n).value)
      && (IsDouble(n as real) ==> p.nearest(n).value == n as real)
  }

  /** Within the range of int64, where Go defines the conversion. */
  predicate InRange(x: Float64) {
    x.Finite? ==> -0x8000_0000_0000_0000 as real <= x.value < 0x8000_0000_0000_0000 as real
  }

  predicate IsWhole(r: real) { r == r.Floor as real }

  lemma ExactIsDouble(n: int)
    requires -MAX_EXACT <= n <= MAX_EXACT
    ensures IsDouble(n as real)
  {
    if n == MAX_EXACT || n == -MAX_EXACT {
      var half := n / 2;
      assert Scaled(half, 1) == 2.0 * Scaled(half, 0);
      assert Scaled(half, 1) == n as real;
    } else {
      assert Scaled(n, 0) == n as real;
    }
  }

  /** JSON writes this value, and reading loses no digits of its integers and no bytes of its strings. */
  ghost predicate JsonSafe(p: Platform, v: Value) {
    match v
    case Int(n) => -MAX_EXACT <= n <= MAX_EXACT
    case Uint(u) => u <= MAX_EXACT
    case Uint64(u) => u <= MAX_EXACT
    case Float(x) => x.IsFinite() && InRange(x)
    case Str(s) => p.text(s) == s
    case List(_) => forall x | x in v.items :: JsonSafe(p, x)
    case Tuple(_) => forall x | x in v.items :: JsonSafe(p, x)
    case Dict(_) => forall k | k in v.entries :: p.text(k) == k && JsonSafe(p, v.entries[k])
    case BytesDict(_) => forall k | k in v.entries :: p.text(k) == k && JsonSafe(p, v.entries[k])
    case Unsupported => false
    case _ => true
  }

  ghost function ExactFloat(n: int): Value
    requires -MAX_EXACT <= n <= MAX_EXACT
  {
    ExactIsDouble(n);
    Float(Finite(n as real))
  }

  /** The value as `json.Unmarshal` returns it: every number a float64, every byte string base64 text. */
  ghost function Reread(p: Platform, base64: Bytes -> Bytes, v: Value): Value
    requires JsonSafe(p, v)
  {
    match v
    case Int(n) => ExactFloat(n)
    case Uint(u) => ExactFloat(u)
    case Uint64(u) => ExactFloat(u)
    case ByteString(data) => Str(base64(data))
    case List(_) => List(seq(|v.items|, i requires 0 <= i < |v.items| => Reread(p, base64, v.items[i])))
    case Tuple(_) => List(seq(|v.items|, i requires 0 <= i < |v.items| => Reread(p, base64, v.items[i])))
    case Dict(_) => Dict(map k | k in v.entries :: Reread(p, base64, v.entries[k]))
    case BytesDict(_) => Dict(map k | k in v.entries :: Reread(p, base64, v.entries[k]))
    case _ => v
  }

  function TowardZero(r: real): int { if r >= 0.0 then r.Floor else -(-r).Floor }

  /** `int64(x)`. */
  function Truncated(p: Platform, x: Float64): Int64 {
    match x
    case Finite(r) => if InRange(x) then TowardZero(r) else p.overflow(x)
    case NegativeZero => 0
    case _ => p.overflow(x)
  }

  predicate IsZero(x: Float64) { x.NegativeZero? || (x.Finite? && x.value == 0.0) }

  /** Go's `==`: zero has two signs, and NaN equals nothing. */
  predicate FloatEquals(x: Float64, y: Float64) { (x == y && !x.NaN?) || (IsZero(x) && IsZero(y)) }

  function NormalizeNumber(p: Platform, x: Float64): Value {
    var n := Truncated(p, x);
    if FloatEquals(x, p.nearest(n)) then Int(n) else Float(x)
  }

  /** What `normalizeNumbers` must return. Lists and string-keyed dicts are all that JSON yields. */
  ghost function Normalized(p: Platform, v: Value): Value {
    match v
    case Float(x) => NormalizeNumber(p, x)
    case List(_) => List(seq(|v.items|, i requires 0 <= i < |v.items| => Normalized(p, v.items[i])))
    case Dict(_) => Dict(map k | k in v.entries :: Normalized(p, v.entries[k]))
    case _ => v
  }

  method NormalizeNumbers(p: Platform, v: Value) returns (r: Value)
    ensures r == Normalized(p, v)
    decreases v, 1
  {
    match v
    case Float(x) => r := NormalizeNumber(p, x);
    case List(_) => r := NormalizeItems(p, v);
    case Dict(_) => r := NormalizeEntries(p, v);
    case _ => r := v;
  }

  method NormalizeItems(p: Platform, v: Value) returns (r: Value)
    requires v.List?
    ensures r == Normalized(p, v)
    decreases v, 0
  {
    var items := v.items;
    for i := 0 to |v.items|
      invariant |items| == |v.items|
      invariant forall k | 0 <= k < |items| :: items[k] == if k < i then Normalized(p, v.items[k]) else v.items[k]
    {
      var item := NormalizeNumbers(p, v.items[i]);
      items := items[i := item];
    }
    r := List(items);
  }

  method NormalizeEntries(p: Platform, v: Value) returns (r: Value)
    requires v.Dict?
    ensures r == Normalized(p, v)
    decreases v, 0
  {
    var entries := v.entries;
    var todo := v.entries.Keys;
    while exists k :: k in todo
      invariant forall k | k in todo :: k in v.entries
      invariant forall k :: k in entries <==> k in v.entries
      invariant forall k | k in v.entries ::
                  entries[k] == if k in todo then v.entries[k] else Normalized(p, v.entries[k])
      decreases |todo|
    {
      var k :| k in todo;
      todo := todo - {k};
      var entry := NormalizeNumbers(p, v.entries[k]);
      entries := entries[k := entry];
    }
    NormalizedDict(p, v, entries);
    r := Dict(entries);
  }

  lemma NormalizedDict(p: Platform, v: Value, entries: map<Bytes, Value>)
    requires v.Dict? && forall k :: k in entries <==> k in v.entries
    requires forall k | k in v.entries :: entries[k] == Normalized(p, v.entries[k])
    ensures Dict(entries) == Normalized(p, v)
  {
    NormalizedIsMap(p, v);
    hide Normalized;
    assert entries == map k | k in v.entries :: Normalized(p, v.entries[k]);
  }

  lemma NormalizedIsMap(p: Platform, v: Value)
    requires v.Dict?
    ensures Normalized(p, v) == Dict(map k | k in v.entries :: Normalized(p, v.entries[k]))
  {
  }

  /** Nothing that the spool changes: no whole floats, no byte strings, no tuples, no entries under byte-string keys. */
  ghost predicate Portable(v: Value) {
    match v
    case Float(x) => x.Finite? && !IsWhole(x.value)
    case ByteString(_) => false
    case List(_) => forall x | x in v.items :: Portable(x)
    case Tuple(_) => false
    case Dict(_) => forall k | k in v.entries :: Portable(v.entries[k])
    case BytesDict(_) => v.entries == map[]
    case _ => true
  }

  lemma WholeIsTowardZero(r: real, n: int)
    requires r == n as real
    ensures TowardZero(r) == n && IsWhole(r)
  {
  }

  lemma NormalizeWhole(p: Platform, n: int)
    requires Lawful(p) && -MAX_EXACT <= n <= MAX_EXACT
    ensures Normalized(p, ExactFloat(n)) == Int(n)
  {
    ExactIsDouble(n);
    WholeIsTowardZero(n as real, n);
    assert p.nearest(n).value == n as real;
  }

  /** A float keeps its type exactly when it is not a whole number; otherwise it becomes that number. */
  lemma NormalizeFloat(p: Platform, x: Float64)
    requires Lawful(p) && x.IsFinite() && InRange(x)
    ensures NormalizeNumber(p, x) == Float(x) <==> x.Finite? && x.value != x.value.Floor as real
    ensures x.NegativeZero? ==> NormalizeNumber(p, x) == Int(0)
    ensures x.Finite? && x.value == x.value.Floor as real ==> NormalizeNumber(p, x) == Int(x.value.Floor)
  {
    var n := Truncated(p, x);
    if x.NegativeZero? {
      ExactIsDouble(0);
      assert p.nearest(0).value == 0.0;
    } else if IsWhole(x.value) {
      assert IsDouble(n as real);
      assert p.nearest(n).value == n as real;
    } else {
      assert IsWhole(p.nearest(n).value);
    }
  }

  ghost function Restored(p: Platform, base64: Bytes -> Bytes, v: Value): Value
    requires JsonSafe(p, v)
  {
    Normalized(p, Reread(p, base64, v))
  }

  /** What JSON takes, Marshal takes, before the trip and after it. */
  lemma {:induction false} SafeEncodable(p: Platform, base64: Bytes -> Bytes, v: Value)
    requires JsonSafe(p, v)
    ensures Encodable(v) && Encodable(Restored(p, base64, v))
  {
    if v.IsSeq() {
      hide Reread, Normalized;
      forall x | x in v.items ensures Encodable(x) && Encodable(Restored(p, base64, x)) { SafeEncodable(p, base64, x); }
      RestoredList(p, base64, v);
    } else if v.IsMap() {
      hide Reread, Normalized;
      forall k | k in v.entries ensures Encodable(v.entries[k]) && Encodable(Restored(p, base64, v.entries[k])) {
        SafeEncodable(p, base64, v.entries[k]);
      }
      RestoredDict(p, base64, v);
    }
  }

  lemma RestoredList(p: Platform, base64: Bytes -> Bytes, v: Value)
    requires JsonSafe(p, v) && v.IsSeq()
    ensures Restored(p, base64, v).List? && |Restored(p, base64, v).items| == |v.items|
    ensures forall i | 0 <= i < |v.items| :: Restored(p, base64, v).items[i] == Restored(p, base64, v.items[i])
  {
  }

  lemma RestoredDict(p: Platform, base64: Bytes -> Bytes, v: Value)
    requires JsonSafe(p, v) && v.IsMap()
    ensures Restored(p, base64, v).Dict?
    ensures forall k :: k in Restored(p, base64, v).entries <==> k in v.entries
    ensures forall k | k in v.entries :: Restored(p, base64, v).entries[k] == Restored(p, base64, v.entries[k])
  {
    RereadIsMap(p, base64, v);
    NormalizedIsMap(p, Reread(p, base64, v));
    hide Reread, Normalized;
  }

  lemma RereadIsMap(p: Platform, base64: Bytes -> Bytes, v: Value)
    requires JsonSafe(p, v) && v.IsMap()
    ensures Reread(p, base64, v).Dict?
    ensures forall k :: k in Reread(p, base64, v).entries <==> k in v.entries
    ensures forall k | k in v.entries :: Reread(p, base64, v).entries[k] == Reread(p, base64, v.entries[k])
  {
  }

  /**
   Spool, then wire: a restored value marshals to the bytes it would have had before the
   restart exactly when it holds no whole float, which comes back an int, no byte string,
   no tuple, and no entry under a byte-string key.
   */
  lemma {:induction false} SpoolThenWire(text: FloatText, p: Platform, base64: Bytes -> Bytes, v: Value)
    requires BpickleValue.Lawful(text) && Lawful(p) && JsonSafe(p, v)
    ensures Encodable(v) && Encodable(Restored(p, base64, v))
    ensures Encode(text, Restored(p, base64, v)) == Encode(text, v) <==> Portable(v)
  {
    SafeEncodable(p, base64, v);
    if v.IsSeq() {
      RestoredList(p, base64, v);
      forall i | 0 <= i < |v.items|
        ensures Encodable(v.items[i]) && Encodable(Restored(p, base64, v.items[i]))
        ensures Encode(text, Restored(p, base64, v.items[i])) == Encode(text, v.items[i]) <==> Portable(v.items[i])
      {
        SpoolThenWire(text, p, base64, v.items[i]);
      }
      SameList(text, Restored(p, base64, v), v);
    } else if v.IsMap() {
      RestoredDict(p, base64, v);
      forall k | k in v.entries
        ensures Encodable(v.entries[k]) && Encodable(Restored(p, base64, v.entries[k]))
        ensures Encode(text, Restored(p, base64, v.entries[k])) == Encode(text, v.entries[k]) <==> Portable(v.entries[k])
      {
        SpoolThenWire(text, p, base64, v.entries[k]);
      }
      SameDict(text, Restored(p, base64, v), v);
    } else {
      SameLeaf(text, p, base64, v);
    }
  }

  lemma SameLeaf(text: FloatText, p: Platform, base64: Bytes -> Bytes, v: Value)
    requires Lawful(p) && JsonSafe(p, v) && !v.IsSeq() && !v.IsMap()
    ensures Encodable(v) && Encodable(Restored(p, base64, v))
    ensures Encode(text, Restored(p, base64, v)) == Encode(text, v) <==> Portable(v)
  {
    hide EncodeSeq, EncodePairs;
    SafeEncodable(p, base64, v);
    var r := Restored(p, base64, v);
    assert Encode(text, r)[0] == BpickleCode.Tag(r) && Encode(text, v)[0] == BpickleCode.Tag(v);
    match v
    case Int(n) => NormalizeWhole(p, n);
    case Uint(u) => NormalizeWhole(p, u);
    case Uint64(u) => NormalizeWhole(p, u);
    case Float(x) => NormalizeFloat(p, x);
    case _ =>
  }

  lemma SameList(text: FloatText, r: Value, v: Value)
    requires BpickleValue.Lawful(text) && Encodable(v) && Encodable(r)
    requires v.IsSeq() && r.List? && |r.items| == |v.items|
    requires forall i | 0 <= i < |v.items| :: Encode(text, r.items[i]) == Encode(text, v.items[i]) <==> Portable(v.items[i])
    ensures Encode(text, r) == Encode(text, v) <==> Portable(v)
  {
    assert Encode(text, r)[0] == BpickleCode.Tag(r) && Encode(text, v)[0] == BpickleCode.Tag(v);
    if v.List? {
      if Encode(text, r) == Encode(text, v) { BpickleCode.SeqSplit(text, r, [], v, []); }
      if Portable(v) { BpickleCode.SameItemsEncode(text, r.items, v.items); }
    }
  }

  /** A dict keeps its bytes exactly if its entries do, and its keys are strings. */
  ghost predicate PortableEntries(v: Value)
    requires v.IsMap()
  {
    (v.Dict? || v.entries == map[]) && forall k | k in v.entries :: Portable(v.entries[k])
  }

  lemma PortableMap(v: Value)
    requires v.IsMap()
    ensures Portable(v) <==> PortableEntries(v)
  {
  }

  lemma SameDict(text: FloatText, r: Value, v: Value)
    requires BpickleValue.Lawful(text) && Encodable(v) && Encodable(r)
    requires v.IsMap() && r.Dict? && forall k :: k in r.entries <==> k in v.entries
    requires forall k | k in v.entries :: Encode(text, r.entries[k]) == Encode(text, v.entries[k]) <==> Portable(v.entries[k])
    ensures Encode(text, r) == Encode(text, v) <==> Portable(v)
  {
    hide Encode, EncodePairs, Encodable, Portable;
    PortableMap(v);
    EncodedMap(text, r);
    EncodedMap(text, v);
    var keys := KeyOrder.Sorted(v.entries.Keys);
    assert r.entries.Keys == v.entries.Keys;
    if Encode(text, r) == Encode(text, v) {
      SameBytesPortable(text, r, v);
    }
    if PortableEntries(v) {
      BpickleCode.SamePairsEncode(text, r, keys, v, keys);
    }
  }

  lemma SameBytesPortable(text: FloatText, r: Value, v: Value)
    requires BpickleValue.Lawful(text) && Encodable(v) && Encodable(r) && Encode(text, r) == Encode(text, v)
    requires v.IsMap() && r.Dict? && forall k :: k in r.entries <==> k in v.entries
    requires forall k | k in v.entries :: Encode(text, r.entries[k]) == Encode(text, v.entries[k]) <==> Portable(v.entries[k])
    ensures PortableEntries(v)
  {
    hide Encode, Encodable, Portable;
    BpickleCode.MapSplit(text, r, [], v, []);
    var keys := KeyOrder.Sorted(v.entries.Keys);
    if k :| k in v.entries { assert k in keys; }
    assert forall k | k in v.entries :: k in keys;
  }

  // The messages this matters for.

  function Ascii(s: string): Bytes { seq(|s|, i requires 0 <= i < |s| => s[i] as int % 128) }

  /** `sendOperationResult`. */
  function OperationResultMessage(id: Int64, status: Int64, code: Option<Int64>, output: Bytes, timestamp: Int64): Value {
    var entries := map[
      Ascii("type") := Str(Ascii("operation-result")),
      Ascii("operation-id") := Int(id),
      Ascii("status") := Int(status),
      Ascii("result-text") := Str(output),
      Ascii("timestamp") := Int(timestamp)];
    Dict(if code.Some? then entries[Ascii("result-code") := Int(code.value)] else entries)
  }

  /** A restored operation result is sent as exactly the bytes it would have been sent as before the restart. */
  lemma OperationResultSurvives(text: FloatText, p: Platform, base64: Bytes -> Bytes,
                                id: Int64, status: Int64, code: Option<Int64>, output: Bytes, timestamp: Int64)
    requires BpickleValue.Lawful(text) && Lawful(p)
    requires JsonSafe(p, OperationResultMessage(id, status, code, output, timestamp))
    ensures
      var v := OperationResultMessage(id, status, code, output, timestamp);
      && Encodable(v) && Encodable(Restored(p, base64, v))
      && Encode(text, Restored(p, base64, v)) == Encode(text, v)
  {
    var v := OperationResultMessage(id, status, code, output, timestamp);
    assert forall k | k in v.entries :: v.entries[k].Int? || v.entries[k].Str?;
    SpoolThenWire(text, p, base64, v);
  }

  /** The network-activity plugin's message: interface names are byte-string keys, and points are tuples. */
  function NetworkActivityMessage(due: map<Bytes, seq<Value>>): Value {
    Dict(map[
      Ascii("type") := Str(Ascii("network-activity")),
      Ascii("activities") := Activities(due)])
  }

  function Activities(due: map<Bytes, seq<Value>>): Value {
    BytesDict(map iface | iface in due :: List(due[iface]))
  }

  lemma ActivitiesStay(due: map<Bytes, seq<Value>>)
    requires due != map[]
    ensures !Portable(Activities(due))
  {
    assert Activities(due).entries.Keys == due.Keys;
  }

  /** No network-activity message survives: after a restart it is sent with other types than the server's schema has. */
  lemma NetworkActivityChanges(text: FloatText, p: Platform, base64: Bytes -> Bytes, due: map<Bytes, seq<Value>>)
    requires BpickleValue.Lawful(text) && Lawful(p)
    requires JsonSafe(p, NetworkActivityMessage(due)) && due != map[]
    ensures
      var v := NetworkActivityMessage(due);
      && Encodable(v) && Encodable(Restored(p, base64, v))
      && Encode(text, Restored(p, base64, v)) != Encode(text, v)
  {
    var v := NetworkActivityMessage(due);
    SpoolThenWire(text, p, base64, v);
    ActivitiesStay(due);
    assert v.entries[Ascii("activities")] == Activities(due);
  }
}
