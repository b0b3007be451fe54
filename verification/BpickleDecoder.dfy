/** The bpickle parser: a depth-limited recursive descent, as a function and as the loops of the Go decoder. */
module BpickleDecoder {
  import opened Common
  import opened Decimal
  import opened BpickleValue
  import opened BpickleEncoder

  datatype DecodeError =
    | Empty | UnexpectedEnd | TooDeep | UnknownTag
    | TruncatedBool | BadBool | UnterminatedNumber | BadInt | BadFloat
    | MissingColon | BadLength | NegativeLength | TruncatedRun
    | UnterminatedSequence | UnterminatedDict | BadKey

  /** A decoded piece and the position just after it, or an error. */
  datatype Decoded<+T> = Read(value: T, next: nat) | Failed(error: DecodeError)

  /** `pos + bytes.IndexByte(data[pos:], b)`: the first place at or after `pos` that holds `b`, or |data|. */
  function IndexFrom(data: Bytes, pos: nat, b: Byte): (r: nat)
    requires pos <= |data|
    ensures pos <= r <= |data|
    ensures r < |data| ==> data[r] == b
    ensures forall i | pos <= i < r :: data[i] != b
    decreases |data| - pos
  {
    if pos == |data| || data[pos] == b then pos else IndexFrom(data, pos + 1, b)
  }

  function DecodeBool(data: Bytes, pos: nat): (r: Decoded<Value>)
    requires pos < |data|
    ensures r.Read? ==> pos < r.next <= |data|
  {
    if pos + 2 > |data| then Failed(TruncatedBool)
    else if data[pos + 1] != ZERO && data[pos + 1] != ONE then Failed(BadBool)
    else Read(Bool(data[pos + 1] == ONE), pos + 2)
  }

  function DecodeInt(data: Bytes, pos: nat): (r: Decoded<Value>)
    requires pos < |data| && data[pos] == TAG_INT
    ensures r.Read? ==> pos < r.next <= |data|
  {
    var end := IndexFrom(data, pos, SEMICOLON);
    if end == |data| then Failed(UnterminatedNumber)
    else
      match ParseInt(data[pos + 1..end])
      case None => Failed(BadInt)
      case Some(n) => Read(Int(n), end + 1)
  }

  function DecodeFloat(text: FloatText, data: Bytes, pos: nat): (r: Decoded<Value>)
    requires pos < |data| && data[pos] == TAG_FLOAT
    ensures r.Read? ==> pos < r.next <= |data|
  {
    var end := IndexFrom(data, pos, SEMICOLON);
    if end == |data| then Failed(UnterminatedNumber)
    else
      match text.parse(data[pos + 1..end])
      case None => Failed(BadFloat)
      case Some(x) => Read(Float(x), end + 1)
  }

  /** `unmarshalLengthPrefixed`: the body of an `s` or `u` value. */
  function DecodeRun(data: Bytes, pos: nat): (r: Decoded<Bytes>)
    requires pos < |data|
    ensures r.Read? ==> pos < r.next <= |data|
  {
    var colon := IndexFrom(data, pos + 1, COLON);
    if colon == |data| then Failed(MissingColon)
    else
      match ParseInt(data[pos + 1..colon])
      case None => Failed(BadLength)
      case Some(length) =>
        if length < 0 then Failed(NegativeLength)
        else if length > |data| - (colon + 1) then Failed(TruncatedRun)
        else Read(data[colon + 1..colon + 1 + length], colon + 1 + length)
  }

  function DecodeBytes(data: Bytes, pos: nat): (r: Decoded<Value>)
    requires pos < |data|
    ensures r.Read? ==> pos < r.next <= |data|
  {
    match DecodeRun(data, pos)
    case Failed(e) => Failed(e)
    case Read(run, next) => Read(ByteString(run), next)
  }

  function DecodeStr(data: Bytes, pos: nat): (r: Decoded<Value>)
    requires pos < |data|
    ensures r.Read? ==> pos < r.next <= |data|
  {
    match DecodeRun(data, pos)
    case Failed(e) => Failed(e)
    case Read(run, next) => Read(Str(run), next)
  }

  function DecodeValue(text: FloatText, data: Bytes, pos: nat, depth: int): (r: Decoded<Value>)
    requires pos <= |data|
    ensures r.Read? ==> pos < r.next <= |data|
    decreases |data| - pos, 1
  {
    if pos == |data| then Failed(UnexpectedEnd)
    else if depth > MAX_NESTING_DEPTH then Failed(TooDeep)
    else if data[pos] == TAG_NULL then Read(Null, pos + 1)
    else if data[pos] == TAG_BOOL then DecodeBool(data, pos)
    else if data[pos] == TAG_INT then DecodeInt(data, pos)
    else if data[pos] == TAG_FLOAT then DecodeFloat(text, data, pos)
    else if data[pos] == TAG_BYTES then DecodeBytes(data, pos)
    else if data[pos] == TAG_STR then DecodeStr(data, pos)
    else if data[pos] == TAG_LIST || data[pos] == TAG_TUPLE then
      match DecodeItems(text, data, pos + 1, depth)
      case Failed(e) => Failed(e)
      case Read(items, next) => Read(List(items), next)
    else if data[pos] == TAG_DICT then
      match DecodePairs(text, data, pos + 1, depth)
      case Failed(e) => Failed(e)
      case Read(entries, next) => Read(Dict(entries), next)
    else Failed(UnknownTag)
  }

  /** The values from `pos` up to the ';' that closes their list or tuple. */
  function DecodeItems(text: FloatText, data: Bytes, pos: nat, depth: int): (r: Decoded<seq<Value>>)
    requires pos <= |data|
    ensures r.Read? ==> pos < r.next <= |data|
    decreases |data| - pos, 2
  {
    if pos == |data| then Failed(UnterminatedSequence)
    else if data[pos] == SEMICOLON then Read([], pos + 1)
    else
      match DecodeValue(text, data, pos, depth + 1)
      case Failed(e) => Failed(e)
      case Read(v, next) =>
        match DecodeItems(text, data, next, depth)
        case Failed(e) => Failed(e)
        case Read(vs, end) => Read([v] + vs, end)
  }

  function KeyOf(v: Value): Option<Bytes> {
    match v
    case Str(bs) => Some(bs)
    case ByteString(bs) => Some(bs)
    case _ => None
  }

  /** One key and its value. */
  function DecodePair(text: FloatText, data: Bytes, pos: nat, depth: int): (r: Decoded<(Bytes, Value)>)
    requires pos <= |data|
    ensures r.Read? ==> pos < r.next <= |data|
    decreases |data| - pos, 2
  {
    match DecodeValue(text, data, pos, depth + 1)
    case Failed(e) => Failed(e)
    case Read(keyAny, mid) =>
      match KeyOf(keyAny)
      case None => Failed(BadKey)
      case Some(key) =>
        match DecodeValue(text, data, mid, depth + 1)
        case Failed(e) => Failed(e)
        case Read(v, next) => Read((key, v), next)
  }

  /** The pairs from `pos` up to the ';' that closes their dict; a repeated key keeps its last value. */
  function DecodePairs(text: FloatText, data: Bytes, pos: nat, depth: int): (r: Decoded<map<Bytes, Value>>)
    requires pos <= |data|
    ensures r.Read? ==> pos < r.next <= |data|
    decreases |data| - pos, 3
  {
    if pos == |data| then Failed(UnterminatedDict)
    else if data[pos] == SEMICOLON then Read(map[], pos + 1)
    else
      match DecodePair(text, data, pos, depth)
      case Failed(e) => Failed(e)
      case Read(pair, next) =>
        match DecodePairs(text, data, next, depth)
        case Failed(e) => Failed(e)
        case Read(rest, end) => Read(map[pair.0 := pair.1] + rest, end)
  }

  function AsList(items: Decoded<seq<Value>>): Decoded<Value> {
    if items.Failed? then Failed(items.error) else Read(List(items.value), items.next)
  }

  function AsDict(entries: Decoded<map<Bytes, Value>>): Decoded<Value> {
    if entries.Failed? then Failed(entries.error) else Read(Dict(entries.value), entries.next)
  }

  lemma DecodeList(text: FloatText, data: Bytes, pos: nat, depth: int)
    requires pos < |data| && (data[pos] == TAG_LIST || data[pos] == TAG_TUPLE) && depth <= MAX_NESTING_DEPTH
    ensures DecodeValue(text, data, pos, depth) == AsList(DecodeItems(text, data, pos + 1, depth))
  {
    hide DecodeItems;
  }

  lemma DecodeDict(text: FloatText, data: Bytes, pos: nat, depth: int)
    requires pos < |data| && data[pos] == TAG_DICT && depth <= MAX_NESTING_DEPTH
    ensures DecodeValue(text, data, pos, depth) == AsDict(DecodePairs(text, data, pos + 1, depth))
  {
    hide DecodePairs;
  }

  lemma DecodeItemsFrom(text: FloatText, data: Bytes, pos: nat, depth: int,
                        v: Value, mid: nat, rest: seq<Value>, end: nat)
    requires pos < |data| && data[pos] != SEMICOLON
    requires DecodeValue(text, data, pos, depth + 1) == Read(v, mid)
    requires DecodeItems(text, data, mid, depth) == Read(rest, end)
    ensures DecodeItems(text, data, pos, depth) == Read([v] + rest, end)
  {
  }

  lemma DecodePairFrom(text: FloatText, data: Bytes, pos: nat, depth: int, key: Bytes, mid: nat, v: Value, next: nat)
    requires pos <= |data|
    requires DecodeValue(text, data, pos, depth + 1).Read?
    requires KeyOf(DecodeValue(text, data, pos, depth + 1).value) == Some(key)
    requires DecodeValue(text, data, pos, depth + 1).next == mid
    requires DecodeValue(text, data, mid, depth + 1) == Read(v, next)
    ensures DecodePair(text, data, pos, depth) == Read((key, v), next)
  {
  }

  lemma DecodePairsFrom(text: FloatText, data: Bytes, pos: nat, depth: int,
                        k: Bytes, v: Value, mid: nat, rest: map<Bytes, Value>, end: nat)
    requires pos < |data| && data[pos] != SEMICOLON
    requires DecodePair(text, data, pos, depth) == Read((k, v), mid)
    requires DecodePairs(text, data, mid, depth) == Read(rest, end)
    ensures DecodePairs(text, data, pos, depth) == Read(map[k := v] + rest, end)
  {
  }

  datatype Unmarshalled = Ok(value: Value) | Err(error: DecodeError)

  function Unmarshal(text: FloatText, data: Bytes): Unmarshalled {
    if data == [] then Err(Empty)
    else
      match DecodeValue(text, data, 0, 0)
      case Failed(e) => Err(e)
      case Read(v, _) => Ok(v)
  }

  /** `unmarshalValue`. */
  method UnmarshalValue(text: FloatText, data: Bytes, pos: nat, depth: int) returns (r: Decoded<Value>)
    requires pos <= |data|
    ensures r == DecodeValue(text, data, pos, depth)
    decreases |data| - pos, 1
  {
    if pos == |data| { return Failed(UnexpectedEnd); }
    if depth > MAX_NESTING_DEPTH { return Failed(TooDeep); }
    var tag := data[pos];
    if tag == TAG_NULL { r := Read(Null, pos + 1); }
    else if tag == TAG_BOOL { r := DecodeBool(data, pos); }
    else if tag == TAG_INT { r := DecodeInt(data, pos); }
    else if tag == TAG_FLOAT { r := DecodeFloat(text, data, pos); }
    else if tag == TAG_BYTES { r := DecodeBytes(data, pos); }
    else if tag == TAG_STR { r := DecodeStr(data, pos); }
    else if tag == TAG_LIST || tag == TAG_TUPLE { r := UnmarshalList(text, data, pos, depth); }
    else if tag == TAG_DICT { r := UnmarshalDict(text, data, pos, depth); }
    else { r := Failed(UnknownTag); }
  }

  /** The outcome once `done` has been read and the rest is still to come. */
  ghost function Prefixed(done: seq<Value>, rest: Decoded<seq<Value>>): Decoded<seq<Value>> {
    if rest.Failed? then rest else Read(done + rest.value, rest.next)
  }

  /** `unmarshalList` and `unmarshalTuple`. */
  method UnmarshalList(text: FloatText, data: Bytes, start: nat, depth: int) returns (r: Decoded<Value>)
    requires start < |data| && (data[start] == TAG_LIST || data[start] == TAG_TUPLE) && depth <= MAX_NESTING_DEPTH
    ensures r == DecodeValue(text, data, start, depth)
    decreases |data| - start, 0
  {
    hide DecodeValue;
    DecodeList(text, data, start, depth);
    ghost var spec := DecodeItems(text, data, start + 1, depth);
    var pos := start + 1;
    var result: seq<Value> := [];
    assert spec.Read? ==> [] + spec.value == spec.value;
    while true
      invariant start < pos <= |data|
      invariant spec == Prefixed(result, DecodeItems(text, data, pos, depth))
      decreases |data| - pos
    {
      if pos >= |data| { return Failed(UnterminatedSequence); }
      if data[pos] == SEMICOLON {
        assert result + [] == result;
        return Read(List(result), pos + 1);
      }
      var item := UnmarshalValue(text, data, pos, depth + 1);
      if item.Failed? { return Failed(item.error); }
      ghost var rest := DecodeItems(text, data, item.next, depth);
      if rest.Read? { assert result + ([item.value] + rest.value) == (result + [item.value]) + rest.value; }
      pos := item.next;
      result := result + [item.value];
    }
  }

  ghost function Overridden(done: map<Bytes, Value>, rest: Decoded<map<Bytes, Value>>): Decoded<map<Bytes, Value>> {
    if rest.Failed? then rest else Read(done + rest.value, rest.next)
  }

  lemma OverriddenEnds(done: map<Bytes, Value>, next: nat)
    ensures Overridden(done, Read(map[], next)) == Read(done, next)
  {
    assert done + map[] == done;
  }

  lemma OverriddenMore(done: map<Bytes, Value>, key: Bytes, val: Value, rest: Decoded<map<Bytes, Value>>)
    ensures rest.Read? ==>
      Overridden(done, Read(map[key := val] + rest.value, rest.next)) == Overridden(done[key := val], rest)
    ensures rest.Failed? ==> Overridden(done, rest) == rest == Overridden(done[key := val], rest)
  {
    if rest.Read? { assert done + (map[key := val] + rest.value) == done[key := val] + rest.value; }
  }

  lemma OverriddenNone(entries: Decoded<map<Bytes, Value>>)
    ensures Overridden(map[], entries) == entries
  {
    if entries.Read? { assert map[] + entries.value == entries.value; }
  }

  lemma OverriddenFails(done: map<Bytes, Value>, error: DecodeError)
    ensures Overridden(done, Failed(error)) == Failed(error)
  {
  }

  /** `unmarshalDict`. */
  method UnmarshalDict(text: FloatText, data: Bytes, start: nat, depth: int) returns (r: Decoded<Value>)
    requires start < |data| && data[start] == TAG_DICT && depth <= MAX_NESTING_DEPTH
    ensures r == DecodeValue(text, data, start, depth)
    decreases |data| - start, 0
  {
    hide DecodeValue, DecodePair, Overridden;
    DecodeDict(text, data, start, depth);
    ghost var spec := DecodePairs(text, data, start + 1, depth);
    var pos := start + 1;
    var result: map<Bytes, Value> := map[];
    OverriddenNone(spec);
    while true
      invariant start < pos <= |data|
      invariant spec == Overridden(result, DecodePairs(text, data, pos, depth))
      decreases |data| - pos
    {
      if pos >= |data| {
        OverriddenFails(result, UnterminatedDict);
        return Failed(UnterminatedDict);
      }
      if data[pos] == SEMICOLON {
        OverriddenEnds(result, pos + 1);
        return Read(Dict(result), pos + 1);
      }
      var pair := UnmarshalPair(text, data, pos, depth);
      if pair.Failed? {
        OverriddenFails(result, pair.error);
        return Failed(pair.error);
      }
      var (key, val) := pair.value;
      OverriddenMore(result, key, val, DecodePairs(text, data, pair.next, depth));
      pos := pair.next;
      result := result[key := val];
    }
  }

  /** The body of the loop of `unmarshalDict`. */
  method UnmarshalPair(text: FloatText, data: Bytes, pos: nat, depth: int) returns (r: Decoded<(Bytes, Value)>)
    requires pos <= |data|
    ensures r == DecodePair(text, data, pos, depth)
    decreases |data| - pos, 2
  {
    var keyAny := UnmarshalValue(text, data, pos, depth + 1);
    if keyAny.Failed? { return Failed(keyAny.error); }
    var key: Bytes;
    match keyAny.value {
      case Str(bs) => key := bs;
      case ByteString(bs) => key := bs;
      case _ => return Failed(BadKey);
    }
    var val := UnmarshalValue(text, data, keyAny.next, depth + 1);
    if val.Failed? { return Failed(val.error); }
    r := Read((key, val.value), val.next);
  }
}
