/**
 The wire format as a grammar, byte for byte: the parser reads exactly what the grammar
 spells, and the printer spells one of its terms.
 */
module BpickleGrammar {
  import opened Common
  import opened Decimal
  import opened BpickleValue
  import opened BpickleEncoder
  import opened BpickleDecoder
  import opened BpickleRoundTrip
  import KeyOrder

  /** What may stand on the wire. A dict is a list of keys and values in turn. */
  datatype Term =
    | NullTerm
    | BoolTerm(b: bool)
    | IntTerm(numeral: Bytes, n: Int64)
    | FloatTerm(body: Bytes, x: Float64)
    | RunTerm(unicode: bool, length: Bytes, run: Bytes)
    | SeqTerm(tuple: bool, items: seq<Term>)
    | DictTerm(items: seq<Term>)

  /** The bytes of a term. */
  function Yield(t: Term): Bytes
    decreases t, 1
  {
    match t
    case NullTerm => ['n' as int]
    case BoolTerm(b) => ['b' as int, if b then '1' as int else '0' as int]
    case IntTerm(numeral, _) => ['i' as int] + numeral + [';' as int]
    case FloatTerm(body, _) => ['f' as int] + body + [';' as int]
    case RunTerm(unicode, length, run) => [if unicode then 'u' as int else 's' as int] + length + [':' as int] + run
    case SeqTerm(tuple, _) => [if tuple then 't' as int else 'l' as int] + Yields(t.items) + [';' as int]
    case DictTerm(_) => ['d' as int] + Yields(t.items) + [';' as int]
  }

  function Yields(ts: seq<Term>): Bytes
    decreases ts, 0
  {
    if ts == [] then [] else Yield(ts[0]) + Yields(ts[1..])
  }

  /** The value that a term stands for: tuples are lists, and a repeated key keeps its last value. */
  function Meaning(t: Term): Value
    decreases t, 1
  {
    match t
    case NullTerm => Null
    case BoolTerm(b) => Bool(b)
    case IntTerm(_, n) => Int(n)
    case FloatTerm(_, x) => Float(x)
    case RunTerm(unicode, _, run) => if unicode then Str(run) else ByteString(run)
    case SeqTerm(_, _) => List(Meanings(t.items))
    case DictTerm(_) => Dict(Entries(t.items))
  }

  function Meanings(ts: seq<Term>): seq<Value>
    decreases ts, 0
  {
    if ts == [] then [] else [Meaning(ts[0])] + Meanings(ts[1..])
  }

  function Entries(ts: seq<Term>): map<Bytes, Value>
    decreases ts, 0
  {
    if |ts| < 2 then map[]
    else map[if ts[0].RunTerm? then ts[0].run else [] := Meaning(ts[1])] + Entries(ts[2..])
  }

  // Numerals.

  predicate Digits(s: Bytes) { s != [] && forall i | 0 <= i < |s| :: '0' as int <= s[i] <= '9' as int }

  function Power(n: nat): nat { if n == 0 then 1 else 10 * Power(n - 1) }

  /** The first digit counts most. */
  function Number(s: Bytes): int
  {
    if s == [] then 0 else (s[0] - '0' as int) * Power(|s| - 1) + Number(s[1..])
  }

  /** A decimal numeral with an optional sign, leading zeros allowed, for a 64-bit number. */
  predicate Denotes(s: Bytes, n: int) {
    && -0x8000_0000_0000_0000 <= n < 0x8000_0000_0000_0000
    && if s != [] && s[0] == '-' as int then Digits(s[1..]) && n == -Number(s[1..])
       else if s != [] && s[0] == '+' as int then Digits(s[1..]) && n == Number(s[1..])
       else Digits(s) && n == Number(s)
  }

  lemma {:induction false} AllDigitsMeans(s: Bytes)
    ensures AllDigits(s) <==> forall i | 0 <= i < |s| :: '0' as int <= s[i] <= '9' as int
  {
    if s != [] { AllDigitsMeans(s[..|s| - 1]); }
  }

  lemma {:induction false} NumberAppend(s: Bytes, d: Byte)
    ensures Number(s + [d]) == 10 * Number(s) + (d - '0' as int)
  {
    if s == [] {
      assert [d][1..] == [];
      assert [] + [d] == [d] && Power(0) == 1 && Number([d][1..]) == 0;
    } else {
      assert (s + [d])[1..] == s[1..] + [d];
      NumberAppend(s[1..], d);
      assert Power(|s|) == 10 * Power(|s| - 1);
      Scale(s[0] - '0' as int, Power(|s| - 1));
    }
  }

  lemma Scale(d: int, p: int)
    ensures d * (10 * p) == 10 * (d * p)
  {
  }

  lemma {:induction false} DigitValueMeans(s: Bytes)
    requires AllDigits(s)
    ensures DigitValue(s) == Number(s)
  {
    if s != [] {
      DigitValueMeans(s[..|s| - 1]);
      NumberAppend(s[..|s| - 1], s[|s| - 1]);
      assert s == s[..|s| - 1] + [s[|s| - 1]];
    }
  }

  /** Go's `ParseInt` reads exactly the numerals. */
  lemma ParseIntDenotes(s: Bytes, n: Int64)
    ensures ParseInt(s) == Some(n) <==> Denotes(s, n)
  {
    if s != [] {
      var digits := if s[0] == MINUS || s[0] == PLUS then s[1..] else s;
      AllDigitsMeans(digits);
      if AllDigits(digits) { DigitValueMeans(digits); }
      hide AllDigits, DigitValue, Number;
    }
  }

  /** A numeral holds neither terminator. */
  lemma NumeralBytes(s: Bytes, n: int, end: Byte)
    requires Denotes(s, n) && (end == ';' as int || end == ':' as int)
    ensures forall i | 0 <= i < |s| :: s[i] != end
  {
    hide Number;
    forall i | 0 <= i < |s| ensures s[i] != end {
      if i > 0 { assert s[i] == s[1..][i - 1]; }
    }
  }

  // Well-formed terms.

  /** The term is well formed, and no part lies more than a hundred levels deep. */
  ghost predicate Fine(text: FloatText, t: Term, depth: int)
    decreases t
  {
    && depth <= 100
    && match t
       case NullTerm => true
       case BoolTerm(_) => true
       case IntTerm(numeral, n) => Denotes(numeral, n)
       case FloatTerm(body, x) => ';' as int !in body && text.parse(body) == Some(x)
       case RunTerm(_, length, run) => Denotes(length, |run|)
       case SeqTerm(_, _) => forall i | 0 <= i < |t.items| :: Fine(text, t.items[i], depth + 1)
       case DictTerm(_) =>
         && |t.items| % 2 == 0
         && forall i | 0 <= i < |t.items| :: Fine(text, t.items[i], depth + 1) && (i % 2 == 0 ==> t.items[i].RunTerm?)
  }

  ghost predicate AllFine(text: FloatText, ts: seq<Term>, depth: int) {
    forall i | 0 <= i < |ts| :: Fine(text, ts[i], depth)
  }

  ghost predicate InPairs(ts: seq<Term>) {
    |ts| % 2 == 0 && forall i | 0 <= i < |ts| && i % 2 == 0 :: ts[i].RunTerm?
  }

  lemma YieldStarts(t: Term)
    ensures Yield(t) != [] && Yield(t)[0] != SEMICOLON
  {
    hide Yields;
  }

  // The parser reads every well-formed term.

  lemma LeafRead(text: FloatText, t: Term, data: Bytes, pos: nat, depth: int)
    requires Fine(text, t, depth) && At(data, pos, Yield(t)) && !t.SeqTerm? && !t.DictTerm?
    ensures DecodeValue(text, data, pos, depth) == Read(Meaning(t), pos + |Yield(t)|)
  {
    hide DecodeItems, DecodePairs, ParseInt, Denotes;
    assert Yield(t)[0] == data[pos];
    match t
    case NullTerm =>
    case BoolTerm(b) => assert Yield(t)[1] == data[pos + 1];
    case IntTerm(numeral, n) =>
      NumeralBytes(numeral, n, SEMICOLON);
      AtTerminated(data, pos, TAG_INT, numeral, SEMICOLON);
      ParseIntDenotes(numeral, n);
    case FloatTerm(body, x) =>
      assert forall i | 0 <= i < |body| :: body[i] in body;
      AtTerminated(data, pos, TAG_FLOAT, body, SEMICOLON);
    case RunTerm(unicode, length, run) => RunRead(data, pos, if unicode then TAG_STR else TAG_BYTES, length, run);
  }

  lemma RunRead(data: Bytes, pos: nat, tag: Byte, length: Bytes, run: Bytes)
    requires Denotes(length, |run|) && At(data, pos, [tag] + length + [COLON] + run)
    ensures data[pos] == tag && DecodeRun(data, pos) == Read(run, pos + 1 + |length| + 1 + |run|)
  {
    hide ParseInt, Denotes;
    AtSplit(data, pos, [tag] + length + [COLON], run);
    NumeralBytes(length, |run|, COLON);
    AtTerminated(data, pos, tag, length, COLON);
    assert 0 <= |run| <= MAX_INT64 by { NumeralRange(length, |run|); }
    ParseIntDenotes(length, |run|);
    var colon := pos + 1 + |length|;
    assert data[colon + 1..colon + 1 + |run|] == run;
  }

  lemma NumeralRange(s: Bytes, n: int)
    requires Denotes(s, n)
    ensures -MAX_INT64 - 1 <= n <= MAX_INT64
  {
  }

  lemma {:induction false} TermRead(text: FloatText, t: Term, data: Bytes, pos: nat, depth: int)
    requires Fine(text, t, depth) && At(data, pos, Yield(t))
    ensures DecodeValue(text, data, pos, depth) == Read(Meaning(t), pos + |Yield(t)|)
    decreases t, 1
  {
    hide DecodeValue, DecodeItems, DecodePairs, Yields;
    if t.SeqTerm? {
      var tag: Byte := if t.tuple then TAG_TUPLE else TAG_LIST;
      AtSplit3(data, pos, [tag], Yields(t.items), SEMICOLON);
      ItemsRead(text, t.items, data, pos + 1, depth);
      DecodeList(text, data, pos, depth);
    } else if t.DictTerm? {
      AtSplit3(data, pos, [TAG_DICT], Yields(t.items), SEMICOLON);
      PairsRead(text, t.items, data, pos + 1, depth);
      DecodeDict(text, data, pos, depth);
    } else {
      LeafRead(text, t, data, pos, depth);
    }
  }

  lemma {:induction false} ItemsRead(text: FloatText, ts: seq<Term>, data: Bytes, pos: nat, depth: int)
    requires AllFine(text, ts, depth + 1) && At(data, pos, Yields(ts) + [SEMICOLON])
    ensures DecodeItems(text, data, pos, depth) == Read(Meanings(ts), pos + |Yields(ts)| + 1)
    decreases ts, 0
  {
    hide DecodeValue, Yield, Meaning, Fine;
    if ts == [] {
      AtSplit(data, pos, [], [SEMICOLON]);
      assert [SEMICOLON][0] == data[pos];
    } else {
      AtSplit3(data, pos, Yield(ts[0]), Yields(ts[1..]), SEMICOLON);
      YieldStarts(ts[0]);
      TermRead(text, ts[0], data, pos, depth + 1);
      ItemsRead(text, ts[1..], data, pos + |Yield(ts[0])|, depth);
    }
  }

  lemma {:induction false} PairsRead(text: FloatText, ts: seq<Term>, data: Bytes, pos: nat, depth: int)
    requires AllFine(text, ts, depth + 1) && InPairs(ts) && At(data, pos, Yields(ts) + [SEMICOLON])
    ensures DecodePairs(text, data, pos, depth) == Read(Entries(ts), pos + |Yields(ts)| + 1)
    decreases ts, 0
  {
    hide DecodeValue, DecodePair, Yield, Meaning, Fine;
    if ts == [] {
      AtSplit(data, pos, [], [SEMICOLON]);
      assert [SEMICOLON][0] == data[pos];
    } else {
      var rest := ts[2..];
      PairSplit(ts, data, pos);
      var mid := pos + |Yield(ts[0])|;
      var next := mid + |Yield(ts[1])|;
      TermRead(text, ts[0], data, pos, depth + 1);
      TermRead(text, ts[1], data, mid, depth + 1);
      KeyMeaning(ts[0]);
      DecodePairFrom(text, data, pos, depth, ts[0].run, mid, Meaning(ts[1]), next);
      PairsRead(text, rest, data, next, depth);
      DecodePairsFrom(text, data, pos, depth, ts[0].run, Meaning(ts[1]), next, Entries(rest), next + |Yields(rest)| + 1);
    }
  }

  lemma KeyMeaning(t: Term)
    requires t.RunTerm?
    ensures KeyOf(Meaning(t)) == Some(t.run)
  {
  }

  lemma PairSplit(ts: seq<Term>, data: Bytes, pos: nat)
    requires |ts| >= 2 && At(data, pos, Yields(ts) + [SEMICOLON])
    ensures At(data, pos, Yield(ts[0])) && At(data, pos + |Yield(ts[0])|, Yield(ts[1]))
    ensures At(data, pos + |Yield(ts[0])| + |Yield(ts[1])|, Yields(ts[2..]) + [SEMICOLON])
    ensures |Yields(ts)| == |Yield(ts[0])| + |Yield(ts[1])| + |Yields(ts[2..])|
    ensures pos < |data| && data[pos] != SEMICOLON
  {
    hide Yield;
    YieldStarts(ts[0]);
    assert ts[1..][1..] == ts[2..];
    AtSplit3(data, pos, Yield(ts[0]), Yields(ts[1..]), SEMICOLON);
    AtSplit3(data, pos + |Yield(ts[0])|, Yield(ts[1]), Yields(ts[2..]), SEMICOLON);
  }

  // And it reads nothing else.

  lemma LeafTerm(text: FloatText, data: Bytes, pos: nat, depth: int, v: Value, next: nat) returns (t: Term)
    requires pos <= |data| && DecodeValue(text, data, pos, depth) == Read(v, next) && !v.List? && !v.Dict?
    ensures Fine(text, t, depth) && Meaning(t) == v && Yield(t) == data[pos..next]
  {
    hide DecodeItems, DecodePairs, DecodeRun, DecodeInt, DecodeFloat, Denotes;
    if data[pos] == TAG_NULL {
      t := NullTerm;
    } else if data[pos] == TAG_BOOL {
      t := BoolTerm(v.b);
    } else if data[pos] == TAG_INT {
      t := IntOf(data, pos, v, next);
    } else if data[pos] == TAG_FLOAT {
      t := FloatOf(text, data, pos, v, next);
    } else {
      t := RunOf(data, pos, data[pos] == TAG_STR);
    }
  }

  lemma IntOf(data: Bytes, pos: nat, v: Value, next: nat) returns (t: Term)
    requires pos < |data| && data[pos] == TAG_INT && DecodeInt(data, pos) == Read(v, next)
    ensures t.IntTerm? && Denotes(t.numeral, t.n) && Int(t.n) == v && Yield(t) == data[pos..next]
  {
    hide ParseInt, Denotes;
    var end := IndexFrom(data, pos, SEMICOLON);
    t := IntTerm(data[pos + 1..end], v.n);
    ParseIntDenotes(t.numeral, v.n);
  }

  lemma FloatOf(text: FloatText, data: Bytes, pos: nat, v: Value, next: nat) returns (t: Term)
    requires pos < |data| && data[pos] == TAG_FLOAT && DecodeFloat(text, data, pos) == Read(v, next)
    ensures t.FloatTerm? && ';' as int !in t.body && text.parse(t.body) == Some(t.x) && Float(t.x) == v
    ensures Yield(t) == data[pos..next]
  {
    var end := IndexFrom(data, pos, SEMICOLON);
    t := FloatTerm(data[pos + 1..end], v.x);
  }

  lemma RunOf(data: Bytes, pos: nat, unicode: bool) returns (t: Term)
    requires pos < |data| && data[pos] == (if unicode then TAG_STR else TAG_BYTES) && DecodeRun(data, pos).Read?
    ensures t.RunTerm? && t.unicode == unicode && Denotes(t.length, |t.run|) && t.run == DecodeRun(data, pos).value
    ensures Yield(t) == data[pos..DecodeRun(data, pos).next]
  {
    hide Denotes;
    var colon, next := RunParts(data, pos);
    hide DecodeRun;
    t := RunTerm(unicode, data[pos + 1..colon], data[colon + 1..next]);
    ParseIntDenotes(t.length, |t.run|);
    Pieces(data, pos, colon, next);
  }

  lemma RunParts(data: Bytes, pos: nat) returns (colon: nat, next: nat)
    requires pos < |data| && DecodeRun(data, pos).Read?
    ensures pos < colon < next <= |data| && next == DecodeRun(data, pos).next && data[colon] == COLON
    ensures DecodeRun(data, pos).value == data[colon + 1..next] && |data[colon + 1..next]| <= MAX_INT64
    ensures ParseInt(data[pos + 1..colon]) == Some(|data[colon + 1..next]|)
  {
    hide ParseInt;
    colon, next := IndexFrom(data, pos + 1, COLON), DecodeRun(data, pos).next;
    assert ParseInt(data[pos + 1..colon]).value == next - (colon + 1);
  }

  lemma Pieces(data: Bytes, pos: nat, colon: nat, next: nat)
    requires pos < colon < next <= |data|
    ensures [data[pos]] + data[pos + 1..colon] + [data[colon]] + data[colon + 1..next] == data[pos..next]
  {
  }

  lemma Joins(data: Bytes, pos: nat, mid: nat, next: nat)
    requires pos <= mid <= next <= |data|
    ensures data[pos..mid] + data[mid..next] == data[pos..next]
  {
  }

  /** For whatever the parser reads there is a well-formed term, spelled by the bytes that it consumed. */
  lemma {:induction false} TermOf(text: FloatText, data: Bytes, pos: nat, depth: int, v: Value, next: nat) returns (t: Term)
    requires pos <= |data| && DecodeValue(text, data, pos, depth) == Read(v, next)
    ensures Fine(text, t, depth) && Meaning(t) == v && Yield(t) == data[pos..next]
    decreases |data| - pos, 1
  {
    if v.List? {
      ListTag(text, data, pos, depth, v, next);
      var items := ItemsOf(text, data, pos + 1, depth, v.items, next);
      t := SeqTerm(data[pos] == TAG_TUPLE, items);
      hide DecodeValue, DecodeItems, Yields;
      Wrapped(data, pos, next, Yields(items));
    } else if v.Dict? {
      DictTag(text, data, pos, depth, v, next);
      var items := PairsOf(text, data, pos + 1, depth, v.entries, next);
      t := DictTerm(items);
      hide DecodeValue, DecodePairs, Yields;
      Wrapped(data, pos, next, Yields(items));
    } else {
      t := LeafTerm(text, data, pos, depth, v, next);
    }
  }

  lemma ListTag(text: FloatText, data: Bytes, pos: nat, depth: int, v: Value, next: nat)
    requires pos <= |data| && DecodeValue(text, data, pos, depth) == Read(v, next) && v.List?
    ensures pos < |data| && depth <= 100 && (data[pos] == TAG_LIST || data[pos] == TAG_TUPLE)
    ensures DecodeItems(text, data, pos + 1, depth) == Read(v.items, next)
  {
    hide DecodeItems, DecodePairs, DecodeRun;
  }

  lemma DictTag(text: FloatText, data: Bytes, pos: nat, depth: int, v: Value, next: nat)
    requires pos <= |data| && DecodeValue(text, data, pos, depth) == Read(v, next) && v.Dict?
    ensures pos < |data| && depth <= 100 && data[pos] == TAG_DICT
    ensures DecodePairs(text, data, pos + 1, depth) == Read(v.entries, next)
  {
    hide DecodeItems, DecodePairs, DecodeRun;
  }

  lemma Wrapped(data: Bytes, pos: nat, next: nat, body: Bytes)
    requires pos + 1 <= next <= |data| && body + [SEMICOLON] == data[pos + 1..next]
    ensures [data[pos]] + body + [SEMICOLON] == data[pos..next]
  {
    Reassociate([data[pos]], body, [SEMICOLON]);
  }

  lemma {:induction false} ItemsOf(text: FloatText, data: Bytes, pos: nat, depth: int, vs: seq<Value>, next: nat)
    returns (ts: seq<Term>)
    requires pos <= |data| && DecodeItems(text, data, pos, depth) == Read(vs, next)
    ensures AllFine(text, ts, depth + 1) && Meanings(ts) == vs && Yields(ts) + [SEMICOLON] == data[pos..next]
    decreases |data| - pos, 2
  {
    hide DecodeValue, Yield, Meaning, Fine;
    ts := [];
    if data[pos] != SEMICOLON {
      var Read(first, mid) := DecodeValue(text, data, pos, depth + 1);
      var Read(rest, end) := DecodeItems(text, data, mid, depth);
      var t := TermOf(text, data, pos, depth + 1, first, mid);
      var more := ItemsOf(text, data, mid, depth, rest, next);
      ts := [t] + more;
      assert ts[1..] == more;
      Reassociate(Yield(t), Yields(more), [SEMICOLON]);
      Joins(data, pos, mid, next);
    }
  }

  lemma {:induction false} PairsOf(text: FloatText, data: Bytes, pos: nat, depth: int, m: map<Bytes, Value>, next: nat)
    returns (ts: seq<Term>)
    requires pos <= |data| && DecodePairs(text, data, pos, depth) == Read(m, next)
    ensures AllFine(text, ts, depth + 1) && InPairs(ts) && Entries(ts) == m && Yields(ts) + [SEMICOLON] == data[pos..next]
    decreases |data| - pos, 3
  {
    hide DecodeValue, DecodePair, Yield, Meaning, Fine;
    ts := [];
    if data[pos] != SEMICOLON {
      var Read(pair, mid) := DecodePair(text, data, pos, depth);
      var Read(rest, end) := DecodePairs(text, data, mid, depth);
      var k, t := PairOf(text, data, pos, depth, pair, mid);
      var more := PairsOf(text, data, mid, depth, rest, next);
      ts := [k, t] + more;
      PairYields(k, t, more);
      Reassociate(Yield(k) + Yield(t), Yields(more), [SEMICOLON]);
      Joins(data, pos, mid, next);
    }
  }

  lemma PairYields(k: Term, t: Term, more: seq<Term>)
    requires InPairs(more) && k.RunTerm?
    ensures InPairs([k, t] + more) && Entries([k, t] + more) == map[k.run := Meaning(t)] + Entries(more)
    ensures Yields([k, t] + more) == Yield(k) + Yield(t) + Yields(more)
  {
    hide Yield, Meaning;
    assert ([k, t] + more)[2..] == more;
    YieldsTwo(k, t, more);
  }

  lemma {:induction false} PairOf(text: FloatText, data: Bytes, pos: nat, depth: int, pair: (Bytes, Value), next: nat)
    returns (k: Term, t: Term)
    requires pos <= |data| && DecodePair(text, data, pos, depth) == Read(pair, next)
    ensures Fine(text, k, depth + 1) && Fine(text, t, depth + 1) && k.RunTerm? && k.run == pair.0 && Meaning(t) == pair.1
    ensures Yield(k) + Yield(t) == data[pos..next]
    decreases |data| - pos, 2
  {
    hide DecodeValue, Yield, Fine;
    var Read(key, mid) := DecodeValue(text, data, pos, depth + 1);
    k := TermOf(text, data, pos, depth + 1, key, mid);
    t := TermOf(text, data, mid, depth + 1, pair.1, next);
    Joins(data, pos, mid, next);
  }

  /**
   The parser accepts exactly the grammar: a decode succeeds with a value if and only if the
   bytes that it consumes spell a well-formed term with that meaning.
   */
  lemma DecodesIff(text: FloatText, data: Bytes, pos: nat, depth: int, v: Value, next: nat)
    requires pos <= |data|
    ensures DecodeValue(text, data, pos, depth) == Read(v, next)
       <==> pos <= next <= |data| && exists t :: Fine(text, t, depth) && Meaning(t) == v && Yield(t) == data[pos..next]
  {
    hide DecodeValue, Yield, Meaning, Fine;
    if DecodeValue(text, data, pos, depth) == Read(v, next) { var t := TermOf(text, data, pos, depth, v, next); }
    if next <= |data| {
      if t :| pos <= next && Fine(text, t, depth) && Meaning(t) == v && Yield(t) == data[pos..next] {
        TermRead(text, t, data, pos, depth);
      }
    }
  }

  // What the printer writes.

  /** The one term for a value: shortest numerals, keys in the order of Go's strings, each tagged by the kind of its map. */
  ghost function Plain(text: FloatText, v: Value): Term
    requires Encodable(v)
    decreases v, 1
  {
    match v
    case Null => NullTerm
    case Bool(b) => BoolTerm(b)
    case Int(n) => IntTerm(IntText(n), n)
    case Uint(u) => IntTerm(IntText(Wrap64(u)), Wrap64(u))
    case Uint64(u) => IntTerm(IntText(u), u)
    case Float(x) =>
      var s := text.format(x);
      FloatTerm(if '.' as int in s || 'e' as int in s || 'E' as int in s then s else s + ['.' as int, '0' as int], x)
    case ByteString(data) => RunTerm(false, IntText(|data|), data)
    case Str(s) => RunTerm(true, IntText(|s|), s)
    case List(_) => SeqTerm(false, PlainItems(text, v.items))
    case Tuple(_) => SeqTerm(true, PlainItems(text, v.items))
    case Dict(_) => DictTerm(PlainPairs(text, v, KeyOrder.Sorted(v.entries.Keys)))
    case BytesDict(_) => DictTerm(PlainPairs(text, v, KeyOrder.Sorted(v.entries.Keys)))
  }

  ghost function PlainItems(text: FloatText, vs: seq<Value>): seq<Term>
    requires forall v | v in vs :: Encodable(v)
    decreases vs, 0
  {
    if vs == [] then [] else [Plain(text, vs[0])] + PlainItems(text, vs[1..])
  }

  ghost function PlainPairs(text: FloatText, v: Value, keys: seq<Bytes>): seq<Term>
    requires Encodable(v) && v.IsMap() && forall k | k in keys :: k in v.entries
    decreases v, 0, |keys|
  {
    if keys == [] then []
    else [RunTerm(v.Dict?, IntText(|keys[0]|), keys[0]), Plain(text, v.entries[keys[0]])] + PlainPairs(text, v, keys[1..])
  }

  /** Byte for byte, the printer writes this term: which tag stands for which kind of value is fixed here. */
  lemma {:induction false} EncodeSpells(text: FloatText, v: Value)
    requires Encodable(v)
    ensures Encode(text, v) == Yield(Plain(text, v))
    decreases v, 1
  {
    hide Encode, Yield, Plain;
    if v.IsSeq() {
      SeqSpelled(text, v.items);
      WrappedSeq(text, v);
    } else if v.IsMap() {
      PairsSpelled(text, v, KeyOrder.Sorted(v.entries.Keys));
      WrappedMap(text, v);
    } else {
      LeafSpelled(text, v);
    }
  }

  lemma WrappedSeq(text: FloatText, v: Value)
    requires Encodable(v) && v.IsSeq() && EncodeSeq(text, v.items) == Yields(PlainItems(text, v.items))
    ensures Encode(text, v) == Yield(Plain(text, v))
  {
    hide Encode, EncodeSeq, Yields, PlainItems;
    EncodedSeq(text, v);
  }

  lemma WrappedMap(text: FloatText, v: Value)
    requires Encodable(v) && v.IsMap()
    requires
      var keys := KeyOrder.Sorted(v.entries.Keys);
      EncodePairs(text, v, keys) == Yields(PlainPairs(text, v, keys))
    ensures Encode(text, v) == Yield(Plain(text, v))
  {
    hide Encode, EncodePairs, Yields, PlainPairs;
    EncodedMap(text, v);
  }

  lemma LeafSpelled(text: FloatText, v: Value)
    requires Encodable(v) && !v.IsSeq() && !v.IsMap()
    ensures Encode(text, v) == Yield(Plain(text, v))
  {
    hide EncodeSeq, EncodePairs, PlainItems, PlainPairs;
  }

  lemma {:induction false} SeqSpelled(text: FloatText, vs: seq<Value>)
    requires forall v | v in vs :: Encodable(v)
    ensures EncodeSeq(text, vs) == Yields(PlainItems(text, vs))
    decreases vs, 0
  {
    hide Encode, Yield, Plain;
    if vs != [] {
      EncodeSpells(text, vs[0]);
      SeqSpelled(text, vs[1..]);
    }
  }

  lemma {:induction false} PairsSpelled(text: FloatText, v: Value, keys: seq<Bytes>)
    requires Encodable(v) && v.IsMap() && forall k | k in keys :: k in v.entries
    ensures EncodePairs(text, v, keys) == Yields(PlainPairs(text, v, keys))
    decreases v, 0, |keys|
  {
    if keys != [] {
      EncodeSpells(text, v.entries[keys[0]]);
      PairsSpelled(text, v, keys[1..]);
      RunSpells(v, keys[0]);
      hide Encode, Yield, Plain;
      var k, t := RunTerm(v.Dict?, IntText(|keys[0]|), keys[0]), Plain(text, v.entries[keys[0]]);
      YieldsTwo(k, t, PlainPairs(text, v, keys[1..]));
    }
  }

  lemma RunSpells(v: Value, k: Bytes)
    requires v.IsMap()
    ensures EncodeRun(KeyTag(v), k) == Yield(RunTerm(v.Dict?, IntText(|k|), k))
  {
  }

  lemma YieldsTwo(k: Term, t: Term, more: seq<Term>)
    ensures Yields([k, t] + more) == Yield(k) + Yield(t) + Yields(more)
  {
    hide Yield;
    var ts := [k, t] + more;
    assert ts[1..] == [t] + more && ([t] + more)[1..] == more;
    Reassociate(Yield(k), Yield(t), Yields(more));
  }

  /** A number is written with its fewest digits. */
  lemma IntTextShortest(n: Int64)
    ensures Denotes(IntText(n), n)
    ensures
      var digits := if n < 0 then IntText(n)[1..] else IntText(n);
      Digits(digits) && (digits[0] == '0' as int ==> |digits| == 1)
  {
    ParseIntText(n);
    ParseIntDenotes(IntText(n), n);
    var m: int := n;
    NoLeadingZero(if m < 0 then -m else m);
    if m < 0 { assert IntText(n)[1..] == DigitText(-m); }
  }

  lemma {:induction false} NoLeadingZero(n: nat)
    ensures DigitText(n)[0] == ZERO ==> |DigitText(n)| == 1
    ensures DigitText(n)[0] == ZERO ==> n == 0
  {
    if n >= 10 { NoLeadingZero(n / 10); }
  }
}
