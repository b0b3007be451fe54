/** Datatypes shared by every component of the model. */
module Common {

  datatype Option<+T> = None | Some(value: T)

  type Byte = b: int | 0 <= b < 256

  /** A Go string or byte slice: an arbitrary sequence of bytes. */
  type Bytes = seq<Byte>

  const MAX_INT64: int := 0x7FFF_FFFF_FFFF_FFFF
  const TWO_64: int := 0x1_0000_0000_0000_0000

  type Int64 = n: int | -MAX_INT64 - 1 <= n <= MAX_INT64
  type Uint64 = n: int | 0 <= n < TWO_64

  function Min(a: int, b: int): int { if a < b then a else b }

  lemma Reassociate<T>(a: seq<T>, b: seq<T>, c: seq<T>)
    ensures a + (b + c) == (a + b) + c
  {
  }

  function Max(a: int, b: int): int { if a < b then b else a }

  // Subsequences.

  /** The places in `whole` at which `part` stands, in increasing order. */
  ghost predicate Picks<T>(at: seq<nat>, part: seq<T>, whole: seq<T>) {
    && |at| == |part|
    && (forall i, j | 0 <= i < j < |at| :: at[i] < at[j])
    && (forall i | 0 <= i < |at| :: at[i] < |whole| && whole[at[i]] == part[i])
  }

  /** `part` is `whole` with some elements left out. */
  ghost predicate InOrder<T>(part: seq<T>, whole: seq<T>) { exists at: seq<nat> :: Picks(at, part, whole) }

  lemma InOrderNone<T>(whole: seq<T>)
    ensures InOrder([], whole)
  {
    assert Picks([], [], whole);
  }

  lemma InOrderSkip<T>(part: seq<T>, x: T, whole: seq<T>)
    requires InOrder(part, whole)
    ensures InOrder(part, [x] + whole)
  {
    var at: seq<nat> :| Picks(at, part, whole);
    var next := seq(|at|, i requires 0 <= i < |at| => at[i] + 1);
    assert Picks(next, part, [x] + whole);
  }

  lemma InOrderTake<T>(x: T, part: seq<T>, whole: seq<T>)
    requires InOrder(part, whole)
    ensures InOrder([x] + part, [x] + whole)
  {
    var at: seq<nat> :| Picks(at, part, whole);
    var next := [0] + seq(|at|, i requires 0 <= i < |at| => at[i] + 1);
    assert Picks(next, [x] + part, [x] + whole);
  }

  lemma InOrderAppend<T>(part: seq<T>, whole: seq<T>, x: T)
    requires InOrder(part, whole)
    ensures InOrder(part, whole + [x]) && InOrder(part + [x], whole + [x])
  {
    var at: seq<nat> :| Picks(at, part, whole);
    assert Picks(at, part, whole + [x]);
    assert Picks(at + [|whole|], part + [x], whole + [x]);
  }
}
