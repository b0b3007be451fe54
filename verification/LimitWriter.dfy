/** Script output capped at a number of bytes, with a marker where it was cut. */
module LimitWriter {
  const TRUNCATION_MARKER: string := "\n**OUTPUT TRUNCATED**"

  /** What is kept of everything written: all of it, or the front part and one marker. */
  function Captured(limit: nat, total: string): string {
    if |total| <= limit then total else total[..limit] + TRUNCATION_MARKER
  }

  /** Characters stand for bytes; `out` is the buffer behind the writer. */
  class LimitWriter {
    const limit: nat
    var out: string
    var n: nat
    var truncated: bool
    ghost var total: string     // everything written so far

    ghost predicate Valid()
      reads this
    {
      && out == Captured(limit, total)
      && (truncated <==> |total| > limit)
      && (!truncated ==> n == limit - |total|)
    }

    constructor (limit: nat)
      ensures Valid() && total == "" && this.limit == limit
    {
      this.limit := limit;
      out, n, truncated, total := "", limit, false, "";
    }

    method Write(p: string) returns (written: nat)
      requires Valid()
      modifies this
      ensures Valid() && total == old(total) + p
      ensures written == |p|
    {
      ghost var before := total;
      total := total + p;
      if truncated {
        assert total[..limit] == before[..limit];
        return |p|;
      }
      if |p| <= n {
        out := out + p;
        n := n - |p|;
        return |p|;
      }
      assert total[..limit] == before + p[..n];
      if n > 0 {
        out := out + p[..n];
        n := 0;
      }
      out := out + TRUNCATION_MARKER;
      truncated := true;
      return |p|;
    }
  }

  function Concatenated(chunks: seq<string>): string {
    if chunks == [] then "" else Concatenated(chunks[..|chunks| - 1]) + chunks[|chunks| - 1]
  }

  /** However two streams' output is cut into writes, only the concatenation matters, and every write succeeds in full. */
  method Capture(limit: nat, chunks: seq<string>) returns (out: string, written: seq<nat>)
    ensures out == Captured(limit, Concatenated(chunks))
    ensures
      var total := Concatenated(chunks);
      out == if |total| <= limit then total else total[..limit] + "\n**OUTPUT TRUNCATED**"
    ensures |written| == |chunks| && forall i | 0 <= i < |chunks| :: written[i] == |chunks[i]|
  {
    var writer := new LimitWriter(limit);
    written := [];
    for i := 0 to |chunks|
      invariant fresh(writer) && writer.Valid() && writer.limit == limit && writer.total == Concatenated(chunks[..i])
      invariant |written| == i && forall k | 0 <= k < i :: written[k] == |chunks[k]|
    {
      assert chunks[..i + 1][..i] == chunks[..i];
      var n := writer.Write(chunks[i]);
      written := written + [n];
    }
    assert chunks[..|chunks|] == chunks;
    out := writer.out;
  }
}
