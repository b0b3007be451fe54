/** Bytewise string order, and the sorted listing of a set of keys. */
module KeyOrder {
  import opened Common

  predicate Leq(a: Bytes, b: Bytes) {
    a == [] || (b != [] && (a[0] < b[0] || (a[0] == b[0] && Leq(a[1..], b[1..]))))
  }

  /** Go's `<` on strings: at the first byte that differs `b` has the greater one, or `a` ends there. */
  ghost predicate Before(a: Bytes, b: Bytes) {
    exists n: nat :: DiffersAt(a, b, n)
  }

  predicate DiffersAt(a: Bytes, b: Bytes, n: nat) {
    n <= |a| && n < |b| && a[..n] == b[..n] && (n < |a| ==> a[n] < b[n])
  }

  lemma {:induction false} LeqMeans(a: Bytes, b: Bytes)
    ensures Leq(a, b) <==> a == b || Before(a, b)
  {
    if a == [] {
      if b != [] { assert DiffersAt(a, b, 0); }
    } else if b != [] {
      assert a == [a[0]] + a[1..] && b == [b[0]] + b[1..];
      LeqMeans(a[1..], b[1..]);
      if a[0] < b[0] {
        assert DiffersAt(a, b, 0);
      } else if n: nat :| DiffersAt(a, b, n) {
        DiffersLater(a, b, n);
      } else if a[0] == b[0] && Before(a[1..], b[1..]) {
        var n: nat :| DiffersAt(a[1..], b[1..], n);
        DiffersEarlier(a, b, n);
      }
    }
  }

  lemma DiffersLater(a: Bytes, b: Bytes, n: nat)
    requires a != [] && b != [] && a[0] >= b[0] && DiffersAt(a, b, n)
    ensures a[0] == b[0] && Before(a[1..], b[1..])
  {
    assert n > 0 && a[..n][0] == b[..n][0];
    assert a[1..][..n - 1] == a[..n][1..] && b[1..][..n - 1] == b[..n][1..];
    assert DiffersAt(a[1..], b[1..], n - 1);
  }

  lemma DiffersEarlier(a: Bytes, b: Bytes, n: nat)
    requires a != [] && b != [] && a[0] == b[0] && DiffersAt(a[1..], b[1..], n)
    ensures DiffersAt(a, b, n + 1)
  {
    assert a[..n + 1] == [a[0]] + a[1..][..n] && b[..n + 1] == [b[0]] + b[1..][..n];
  }

  /** Each once, in the order of Go's strings. */
  ghost predicate Ascending(ks: seq<Bytes>) {
    forall i, j | 0 <= i < j < |ks| :: Before(ks[i], ks[j])
  }

  lemma SortedAscending(s: set<Bytes>)
    ensures Ascending(Sorted(s))
  {
    var ks := Sorted(s);
    SortedIncreasing(s);
    SortedDistinct(s);
    forall i, j | 0 <= i < j < |ks| ensures Before(ks[i], ks[j]) { LeqMeans(ks[i], ks[j]); }
  }

  lemma {:induction false} SortedIncreasing(s: set<Bytes>)
    ensures Increasing(Sorted(s))
  {
    hide Leq;
    if s != {} {
      SortedHead(s);
      hide Sorted;
      var k := Sorted(s)[0];
      SortedIncreasing(s - {k});
      ConsIncreasing(k, Sorted(s - {k}));
    }
  }

  lemma SortedHead(s: set<Bytes>)
    requires s != {}
    ensures Sorted(s) != [] && IsLeast(Sorted(s)[0], s) && Sorted(s) == [Sorted(s)[0]] + Sorted(s - {Sorted(s)[0]})
  {
    hide Leq;
  }

  lemma ConsIncreasing(k: Bytes, ks: seq<Bytes>)
    requires Increasing(ks) && forall other | other in ks :: Leq(k, other)
    ensures Increasing([k] + ks)
  {
    hide Leq;
    var all := [k] + ks;
    forall i, j | 0 <= i < j < |all| ensures Leq(all[i], all[j]) {
      if i == 0 { assert all[j] in ks; } else { assert all[i] == ks[i - 1] && all[j] == ks[j - 1]; }
    }
  }

  lemma {:induction false} LeqTotal(a: Bytes, b: Bytes)
    ensures Leq(a, b) || Leq(b, a)
  {
    if a != [] && b != [] && a[0] == b[0] { LeqTotal(a[1..], b[1..]); }
  }

  lemma {:induction false} LeqAntisymmetric(a: Bytes, b: Bytes)
    requires Leq(a, b) && Leq(b, a)
    ensures a == b
  {
    if a != [] && b != [] {
      LeqAntisymmetric(a[1..], b[1..]);
      assert a == [a[0]] + a[1..] && b == [b[0]] + b[1..];
    }
  }

  lemma {:induction false} LeqTransitive(a: Bytes, b: Bytes, c: Bytes)
    requires Leq(a, b) && Leq(b, c)
    ensures Leq(a, c)
  {
    if a != [] && b != [] && c != [] && a[0] == b[0] == c[0] { LeqTransitive(a[1..], b[1..], c[1..]); }
  }

  ghost predicate IsLeast(k: Bytes, s: set<Bytes>) {
    k in s && forall other | other in s :: Leq(k, other)
  }

  lemma {:induction false} LeastExists(s: set<Bytes>)
    requires s != {}
    ensures exists k :: IsLeast(k, s)
  {
    var x :| x in s;
    LeqTotal(x, x);
    if s == {x} {
      assert IsLeast(x, s);
    } else {
      var rest := s - {x};
      LeastExists(rest);
      var y :| IsLeast(y, rest);
      LeqTotal(x, y);
      var k := if Leq(x, y) then x else y;
      forall other | other in s ensures Leq(k, other) {
        if other != x && Leq(x, y) { LeqTransitive(x, y, other); }
      }
      assert IsLeast(k, s);
    }
  }

  /** The elements of a set in increasing order: the reference for `slices.Sort` over map keys. */
  ghost function Sorted(s: set<Bytes>): (ks: seq<Bytes>)
    ensures forall k :: k in ks <==> k in s
  {
    if s == {} then []
    else
      LeastExists(s);
      var k :| IsLeast(k, s);
      [k] + Sorted(s - {k})
  }

  function Insert(k: Bytes, ks: seq<Bytes>): (r: seq<Bytes>)
    ensures multiset(r) == multiset(ks) + multiset{k}
  {
    if ks == [] then [k]
    else if Leq(k, ks[0]) then
      [k] + ks
    else
      assert ks == [ks[0]] + ks[1..];
      [ks[0]] + Insert(k, ks[1..])
  }

  /** `slices.Sort` on strings. */
  function Sort(ks: seq<Bytes>): (r: seq<Bytes>)
    ensures multiset(r) == multiset(ks)
  {
    if ks == [] then []
    else
      assert ks == [ks[0]] + ks[1..];
      Insert(ks[0], Sort(ks[1..]))
  }

  ghost predicate Increasing(ks: seq<Bytes>) {
    forall i, j | 0 <= i < j < |ks| :: Leq(ks[i], ks[j])
  }

  lemma {:induction false} InsertIncreasing(k: Bytes, ks: seq<Bytes>)
    requires Increasing(ks)
    ensures Increasing(Insert(k, ks))
  {
    if ks == [] {
    } else if Leq(k, ks[0]) {
      forall j | 0 <= j < |ks| ensures Leq(k, ks[j]) {
        if j > 0 { LeqTransitive(k, ks[0], ks[j]); }
      }
    } else {
      InsertIncreasing(k, ks[1..]);
      var tail := Insert(k, ks[1..]);
      LeqTotal(k, ks[0]);
      forall j | 0 <= j < |tail| ensures Leq(ks[0], tail[j]) {
        assert tail[j] in multiset(tail);
        if tail[j] != k { assert tail[j] in ks[1..]; }
      }
    }
  }

  lemma {:induction false} SortIncreasing(ks: seq<Bytes>)
    ensures Increasing(Sort(ks))
  {
    if ks != [] {
      SortIncreasing(ks[1..]);
      InsertIncreasing(ks[0], Sort(ks[1..]));
    }
  }

  ghost function Elements(ks: seq<Bytes>): set<Bytes> { set k | k in ks }

  ghost predicate NoDuplicates(ks: seq<Bytes>) {
    forall i, j | 0 <= i < j < |ks| :: ks[i] != ks[j]
  }

  lemma ElementsRest(ks: seq<Bytes>)
    requires ks != [] && NoDuplicates(ks)
    ensures Elements(ks[1..]) == Elements(ks) - {ks[0]}
  {
    forall x | x in Elements(ks) - {ks[0]} ensures x in ks[1..] {
      var i :| 0 <= i < |ks| && ks[i] == x;
      assert ks[1..][i - 1] == x;
    }
    forall i | 0 <= i < |ks[1..]| ensures ks[1..][i] in Elements(ks) - {ks[0]} { assert ks[1..][i] == ks[i + 1]; }
  }

  /** There is only one increasing listing of a set without repetitions. */
  lemma {:induction false} IncreasingIsSorted(ks: seq<Bytes>)
    requires Increasing(ks) && NoDuplicates(ks)
    ensures ks == Sorted(Elements(ks))
  {
    hide Leq;
    var s := Elements(ks);
    if ks != [] {
      assert ks[0] in s;
      var all := Sorted(s);
      var k := all[0];
      assert IsLeast(k, s);
      if k != ks[0] { LeqAntisymmetric(k, ks[0]); }
      ElementsRest(ks);
      IncreasingIsSorted(ks[1..]);
    }
  }

  lemma {:induction false} NoDuplicatesByCount(ks: seq<Bytes>)
    ensures NoDuplicates(ks) <==> forall k :: multiset(ks)[k] <= 1
  {
    if ks != [] {
      var first, rest := ks[0], ks[1..];
      assert ks == [first] + rest;
      NoDuplicatesByCount(rest);
      assert multiset(ks)[first] == multiset(rest)[first] + 1;
      assert first in rest <==> multiset(rest)[first] > 0;
      if NoDuplicates(ks) {
        assert forall i | 0 <= i < |rest| :: rest[i] == ks[i + 1];
        assert first !in rest;
        forall k ensures multiset(ks)[k] <= 1 { assert multiset(ks)[k] == multiset(rest)[k] + multiset{first}[k]; }
      } else if first !in rest {
        assert !NoDuplicates(rest);
        var k :| multiset(rest)[k] > 1;
        assert multiset(ks)[k] == multiset(rest)[k] + multiset{first}[k];
      }
    }
  }

  /** Whatever order the keys of a set arrive in, sorting yields the same listing. */
  lemma SortForgetsOrder(ks: seq<Bytes>)
    requires NoDuplicates(ks)
    ensures Sort(ks) == Sorted(Elements(ks))
  {
    var r := Sort(ks);
    SortIncreasing(ks);
    NoDuplicatesByCount(ks);
    NoDuplicatesByCount(r);
    forall k ensures k in r <==> k in ks {
      assert k in multiset(r) <==> k in multiset(ks);
    }
    IncreasingIsSorted(r);
    assert Elements(r) == Elements(ks);
  }

  lemma {:induction false} SortedDistinct(s: set<Bytes>)
    ensures NoDuplicates(Sorted(s))
  {
    if s != {} {
      var k := Sorted(s)[0];
      SortedDistinct(s - {k});
      assert forall i | 0 <= i < |Sorted(s - {k})| :: Sorted(s - {k})[i] in s - {k};
    }
  }

  lemma SortedElements(s: set<Bytes>)
    ensures Elements(Sorted(s)) == s
  {
  }
}
