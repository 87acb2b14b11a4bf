/**
  Stable sorting by a comparison, as sort.SliceStable and sort.Slice are used throughout the
  repository, and the byte-wise string order those comparisons rely on.
 */
module Orders {

  ghost predicate Total<T(!new)>(leq: (T, T) -> bool) {
    forall x, y :: leq(x, y) || leq(y, x)
  }

  ghost predicate Transitive<T(!new)>(leq: (T, T) -> bool) {
    forall x, y, z :: leq(x, y) && leq(y, z) ==> leq(x, z)
  }

  ghost predicate Antisymmetric<T(!new)>(leq: (T, T) -> bool) {
    forall x, y :: leq(x, y) && leq(y, x) ==> x == y
  }

  ghost predicate Sorted<T>(leq: (T, T) -> bool, s: seq<T>) {
    forall i, j :: 0 <= i < j < |s| ==> leq(s[i], s[j])
  }

  ghost predicate Distinct<T>(s: seq<T>) {
    forall i, j :: 0 <= i < j < |s| ==> s[i] != s[j]
  }

  /** Puts `x` in front of the first element it may precede, so earlier elements win ties. */
  function Insert<T>(leq: (T, T) -> bool, x: T, s: seq<T>): (r: seq<T>)
    ensures |r| == |s| + 1
    ensures multiset(r) == multiset{x} + multiset(s)
  {
    if s == [] then [x]
    else if leq(x, s[0]) then
      assert s == [s[0]] + s[1..];
      [x] + s
    else
      assert s == [s[0]] + s[1..];
      [s[0]] + Insert(leq, x, s[1..])
  }

  function Sort<T>(leq: (T, T) -> bool, s: seq<T>): (r: seq<T>)
    ensures |r| == |s|
    ensures multiset(r) == multiset(s)
  {
    if s == [] then []
    else
      assert s == [s[0]] + s[1..];
      Insert(leq, s[0], Sort(leq, s[1..]))
  }

  /** A sorted permutation has the same members. */
  lemma {:induction false} MembersOfPermutation<T>(s: seq<T>, t: seq<T>)
    requires multiset(s) == multiset(t)
    ensures forall x :: x in s <==> x in t
  {
    forall x ensures x in s <==> x in t {
      assert x in s <==> x in multiset(s);
      assert x in t <==> x in multiset(t);
    }
  }

  lemma {:induction false} InsertMembers<T(!new)>(leq: (T, T) -> bool, x: T, s: seq<T>)
    ensures forall y :: y in Insert(leq, x, s) <==> y == x || y in s
  {
    forall y ensures y in Insert(leq, x, s) <==> y == x || y in s {
      assert y in Insert(leq, x, s) <==> y in multiset(Insert(leq, x, s));
      assert y in s <==> y in multiset(s);
    }
  }

  lemma {:induction false} InsertDistinct<T(!new)>(leq: (T, T) -> bool, x: T, s: seq<T>)
    requires Distinct(s) && x !in s
    ensures Distinct(Insert(leq, x, s))
  {
    if s == [] || leq(x, s[0]) {
    } else {
      InsertDistinct(leq, x, s[1..]);
      InsertMembers(leq, x, s[1..]);
      assert s[0] !in s[1..];
    }
  }

  lemma {:induction false} InsertSorted<T(!new)>(leq: (T, T) -> bool, x: T, s: seq<T>)
    requires Total(leq) && Transitive(leq) && Sorted(leq, s)
    ensures Sorted(leq, Insert(leq, x, s))
  {
    if s == [] || leq(x, s[0]) {
    } else {
      InsertSorted(leq, x, s[1..]);
      var r := Insert(leq, x, s[1..]);
      assert leq(s[0], x);
      forall j | 0 <= j < |r| ensures leq(s[0], r[j]) {
        assert r[j] in multiset(r);
        assert r[j] == x || r[j] in s[1..];
      }
    }
  }

  lemma {:induction false} SortSorted<T(!new)>(leq: (T, T) -> bool, s: seq<T>)
    requires Total(leq) && Transitive(leq)
    ensures Sorted(leq, Sort(leq, s))
  {
    if s == [] {
    } else {
      SortSorted(leq, s[1..]);
      InsertSorted(leq, s[0], Sort(leq, s[1..]));
    }
  }

  /** Two sorted arrangements of the same elements under an antisymmetric order are equal. */
  lemma {:induction false} SortedUnique<T(!new)>(leq: (T, T) -> bool, s: seq<T>, t: seq<T>)
    requires Antisymmetric(leq) && Total(leq)
    requires Sorted(leq, s) && Sorted(leq, t)
    requires multiset(s) == multiset(t)
    ensures s == t
  {
    assert |s| == |multiset(s)| == |multiset(t)| == |t|;
    if s == [] {
    } else {
      assert s[0] == t[0] by {
        MembersOfPermutation(s, t);
        assert s[0] in t && t[0] in s;
        assert leq(s[0], t[0]) && leq(t[0], s[0]);
      }
      TailMultiset(s);
      TailMultiset(t);
      SortedUnique(leq, s[1..], t[1..]);
      assert s == [s[0]] + s[1..] && t == [t[0]] + t[1..];
    }
  }

  lemma {:induction false} TailMultiset<T>(s: seq<T>)
    requires s != []
    ensures multiset(s[1..]) == multiset(s) - multiset{s[0]}
  {
    assert s == [s[0]] + s[1..];
  }

  /** Sorting forgets the order its input arrived in. */
  lemma {:induction false} SortOfPermutation<T(!new)>(leq: (T, T) -> bool, s: seq<T>, t: seq<T>)
    requires Antisymmetric(leq) && Total(leq) && Transitive(leq)
    requires multiset(s) == multiset(t)
    ensures Sort(leq, s) == Sort(leq, t)
  {
    SortSorted(leq, s);
    SortSorted(leq, t);
    SortedUnique(leq, Sort(leq, s), Sort(leq, t));
  }

  /** A sorted sequence is left alone. */
  lemma {:induction false} SortOfSorted<T>(leq: (T, T) -> bool, s: seq<T>)
    requires Sorted(leq, s)
    ensures Sort(leq, s) == s
  {
    if s == [] {
    } else {
      SortOfSorted(leq, s[1..]);
      assert s == [s[0]] + s[1..];
    }
  }

  lemma {:induction false} TwoPlaces<T>(s: seq<T>, x: T) returns (p: nat, q: nat)
    requires multiset(s)[x] >= 2
    ensures p < q < |s| && s[p] == x && s[q] == x
  {
    assert s == [s[0]] + s[1..];
    if s[0] == x {
      assert x in multiset(s[1..]);
      var i :| 0 <= i < |s[1..]| && s[1..][i] == x;
      p, q := 0, i + 1;
    } else {
      p, q := TwoPlaces(s[1..], x);
      p, q := p + 1, q + 1;
    }
  }

  lemma {:induction false} CountsTwice<T>(s: seq<T>, i: nat, j: nat)
    requires i < j < |s| && s[i] == s[j]
    ensures multiset(s)[s[i]] >= 2
  {
    assert s == s[..j] + s[j..];
    assert s[i] in s[..j] && s[j] in s[j..];
  }

  lemma {:induction false} SortDistinct<T>(leq: (T, T) -> bool, s: seq<T>)
    requires Distinct(s)
    ensures Distinct(Sort(leq, s))
  {
    var sorted := Sort(leq, s);
    forall i, j | 0 <= i < j < |sorted| ensures sorted[i] != sorted[j] {
      if sorted[i] == sorted[j] {
        CountsTwice(sorted, i, j);
        var p, q := TwoPlaces(s, sorted[i]);
      }
    }
  }

  lemma {:induction false} SomeMember<T>(s: set<T>)
    ensures s == {} || exists x :: x in s
  {
    if forall x :: x !in s {
      assert s == {};
    }
  }

  /** Puts the members of a set in a sequence, in no particular order. */
  method Collect<T(==)>(s: set<T>) returns (xs: seq<T>)
    ensures Distinct(xs)
    ensures forall x :: x in xs <==> x in s
  {
    var rest := s;
    xs := [];
    while |rest| > 0
      invariant forall x :: x in xs ==> x in s && x !in rest
      invariant forall x :: x in s ==> x in xs || x in rest
      invariant forall x :: x in rest ==> x in s
      invariant Distinct(xs)
      decreases rest
    {
      SomeMember(rest);
      var x :| x in rest;
      xs := xs + [x];
      rest := rest - {x};
    }
  }

  ghost predicate Pairwise<T>(rel: (T, T) -> bool, s: seq<T>) {
    forall i, j :: 0 <= i < j < |s| ==> rel(s[i], s[j])
  }

  lemma {:induction false} PairwiseMembers<T>(rel: (T, T) -> bool, s: seq<T>, a: T, b: T)
    requires Pairwise(rel, s) && a in s && b in s
    ensures a == b || rel(a, b) || rel(b, a)
  {
    var i :| 0 <= i < |s| && s[i] == a;
    var j :| 0 <= j < |s| && s[j] == b;
    if i < j {
      assert rel(s[i], s[j]);
    } else if j < i {
      assert rel(s[j], s[i]);
    }
  }

  lemma {:induction false} PairwisePrefix<T>(rel: (T, T) -> bool, s: seq<T>, n: nat)
    requires n <= |s|
    ensures Pairwise(rel, s) ==> Pairwise(rel, s[..n])
  {}

  lemma {:induction false} PairwiseStep<T>(rel: (T, T) -> bool, s: seq<T>, x: T)
    ensures Pairwise(rel, s + [x]) <==> Pairwise(rel, s) && forall i :: 0 <= i < |s| ==> rel(s[i], x)
  {
    var all := s + [x];
    assert all[|s|] == x && forall i :: 0 <= i < |s| ==> all[i] == s[i];
    if Pairwise(rel, all) {
      assert forall i, j :: 0 <= i < j < |s| ==> rel(all[i], all[j]);
      assert forall i :: 0 <= i < |s| ==> rel(all[i], all[|s|]);
    }
  }

  /** A symmetric relation between all elements of a sequence does not depend on their order. */
  lemma {:induction false} PairwiseOfPermutation<T(!new)>(rel: (T, T) -> bool, s: seq<T>, t: seq<T>)
    requires multiset(s) == multiset(t) && Pairwise(rel, s)
    requires forall x, y :: rel(x, y) ==> rel(y, x)
    ensures Pairwise(rel, t)
  {
    forall i, j | 0 <= i < j < |t| ensures rel(t[i], t[j]) {
      if t[i] == t[j] {
        CountsTwice(t, i, j);
        var p, q := TwoPlaces(s, t[i]);
      } else {
        MembersOfPermutation(s, t);
        assert t[i] in s && t[j] in s;
        var p :| 0 <= p < |s| && s[p] == t[i];
        var q :| 0 <= q < |s| && s[q] == t[j];
        assert p < q || q < p;
      }
    }
  }

  /** In a run of non-empty intervals, neighbours that do not overlap keep all pairs apart. */
  lemma {:induction false} NeighboursSuffice<T>(lo: T -> int, hi: T -> int, s: seq<T>, j: nat, k: nat)
    requires j < k < |s|
    requires forall i :: 0 <= i < |s| ==> lo(s[i]) < hi(s[i])
    requires forall i :: 0 < i < |s| ==> hi(s[i - 1]) <= lo(s[i])
    ensures hi(s[j]) <= lo(s[k])
    decreases k
  {
    assert hi(s[k - 1]) <= lo(s[k]);
    if j == k - 1 {
    } else {
      NeighboursSuffice(lo, hi, s, j, k - 1);
    }
  }

  function Map<T, U>(f: T -> U, s: seq<T>): (r: seq<U>)
    ensures |r| == |s|
    ensures forall i :: 0 <= i < |s| ==> r[i] == f(s[i])
  {
    seq(|s|, i requires 0 <= i < |s| => f(s[i]))
  }

  lemma {:induction false} MapAround<T, U>(f: T -> U, s: seq<T>, x: T, t: seq<T>)
    ensures multiset(Map(f, s + [x] + t)) == multiset(Map(f, s + t)) + multiset{f(x)}
  {
    assert Map(f, s + [x] + t) == Map(f, s) + [f(x)] + Map(f, t);
    assert Map(f, s + t) == Map(f, s) + Map(f, t);
  }

  lemma {:induction false} MapOfPermutation<T, U>(f: T -> U, s: seq<T>, t: seq<T>)
    requires multiset(s) == multiset(t)
    ensures multiset(Map(f, s)) == multiset(Map(f, t))
  {
    if s == [] {
      assert |multiset(t)| == 0;
    } else {
      assert s[0] in multiset(t);
      var i :| 0 <= i < |t| && t[i] == s[0];
      assert t == t[..i] + [s[0]] + t[i + 1..];
      assert s == [] + [s[0]] + s[1..];
      TailMultiset(s);
      assert multiset(t[..i] + t[i + 1..]) == multiset(t) - multiset{s[0]};
      MapOfPermutation(f, s[1..], t[..i] + t[i + 1..]);
      MapAround(f, t[..i], s[0], t[i + 1..]);
      MapAround(f, [], s[0], s[1..]);
      assert [] + s[1..] == s[1..];
    }
  }

  /** Go's `<=` on strings: the first differing character decides, a prefix comes first. */
  predicate LexLeq(a: string, b: string) {
    if a == [] then true
    else if b == [] then false
    else if a[0] != b[0] then a[0] < b[0]
    else LexLeq(a[1..], b[1..])
  }

  predicate LexLess(a: string, b: string) {
    a != b && LexLeq(a, b)
  }

  lemma {:induction false} LexTotalFor(a: string, b: string)
    ensures LexLeq(a, b) || LexLeq(b, a)
    ensures LexLeq(a, b) && LexLeq(b, a) ==> a == b
  {
    if a == [] || b == [] || a[0] != b[0] {
    } else {
      LexTotalFor(a[1..], b[1..]);
      assert a == [a[0]] + a[1..] && b == [b[0]] + b[1..];
    }
  }

  lemma {:induction false} LexTransitiveFor(a: string, b: string, c: string)
    requires LexLeq(a, b) && LexLeq(b, c)
    ensures LexLeq(a, c)
  {
    if a == [] || b == [] || c == [] || a[0] != b[0] || b[0] != c[0] {
    } else {
      LexTransitiveFor(a[1..], b[1..], c[1..]);
    }
  }

  lemma {:induction false} LexIsOrder()
    ensures Total(LexLeq) && Antisymmetric(LexLeq) && Transitive(LexLeq)
  {
    forall a, b ensures LexLeq(a, b) || LexLeq(b, a) {
      LexTotalFor(a, b);
    }
    forall a, b | LexLeq(a, b) && LexLeq(b, a) ensures a == b {
      LexTotalFor(a, b);
    }
    forall a, b, c | LexLeq(a, b) && LexLeq(b, c) ensures LexLeq(a, c) {
      LexTransitiveFor(a, b, c);
    }
  }

  /** The first `k` characters agree and the next one is smaller in `a`. */
  ghost predicate SmallerAt(a: string, b: string, k: nat) {
    k < |a| && k < |b| && a[..k] == b[..k] && a[k] < b[k]
  }

  /** What the order says: a prefix comes first, otherwise the first differing character decides. */
  lemma {:induction false} LexExactly(a: string, b: string)
    ensures LexLeq(a, b) <==> a <= b || exists k: nat :: SmallerAt(a, b, k)
  {
    if a == [] || b == [] {
    } else if a[0] == b[0] {
      LexExactly(a[1..], b[1..]);
      assert a <= b <==> a[1..] <= b[1..];
      if k: nat :| SmallerAt(a[1..], b[1..], k) {
        assert a[..k + 1] == [a[0]] + a[1..][..k] && b[..k + 1] == [b[0]] + b[1..][..k];
        assert SmallerAt(a, b, k + 1);
      }
      if k: nat :| SmallerAt(a, b, k) {
        assert k > 0;
        assert a[1..][..k - 1] == a[..k][1..] && b[1..][..k - 1] == b[..k][1..];
        assert SmallerAt(a[1..], b[1..], k - 1);
      }
    } else {
      assert a[..0] == b[..0];
      assert a[0] < b[0] ==> SmallerAt(a, b, 0);
      assert !(a <= b);
      if k: nat :| SmallerAt(a, b, k) {
        assert k > 0 ==> a[..k][0] == b[..k][0];
      }
    }
  }
}
