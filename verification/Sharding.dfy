/**
  Balancing test packages over CI shards: packages are taken heaviest first and each goes to the
  least loaded shard.
 */
module Sharding {
  import Orders

  datatype Package = Package(name: string, weight: nat)

  /** Sort key (-weight, name). */
  predicate Earlier(p: Package, q: Package) {
    p.weight > q.weight || (p.weight == q.weight && Orders.LexLeq(p.name, q.name))
  }

  lemma {:induction false} EarlierOrder()
    ensures Orders.Total(Earlier) && Orders.Transitive(Earlier) && Orders.Antisymmetric(Earlier)
  {
    Orders.LexIsOrder();
  }

  function Weights(ps: seq<Package>): (ws: seq<nat>)
    ensures |ws| == |ps|
    ensures forall i :: 0 <= i < |ps| ==> ws[i] == ps[i].weight
  {
    if ps == [] then [] else Weights(ps[..|ps| - 1]) + [ps[|ps| - 1].weight]
  }

  // ----- assignments

  /** The weight shard `s` carries when job i goes to shard a[i]. */
  function Load(ws: seq<nat>, a: seq<nat>, s: nat): nat
    requires |ws| == |a|
  {
    if ws == [] then 0
    else
      var n := |ws| - 1;
      Load(ws[..n], a[..n], s) + if a[n] == s then ws[n] else 0
  }

  /** The first shard among the first `k` with the smallest load. */
  function LeastLoaded(ws: seq<nat>, a: seq<nat>, k: nat): (t: nat)
    requires |ws| == |a| && 0 < k
    ensures t < k
  {
    if k == 1 then 0
    else
      var t := LeastLoaded(ws, a, k - 1);
      if Load(ws, a, k - 1) < Load(ws, a, t) then k - 1 else t
  }

  lemma {:induction false} LeastLoadedIsLeast(ws: seq<nat>, a: seq<nat>, k: nat)
    requires |ws| == |a| && 0 < k
    ensures var t := LeastLoaded(ws, a, k);
            && (forall s: nat :: s < k ==> Load(ws, a, t) <= Load(ws, a, s))
            && (forall s: nat :: s < t ==> Load(ws, a, t) < Load(ws, a, s))
  {
    if k == 1 {
    } else {
      LeastLoadedIsLeast(ws, a, k - 1);
    }
  }

  /** The greedy assignment of jobs, in the given order, to `m` shards. */
  function Greedy(ws: seq<nat>, m: nat): (a: seq<nat>)
    requires 0 < m
    ensures |a| == |ws|
    ensures forall i :: 0 <= i < |a| ==> a[i] < m
  {
    if ws == [] then []
    else
      var a := Greedy(ws[..|ws| - 1], m);
      a + [LeastLoaded(ws[..|ws| - 1], a, m)]
  }

  /** The names shard `s` receives, in placement order. */
  function Bucket(ps: seq<Package>, a: seq<nat>, s: nat): seq<string>
    requires |ps| == |a|
  {
    if ps == [] then []
    else
      var n := |ps| - 1;
      Bucket(ps[..n], a[..n], s) + if a[n] == s then [ps[n].name] else []
  }

  function Total(ws: seq<nat>): nat {
    if ws == [] then 0 else Total(ws[..|ws| - 1]) + ws[|ws| - 1]
  }

  function Ordered(packages: seq<Package>): seq<Package> {
    Orders.Sort(Earlier, packages)
  }

  /** The placement order on the packages themselves: heaviest first, ties in byte order of the names. */
  lemma {:induction false} HeaviestFirst(packages: seq<Package>, i: nat, j: nat)
    requires i < j < |packages|
    ensures var ps := Ordered(packages);
            && multiset(ps) == multiset(packages)
            && ps[i].weight >= ps[j].weight
            && (ps[i].weight == ps[j].weight ==>
                  ps[i].name <= ps[j].name || exists k: nat :: Orders.SmallerAt(ps[i].name, ps[j].name, k))
  {
    EarlierOrder();
    Orders.SortSorted(Earlier, packages);
    var ps := Ordered(packages);
    assert Earlier(ps[i], ps[j]);
    Orders.LexExactly(ps[i].name, ps[j].name);
  }

  // ----- the script

  /** min(range(count), key=(loads[index], index)) */
  method ChooseShard(loads: seq<nat>) returns (target: nat)
    requires |loads| > 0
    ensures target < |loads|
    ensures forall s :: 0 <= s < |loads| ==> loads[target] <= loads[s]
    ensures forall s :: 0 <= s < target ==> loads[target] < loads[s]
  {
    target := 0;
    for s := 1 to |loads|
      invariant target < s
      invariant forall k :: 0 <= k < s ==> loads[target] <= loads[k]
      invariant forall k :: 0 <= k < target ==> loads[target] < loads[k]
    {
      if loads[s] < loads[target] {
        target := s;
      }
    }
  }

  lemma {:induction false} LeastLoadedUnique(ws: seq<nat>, a: seq<nat>, m: nat, t: nat)
    requires |ws| == |a| && t < m
    requires forall s: nat :: s < m ==> Load(ws, a, t) <= Load(ws, a, s)
    requires forall s: nat :: s < t ==> Load(ws, a, t) < Load(ws, a, s)
    ensures t == LeastLoaded(ws, a, m)
  {
    LeastLoadedIsLeast(ws, a, m);
  }

  ghost predicate Describes(buckets: seq<seq<string>>, loads: seq<nat>, ps: seq<Package>, a: seq<nat>, m: nat)
    requires |ps| == |a|
  {
    && |buckets| == m && |loads| == m
    && (forall s :: 0 <= s < m ==> loads[s] == Load(Weights(ps), a, s))
    && (forall s :: 0 <= s < m ==> buckets[s] == Bucket(ps, a, s))
  }

  /** The buckets and loads after placing the first `i` packages of `ps`. */
  ghost predicate Placed(buckets: seq<seq<string>>, loads: seq<nat>, ps: seq<Package>, i: nat, m: nat)
    requires 0 < m && i <= |ps|
  {
    Describes(buckets, loads, ps[..i], Greedy(Weights(ps[..i]), m), m)
  }

  method Balance(packages: seq<Package>, m: nat) returns (buckets: seq<seq<string>>, loads: seq<nat>)
    requires 0 < m
    ensures Describes(buckets, loads, Ordered(packages), Greedy(Weights(Ordered(packages)), m), m)
  {
    var ordered := Ordered(packages);
    buckets := seq(m, _ => []);
    loads := seq(m, _ => 0);
    for i := 0 to |ordered|
      invariant Placed(buckets, loads, ordered, i, m)
    {
      var target := ChooseShard(loads);
      PlacedStep(buckets, loads, ordered, i, m, target);
      buckets := buckets[target := buckets[target] + [ordered[i].name]];
      loads := loads[target := loads[target] + ordered[i].weight];
    }
    assert ordered[..|ordered|] == ordered;
  }

  /** Choosing from the recorded loads is choosing the least loaded shard. */
  lemma {:induction false} ChosenIsLeast(loads: seq<nat>, ws: seq<nat>, a: seq<nat>, m: nat, t: nat)
    requires |ws| == |a| && |loads| == m && t < m && forall s :: 0 <= s < m ==> loads[s] == Load(ws, a, s)
    requires forall s :: 0 <= s < m ==> loads[t] <= loads[s]
    requires forall s :: 0 <= s < t ==> loads[t] < loads[s]
    ensures t == LeastLoaded(ws, a, m)
  {
    forall s: nat | s < m ensures Load(ws, a, t) <= Load(ws, a, s) {
      assert loads[t] <= loads[s];
    }
    forall s: nat | s < t ensures Load(ws, a, t) < Load(ws, a, s) {
      assert loads[t] < loads[s];
    }
    LeastLoadedUnique(ws, a, m, t);
  }

  lemma {:induction false} PlacedMore(
    buckets: seq<seq<string>>, loads: seq<nat>, done: seq<Package>, p: Package, m: nat, t: nat)
    requires 0 < m && Describes(buckets, loads, done, Greedy(Weights(done), m), m) && t < m
    requires t == LeastLoaded(Weights(done), Greedy(Weights(done), m), m)
    ensures Describes(buckets[t := buckets[t] + [p.name]], loads[t := loads[t] + p.weight], done + [p],
                      Greedy(Weights(done + [p]), m), m)
  {
    GreedyStep(done, p, m);
    DescribesStep(buckets, loads, done, Greedy(Weights(done), m), p, m, t);
  }

  lemma {:induction false} PlacedStep(
    buckets: seq<seq<string>>, loads: seq<nat>, ps: seq<Package>, i: nat, m: nat, t: nat)
    requires 0 < m && i < |ps| && Placed(buckets, loads, ps, i, m) && t < m
    requires forall s :: 0 <= s < m ==> loads[t] <= loads[s]
    requires forall s :: 0 <= s < t ==> loads[t] < loads[s]
    ensures Placed(buckets[t := buckets[t] + [ps[i].name]], loads[t := loads[t] + ps[i].weight], ps, i + 1, m)
  {
    ChosenIsLeast(loads, Weights(ps[..i]), Greedy(Weights(ps[..i]), m), m, t);
    PlacedMore(buckets, loads, ps[..i], ps[i], m, t);
    assert ps[..i + 1] == ps[..i] + [ps[i]];
  }

  /** One more package on shard `t` adds its name and its weight there and nowhere else. */
  lemma {:induction false} DescribesStep(
    buckets: seq<seq<string>>, loads: seq<nat>, done: seq<Package>, a: seq<nat>, p: Package, m: nat, t: nat)
    requires |done| == |a| && Describes(buckets, loads, done, a, m) && t < m
    ensures Describes(buckets[t := buckets[t] + [p.name]], loads[t := loads[t] + p.weight], done + [p], a + [t], m)
  {
    var all := done + [p];
    assert all[..|done|] == done && (a + [t])[..|done|] == a;
    assert Weights(all) == Weights(done) + [p.weight];
    assert Weights(all)[..|done|] == Weights(done);
    assert forall s: nat :: Bucket(all, a + [t], s) == Bucket(done, a, s) + if t == s then [p.name] else [];
    assert forall s: nat ::
      Load(Weights(all), a + [t], s) == Load(Weights(done), a, s) + if t == s then p.weight else 0;
    assert forall s: nat :: Bucket(done, a, s) + [] == Bucket(done, a, s);
  }

  lemma {:induction false} GreedyStep(done: seq<Package>, p: Package, m: nat)
    requires 0 < m
    ensures var a := Greedy(Weights(done), m);
            Greedy(Weights(done + [p]), m) == a + [LeastLoaded(Weights(done), a, m)]
  {
    var all := done + [p];
    assert all[..|done|] == done;
    assert Weights(all) == Weights(done) + [p.weight];
    assert Weights(all)[..|done|] == Weights(done);
  }

  // ----- every package lands in one shard

  lemma {:induction false} BucketMember(ps: seq<Package>, a: seq<nat>, s: nat, x: string)
    requires |ps| == |a|
    ensures x in Bucket(ps, a, s) <==> exists i :: 0 <= i < |ps| && a[i] == s && ps[i].name == x
  {
    if ps == [] {
    } else {
      var n := |ps| - 1;
      BucketMember(ps[..n], a[..n], s, x);
      if i :| 0 <= i < n && a[i] == s && ps[i].name == x {
        assert a[..n][i] == s && ps[..n][i].name == x;
      }
      if i :| 0 <= i < n && a[..n][i] == s && ps[..n][i].name == x {
        assert a[i] == s && ps[i].name == x;
      }
    }
  }

  predicate OtherName(p: Package, q: Package) { p.name != q.name }

  lemma {:induction false} NobodyTwice(ps: seq<Package>, a: seq<nat>, s: nat, t: nat, x: string)
    requires |ps| == |a| && Orders.Pairwise(OtherName, ps) && s != t && x in Bucket(ps, a, s)
    ensures x !in Bucket(ps, a, t)
  {
    BucketMember(ps, a, s, x);
    BucketMember(ps, a, t, x);
    var i :| 0 <= i < |ps| && a[i] == s && ps[i].name == x;
    forall j | 0 <= j < |ps| && a[j] == t ensures ps[j].name != x {
      assert if i < j then OtherName(ps[i], ps[j]) else OtherName(ps[j], ps[i]);
    }
  }

  ghost predicate Names(ps: seq<Package>, x: string) {
    exists p :: p in ps && p.name == x
  }

  ghost predicate InSomeBucket(ps: seq<Package>, a: seq<nat>, m: nat, x: string)
    requires |ps| == |a|
  {
    exists s: nat :: s < m && x in Bucket(ps, a, s)
  }

  lemma {:induction false} SomebodyHolds(ps: seq<Package>, a: seq<nat>, m: nat, x: string)
    requires |ps| == |a| && forall i :: 0 <= i < |a| ==> a[i] < m
    ensures Names(ps, x) <==> InSomeBucket(ps, a, m, x)
  {
    if Names(ps, x) {
      var p :| p in ps && p.name == x;
      var i :| 0 <= i < |ps| && ps[i] == p;
      BucketMember(ps, a, a[i], x);
    }
    if InSomeBucket(ps, a, m, x) {
      var s: nat :| s < m && x in Bucket(ps, a, s);
      BucketMember(ps, a, s, x);
    }
  }

  function NameOf(p: Package): string { p.name }

  function CopiesIn(xs: seq<string>, x: string): nat {
    multiset(xs)[x]
  }

  /** How often a name occurs in the first `k` buckets together. */
  ghost function Copies(ps: seq<Package>, a: seq<nat>, k: nat, x: string): nat
    requires |ps| == |a|
  {
    if k == 0 then 0 else Copies(ps, a, k - 1, x) + CopiesIn(Bucket(ps, a, k - 1), x)
  }

  lemma {:induction false} CopiesOfLonger(xs: seq<string>, y: string, x: string)
    ensures CopiesIn(xs + [y], x) == CopiesIn(xs, x) + if y == x then 1 else 0
    ensures CopiesIn(xs + [], x) == CopiesIn(xs, x)
  {
    assert xs + [] == xs;
  }

  lemma {:induction false} BucketCopies(ps: seq<Package>, a: seq<nat>, s: nat, x: string)
    requires |ps| == |a| && ps != []
    ensures var n := |ps| - 1;
            CopiesIn(Bucket(ps, a, s), x) ==
            CopiesIn(Bucket(ps[..n], a[..n], s), x) + if a[n] == s && ps[n].name == x then 1 else 0
  {
    var n := |ps| - 1;
    CopiesOfLonger(Bucket(ps[..n], a[..n], s), ps[n].name, x);
  }

  lemma {:induction false} ListedCopies(ps: seq<Package>, x: string)
    requires ps != []
    ensures var n := |ps| - 1;
            CopiesIn(Orders.Map(NameOf, ps), x) ==
            CopiesIn(Orders.Map(NameOf, ps[..n]), x) + if ps[n].name == x then 1 else 0
  {
    var n := |ps| - 1;
    CopiesOfLonger(Orders.Map(NameOf, ps[..n]), ps[n].name, x);
    assert Orders.Map(NameOf, ps) == Orders.Map(NameOf, ps[..n]) + [ps[n].name];
  }

  /** One for every listing of the name, zero for the others. */
  function Marks(ps: seq<Package>, x: string): (ws: seq<nat>)
    ensures |ws| == |ps|
  {
    if ps == [] then [] else Marks(ps[..|ps| - 1], x) + [if ps[|ps| - 1].name == x then 1 else 0]
  }

  lemma {:induction false} MarksInit(ps: seq<Package>, x: string)
    requires ps != []
    ensures var n := |ps| - 1;
            Marks(ps, x)[..n] == Marks(ps[..n], x) && Marks(ps, x)[n] == if ps[n].name == x then 1 else 0
  {}

  lemma {:induction false} CopiesAreLoad(ps: seq<Package>, a: seq<nat>, s: nat, x: string)
    requires |ps| == |a|
    ensures CopiesIn(Bucket(ps, a, s), x) == Load(Marks(ps, x), a, s)
  {
    if ps == [] {
    } else {
      var n := |ps| - 1;
      CopiesAreLoad(ps[..n], a[..n], s, x);
      BucketCopies(ps, a, s, x);
      MarksInit(ps, x);
    }
  }

  lemma {:induction false} CopiesAreLoads(ps: seq<Package>, a: seq<nat>, ws: seq<nat>, k: nat, x: string)
    requires |ps| == |a| == |ws|
    requires forall s: nat :: s < k ==> CopiesIn(Bucket(ps, a, s), x) == Load(ws, a, s)
    ensures Copies(ps, a, k, x) == LoadsUpTo(ws, a, k)
  {
    if k == 0 {
    } else {
      CopiesAreLoads(ps, a, ws, k - 1, x);
    }
  }

  lemma {:induction false} ListedIsTotal(ps: seq<Package>, x: string)
    ensures CopiesIn(Orders.Map(NameOf, ps), x) == Total(Marks(ps, x))
  {
    if ps == [] {
    } else {
      ListedIsTotal(ps[..|ps| - 1], x);
      ListedCopies(ps, x);
      MarksInit(ps, x);
    }
  }

  /** The buckets hold every name as often as it is listed. */
  lemma {:induction false} BucketsConserve(ps: seq<Package>, a: seq<nat>, m: nat, x: string)
    requires |ps| == |a| && forall i :: 0 <= i < |a| ==> a[i] < m
    ensures Copies(ps, a, m, x) == CopiesIn(Orders.Map(NameOf, ps), x)
  {
    forall s: nat | s < m ensures CopiesIn(Bucket(ps, a, s), x) == Load(Marks(ps, x), a, s) {
      CopiesAreLoad(ps, a, s, x);
    }
    CopiesAreLoads(ps, a, Marks(ps, x), m, x);
    LoadsConserve(Marks(ps, x), a, m);
    ListedIsTotal(ps, x);
  }

  /**
    The buckets together hold each name exactly as often as it is listed; with distinct names no two
    buckets share one.
   */
  lemma {:induction false} Partition(packages: seq<Package>, m: nat, x: string)
    requires 0 < m
    ensures var ps := Ordered(packages);
            var a := Greedy(Weights(ps), m);
            && Copies(ps, a, m, x) == CopiesIn(Orders.Map(NameOf, packages), x)
            && (Names(packages, x) <==> InSomeBucket(ps, a, m, x))
            && (Orders.Pairwise(OtherName, packages) ==>
                  forall s: nat, t: nat :: s < t < m && x in Bucket(ps, a, s) ==> x !in Bucket(ps, a, t))
  {
    var ps := Ordered(packages);
    var a := Greedy(Weights(ps), m);
    BucketsConserve(ps, a, m, x);
    Orders.MapOfPermutation(NameOf, ps, packages);
    assert Names(packages, x) <==> Names(ps, x) by {
      Orders.MembersOfPermutation(ps, packages);
    }
    SomebodyHolds(ps, a, m, x);
    if Orders.Pairwise(OtherName, packages) {
      Orders.PairwiseOfPermutation(OtherName, packages, ps);
      forall s: nat, t: nat | s < t < m && x in Bucket(ps, a, s) ensures x !in Bucket(ps, a, t) {
        NobodyTwice(ps, a, s, t, x);
      }
    }
  }

  /** The order in which packages are listed makes no difference. */
  lemma {:induction false} OrderIndependent(p1: seq<Package>, p2: seq<Package>, m: nat)
    requires 0 < m && multiset(p1) == multiset(p2)
    ensures Ordered(p1) == Ordered(p2)
    ensures Greedy(Weights(Ordered(p1)), m) == Greedy(Weights(Ordered(p2)), m)
  {
    EarlierOrder();
    Orders.SortOfPermutation(Earlier, p1, p2);
  }

  // ----- balance

  lemma {:induction false} GapBound(ws: seq<nat>, m: nat, w: nat, s: nat, t: nat)
    requires 0 < m && s < m && t < m && forall i :: 0 <= i < |ws| ==> ws[i] <= w
    ensures Load(ws, Greedy(ws, m), s) <= Load(ws, Greedy(ws, m), t) + w
  {
    if ws == [] {
    } else {
      var n := |ws| - 1;
      GapBound(ws[..n], m, w, s, t);
      LeastLoadedIsLeast(ws[..n], Greedy(ws[..n], m), m);
      assert Greedy(ws, m)[..n] == Greedy(ws[..n], m);
    }
  }

  /** The first `k` loads added up. */
  function LoadsUpTo(ws: seq<nat>, a: seq<nat>, k: nat): nat
    requires |ws| == |a|
  {
    if k == 0 then 0 else LoadsUpTo(ws, a, k - 1) + Load(ws, a, k - 1)
  }

  lemma {:induction false} LoadsUpToStep(ws: seq<nat>, a: seq<nat>, k: nat)
    requires |ws| == |a| && ws != []
    ensures var n := |ws| - 1;
            LoadsUpTo(ws, a, k) == LoadsUpTo(ws[..n], a[..n], k) + if a[n] < k then ws[n] else 0
  {
    if k == 0 {
    } else {
      LoadsUpToStep(ws, a, k - 1);
    }
  }

  /** Loads conserve weight. */
  lemma {:induction false} LoadsConserve(ws: seq<nat>, a: seq<nat>, m: nat)
    requires |ws| == |a| && forall i :: 0 <= i < |a| ==> a[i] < m
    ensures LoadsUpTo(ws, a, m) == Total(ws)
  {
    if ws == [] {
      NoLoad(a, m);
    } else {
      var n := |ws| - 1;
      LoadsConserve(ws[..n], a[..n], m);
      LoadsUpToStep(ws, a, m);
    }
  }

  lemma {:induction false} NoLoad(a: seq<nat>, k: nat)
    requires a == []
    ensures LoadsUpTo([], a, k) == 0
  {
    if k == 0 {
    } else {
      NoLoad(a, k - 1);
    }
  }

  lemma {:induction false} LoadsAtLeast(ws: seq<nat>, a: seq<nat>, k: nat, low: int)
    requires |ws| == |a| && forall s: nat :: s < k ==> low <= Load(ws, a, s)
    ensures k * low <= LoadsUpTo(ws, a, k)
  {
    if k == 0 {
    } else {
      LoadsAtLeast(ws, a, k - 1, low);
      assert k * low == (k - 1) * low + low;
    }
  }

  lemma {:induction false} LoadsAtMost(ws: seq<nat>, a: seq<nat>, k: nat, high: int)
    requires |ws| == |a| && forall s: nat :: s < k ==> Load(ws, a, s) <= high
    ensures LoadsUpTo(ws, a, k) <= k * high
  {
    if k == 0 {
    } else {
      LoadsAtMost(ws, a, k - 1, high);
      assert k * high == (k - 1) * high + high;
    }
  }

  lemma {:induction false} TotalPrefix(ws: seq<nat>, j: nat)
    requires j < |ws|
    ensures Total(ws[..j]) + ws[j] <= Total(ws)
  {
    var n := |ws| - 1;
    if j == n {
    } else {
      TotalPrefix(ws[..n], j);
      assert ws[..n][..j] == ws[..j];
    }
  }

  /** The last job put on a loaded shard went there when the shard was least loaded. */
  lemma {:induction false} LastPlacement(ws: seq<nat>, m: nat, s: nat) returns (j: nat)
    requires 0 < m && s < m && 0 < Load(ws, Greedy(ws, m), s)
    ensures j < |ws|
    ensures Load(ws, Greedy(ws, m), s) == Load(ws[..j], Greedy(ws[..j], m), s) + ws[j]
    ensures s == LeastLoaded(ws[..j], Greedy(ws[..j], m), m)
  {
    var n := |ws| - 1;
    var a := Greedy(ws, m);
    assert a[..n] == Greedy(ws[..n], m);
    if a[n] == s {
      j := n;
    } else {
      j := LastPlacement(ws[..n], m, s);
      assert ws[..n][..j] == ws[..j];
    }
  }

  /** A job placed on the least loaded shard finds it at or below the average. */
  lemma {:induction false} PlacementBound(ws: seq<nat>, m: nat, s: nat) returns (j: nat)
    requires 0 < m && s < m && 0 < Load(ws, Greedy(ws, m), s)
    ensures j < |ws|
    ensures Load(ws, Greedy(ws, m), s) == Load(ws[..j], Greedy(ws[..j], m), s) + ws[j]
    ensures s == LeastLoaded(ws[..j], Greedy(ws[..j], m), m)
    ensures m * Load(ws, Greedy(ws, m), s) <= Total(ws) + (m - 1) * ws[j]
  {
    j := LastPlacement(ws, m, s);
    var a := Greedy(ws[..j], m);
    var low := Load(ws[..j], a, s);
    LeastLoadedIsLeast(ws[..j], a, m);
    LoadsAtLeast(ws[..j], a, m, low);
    LoadsConserve(ws[..j], a, m);
    TotalPrefix(ws, j);
    AverageArithmetic(m, low, ws[j], Total(ws[..j]), Total(ws));
  }

  lemma {:induction false} AverageArithmetic(m: int, low: int, w: int, before: int, total: int)
    requires m * low <= before && before + w <= total
    ensures m * (low + w) <= total + (m - 1) * w
  {
    assert m * (low + w) == m * low + m * w;
    assert (m - 1) * w == m * w - w;
  }

  lemma {:induction false} ScaledLeq(a: int, b: int, c: int)
    requires a <= b && 0 <= c
    ensures c * a <= c * b
  {}

  /** No shard exceeds the average by more than (m - 1) / m of the largest weight. */
  lemma {:induction false} MakespanBound(ws: seq<nat>, m: nat, w: nat, s: nat)
    requires 0 < m && s < m && forall i :: 0 <= i < |ws| ==> ws[i] <= w
    ensures m * Load(ws, Greedy(ws, m), s) <= Total(ws) + (m - 1) * w
  {
    ScaledLeq(0, w, m - 1);
    if Load(ws, Greedy(ws, m), s) > 0 {
      var j := PlacementBound(ws, m, s);
      ScaledLeq(ws[j], w, m - 1);
    }
  }
}
