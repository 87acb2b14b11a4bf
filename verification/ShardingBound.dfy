/**
  Graham's bound for the shard balancer: taking packages heaviest first keeps the fullest shard within
  4/3 - 1/(3m) of the best possible assignment.
 */
module ShardingBound {
  import opened Sharding
  import Orders

  ghost predicate Descending(ws: seq<nat>) {
    forall i, j :: 0 <= i < j < |ws| ==> ws[j] <= ws[i]
  }

  /** `b` distributes the jobs over `m` shards with no shard above `T`. */
  ghost predicate Schedule(ws: seq<nat>, b: seq<nat>, m: nat, T: nat) {
    && |b| == |ws|
    && (forall i :: 0 <= i < |b| ==> b[i] < m)
    && (forall s: nat :: s < m ==> Load(ws, b, s) <= T)
  }

  function Ones(n: nat): (os: seq<nat>)
    ensures |os| == n && forall i :: 0 <= i < n ==> os[i] == 1
  {
    if n == 0 then [] else Ones(n - 1) + [1]
  }

  /** How many jobs shard `s` has. */
  function Count(a: seq<nat>, s: nat): nat {
    Load(Ones(|a|), a, s)
  }

  lemma {:induction false} CountStep(a: seq<nat>, s: nat)
    requires a != []
    ensures Count(a, s) == Count(a[..|a| - 1], s) + if a[|a| - 1] == s then 1 else 0
  {
    assert Ones(|a|)[..|a| - 1] == Ones(|a| - 1);
  }

  lemma {:induction false} TotalOnes(n: nat)
    ensures Total(Ones(n)) == n
  {
    if n == 0 {
    } else {
      TotalOnes(n - 1);
      assert Ones(n)[..n - 1] == Ones(n - 1);
    }
  }

  lemma {:induction false} CountsConserve(a: seq<nat>, m: nat)
    requires forall i :: 0 <= i < |a| ==> a[i] < m
    ensures LoadsUpTo(Ones(|a|), a, m) == |a|
  {
    LoadsConserve(Ones(|a|), a, m);
    TotalOnes(|a|);
  }

  // ----- jobs on one shard

  lemma {:induction false} OneJob(ws: seq<nat>, a: seq<nat>, i: nat)
    requires |ws| == |a| && i < |a|
    ensures ws[i] <= Load(ws, a, a[i])
  {
    var n := |ws| - 1;
    if i == n {
    } else {
      OneJob(ws[..n], a[..n], i);
    }
  }

  lemma {:induction false} TwoJobs(ws: seq<nat>, a: seq<nat>, i: nat, j: nat)
    requires |ws| == |a| && i < j < |a| && a[i] == a[j]
    ensures ws[i] + ws[j] <= Load(ws, a, a[i])
  {
    var n := |ws| - 1;
    if j < n {
      TwoJobs(ws[..n], a[..n], i, j);
    } else {
      OneJob(ws[..n], a[..n], i);
    }
  }

  lemma {:induction false} EmptyShard(ws: seq<nat>, a: seq<nat>, s: nat)
    requires |ws| == |a| && Count(a, s) == 0
    ensures Load(ws, a, s) == 0
  {
    if a == [] {
    } else {
      CountStep(a, s);
      EmptyShard(ws[..|ws| - 1], a[..|a| - 1], s);
    }
  }

  /** The last job on a shard. */
  function JobOn(a: seq<nat>, s: nat): (i: nat)
    requires s in a
    ensures i < |a| && a[i] == s
  {
    var n := |a| - 1;
    if a[n] == s then n
    else
      assert a == a[..n] + [a[n]];
      JobOn(a[..n], s)
  }

  lemma {:induction false} CountedJob(a: seq<nat>, s: nat)
    requires Count(a, s) > 0
    ensures s in a
  {
    CountStep(a, s);
    if a[|a| - 1] == s {
    } else {
      CountedJob(a[..|a| - 1], s);
    }
  }

  /** A shard with a single job carries that job's weight. */
  lemma {:induction false} SoleJob(ws: seq<nat>, a: seq<nat>, s: nat)
    requires |ws| == |a| && Count(a, s) == 1 && s in a
    ensures Load(ws, a, s) == ws[JobOn(a, s)]
  {
    var n := |a| - 1;
    CountStep(a, s);
    if a[n] == s {
      EmptyShard(ws[..n], a[..n], s);
    } else {
      CountedJob(a[..n], s);
      SoleJob(ws[..n], a[..n], s);
    }
  }

  /** With two jobs on a shard, each has company. */
  lemma {:induction false} Company(a: seq<nat>, i: nat) returns (j: nat)
    requires i < |a| && Count(a, a[i]) >= 2
    ensures j < |a| && j != i && a[j] == a[i]
  {
    var n := |a| - 1;
    CountStep(a, a[i]);
    if i == n {
      CountedJob(a[..n], a[i]);
      j := JobOn(a[..n], a[i]);
    } else if a[n] == a[i] {
      j := n;
    } else {
      j := Company(a[..n], i);
    }
  }

  lemma {:induction false} ManyBigJobs(ws: seq<nat>, a: seq<nat>, s: nat, T: nat)
    requires |ws| == |a| && forall i :: 0 <= i < |ws| ==> 3 * ws[i] > T
    ensures Count(a, s) * (T + 1) <= 3 * Load(ws, a, s)
  {
    if a == [] {
    } else {
      var n := |a| - 1;
      CountStep(a, s);
      ManyBigJobs(ws[..n], a[..n], s, T);
      OneMore(Count(a[..n], s), T + 1);
    }
  }

  lemma {:induction false} OneMore(c: int, k: int)
    ensures (c + 1) * k == c * k + k
  {}

  // ----- counting shards

  ghost function Sparse(a: seq<nat>, k: nat): set<nat> {
    set s: nat | s < k && Count(a, s) <= 1
  }

  lemma {:induction false} SparseStep(a: seq<nat>, k: nat)
    requires k > 0
    ensures |Sparse(a, k)| == |Sparse(a, k - 1)| + if Count(a, k - 1) <= 1 then 1 else 0
  {
    if Count(a, k - 1) <= 1 {
      assert Sparse(a, k) == Sparse(a, k - 1) + {k - 1};
    } else {
      assert Sparse(a, k) == Sparse(a, k - 1);
    }
  }

  lemma {:induction false} CountsAtLeast(a: seq<nat>, k: nat)
    requires forall s: nat :: s < k ==> Count(a, s) >= 1
    ensures 2 * k <= LoadsUpTo(Ones(|a|), a, k) + |Sparse(a, k)|
  {
    if k == 0 {
    } else {
      CountsAtLeast(a, k - 1);
      SparseStep(a, k);
    }
  }

  lemma {:induction false} CountsAtMost(a: seq<nat>, k: nat)
    requires forall s: nat :: s < k ==> Count(a, s) <= 2
    ensures LoadsUpTo(Ones(|a|), a, k) + |Sparse(a, k)| <= 2 * k
  {
    if k > 0 {
      CountsAtMost(a, k - 1);
      SparseStep(a, k);
    } else {
      assert Sparse(a, 0) == {};
    }
  }

  lemma {:induction false} Injection(f: map<nat, nat>, target: set<nat>)
    requires forall x :: x in f ==> f[x] in target
    requires forall x, y :: x in f && y in f && x != y ==> f[x] != f[y]
    ensures |f.Keys| <= |target|
    decreases |f.Keys|
  {
    if f.Keys == {} {
    } else {
      var x :| x in f.Keys;
      var g := f - {x};
      assert g.Keys == f.Keys - {x};
      forall y | y in g ensures g[y] in target - {f[x]} {
        assert f[y] != f[x];
      }
      Injection(g, target - {f[x]});
    }
  }

  // ----- big jobs

  /** Two of the jobs, one of which overfills a shard together with the lightest, never share a shard. */
  lemma {:induction false} NeverTogether(ws: seq<nat>, b: seq<nat>, m: nat, T: nat, i: nat, j: nat)
    requires Schedule(ws, b, m, T) && Descending(ws) && i < |ws| && j < |ws| && i != j
    requires ws[i] + ws[|ws| - 1] > T
    ensures b[i] != b[j]
  {
    assert ws[|ws| - 1] <= ws[j];
    if b[i] == b[j] {
      if i < j {
        TwoJobs(ws, b, i, j);
      } else {
        TwoJobs(ws, b, j, i);
      }
    }
  }

  /** The shards holding one job before the last placement map to different sparse shards of `b`. */
  lemma {:induction false} SparseMapped(ws: seq<nat>, a: seq<nat>, b: seq<nat>, m: nat, T: nat)
    requires ws != [] && |a| == |ws| - 1 && Schedule(ws, b, m, T) && Descending(ws)
    requires forall s: nat :: s < m ==> Count(a, s) >= 1 && Load(ws[..|a|], a, s) + ws[|a|] > T
    ensures |Sparse(a, m)| <= |Sparse(b, m)|
  {
    forall s | s in Sparse(a, m) ensures s in a && ws[JobOn(a, s)] + ws[|a|] > T && b[JobOn(a, s)] in Sparse(b, m) {
      CountedJob(a, s);
      SoleJob(ws[..|a|], a, s);
      var i := JobOn(a, s);
      if Count(b, b[i]) >= 2 {
        var j := Company(b, i);
        NeverTogether(ws, b, m, T, i, j);
      }
    }
    var f := map s | s in Sparse(a, m) :: b[JobOn(a, s)];
    forall s, t | s in f && t in f && s != t ensures f[s] != f[t] {
      NeverTogether(ws, b, m, T, JobOn(a, s), JobOn(a, t));
    }
    Injection(f, Sparse(b, m));
    assert f.Keys == Sparse(a, m);
  }

  /** If all jobs exceed a third of T and they fit under T, the last one fits on some shard greedily. */
  lemma {:induction false} NotCrowded(ws: seq<nat>, a: seq<nat>, b: seq<nat>, m: nat, T: nat)
    requires ws != [] && |a| == |ws| - 1 && Schedule(ws, b, m, T) && Descending(ws)
    requires forall i :: 0 <= i < |a| ==> a[i] < m
    requires forall i :: 0 <= i < |ws| ==> 3 * ws[i] > T
    ensures exists s: nat :: s < m && Load(ws[..|a|], a, s) + ws[|a|] <= T
  {
    if forall s: nat :: s < m ==> Load(ws[..|a|], a, s) + ws[|a|] > T {
      AllOccupied(ws, a, b, m, T);
      AtMostTwo(ws, b, m, T);
      SparseMapped(ws, a, b, m, T);
      CountsConserve(a, m);
      CountsAtLeast(a, m);
      CountsConserve(b, m);
      CountsAtMost(b, m);
    }
  }

  lemma {:induction false} AllOccupied(ws: seq<nat>, a: seq<nat>, b: seq<nat>, m: nat, T: nat)
    requires ws != [] && |a| == |ws| - 1 && Schedule(ws, b, m, T)
    requires forall s: nat :: s < m ==> Load(ws[..|a|], a, s) + ws[|a|] > T
    ensures forall s: nat :: s < m ==> Count(a, s) >= 1
  {
    OneJob(ws, b, |a|);
    forall s: nat | s < m ensures Count(a, s) >= 1 {
      if Count(a, s) == 0 {
        EmptyShard(ws[..|a|], a, s);
      }
    }
  }

  lemma {:induction false} AtMostTwo(ws: seq<nat>, b: seq<nat>, m: nat, T: nat)
    requires Schedule(ws, b, m, T) && forall i :: 0 <= i < |ws| ==> 3 * ws[i] > T
    ensures forall s: nat :: s < m ==> Count(b, s) <= 2
  {
    forall s: nat | s < m ensures Count(b, s) <= 2 {
      ManyBigJobs(ws, b, s, T);
      if Count(b, s) >= 3 {
        ScaledLeq(3, Count(b, s), T + 1);
      }
    }
  }

  lemma {:induction false} ScheduleInit(ws: seq<nat>, b: seq<nat>, m: nat, T: nat, n: nat)
    requires Schedule(ws, b, m, T) && n <= |ws|
    ensures Schedule(ws[..n], b[..n], m, T)
    decreases |ws|
  {
    var last := |ws| - 1;
    if n <= last {
      forall s: nat | s < m ensures Load(ws[..last], b[..last], s) <= T {
        assert Load(ws, b, s) <= T;
      }
      ScheduleInit(ws[..last], b[..last], m, T, n);
      assert ws[..last][..n] == ws[..n] && b[..last][..n] == b[..n];
    } else {
      assert ws[..n] == ws && b[..n] == b;
    }
  }

  /** Jobs above a third of T that fit under T at all are kept under T by the greedy rule. */
  lemma {:induction false} BigJobsFit(ws: seq<nat>, b: seq<nat>, m: nat, T: nat, s: nat)
    requires 0 < m && s < m && Schedule(ws, b, m, T) && Descending(ws)
    requires forall i :: 0 <= i < |ws| ==> 3 * ws[i] > T
    ensures Load(ws, Greedy(ws, m), s) <= T
    decreases |ws|
  {
    if ws == [] {
    } else {
      var n := |ws| - 1;
      var a := Greedy(ws[..n], m);
      assert Greedy(ws, m)[..n] == a;
      if Greedy(ws, m)[n] == s {
        NotCrowded(ws, a, b, m, T);
        var t: nat :| t < m && Load(ws[..n], a, t) + ws[n] <= T;
        LeastLoadedIsLeast(ws[..n], a, m);
      } else {
        ScheduleInit(ws, b, m, T, n);
        BigJobsFit(ws[..n], b[..n], m, T, s);
      }
    }
  }

  lemma {:induction false} SmallLastJob(m: int, L: int, total: int, w: int, T: int)
    requires m >= 1 && m * L <= total + (m - 1) * w && total <= m * T && 3 * w <= T
    ensures 3 * (m * L) <= (4 * m - 1) * T
  {
    ScaledLeq(3 * w, T, m - 1);
    assert (m - 1) * (3 * w) == 3 * ((m - 1) * w);
    assert (4 * m - 1) * T == 3 * (m * T) + (m - 1) * T;
  }

  lemma {:induction false} Undershoot(m: int, L: int, T: int)
    requires m >= 1 && 0 <= L <= T
    ensures 3 * (m * L) <= (4 * m - 1) * T
  {
    ScaledLeq(L, T, m);
    ScaledLeq(0, T, m - 1);
    assert (4 * m - 1) * T == 3 * (m * T) + (m - 1) * T;
  }

  /** The load of a shard, seen at the last job it received. */
  lemma {:induction false} LoadAtLastJob(ws: seq<nat>, m: nat, s: nat, j: nat)
    requires 0 < m && s < m && j < |ws|
    requires s == LeastLoaded(ws[..j], Greedy(ws[..j], m), m)
    ensures Load(ws[..j + 1], Greedy(ws[..j + 1], m), s) == Load(ws[..j], Greedy(ws[..j], m), s) + ws[j]
  {
    var now := ws[..j + 1];
    assert now[..j] == ws[..j];
    assert Greedy(now, m)[..j] == Greedy(ws[..j], m);
  }

  /**
    Graham's bound: if any assignment at all keeps every shard at or below T, the greedy one keeps
    every shard at or below (4/3 - 1/(3m)) T.
   */
  lemma {:induction false} Graham(ws: seq<nat>, b: seq<nat>, m: nat, T: nat, s: nat)
    requires 0 < m && s < m && Descending(ws) && Schedule(ws, b, m, T)
    ensures 3 * (m * Load(ws, Greedy(ws, m), s)) <= (4 * m - 1) * T
  {
    var L := Load(ws, Greedy(ws, m), s);
    if L == 0 {
      Undershoot(m, L, T);
    } else {
      var j := PlacementBound(ws, m, s);
      if 3 * ws[j] <= T {
        LoadsConserve(ws, b, m);
        LoadsAtMost(ws, b, m, T);
        SmallLastJob(m, L, Total(ws), ws[j], T);
      } else {
        var now := ws[..j + 1];
        assert forall i :: 0 <= i < |now| ==> now[i] >= ws[j];
        ScheduleInit(ws, b, m, T, j + 1);
        BigJobsFit(now, b[..j + 1], m, T, s);
        LoadAtLastJob(ws, m, s, j);
        Undershoot(m, L, T);
      }
    }
  }

  /** The bound for the balancer as it runs, against every other way to distribute the packages. */
  lemma {:induction false} BalanceNearOptimal(packages: seq<Package>, m: nat, b: seq<nat>, T: nat, s: nat)
    requires 0 < m && s < m && Schedule(Weights(Ordered(packages)), b, m, T)
    ensures var ws := Weights(Ordered(packages));
            3 * (m * Load(ws, Greedy(ws, m), s)) <= (4 * m - 1) * T
  {
    var ps := Ordered(packages);
    EarlierOrder();
    Orders.SortSorted(Earlier, packages);
    forall i, j | 0 <= i < j < |ps| ensures Weights(ps)[j] <= Weights(ps)[i] {
      assert Earlier(ps[i], ps[j]);
    }
    Graham(Weights(ps), b, m, T, s);
  }
}
