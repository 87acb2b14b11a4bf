/**
  The telemetry phase taxonomy: each phase has a role and, for span roles, a parent. The validator
  walks parent chains; the map's iteration order is arbitrary and therefore a parameter.
 */
module Taxonomy {
  import Orders
  import KeySets

  const EXCLUSIVE := "exclusive"
  const SPAN_PARENT := "span_parent"
  const SPAN_CHILD := "span_child"

  datatype Taxon = Taxon(role: string, parent: string)
  datatype Event = Event(key: string, phase: string, timingMode: string)

  type Taxa = map<string, Taxon>

  /** The parent field; a missing entry reads as the empty string. */
  function ParentOf(tax: Taxa, phase: string): string {
    if phase in tax then tax[phase].parent else ""
  }

  /** The phase `n` levels above. */
  function Ancestor(tax: Taxa, phase: string, n: nat): string {
    if n == 0 then phase else ParentOf(tax, Ancestor(tax, phase, n - 1))
  }

  // ----- sets of names

  predicate SameStringSet(got: seq<string>, want: seq<string>) {
    |got| == |want| && forall i :: 0 <= i < |want| ==> want[i] in got
  }

  lemma {:induction false} DistinctCardinality<T>(s: seq<T>)
    requires Orders.Distinct(s)
    ensures |(set x | x in s)| == |s|
  {
    if s == [] {
    } else {
      var n := |s| - 1;
      DistinctCardinality(s[..n]);
      assert s == s[..n] + [s[n]];
      assert (set x | x in s) == (set x | x in s[..n]) + {s[n]};
      assert s[n] !in s[..n];
    }
  }

  lemma {:induction false} SubsetCardinality<T>(a: set<T>, b: set<T>)
    requires a <= b
    ensures |a| <= |b|
    ensures |a| == |b| ==> a == b
  {
    assert b == a + (b - a);
    assert |b| == |a| + |b - a|;
  }

  /** More places than values: some value is repeated. */
  lemma {:induction false} Pigeonhole<T>(s: seq<T>, values: set<T>)
    requires (forall i :: 0 <= i < |s| ==> s[i] in values) && |values| < |s|
    ensures exists i, j :: 0 <= i < j < |s| && s[i] == s[j]
  {
    if Orders.Distinct(s) {
      DistinctCardinality(s);
      SubsetCardinality((set x | x in s), values);
    }
  }

  lemma {:induction false} DistinctMultiset<T>(s: seq<T>)
    requires Orders.Distinct(s)
    ensures multiset(s) == multiset(set x | x in s)
  {
    if s == [] {
    } else {
      var n := |s| - 1;
      DistinctMultiset(s[..n]);
      assert s == s[..n] + [s[n]];
      assert (set x | x in s) == (set x | x in s[..n]) + {s[n]};
      assert s[n] !in s[..n];
    }
  }

  /** Against a list without duplicates, the length-and-membership test means permutation. */
  lemma {:induction false} SameSetIsPermutation(got: seq<string>, want: seq<string>)
    requires Orders.Distinct(want)
    ensures SameStringSet(got, want) <==> multiset(got) == multiset(want)
  {
    if SameStringSet(got, want) {
      var g, w := set x | x in got, set x | x in want;
      DistinctCardinality(want);
      ListCardinality(got);
      SubsetCardinality(w, g);
      DistinctMultiset(want);
      DistinctMultiset(got);
    }
    if multiset(got) == multiset(want) {
      Orders.MembersOfPermutation(got, want);
      assert |got| == |multiset(got)| == |multiset(want)| == |want|;
    }
  }

  /** A list has at most as many values as places; if equally many, none repeats. */
  lemma {:induction false} ListCardinality<T>(s: seq<T>)
    ensures |(set x | x in s)| <= |s|
    ensures |(set x | x in s)| == |s| ==> Orders.Distinct(s)
  {
    if s == [] {
    } else {
      var n := |s| - 1;
      ListCardinality(s[..n]);
      assert s == s[..n] + [s[n]];
      var init := set x | x in s[..n];
      assert (set x | x in s) == init + {s[n]};
      if s[n] in init {
        assert init + {s[n]} == init;
      }
    }
  }

  /** With duplicates it does not: two names are accepted against one name listed twice. */
  lemma {:induction false} SameSetMissesDuplicates()
    ensures SameStringSet(["a", "b"], ["a", "a"])
  {
    assert ["a", "a"][0] == "a" && ["a", "a"][1] == "a";
  }

  // ----- the parent walk

  datatype Walk = Rooted | Cycle | Endless

  /** No cursor of the first `n` is a root marker or the phase itself. */
  ghost predicate Quiet(tax: Taxa, phase: string, n: nat) {
    forall i :: 1 <= i <= n ==> Ancestor(tax, phase, i) != "" && Ancestor(tax, phase, i) != phase
  }

  ghost predicate EndsAtRoot(tax: Taxa, phase: string) {
    exists n: nat :: Quiet(tax, phase, n) && Ancestor(tax, phase, n + 1) == ""
  }

  ghost predicate EndsInCycle(tax: Taxa, phase: string) {
    exists n: nat :: Quiet(tax, phase, n) && Ancestor(tax, phase, n + 1) == phase && phase != ""
  }

  /** The guard never fires: the chain runs into a cycle that does not contain the phase. */
  ghost predicate NeverEnds(tax: Taxa, phase: string) {
    forall n: nat :: Quiet(tax, phase, n)
  }

  function Chain(tax: Taxa, phase: string, n: nat): (c: seq<string>)
    ensures |c| == n && forall i :: 0 <= i < n ==> c[i] == Ancestor(tax, phase, i)
  {
    seq(n, i requires 0 <= i < n => Ancestor(tax, phase, i))
  }

  /** A walk that is still undecided after as many steps as there are phases never ends. */
  lemma {:induction false} UndecidedIsEndless(tax: Taxa, phase: string)
    requires phase in tax && Quiet(tax, phase, |tax| + 1)
    ensures NeverEnds(tax, phase)
  {
    var m := |tax| + 1;
    var c := Chain(tax, phase, m);
    forall i | 0 <= i < m ensures c[i] in tax.Keys {
      if i > 0 {
        assert Ancestor(tax, phase, i + 1) != "";
      }
    }
    Pigeonhole(c, tax.Keys);
    var i, j :| 0 <= i < j < m && c[i] == c[j];
    forall n: nat ensures Quiet(tax, phase, n) {
      forall k | 1 <= k <= n ensures Ancestor(tax, phase, k) != "" && Ancestor(tax, phase, k) != phase {
        NeverBack(tax, phase, i, j, k);
      }
    }
  }

  /** Inside a repeating chain whose start is not on the repeated part, the start never returns. */
  lemma {:induction false} NeverBack(tax: Taxa, phase: string, i: nat, j: nat, k: nat)
    requires i < j && Ancestor(tax, phase, i) == Ancestor(tax, phase, j) && Quiet(tax, phase, j)
    requires k >= 1
    ensures Ancestor(tax, phase, k) != "" && Ancestor(tax, phase, k) != phase
  {
    assert i > 0;
    if k <= j {
    } else {
      NeverBack(tax, phase, i, j, k - (j - i));
      Shift(tax, phase, i, j, k);
    }
  }

  lemma {:induction false} Shift(tax: Taxa, phase: string, i: nat, j: nat, k: nat)
    requires i < j <= k && Ancestor(tax, phase, i) == Ancestor(tax, phase, j)
    ensures Ancestor(tax, phase, k) == Ancestor(tax, phase, k - (j - i))
  {
    if k <= j {
    } else {
      Shift(tax, phase, i, j, k - 1);
    }
  }

  /** The cycle guard of one phase; the walk of the source decides within |tax| + 1 steps or never. */
  method WalkParents(tax: Taxa, phase: string) returns (r: Walk)
    requires phase in tax
    ensures r.Rooted? <==> EndsAtRoot(tax, phase)
    ensures r.Cycle? <==> EndsInCycle(tax, phase)
    ensures r.Endless? <==> NeverEnds(tax, phase)
  {
    var cursor := tax[phase].parent;
    assert cursor == Ancestor(tax, phase, 1);
    for n := 0 to |tax| + 1
      invariant Quiet(tax, phase, n) && cursor == Ancestor(tax, phase, n + 1)
    {
      if cursor == "" {
        Decided(tax, phase, n);
        return Rooted;
      }
      if cursor == phase {
        Decided(tax, phase, n);
        return Cycle;
      }
      cursor := ParentOf(tax, cursor);
    }
    UndecidedIsEndless(tax, phase);
    NeverDecided(tax, phase);
    return Endless;
  }

  lemma {:induction false} NeverDecided(tax: Taxa, phase: string)
    requires NeverEnds(tax, phase)
    ensures !EndsAtRoot(tax, phase) && !EndsInCycle(tax, phase)
  {
    forall n: nat ensures !Decides(tax, phase, n) {
      assert Quiet(tax, phase, n + 1);
    }
    assert forall n: nat :: Quiet(tax, phase, n) ==> !Decides(tax, phase, n);
  }

  ghost predicate Decides(tax: Taxa, phase: string, n: nat) {
    Ancestor(tax, phase, n + 1) == "" || Ancestor(tax, phase, n + 1) == phase
  }

  lemma {:induction false} QuietBefore(tax: Taxa, phase: string, n: nat, k: nat)
    ensures Quiet(tax, phase, n) && Decides(tax, phase, k) ==> n <= k
  {
    if Quiet(tax, phase, n) && k < n {
      assert Ancestor(tax, phase, k + 1) != "" && Ancestor(tax, phase, k + 1) != phase;
    }
  }

  /** The first deciding cursor settles all three questions. */
  lemma {:induction false} Decided(tax: Taxa, phase: string, n: nat)
    requires Quiet(tax, phase, n) && Decides(tax, phase, n)
    ensures EndsAtRoot(tax, phase) <==> Ancestor(tax, phase, n + 1) == ""
    ensures EndsInCycle(tax, phase) <==> Ancestor(tax, phase, n + 1) == phase && phase != ""
    ensures !NeverEnds(tax, phase)
  {
    assert !Quiet(tax, phase, n + 1);
    forall k: nat | Quiet(tax, phase, k) && Decides(tax, phase, k) ensures k == n {
      QuietBefore(tax, phase, n, k);
      QuietBefore(tax, phase, k, n);
    }
  }

  // ----- the shape behind the walk

  /** `n` levels above `p`, with no root marker on the way. */
  ghost predicate Above(tax: Taxa, p: string, n: nat) {
    forall k :: 1 <= k <= n ==> Ancestor(tax, p, k) != ""
  }

  /** No phase is above itself. */
  ghost predicate Acyclic(tax: Taxa) {
    forall q, n: nat :: q in tax && n > 0 && Above(tax, q, n) ==> Ancestor(tax, q, n) != q
  }

  lemma {:induction false} AncestorOfAncestor(tax: Taxa, p: string, i: nat, m: nat)
    ensures Ancestor(tax, Ancestor(tax, p, i), m) == Ancestor(tax, p, i + m)
  {
    if m == 0 {
    } else {
      AncestorOfAncestor(tax, p, i, m - 1);
    }
  }

  /** A chain without root marker longer than the taxonomy comes back to a phase. */
  lemma {:induction false} LongChainCycles(tax: Taxa, p: string)
    requires p in tax && Above(tax, p, |tax| + 1)
    ensures !Acyclic(tax)
  {
    var m := |tax| + 1;
    var c := Chain(tax, p, m);
    forall i | 0 <= i < m ensures c[i] in tax.Keys {
      assert Ancestor(tax, p, i + 1) != "";
    }
    Pigeonhole(c, tax.Keys);
    var i, j :| 0 <= i < j < m && c[i] == c[j];
    var q := c[i];
    AncestorOfAncestor(tax, p, i, j - i);
    forall k | 1 <= k <= j - i ensures Ancestor(tax, q, k) != "" {
      AncestorOfAncestor(tax, p, i, k);
    }
    assert q in tax && Above(tax, q, j - i);
  }

  lemma {:induction false} FirstMarker(tax: Taxa, p: string, m: nat) returns (n: nat)
    requires !Above(tax, p, m)
    ensures n < m && Above(tax, p, n) && Ancestor(tax, p, n + 1) == ""
  {
    assert m > 0;
    if Above(tax, p, m - 1) {
      n := m - 1;
    } else {
      n := FirstMarker(tax, p, m - 1);
    }
  }

  /** In an acyclic taxonomy every parent walk ends at a root within as many steps as there are phases. */
  lemma {:induction false} AcyclicWalkEnds(tax: Taxa, p: string) returns (n: nat)
    requires Acyclic(tax) && p in tax
    ensures n <= |tax| && Quiet(tax, p, n) && Ancestor(tax, p, n + 1) == ""
  {
    if Above(tax, p, |tax| + 1) {
      LongChainCycles(tax, p);
    }
    n := FirstMarker(tax, p, |tax| + 1);
    forall i | 1 <= i <= n ensures Ancestor(tax, p, i) != "" && Ancestor(tax, p, i) != p {
      assert Above(tax, p, i);
    }
  }

  lemma {:induction false} CycleFound(tax: Taxa, q: string, n: nat)
    requires n > 0 && Above(tax, q, n) && Ancestor(tax, q, n) == q
    ensures EndsInCycle(tax, q)
  {
    if Quiet(tax, q, n - 1) {
      assert Ancestor(tax, q, n - 1 + 1) == q && q != "";
    } else {
      var k :| 1 <= k <= n - 1 && (Ancestor(tax, q, k) == "" || Ancestor(tax, q, k) == q);
      CycleFound(tax, q, k);
    }
  }

  /** The walks of all phases end at roots exactly when the taxonomy is acyclic. */
  lemma {:induction false} WalksEndExactly(tax: Taxa)
    ensures Acyclic(tax) <==> forall p :: p in tax ==> EndsAtRoot(tax, p)
  {
    if Acyclic(tax) {
      forall p | p in tax ensures EndsAtRoot(tax, p) {
        var n := AcyclicWalkEnds(tax, p);
      }
    }
    if forall p :: p in tax ==> EndsAtRoot(tax, p) {
      forall q, n: nat | q in tax && n > 0 && Above(tax, q, n) ensures Ancestor(tax, q, n) != q {
        if Ancestor(tax, q, n) == q {
          CycleFound(tax, q, n);
          Exclusively(tax, q);
        }
      }
    }
  }

  /** The chain enters a cycle that does not contain the phase. */
  ghost predicate EntersCycle(tax: Taxa, p: string, i: nat, j: nat) {
    0 < i < j <= |tax| && Ancestor(tax, p, i) == Ancestor(tax, p, j) && Quiet(tax, p, j)
  }

  /** The walk never ends exactly when the chain repeats within |tax| steps without returning to its start. */
  lemma {:induction false} NeverEndsExactly(tax: Taxa, p: string)
    requires p in tax
    ensures NeverEnds(tax, p) <==> exists i: nat, j: nat :: EntersCycle(tax, p, i, j)
  {
    if NeverEnds(tax, p) {
      RepeatsAbove(tax, p);
    }
    if i: nat, j: nat :| EntersCycle(tax, p, i, j) {
      forall n: nat ensures Quiet(tax, p, n) {
        forall k | 1 <= k <= n ensures Ancestor(tax, p, k) != "" && Ancestor(tax, p, k) != p {
          NeverBack(tax, p, i, j, k);
        }
      }
    }
  }

  lemma {:induction false} RepeatsAbove(tax: Taxa, p: string)
    requires p in tax && NeverEnds(tax, p)
    ensures exists i: nat, j: nat :: EntersCycle(tax, p, i, j)
  {
    var m := |tax|;
    var c := seq(m, k requires 0 <= k < m => Ancestor(tax, p, k + 1));
    assert Quiet(tax, p, m + 1);
    forall k | 0 <= k < m ensures c[k] in tax.Keys - {p} {
      assert Ancestor(tax, p, k + 1 + 1) != "" && Ancestor(tax, p, k + 1) != p;
    }
    Pigeonhole(c, tax.Keys - {p});
    var i, j :| 0 <= i < j < m && c[i] == c[j];
    assert Quiet(tax, p, j + 1);
    assert EntersCycle(tax, p, i + 1, j + 1);
  }

  // ----- an accepted taxonomy

  predicate RoleOk(tax: Taxa, phases: set<string>, phase: string)
    requires phase in tax
  {
    var t := tax[phase];
    if t.role == EXCLUSIVE then t.parent == ""
    else (t.role == SPAN_PARENT || t.role == SPAN_CHILD) && t.parent != "" && t.parent != phase && t.parent in phases
  }

  predicate EventOk(tax: Taxa, e: Event) {
    e.timingMode != EXCLUSIVE || e.phase == "" || (e.phase in tax && tax[e.phase].role == EXCLUSIVE)
  }

  ghost function Keys(tax: Taxa): seq<string> {
    KeySets.SortedKeys(tax.Keys)
  }

  ghost predicate Accepted(tax: Taxa, phases: seq<string>, events: seq<Event>) {
    && tax != map[]
    && SameStringSet(Keys(tax), phases)
    && (forall p :: p in tax ==> RoleOk(tax, (set x | x in phases), p) && EndsAtRoot(tax, p))
    && (forall e :: e in events ==> EventOk(tax, e))
  }

  /** A top-level phase has no parent, a span another listed phase. */
  ghost predicate Placed(p: string, taxon: Taxon, phases: seq<string>) {
    || (taxon.role == "exclusive" && taxon.parent == "")
    || (taxon.role in ["span_parent", "span_child"] && taxon.parent in phases && taxon.parent !in ["", p])
  }

  ghost predicate EventPlaced(tax: Taxa, e: Event) {
    e.timingMode == "exclusive" && e.phase != "" ==> e.phase in tax && tax[e.phase].role == "exclusive"
  }

  lemma {:induction false} RoleExactly(tax: Taxa, phases: seq<string>, p: string)
    requires p in tax
    ensures RoleOk(tax, (set x | x in phases), p) <==> Placed(p, tax[p], phases)
  {
    var roles := ["span_parent", "span_child"];
    assert roles[0] == "span_parent" && roles[1] == "span_child";
    var barred := ["", p];
    assert barred[0] == "" && barred[1] == p;
  }

  lemma {:induction false} KeysCounted(tax: Taxa)
    ensures |Keys(tax)| == |tax| && forall p :: p in Keys(tax) <==> p in tax
  {
    KeySets.SortedKeysOrder(tax.Keys);
    DistinctCardinality(Keys(tax));
    assert (set x | x in Keys(tax)) == tax.Keys;
  }

  /**
    Acceptance on the taxonomy itself: as many phases as listed and each of them present, every phase
    placed, no phase above itself, and exclusive events in exclusive phases.
   */
  lemma {:induction false} AcceptedExactly(tax: Taxa, phases: seq<string>, events: seq<Event>)
    ensures Accepted(tax, phases, events) <==>
            && 0 < |tax| == |phases| && (forall i :: 0 <= i < |phases| ==> phases[i] in tax)
            && (forall p :: p in tax ==> Placed(p, tax[p], phases)) && Acyclic(tax)
            && (forall i :: 0 <= i < |events| ==> EventPlaced(tax, events[i]))
  {
    KeysCounted(tax);
    WalksEndExactly(tax);
    forall p | p in tax ensures RoleOk(tax, (set x | x in phases), p) <==> Placed(p, tax[p], phases) {
      RoleExactly(tax, phases, p);
    }
    assert forall e :: EventOk(tax, e) <==> EventPlaced(tax, e);
    assert (forall e :: e in events ==> EventOk(tax, e)) <==>
           forall i :: 0 <= i < |events| ==> EventPlaced(tax, events[i]);
  }

  /** An accepted taxonomy has exactly the listed phases. */
  lemma {:induction false} AcceptedPhases(tax: Taxa, phases: seq<string>, events: seq<Event>)
    requires Accepted(tax, phases, events) && Orders.Distinct(phases)
    ensures tax.Keys == (set x | x in phases)
  {
    SameSetIsPermutation(Keys(tax), phases);
    Orders.MembersOfPermutation(Keys(tax), phases);
  }

  /**
    An accepted taxonomy over distinct phases is a forest: the roots are exactly the exclusive phases,
    every chain reaches a root in fewer steps than there are phases, no phase is above itself, and
    exclusive events name roots.
   */
  lemma {:induction false} AcceptedIsForest(tax: Taxa, phases: seq<string>, events: seq<Event>, p: string)
    requires Accepted(tax, phases, events) && Orders.Distinct(phases) && p in tax
    ensures tax[p].parent == "" <==> tax[p].role == EXCLUSIVE
    ensures exists n: nat :: n < |tax| && Above(tax, p, n) && Ancestor(tax, p, n) in tax &&
                             tax[Ancestor(tax, p, n)].role == EXCLUSIVE
    ensures Acyclic(tax)
    ensures forall e :: e in events && e.timingMode == EXCLUSIVE && e.phase != "" ==>
              e.phase in tax && tax[e.phase].parent == ""
  {
    WalksEndExactly(tax);
    forall e | e in events && e.timingMode == EXCLUSIVE && e.phase != ""
      ensures e.phase in tax && tax[e.phase].parent == ""
    {
      assert EventOk(tax, e) && RoleOk(tax, (set x | x in phases), e.phase);
    }
    assert RoleOk(tax, (set x | x in phases), p) && EndsAtRoot(tax, p);
    var n: nat :| Quiet(tax, p, n) && Ancestor(tax, p, n + 1) == "";
    RootReached(tax, phases, events, p, n);
    ShortChain(tax, p, n);
    assert Above(tax, p, n);
  }

  lemma {:induction false} RootReached(tax: Taxa, phases: seq<string>, events: seq<Event>, p: string, n: nat)
    requires Accepted(tax, phases, events) && Orders.Distinct(phases) && p in tax
    requires Quiet(tax, p, n) && Ancestor(tax, p, n + 1) == ""
    ensures Ancestor(tax, p, n) in tax && tax[Ancestor(tax, p, n)].role == EXCLUSIVE
  {
    var q := Ancestor(tax, p, n);
    if n > 0 {
      assert q != "";
      var below := Ancestor(tax, p, n - 1);
      assert below in tax;
      assert RoleOk(tax, (set x | x in phases), below);
      AcceptedPhases(tax, phases, events);
    }
    assert RoleOk(tax, (set x | x in phases), q);
  }

  /** A chain that ends visits no phase twice. */
  lemma {:induction false} ShortChain(tax: Taxa, p: string, n: nat)
    requires p in tax && Quiet(tax, p, n) && Ancestor(tax, p, n + 1) == "" && Ancestor(tax, p, n) in tax
    ensures n < |tax|
  {
    if n >= |tax| {
      var c := Chain(tax, p, n + 1);
      forall i | 0 <= i < n + 1 ensures c[i] in tax.Keys {
        assert i == n || i == 0 || Ancestor(tax, p, i + 1) != "";
      }
      Pigeonhole(c, tax.Keys);
      var i, j :| 0 <= i < j < n + 1 && c[i] == c[j];
      assert Ancestor(tax, p, n + 1 - (j - i)) != "";
      Shift(tax, p, i, j, n + 1);
    }
  }

  // ----- the validator

  datatype Outcome = Pass | Reject | Hang

  /** The whole check; `order` is the order in which the taxonomy map is iterated. */
  method ValidatePhaseTaxonomy(
    tax: Taxa, phases: seq<string>, events: seq<Event>, order: seq<string>)
    returns (r: Outcome)
    requires forall p :: p in order <==> p in tax
    ensures r.Pass? <==> Accepted(tax, phases, events)
    ensures r.Hang? <==>
            tax != map[] && SameStringSet(Keys(tax), phases) && Stuck(tax, (set x | x in phases), order)
  {
    if |tax| == 0 {
      return Reject;
    }
    var keys := KeySets.CollectSorted(tax.Keys);
    if !SameStringSet(keys, phases) {
      return Reject;
    }
    r := CheckPhases(tax, phases, order);
    if !r.Pass? {
      return;
    }
    var ok := CheckEvents(tax, events);
    if !ok {
      return Reject;
    }
  }

  method CheckEvents(tax: Taxa, events: seq<Event>) returns (ok: bool)
    ensures ok <==> forall e :: e in events ==> EventOk(tax, e)
  {
    for i := 0 to |events|
      invariant forall j :: 0 <= j < i ==> EventOk(tax, events[j])
    {
      if !EventOk(tax, events[i]) {
        return false;
      }
    }
    return true;
  }

  ghost predicate SoundRoot(tax: Taxa, phases: set<string>, p: string) {
    p in tax && RoleOk(tax, phases, p) && EndsAtRoot(tax, p)
  }

  /** The walk above the `i`-th phase iterated is started and never ends; earlier phases pass. */
  ghost predicate StuckAt(tax: Taxa, phases: set<string>, order: seq<string>, i: nat) {
    && i < |order| && order[i] in tax
    && RoleOk(tax, phases, order[i]) && tax[order[i]].role != EXCLUSIVE && NeverEnds(tax, order[i])
    && forall j :: 0 <= j < i ==> SoundRoot(tax, phases, order[j])
  }

  ghost predicate Stuck(tax: Taxa, phases: set<string>, order: seq<string>) {
    exists i: nat :: StuckAt(tax, phases, order, i)
  }

  method CheckPhases(tax: Taxa, phases: seq<string>, order: seq<string>) returns (r: Outcome)
    requires forall p :: p in order <==> p in tax
    ensures r.Pass? <==> forall p :: p in tax ==> RoleOk(tax, (set x | x in phases), p) && EndsAtRoot(tax, p)
    ensures r.Hang? <==> Stuck(tax, (set x | x in phases), order)
  {
    var phaseSet := set x | x in phases;
    for i := 0 to |order|
      invariant forall j :: 0 <= j < i ==> SoundRoot(tax, phaseSet, order[j])
    {
      var phase := order[i];
      assert phase in order;
      OnlyStuck(tax, phaseSet, order, i);
      if !RoleOk(tax, phaseSet, phase) {
        return Reject;
      }
      if tax[phase].role == EXCLUSIVE {
        assert Quiet(tax, phase, 0) && Ancestor(tax, phase, 1) == "";
      } else {
        var walk := WalkParents(tax, phase);
        if walk.Cycle? {
          Exclusively(tax, phase);
          return Reject;
        }
        if walk.Endless? {
          NeverDecided(tax, phase);
          assert StuckAt(tax, phaseSet, order, i);
          return Hang;
        }
      }
    }
    NotStuck(tax, phaseSet, order);
    return Pass;
  }

  /**
    While all earlier phases pass, the loop can be stuck at the current phase or later, and later only
    if it passes.
   */
  lemma {:induction false} OnlyStuck(tax: Taxa, phases: set<string>, order: seq<string>, i: nat)
    requires i < |order| && forall j :: 0 <= j < i ==> SoundRoot(tax, phases, order[j])
    ensures Stuck(tax, phases, order) ==> StuckAt(tax, phases, order, i) || SoundRoot(tax, phases, order[i])
  {
    if Stuck(tax, phases, order) {
      var k: nat :| StuckAt(tax, phases, order, k);
      NeverDecided(tax, order[k]);
    }
  }

  lemma {:induction false} NotStuck(tax: Taxa, phases: set<string>, order: seq<string>)
    requires forall j :: 0 <= j < |order| ==> SoundRoot(tax, phases, order[j])
    ensures !Stuck(tax, phases, order)
  {
    if Stuck(tax, phases, order) {
      var k: nat :| StuckAt(tax, phases, order, k);
      NeverDecided(tax, order[k]);
    }
  }

  lemma {:induction false} Exclusively(tax: Taxa, phase: string)
    requires EndsInCycle(tax, phase)
    ensures !EndsAtRoot(tax, phase) && !NeverEnds(tax, phase)
  {
    var n: nat :| Quiet(tax, phase, n) && Ancestor(tax, phase, n + 1) == phase && phase != "";
    Decided(tax, phase, n);
  }

  /** The guard can run forever: a phase above which two others are each other's parent, iterated first. */
  lemma {:induction false} GuardCanHang()
    ensures var tax := map["a" := Taxon(SPAN_CHILD, "b"), "b" := Taxon(SPAN_CHILD, "c"), "c" := Taxon(SPAN_CHILD, "b")];
            var order := ["a", "b", "c"];
            NeverEnds(tax, "a") && SameStringSet(Keys(tax), order) && Stuck(tax, (set x | x in order), order)
  {
    var tax := map["a" := Taxon(SPAN_CHILD, "b"), "b" := Taxon(SPAN_CHILD, "c"), "c" := Taxon(SPAN_CHILD, "b")];
    forall n: nat ensures Quiet(tax, "a", n) {
      forall i | 1 <= i <= n ensures Ancestor(tax, "a", i) != "" && Ancestor(tax, "a", i) != "a" {
        Swing(tax, i);
      }
    }
    var order := ["a", "b", "c"];
    ExampleKeys(tax, order);
    assert order[0] == "a" && order[1] == "b";
    assert StuckAt(tax, (set x | x in order), order, 0);
  }

  lemma {:induction false} ExampleKeys(tax: Taxa, order: seq<string>)
    requires tax.Keys == {"a", "b", "c"} && order == ["a", "b", "c"]
    ensures SameStringSet(Keys(tax), order)
  {
    var keys := Keys(tax);
    KeySets.SortedKeysOrder(tax.Keys);
    DistinctCardinality(keys);
    assert (set x | x in keys) == tax.Keys;
    assert |tax.Keys| == 3;
  }

  lemma {:induction false} Swing(tax: Taxa, i: nat)
    requires "a" in tax && "b" in tax && "c" in tax && tax["a"].parent == "b" && tax["b"].parent == "c" &&
        tax["c"].parent == "b"
    requires i >= 1
    ensures Ancestor(tax, "a", i) == "b" || Ancestor(tax, "a", i) == "c"
  {
    if i > 1 {
      Swing(tax, i - 1);
    } else {
      assert Ancestor(tax, "a", 0) == "a";
    }
  }
}
