/** The sorted set of executor capabilities a worker advertises, looked up by binary search. */
module ExecutorRegistry {
  import opened Optional
  import Decimal
  import Orders
  import Text

  datatype Capability = Capability(
    id: string, version: int, resourceClass: string, temporalMode: string,
    deterministic: bool, cacheable: bool, supportsAlpha: bool, outputTypes: seq<string>)

  type Pair = (string, int)

  function Identity(c: Capability): Pair {
    (c.id, c.version)
  }

  function Printed(n: int): string {
    if n < 0 then "-" + Decimal.Digits(-n) else Decimal.Digits(n)
  }

  /** The identity as one string. */
  function Key(c: Capability): string {
    c.id + "@" + Printed(c.version)
  }

  predicate Valid(c: Capability) {
    !Text.Blank(c.id) && '@' !in c.id && c.version > 0
  }

  function Cleaned(c: Capability): Capability {
    c.(id := Text.Trim(c.id))
  }

  predicate PairLeq(a: Pair, b: Pair) {
    if a.0 != b.0 then Orders.LexLess(a.0, b.0) else a.1 <= b.1
  }

  predicate Leq(a: Capability, b: Capability) {
    PairLeq(Identity(a), Identity(b))
  }

  predicate Apart(a: Capability, b: Capability) {
    Identity(a) != Identity(b)
  }

  // ----- keys identify

  lemma {:induction false} PrintedInjective(m: int, n: int)
    ensures Printed(m) == Printed(n) <==> m == n
    ensures '@' !in Printed(m)
  {
    var p, q := if m < 0 then -m else m, if n < 0 then -n else n;
    Decimal.DigitsAreDigits(p);
    Decimal.DigitsAreDigits(q);
    Decimal.ValueOfDigits(p);
    Decimal.ValueOfDigits(q);
    assert Decimal.Digits(p)[0] in Decimal.Digits(p) && Decimal.Digits(q)[0] in Decimal.Digits(q);
    assert m < 0 ==> Printed(m)[1..] == Decimal.Digits(p) && Printed(m)[0] == '-';
    assert n < 0 ==> Printed(n)[1..] == Decimal.Digits(q) && Printed(n)[0] == '-';
  }

  /** Key strings collide only for equal identities, even for ids that contain the separator. */
  lemma {:induction false} KeysIdentify(a: Capability, b: Capability)
    ensures Key(a) == Key(b) <==> Identity(a) == Identity(b)
  {
    var d, e := Printed(a.version), Printed(b.version);
    PrintedInjective(a.version, b.version);
    PrintedInjective(b.version, a.version);
    if Key(a) == Key(b) {
      SameSeparator(a.id, d, b.id, e);
      SameSeparator(b.id, e, a.id, d);
      assert Key(a)[..|a.id|] == a.id && Key(b)[..|b.id|] == b.id;
      assert Key(a)[|a.id| + 1..] == d && Key(b)[|b.id| + 1..] == e;
    }
  }

  lemma {:induction false} SameSeparator(s: string, d: string, t: string, e: string)
    requires s + "@" + d == t + "@" + e && '@' !in d && '@' !in e
    ensures |s| >= |t|
  {
    assert (t + "@" + e)[|t|] == '@';
  }

  /** How a version is spelled: in decimal, with its sign. */
  lemma {:induction false} VersionSpelled(n: int)
    ensures n >= 0 ==> Decimal.Value(Printed(n)) == n
    ensures n >= 0 ==> forall k :: 0 <= k < |Printed(n)| ==> '0' <= Printed(n)[k] <= '9'
    ensures n < 0 ==> Printed(n) != "" && Printed(n)[0] == '-' && Decimal.Value(Printed(n)[1..]) == -n
  {
    if n < 0 {
      Decimal.ValueOfDigits(-n);
      assert Printed(n)[1..] == Decimal.Digits(-n);
    } else {
      Decimal.ValueOfDigits(n);
      Decimal.DigitsAreDigits(n);
      assert forall k :: 0 <= k < |Printed(n)| ==> Printed(n)[k] in Decimal.Digits(n);
    }
  }

  /** How a key is spelled: the id, the separator and the version. */
  lemma {:induction false} KeySpelled(c: Capability)
    ensures var key, n := Key(c), |c.id|;
            n < |key| && key[..n] == c.id && key[n] == '@' && key[n + 1..] == Printed(c.version)
  {
    assert Key(c)[..|c.id|] == c.id && Key(c)[|c.id| + 1..] == Printed(c.version);
  }

  // ----- construction

  function CleanedAll(cs: seq<Capability>): seq<Capability> {
    Orders.Map(Cleaned, cs)
  }

  ghost predicate AllValid(cs: seq<Capability>) {
    forall i :: 0 <= i < |cs| ==> Valid(cs[i])
  }

  ghost predicate Acceptable(cs: seq<Capability>) {
    && AllValid(CleanedAll(cs))
    && Orders.Pairwise(Apart, CleanedAll(cs))
  }

  ghost function Construct(cs: seq<Capability>): Option<seq<Capability>> {
    if Acceptable(cs) then Some(Orders.Sort(Leq, CleanedAll(cs))) else None
  }

  lemma {:induction false} CleanedAllStep(cs: seq<Capability>, i: nat)
    requires i < |cs|
    ensures CleanedAll(cs)[..i + 1] == CleanedAll(cs)[..i] + [Cleaned(cs[i])]
    ensures !Valid(Cleaned(cs[i])) ==> !AllValid(CleanedAll(cs))
    ensures Valid(Cleaned(cs[i])) && AllValid(CleanedAll(cs)[..i]) ==> AllValid(CleanedAll(cs)[..i + 1])
  {
    assert CleanedAll(cs)[i] == Cleaned(cs[i]);
  }

  ghost function SeenKeys(all: seq<Capability>, n: nat): set<string>
    requires n <= |all|
  {
    set k | 0 <= k < n :: Key(all[k])
  }

  method NewExecutorRegistry(capabilities: seq<Capability>) returns (r: Option<seq<Capability>>)
    ensures r == Construct(capabilities)
  {
    ghost var all := CleanedAll(capabilities);
    var out: seq<Capability> := [];
    var seen: set<string> := {};
    for i := 0 to |capabilities|
      invariant out == all[..i]
      invariant AllValid(all[..i])
      invariant Orders.Pairwise(Apart, all[..i])
      invariant seen == SeenKeys(all, i)
    {
      var capability := Cleaned(capabilities[i]);
      CleanedAllStep(capabilities, i);
      if !Valid(capability) {
        return None;
      }
      DuplicateSeen(all, i);
      if Key(capability) in seen {
        return None;
      }
      seen := seen + {Key(capability)};
      out := out + [capability];
    }
    assert all[..|capabilities|] == all;
    r := Some(Orders.Sort(Leq, out));
  }

  /** A key was seen before exactly when an identity repeats. */
  lemma {:induction false} DuplicateSeen(all: seq<Capability>, i: nat)
    requires i < |all| && Orders.Pairwise(Apart, all[..i])
    ensures Key(all[i]) in SeenKeys(all, i) ==> !Orders.Pairwise(Apart, all)
    ensures Key(all[i]) !in SeenKeys(all, i) ==> Orders.Pairwise(Apart, all[..i + 1])
    ensures SeenKeys(all, i + 1) == SeenKeys(all, i) + {Key(all[i])}
  {
    forall k | 0 <= k < i ensures Key(all[k]) == Key(all[i]) <==> !Apart(all[k], all[i]) {
      KeysIdentify(all[k], all[i]);
    }
    assert all[..i + 1] == all[..i] + [all[i]];
    Orders.PairwiseStep(Apart, all[..i], all[i]);
    if Key(all[i]) !in SeenKeys(all, i) {
      forall k | 0 <= k < i ensures Apart(all[..i][k], all[i]) {
        assert Key(all[k]) in SeenKeys(all, i);
      }
    }
  }

  // ----- what every registry satisfies

  predicate PairLess(a: Pair, b: Pair) {
    a != b && PairLeq(a, b)
  }

  ghost predicate Registry(es: seq<Capability>) {
    && (forall i :: 0 <= i < |es| ==> Valid(es[i]) && Text.Trimmed(es[i].id))
    && forall i, j :: 0 <= i < j < |es| ==> PairLess(Identity(es[i]), Identity(es[j]))
  }

  lemma {:induction false} PairOrder(a: Pair, b: Pair, c: Pair)
    ensures PairLeq(a, b) || PairLeq(b, a)
    ensures PairLeq(a, b) && PairLeq(b, a) ==> a == b
    ensures PairLeq(a, b) && PairLeq(b, c) ==> PairLeq(a, c)
  {
    Orders.LexIsOrder();
  }

  lemma {:induction false} LeqIsOrder()
    ensures Orders.Total(Leq) && Orders.Transitive(Leq)
  {
    forall a, b ensures Leq(a, b) || Leq(b, a) {
      PairOrder(Identity(a), Identity(b), Identity(a));
    }
    forall a, b, c | Leq(a, b) && Leq(b, c) ensures Leq(a, c) {
      PairOrder(Identity(a), Identity(b), Identity(c));
    }
  }

  /** Acceptance on the advertised capabilities: named without a separator, versioned from 1, and no two alike. */
  lemma {:induction false} AcceptedExactly(cs: seq<Capability>)
    ensures Construct(cs).Some? <==>
            && (forall i :: 0 <= i < |cs| ==>
                  Text.Trim(cs[i].id) != "" && '@' !in Text.Trim(cs[i].id) && 1 <= cs[i].version)
            && (forall i, j :: 0 <= i < j < |cs| ==>
                  Text.Trim(cs[i].id) != Text.Trim(cs[j].id) || cs[i].version != cs[j].version)
  {
    var all := CleanedAll(cs);
    forall i | 0 <= i < |cs|
      ensures Valid(all[i]) <==>
              Text.Trim(cs[i].id) != "" && '@' !in Text.Trim(cs[i].id) && 1 <= cs[i].version
    {
      Text.BlankTrims(all[i].id);
      Text.TrimOfTrimmed(cs[i].id);
    }
    if Orders.Pairwise(Apart, all) {
      forall i, j | 0 <= i < j < |cs|
        ensures Text.Trim(cs[i].id) != Text.Trim(cs[j].id) || cs[i].version != cs[j].version
      {
        assert Apart(all[i], all[j]);
      }
    }
  }

  /** The stored order on the fields: ids ascend byte by byte, and under one id the versions ascend. */
  lemma {:induction false} StoredAscending(es: seq<Capability>, i: nat, j: nat)
    requires Registry(es) && i < j < |es|
    ensures if es[i].id == es[j].id then es[i].version < es[j].version
            else es[i].id <= es[j].id || exists k: nat :: Orders.SmallerAt(es[i].id, es[j].id, k)
  {
    assert PairLess(Identity(es[i]), Identity(es[j]));
    Orders.LexExactly(es[i].id, es[j].id);
  }

  /** Construction yields a registry holding exactly the cleaned capabilities. */
  lemma {:induction false} ConstructedIsRegistry(cs: seq<Capability>)
    requires Construct(cs).Some?
    ensures Registry(Construct(cs).value)
    ensures multiset(Construct(cs).value) == multiset(CleanedAll(cs))
  {
    var all := CleanedAll(cs);
    var es := Construct(cs).value;
    LeqIsOrder();
    Orders.SortSorted(Leq, all);
    Orders.PairwiseOfPermutation(Apart, all, es);
    Orders.MembersOfPermutation(all, es);
    forall i | 0 <= i < |es| ensures Valid(es[i]) && Text.Trimmed(es[i].id) {
      assert es[i] in all;
      var k :| 0 <= k < |all| && all[k] == es[i];
      Text.TrimOfTrimmed(cs[k].id);
    }
    forall i, j | 0 <= i < j < |es| ensures PairLess(Identity(es[i]), Identity(es[j])) {
      assert Leq(es[i], es[j]) && Apart(es[i], es[j]);
    }
  }

  /** Building from the contents of a registry, in the order stored or any other, restores it. */
  lemma {:induction false} RegistryRebuilds(es: seq<Capability>)
    requires Registry(es)
    ensures Construct(es) == Some(es)
  {
    forall i | 0 <= i < |es| ensures Cleaned(es[i]) == es[i] {
      Text.TrimOfTrimmed(es[i].id);
    }
    assert CleanedAll(es) == es;
    forall i, j | 0 <= i < j < |es| ensures Leq(es[i], es[j]) && Apart(es[i], es[j]) {
      assert PairLess(Identity(es[i]), Identity(es[j]));
    }
    Orders.SortOfSorted(Leq, es);
  }

  /** A registry is determined by its members. */
  lemma {:induction false} RegistryUnique(a: seq<Capability>, b: seq<Capability>)
    requires Registry(a) && Registry(b) && forall e :: e in a <==> e in b
    ensures a == b
  {
    if b != [] {
      assert b[0] in a;
    }
    if a == [] {
    } else {
      assert a[0] in b;
      assert a[0] == b[0] by {
        PairOrder(Identity(a[0]), Identity(b[0]), Identity(a[0]));
        assert forall i :: 0 < i < |a| ==> PairLess(Identity(a[0]), Identity(a[i]));
        assert forall i :: 0 < i < |b| ==> PairLess(Identity(b[0]), Identity(b[i]));
      }
      forall e ensures e in a[1..] <==> e in b[1..] {
        assert e in a <==> e == a[0] || e in a[1..];
        assert e in b <==> e == b[0] || e in b[1..];
        assert a[0] !in a[1..] && b[0] !in b[1..];
      }
      RegistryUnique(a[1..], b[1..]);
      assert a == [a[0]] + a[1..] && b == [b[0]] + b[1..];
    }
  }

  /** The order in which capabilities are advertised does not matter. */
  lemma {:induction false} AdvertisingOrderForgotten(cs: seq<Capability>, ds: seq<Capability>)
    requires multiset(cs) == multiset(ds)
    ensures Construct(cs) == Construct(ds)
  {
    Orders.MapOfPermutation(Cleaned, cs, ds);
    var a, b := CleanedAll(cs), CleanedAll(ds);
    if Orders.Pairwise(Apart, a) {
      Orders.PairwiseOfPermutation(Apart, a, b);
    }
    if Orders.Pairwise(Apart, b) {
      Orders.PairwiseOfPermutation(Apart, b, a);
    }
    Orders.MembersOfPermutation(a, b);
    assert AllValid(a) <==> forall c :: c in a ==> Valid(c);
    assert AllValid(b) <==> forall c :: c in b ==> Valid(c);
    if Acceptable(cs) {
      ConstructedIsRegistry(cs);
      ConstructedIsRegistry(ds);
      Orders.MembersOfPermutation(Construct(cs).value, Construct(ds).value);
      RegistryUnique(Construct(cs).value, Construct(ds).value);
    }
  }

  // ----- lookup

  /** sort.Search: the first position at which a monotone test holds. */
  method Search(es: seq<Capability>, test: Capability -> bool) returns (i: nat)
    requires forall j, k :: 0 <= j < k < |es| && test(es[j]) ==> test(es[k])
    ensures i <= |es|
    ensures forall k :: 0 <= k < i ==> !test(es[k])
    ensures forall k :: i <= k < |es| ==> test(es[k])
  {
    var j := |es|;
    i := 0;
    while i < j
      invariant i <= j <= |es|
      invariant forall k :: 0 <= k < i ==> !test(es[k])
      invariant forall k :: j <= k < |es| ==> test(es[k])
    {
      var h := (i + j) / 2;
      if test(es[h]) {
        j := h;
      } else {
        i := h + 1;
      }
    }
  }

  /** Binary search finds an identity exactly when the registry lists it. */
  method Has(es: seq<Capability>, id: string, version: int) returns (found: bool)
    requires Registry(es)
    ensures found <==> exists k :: 0 <= k < |es| && Identity(es[k]) == (id, version)
  {
    ghost var wanted := (id, version);
    var test := (e: Capability) => if e.id != id then Orders.LexLess(id, e.id) else e.version >= version;
    forall j, k | 0 <= j < k < |es| && test(es[j]) ensures test(es[k]) {
      PairOrder(wanted, Identity(es[j]), Identity(es[k]));
      assert PairLess(Identity(es[j]), Identity(es[k]));
    }
    var i := Search(es, test);
    found := i < |es| && es[i].id == id && es[i].version == version;
    forall k | 0 <= k < |es| && Identity(es[k]) == wanted ensures found {
      assert test(es[k]);
      if i < k {
        assert PairLess(Identity(es[i]), Identity(es[k]));
        PairOrder(wanted, Identity(es[i]), wanted);
      }
    }
  }

  method HasId(es: seq<Capability>, id: string) returns (found: bool)
    requires Registry(es)
    ensures found <==> exists k :: 0 <= k < |es| && es[k].id == id
  {
    var test := (e: Capability) => Orders.LexLeq(id, e.id);
    Orders.LexIsOrder();
    forall j, k | 0 <= j < k < |es| && test(es[j]) ensures test(es[k]) {
      assert PairLess(Identity(es[j]), Identity(es[k]));
    }
    var i := Search(es, test);
    found := i < |es| && es[i].id == id;
    forall k | 0 <= k < |es| && es[k].id == id ensures found {
      assert test(es[k]);
      if i < k {
        assert PairLess(Identity(es[i]), Identity(es[k]));
      }
    }
  }

  // ----- removal

  ghost function Removed(es: seq<Capability>, gone: Pair): (r: seq<Capability>)
    ensures forall e :: e in r <==> e in es && Identity(e) != gone
  {
    if es == [] then []
    else
      var rest := Removed(es[..|es| - 1], gone);
      assert es == es[..|es| - 1] + [es[|es| - 1]];
      if Identity(es[|es| - 1]) == gone then rest else rest + [es[|es| - 1]]
  }

  lemma {:induction false} RemovedIsRegistry(es: seq<Capability>, gone: Pair)
    requires Registry(es)
    ensures Registry(Removed(es, gone))
  {
    if es == [] {
    } else {
      var init := es[..|es| - 1];
      RemovedIsRegistry(init, gone);
      var rest := Removed(init, gone);
      forall i | 0 <= i < |rest| ensures PairLess(Identity(rest[i]), Identity(es[|es| - 1])) {
        assert rest[i] in init;
      }
    }
  }

  /** The fallback to the receiver is never taken. */
  method Without(es: seq<Capability>, id: string, version: int) returns (r: seq<Capability>)
    requires Registry(es)
    ensures r == Removed(es, (id, version))
    ensures Registry(r)
  {
    var capabilities: seq<Capability> := [];
    for i := 0 to |es|
      invariant capabilities == Removed(es[..i], (id, version))
    {
      assert es[..i + 1][..i] == es[..i];
      if es[i].id == id && es[i].version == version {
        continue;
      }
      capabilities := capabilities + [es[i]];
    }
    assert es[..|es|] == es;
    var built := NewExecutorRegistry(capabilities);
    RemovedIsRegistry(es, (id, version));
    RegistryRebuilds(capabilities);
    r := if built.None? then es else built.value;
  }

  ghost function RemovedAll(es: seq<Capability>, gone: seq<Pair>): seq<Capability>
    decreases |gone|
  {
    if gone == [] then es else RemovedAll(Removed(es, gone[0]), gone[1..])
  }

  /** Any chain of removals leaves a registry of exactly the identities not removed. */
  lemma {:induction false} RemovalChain(es: seq<Capability>, gone: seq<Pair>)
    requires Registry(es)
    ensures Registry(RemovedAll(es, gone))
    ensures forall e :: e in RemovedAll(es, gone) <==> e in es && Identity(e) !in gone
    decreases |gone|
  {
    if gone == [] {
    } else {
      RemovedIsRegistry(es, gone[0]);
      RemovalChain(Removed(es, gone[0]), gone[1..]);
      assert gone == [gone[0]] + gone[1..];
    }
  }

  /** Only the set of removed identities matters, not the order or repetition. */
  lemma {:induction false} RemovalOrderForgotten(es: seq<Capability>, gone: seq<Pair>, also: seq<Pair>)
    requires Registry(es) && forall p :: p in gone <==> p in also
    ensures RemovedAll(es, gone) == RemovedAll(es, also)
  {
    RemovalChain(es, gone);
    RemovalChain(es, also);
    RegistryUnique(RemovedAll(es, gone), RemovedAll(es, also));
  }
}
