/** Sets of string keys listed in order, as the repository lists map keys before emitting them. */
module KeySets {
  import Orders

  ghost predicate Ascending(keys: seq<string>) {
    forall i, j :: 0 <= i < j < |keys| ==> Orders.LexLess(keys[i], keys[j])
  }

  /** The keys of a set in ascending order. */
  ghost function SortedKeys(s: set<string>): (keys: seq<string>)
    ensures forall k :: k in keys <==> k in s
    decreases |s|
  {
    if s == {} then []
    else
      Orders.SomeMember(s);
      var k :| k in s;
      Orders.InsertMembers(Orders.LexLeq, k, SortedKeys(s - {k}));
      Orders.Insert(Orders.LexLeq, k, SortedKeys(s - {k}))
  }

  lemma {:induction false} SortedKeysOrder(s: set<string>)
    ensures Orders.Sorted(Orders.LexLeq, SortedKeys(s)) && Orders.Distinct(SortedKeys(s))
    decreases |s|
  {
    if s == {} {
    } else {
      Orders.SomeMember(s);
      var k :| k in s && SortedKeys(s) == Orders.Insert(Orders.LexLeq, k, SortedKeys(s - {k}));
      SortedKeysOrder(s - {k});
      Orders.LexIsOrder();
      Orders.InsertSorted(Orders.LexLeq, k, SortedKeys(s - {k}));
      Orders.InsertDistinct(Orders.LexLeq, k, SortedKeys(s - {k}));
    }
  }

  lemma {:induction false} SortedKeysAscend(s: set<string>)
    ensures Ascending(SortedKeys(s))
  {
    SortedKeysOrder(s);
    var keys := SortedKeys(s);
    forall i, j | 0 <= i < j < |keys| ensures Orders.LexLess(keys[i], keys[j]) {
      assert Orders.LexLeq(keys[i], keys[j]);
    }
  }

  /** Ascending lists with the same members are equal. */
  lemma {:induction false} AscendingUnique(a: seq<string>, b: seq<string>)
    requires Ascending(a) && Ascending(b) && forall k :: k in a <==> k in b
    ensures a == b
  {
    if b != [] {
      assert b[0] in a;
    }
    if a == [] {
    } else {
      assert a[0] in b;
      assert a[0] == b[0] by {
        Orders.LexTotalFor(a[0], b[0]);
        assert forall i :: 0 < i < |a| ==> Orders.LexLess(a[0], a[i]);
        assert forall i :: 0 < i < |b| ==> Orders.LexLess(b[0], b[i]);
      }
      forall k ensures k in a[1..] <==> k in b[1..] {
        assert k in a <==> k == a[0] || k in a[1..];
        assert k in b <==> k == b[0] || k in b[1..];
        assert a[0] !in a[1..] && b[0] !in b[1..];
      }
      AscendingUnique(a[1..], b[1..]);
      assert a == [a[0]] + a[1..] && b == [b[0]] + b[1..];
    }
  }

  method CollectSorted(s: set<string>) returns (keys: seq<string>)
    ensures keys == SortedKeys(s)
  {
    var found := Orders.Collect(s);
    keys := Orders.Sort(Orders.LexLeq, found);
    SortedDistinct(found);
    Orders.MembersOfPermutation(found, keys);
    SortedKeysAscend(s);
    AscendingUnique(keys, SortedKeys(s));
  }

  lemma {:induction false} SortedDistinct(found: seq<string>)
    requires Orders.Distinct(found)
    ensures Ascending(Orders.Sort(Orders.LexLeq, found))
  {
    var keys := Orders.Sort(Orders.LexLeq, found);
    Orders.LexIsOrder();
    Orders.SortSorted(Orders.LexLeq, found);
    Orders.SortDistinct(Orders.LexLeq, found);
    forall i, j | 0 <= i < j < |keys| ensures Orders.LexLess(keys[i], keys[j]) {
      assert Orders.LexLeq(keys[i], keys[j]);
    }
  }

  /** The values of a map along a list of its keys. */
  function Values<V>(m: map<string, V>, keys: seq<string>): (vs: seq<V>)
    requires forall k :: k in keys ==> k in m
    ensures |vs| == |keys|
    ensures forall i :: 0 <= i < |keys| ==> vs[i] == m[keys[i]]
  {
    if keys == [] then [] else [m[keys[0]]] + Values(m, keys[1..])
  }

  // ----- renaming keys

  /** Under `f` no key becomes empty and no two become equal. */
  ghost predicate Survive<V>(f: string -> string, m: map<string, V>) {
    && (forall k :: k in m ==> f(k) != "")
    && forall k, l :: k in m && l in m && f(k) == f(l) ==> k == l
  }

  /** `r` holds the values of `m` under the new keys and nothing else. */
  ghost predicate Renames<V>(f: string -> string, m: map<string, V>, r: map<string, V>) {
    && (forall k :: k in m ==> f(k) in r && r[f(k)] == m[k])
    && forall key :: key in r ==> exists k :: k in m && f(k) == key
  }

  ghost function Rekeyed<V>(f: string -> string, m: map<string, V>): (r: map<string, V>)
    requires Survive(f, m)
    ensures Renames(f, m, r)
  {
    map k | k in m :: f(k) := m[k]
  }

  lemma {:induction false} RenamesUnique<V>(
    f: string -> string, m: map<string, V>, r: map<string, V>, q: map<string, V>)
    requires Renames(f, m, r) && Renames(f, m, q)
    ensures r == q
  {
    forall key ensures key in r <==> key in q {
      if key in r {
        var k :| k in m && f(k) == key;
      }
      if key in q {
        var k :| k in m && f(k) == key;
      }
    }
    forall key | key in r ensures r[key] == q[key] {
      var k :| k in m && f(k) == key;
    }
  }

  /** Fills the new map in whatever order the keys come; the outcome does not depend on it. */
  method Rekey<V>(f: string -> string, m: map<string, V>) returns (ok: bool, out: map<string, V>)
    ensures ok <==> Survive(f, m)
    ensures ok ==> out == Rekeyed(f, m)
  {
    out := map[];
    var rest := m.Keys;
    ghost var done: map<string, V> := map[];
    while rest != {}
      invariant rest <= m.Keys
      invariant done.Keys == m.Keys - rest && forall k :: k in done ==> done[k] == m[k]
      invariant Survive(f, done) && Renames(f, done, out)
      decreases rest
    {
      var k :| k in rest;
      SurviveStep(f, done, k, m[k], out);
      SurvivalOfPart(f, done[k := m[k]], m);
      if f(k) == "" || f(k) in out {
        return false, out;
      }
      RenamesStep(f, done, k, m[k], out);
      out := out[f(k) := m[k]];
      rest := rest - {k};
      done := done[k := m[k]];
    }
    assert done == m;
    RenamesUnique(f, m, out, Rekeyed(f, m));
    ok := true;
  }

  lemma {:induction false} SurviveStep<V>(
    f: string -> string, done: map<string, V>, k: string, v: V, out: map<string, V>)
    requires Survive(f, done) && k !in done && Renames(f, done, out)
    ensures Survive(f, done[k := v]) <==> f(k) != "" && f(k) !in out
  {
    var more := done[k := v];
    if f(k) in out {
      var m :| m in done && f(m) == f(k);
      assert m in more && k in more && m != k;
    } else {
      assert forall m :: m in done ==> f(m) in out;
    }
    assert Survive(f, more) ==> f(k) != "" by {
      assert k in more;
    }
  }

  lemma {:induction false} RenamesStep<V>(
    f: string -> string, done: map<string, V>, k: string, v: V, out: map<string, V>)
    requires k !in done && Renames(f, done, out) && f(k) !in out
    ensures Renames(f, done[k := v], out[f(k) := v])
  {
    var more, r := done[k := v], out[f(k) := v];
    forall key | key in r ensures exists m :: m in more && f(m) == key {
      if key == f(k) {
        assert k in more;
      } else {
        var m :| m in done && f(m) == key;
        assert m in more;
      }
    }
  }

  lemma {:induction false} SurvivalOfPart<V>(f: string -> string, part: map<string, V>, m: map<string, V>)
    requires part.Keys <= m.Keys
    ensures Survive(f, m) ==> Survive(f, part)
  {
    assert forall k :: k in part ==> k in part.Keys;
  }

  /** Renaming that changes no key changes nothing. */
  lemma {:induction false} FixedKeys<V>(f: string -> string, m: map<string, V>)
    requires forall k :: k in m ==> f(k) == k && k != ""
    ensures Survive(f, m) && Rekeyed(f, m) == m
  {
    assert Survive(f, m);
    RenamesUnique(f, m, m, Rekeyed(f, m));
  }
}
