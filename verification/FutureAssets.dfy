/** Worker-scoped future asset plans: canonical manifests and the planner with its two horizons. */
module FutureAssets {
  import Orders
  import Text
  import KeySets

  const DEFAULT_PREFETCH_HORIZON := 3
  const DEFAULT_PROTECTION_LOOKAHEAD := 10

  datatype Limits = Limits(prefetchHorizon: int, protectionLookahead: int) {
    function WithDefaults(): Limits {
      Limits(if prefetchHorizon <= 0 then DEFAULT_PREFETCH_HORIZON else prefetchHorizon,
             if protectionLookahead <= 0 then DEFAULT_PROTECTION_LOOKAHEAD else protectionLookahead)
    }
  }

  datatype Asset = Asset(
    assetKey: string,
    assetId: string,
    sha256: string,
    sizeBytes: int,
    mimeType: string,
    role: string,
    sourceUri: string)

  datatype Job = Job(
    jobId: string,
    taskId: string,
    reservationId: string,
    taskRevision: int,
    distance: int,
    assets: seq<Asset>)

  datatype Protected = Protected(assetKey: string, futureRefCount: int, nextUseDistance: int)

  /** Times are instants; 0 stands for the zero time. */
  datatype Plan = Plan(
    version: nat,
    planId: string,
    workerId: string,
    generatedAt: int,
    expiresAt: int,
    currentJob: string,
    prefetchJobs: seq<Job>,
    deferredJobs: seq<Job>,
    protect: seq<Protected>,
    limits: Limits)

  datatype Input = Input(
    version: nat,
    planId: string,
    workerId: string,
    generatedAt: int,
    expiresAt: int,
    currentJob: string,
    futureJobs: seq<Job>,
    limits: Limits)

  // ----- canonical manifests

  predicate Agrees(a: Asset, b: Asset) {
    a.sha256 == b.sha256 && a.sizeBytes == b.sizeBytes && a.sourceUri == b.sourceUri
  }

  /** Keys lose surrounding white space before anything else. */
  function TrimKey(a: Asset): Asset {
    a.(assetKey := Text.Trim(a.assetKey))
  }

  function TrimKeys(assets: seq<Asset>): seq<Asset> {
    seq(|assets|, i requires 0 <= i < |assets| => TrimKey(assets[i]))
  }

  /** No key is empty and entries for the same key agree on their integrity metadata. */
  ghost predicate Consistent(ts: seq<Asset>) {
    && (forall i :: 0 <= i < |ts| ==> ts[i].assetKey != "")
    && (forall i, j :: 0 <= i < j < |ts| && ts[i].assetKey == ts[j].assetKey ==> Agrees(ts[i], ts[j]))
  }

  /** The last entry listed under its key. */
  ghost predicate Latest(ts: seq<Asset>, a: Asset) {
    exists i :: 0 <= i < |ts| && ts[i] == a && forall j :: i < j < |ts| ==> ts[j].assetKey != a.assetKey
  }

  ghost predicate KeyOrder(assets: seq<Asset>) {
    forall i, j :: 0 <= i < j < |assets| ==> Orders.LexLess(assets[i].assetKey, assets[j].assetKey)
  }

  /** `out` lists, in key order, the latest entry of every key in `ts`. */
  ghost predicate IsManifest(out: seq<Asset>, ts: seq<Asset>) {
    KeyOrder(out) && forall a :: a in out <==> Latest(ts, a)
  }

  /** The map the entries are collected in. */
  ghost predicate Collects(m: map<string, Asset>, ts: seq<Asset>) {
    && (forall k :: k in m ==> m[k].assetKey == k)
    && (forall a :: Latest(ts, a) <==> a.assetKey in m && m[a.assetKey] == a)
  }

  lemma {:induction false} LatestStep(ts: seq<Asset>, t: Asset, a: Asset)
    ensures Latest(ts + [t], a) <==> a == t || (a.assetKey != t.assetKey && Latest(ts, a))
  {
    var all := ts + [t];
    var n := |ts|;
    assert all[n] == t;
    if Latest(all, a) {
      var i :| 0 <= i < |all| && all[i] == a && forall j :: i < j < |all| ==> all[j].assetKey != a.assetKey;
      if i < n {
        assert ts[i] == a && all[n].assetKey != a.assetKey;
        assert forall j :: i < j < n ==> ts[j] == all[j];
      }
    }
    if a == t {
      assert all[n] == a;
    } else if a.assetKey != t.assetKey && Latest(ts, a) {
      var i :| 0 <= i < n && ts[i] == a && forall j :: i < j < n ==> ts[j].assetKey != a.assetKey;
      assert all[i] == a;
    }
  }

  lemma {:induction false} CollectsStep(m: map<string, Asset>, ts: seq<Asset>, t: Asset)
    requires Collects(m, ts)
    ensures Collects(m[t.assetKey := t], ts + [t])
  {
    forall a ensures Latest(ts + [t], a) <==> a.assetKey in m[t.assetKey := t] && m[t.assetKey := t][a.assetKey] == a {
      LatestStep(ts, t, a);
    }
  }

  /** Every entry has a latest entry under its key, and in a consistent list they agree. */
  lemma {:induction false} LatestOf(ts: seq<Asset>, i: nat) returns (a: Asset)
    requires i < |ts|
    ensures Latest(ts, a) && a.assetKey == ts[i].assetKey && a in ts
    ensures Consistent(ts) ==> Agrees(ts[i], a)
    decreases |ts| - i
  {
    if forall j :: i < j < |ts| ==> ts[j].assetKey != ts[i].assetKey {
      a := ts[i];
    } else {
      var j :| i < j < |ts| && ts[j].assetKey == ts[i].assetKey;
      a := LatestOf(ts, j);
    }
  }

  lemma {:induction false} ConsistentPrefix(ts: seq<Asset>, n: nat)
    requires n <= |ts|
    ensures Consistent(ts) ==> Consistent(ts[..n])
  {}

  /** Comparing with the stored entry is comparing with every earlier entry of the key. */
  lemma {:induction false} ConsistentStep(m: map<string, Asset>, ts: seq<Asset>, t: Asset)
    requires Consistent(ts) && Collects(m, ts)
    ensures Consistent(ts + [t]) <==> t.assetKey != "" && (t.assetKey in m ==> Agrees(m[t.assetKey], t))
  {
    var all := ts + [t];
    var n := |ts|;
    assert all[n] == t && forall i :: 0 <= i < n ==> all[i] == ts[i];
    if Consistent(all) {
      StoredAgrees(m, ts, t);
    }
    if t.assetKey != "" && (t.assetKey in m ==> Agrees(m[t.assetKey], t)) {
      forall i | 0 <= i < n && ts[i].assetKey == t.assetKey ensures Agrees(ts[i], t) {
        var a := LatestOf(ts, i);
      }
    }
  }

  lemma {:induction false} EntryStep(m: map<string, Asset>, ts: seq<Asset>, i: nat)
    requires i < |ts| && Consistent(ts[..i]) && Collects(m, ts[..i])
    ensures Consistent(ts[..i + 1]) <==>
          ts[i].assetKey != "" && (ts[i].assetKey in m ==> Agrees(m[ts[i].assetKey], ts[i]))
    ensures Collects(m[ts[i].assetKey := ts[i]], ts[..i + 1])
    ensures Consistent(ts) ==> Consistent(ts[..i + 1])
  {
    assert ts[..i + 1] == ts[..i] + [ts[i]];
    ConsistentStep(m, ts[..i], ts[i]);
    CollectsStep(m, ts[..i], ts[i]);
    ConsistentPrefix(ts, i + 1);
  }

  lemma {:induction false} StoredAgrees(m: map<string, Asset>, ts: seq<Asset>, t: Asset)
    requires Consistent(ts + [t]) && Collects(m, ts)
    ensures t.assetKey != "" && (t.assetKey in m ==> Agrees(m[t.assetKey], t))
  {
    var all := ts + [t];
    assert all[|ts|] == t;
    if t.assetKey in m {
      var a := m[t.assetKey];
      assert Latest(ts, a);
      var i :| 0 <= i < |ts| && ts[i] == a;
      assert all[i] == a;
    }
  }

  datatype CanonicalResult = Manifest(assets: seq<Asset>) | BadManifest

  method CanonicalAssets(assets: seq<Asset>) returns (r: CanonicalResult)
    ensures r.Manifest? <==> Consistent(TrimKeys(assets))
    ensures r.Manifest? ==> IsManifest(r.assets, TrimKeys(assets))
  {
    ghost var ts := TrimKeys(assets);
    var byKey: map<string, Asset> := map[];
    for i := 0 to |assets|
      invariant Consistent(ts[..i]) && Collects(byKey, ts[..i])
    {
      var asset := TrimKey(assets[i]);
      EntryStep(byKey, ts, i);
      if asset.assetKey == "" || (asset.assetKey in byKey && !Agrees(byKey[asset.assetKey], asset)) {
        return BadManifest;
      }
      byKey := byKey[asset.assetKey := asset];
    }
    assert ts[..|ts|] == ts;
    var keys := KeySets.CollectSorted(byKey.Keys);
    var out := KeySets.Values(byKey, keys);
    ManifestFromMap(byKey, ts, out);
    return Manifest(out);
  }

  lemma {:induction false} ManifestFromMap(m: map<string, Asset>, ts: seq<Asset>, out: seq<Asset>)
    requires Collects(m, ts) && out == KeySets.Values(m, KeySets.SortedKeys(m.Keys))
    ensures IsManifest(out, ts)
  {
    var keys := KeySets.SortedKeys(m.Keys);
    KeySets.SortedKeysAscend(m.Keys);
    forall i | 0 <= i < |keys| ensures keys[i] in m && out[i] == m[keys[i]] && out[i].assetKey == keys[i] {
      assert keys[i] in keys;
    }
    forall i, j | 0 <= i < j < |out| ensures Orders.LexLess(out[i].assetKey, out[j].assetKey) {
      assert Orders.LexLess(keys[i], keys[j]);
    }
    forall a ensures a in out <==> Latest(ts, a) {
      assert Latest(ts, a) <==> a.assetKey in keys && m[a.assetKey] == a;
      if a.assetKey in keys && m[a.assetKey] == a {
        var i :| 0 <= i < |keys| && keys[i] == a.assetKey;
        assert out[i] == a;
      }
    }
  }

  /** Only one list is the manifest of a job's assets. */
  lemma {:induction false} ManifestUnique(x: seq<Asset>, y: seq<Asset>, ts: seq<Asset>)
    requires IsManifest(x, ts) && IsManifest(y, ts)
    ensures x == y
  {
    KeyOrderUnique(x, y);
  }

  lemma {:induction false} KeyOrderUnique(x: seq<Asset>, y: seq<Asset>)
    requires KeyOrder(x) && KeyOrder(y) && forall a :: a in x <==> a in y
    ensures x == y
  {
    assert x != [] ==> x[0] in y;
    assert y != [] ==> y[0] in x;
    if x == [] || y == [] {
    } else {
      assert x[0] == y[0] by {
        assert x[0] in y && y[0] in x;
        Orders.LexTotalFor(x[0].assetKey, y[0].assetKey);
      }
      forall a ensures a in x[1..] <==> a in y[1..] {
        assert a in x <==> a == x[0] || a in x[1..];
        assert a in y <==> a == y[0] || a in y[1..];
        assert x[0] !in x[1..] && y[0] !in y[1..];
      }
      KeyOrderUnique(x[1..], y[1..]);
      assert x == [x[0]] + x[1..] && y == [y[0]] + y[1..];
    }
  }

  // ----- what the planner promises

  predicate KnownIds(job: Job) {
    !Text.Blank(job.jobId) && !Text.Blank(job.taskId)
  }

  /** `c` is `job` in canonical form at queue position `index`. */
  ghost predicate CanonOf(c: Job, job: Job, index: nat) {
    c == job.(distance := index + 1, assets := c.assets) && IsManifest(c.assets, TrimKeys(job.assets))
  }

  ghost predicate CanonQueue(cs: seq<Job>, js: seq<Job>) {
    |cs| == |js| && forall i :: 0 <= i < |js| ==> CanonOf(cs[i], js[i], i)
  }

  function Min(a: int, b: int): int { if a < b then a else b }

  /** The queue prefix inside the protection lookahead. */
  function Considered(input: Input): seq<Job> {
    input.futureJobs[..Min(|input.futureJobs|, input.limits.WithDefaults().protectionLookahead)]
  }

  /** Bytes of known size that are hashed or at least can be located. */
  predicate Fetchable(a: Asset) {
    a.sizeBytes > 0 && (a.sha256 != "" || !Text.Blank(a.sourceUri))
  }

  predicate Reserved(job: Job) {
    job.reservationId != "" && forall i :: 0 <= i < |job.assets| ==> Fetchable(job.assets[i])
  }

  predicate Unhashed(job: Job) {
    exists i :: 0 <= i < |job.assets| && job.assets[i].sha256 == ""
  }

  lemma {:induction false} ManifestFrom(out: seq<Asset>, ts: seq<Asset>, i: nat) returns (j: nat)
    requires IsManifest(out, ts) && i < |out|
    ensures j < |ts| && ts[j] == out[i]
  {
    assert out[i] in out;
    assert Latest(ts, out[i]);
    j :| 0 <= j < |ts| && ts[j] == out[i];
  }

  lemma {:induction false} ManifestHolds(out: seq<Asset>, ts: seq<Asset>, j: nat) returns (i: nat)
    requires IsManifest(out, ts) && Consistent(ts) && j < |ts|
    ensures i < |out| && Agrees(out[i], ts[j])
  {
    var a := LatestOf(ts, j);
    assert a in out;
    i :| 0 <= i < |out| && out[i] == a;
  }

  /** Both conditions can be read off the job as queued, before its manifest is canonical. */
  lemma {:induction false} CanonKeepsIntegrity(c: Job, job: Job, index: nat)
    requires CanonOf(c, job, index) && Consistent(TrimKeys(job.assets))
    ensures Reserved(c) <==> Reserved(job)
    ensures Unhashed(c) <==> Unhashed(job)
  {
    var ts := TrimKeys(job.assets);
    assert forall j :: 0 <= j < |ts| ==> Agrees(ts[j], job.assets[j]);
    if Reserved(c) {
      forall j | 0 <= j < |job.assets| ensures Fetchable(job.assets[j]) {
        var i := ManifestHolds(c.assets, ts, j);
      }
    }
    if Reserved(job) {
      forall i | 0 <= i < |c.assets| ensures Fetchable(c.assets[i]) {
        var j := ManifestFrom(c.assets, ts, i);
      }
    }
    if Unhashed(job) {
      var j :| 0 <= j < |job.assets| && job.assets[j].sha256 == "";
      var i := ManifestHolds(c.assets, ts, j);
    }
    if Unhashed(c) {
      var i :| 0 <= i < |c.assets| && c.assets[i].sha256 == "";
      var j := ManifestFrom(c.assets, ts, i);
    }
  }

  predicate OtherJob(j: Job, k: Job) { j.jobId != k.jobId }

  /** A queued job that may be planned at position `index` with prefetch horizon `h`. */
  ghost predicate Sound(job: Job, index: nat, h: int) {
    KnownIds(job) && Consistent(TrimKeys(job.assets)) && (index < h ==> Reserved(job))
  }

  ghost predicate Admitted(js: seq<Job>, h: int) {
    (forall i :: 0 <= i < |js| ==> Sound(js[i], i, h)) && Orders.Pairwise(OtherJob, js)
  }

  predicate Identified(input: Input) {
    && !Text.Blank(input.workerId) && input.version != 0 && !Text.Blank(input.planId)
    && input.generatedAt != 0 && input.expiresAt != 0 && input.generatedAt < input.expiresAt
  }

  /** Exactly the inputs the planner accepts. */
  ghost predicate Plannable(input: Input) {
    var limits := input.limits.WithDefaults();
    && Identified(input)
    && limits.prefetchHorizon <= limits.protectionLookahead
    && Admitted(Considered(input), limits.prefetchHorizon)
  }

  /** The jobs of a list that are fully hashed (`waiting` false) or not (`waiting` true), in order. */
  ghost function Split(js: seq<Job>, waiting: bool): seq<Job> {
    if js == [] then []
    else
      var last := js[|js| - 1];
      Split(js[..|js| - 1], waiting) + if Unhashed(last) == waiting then [last] else []
  }

  predicate Uses(job: Job, key: string) {
    exists i :: 0 <= i < |job.assets| && job.assets[i].assetKey == key
  }

  ghost predicate Used(js: seq<Job>, key: string) {
    exists i :: 0 <= i < |js| && Uses(js[i], key)
  }

  /** How many of the jobs use the key. */
  ghost function RefCount(js: seq<Job>, key: string): nat {
    |Users(js, key)|
  }

  ghost function Users(js: seq<Job>, key: string): set<int> {
    set i | 0 <= i < |js| && Uses(js[i], key)
  }

  /** `d` is the distance of the first job using the key. */
  ghost predicate FirstUse(js: seq<Job>, key: string, d: int) {
    1 <= d <= |js| && Uses(js[d - 1], key) && forall i :: 0 <= i < d - 1 ==> !Uses(js[i], key)
  }

  /** Protection entries say how often and how soon each key is used. */
  ghost predicate Tracks(m: map<string, Protected>, js: seq<Job>) {
    && (forall k :: k in m <==> Used(js, k))
    && (forall k :: k in m ==>
          m[k].assetKey == k && m[k].futureRefCount == RefCount(js, k) && FirstUse(js, k, m[k].nextUseDistance))
  }

  ghost predicate Listed(protect: seq<Protected>, key: string) {
    exists i :: 0 <= i < |protect| && protect[i].assetKey == key
  }

  ghost predicate Protects(protect: seq<Protected>, js: seq<Job>) {
    && (forall i, j :: 0 <= i < j < |protect| ==> Orders.LexLess(protect[i].assetKey, protect[j].assetKey))
    && (forall k :: Used(js, k) <==> Listed(protect, k))
    && (forall i :: 0 <= i < |protect| ==>
          protect[i].futureRefCount == RefCount(js, protect[i].assetKey) &&
              FirstUse(js, protect[i].assetKey, protect[i].nextUseDistance))
  }

  /** The part of the queue inside the prefetch horizon. */
  function Near(cs: seq<Job>, h: nat): seq<Job> {
    cs[..Min(|cs|, h)]
  }

  /** The snapshot the planner owes for an input whose canonical queue is `cs`. */
  ghost predicate IsPlanFor(p: Plan, input: Input, cs: seq<Job>) {
    var limits := input.limits.WithDefaults();
    && CanonQueue(cs, Considered(input))
    && p.version == input.version && p.planId == Text.Trim(input.planId) && p.workerId == Text.Trim(input.workerId)
    && p.generatedAt == input.generatedAt && p.expiresAt == input.expiresAt && p.currentJob == input.currentJob
    && p.limits == limits
    && p.prefetchJobs == Split(Near(cs, limits.prefetchHorizon), false)
    && p.deferredJobs == Split(Near(cs, limits.prefetchHorizon), true)
    && Protects(p.protect, cs)
  }

  // ----- tracking one job

  lemma {:induction false} CountStep(js: seq<Job>, job: Job, key: string)
    ensures RefCount(js + [job], key) == RefCount(js, key) + if Uses(job, key) then 1 else 0
  {
    var all := js + [job];
    var users, more := Users(js, key), Users(all, key);
    forall i ensures i in more <==> i in users || (i == |js| && Uses(job, key)) {
      if 0 <= i < |js| {
        assert all[i] == js[i];
      } else if i == |js| {
        assert all[i] == job;
      }
    }
    if Uses(job, key) {
      assert more == users + {|js|};
    } else {
      assert more == users;
    }
  }

  lemma {:induction false} UsedStep(js: seq<Job>, job: Job, key: string)
    ensures Used(js + [job], key) <==> Used(js, key) || Uses(job, key)
  {
    var all := js + [job];
    assert all[|js|] == job && forall i :: 0 <= i < |js| ==> all[i] == js[i];
    if Used(all, key) {
      var i :| 0 <= i < |all| && Uses(all[i], key);
      assert i < |js| ==> Uses(js[i], key);
    }
    if Used(js, key) {
      var i :| 0 <= i < |js| && Uses(js[i], key);
      assert Uses(all[i], key);
    }
  }

  lemma {:induction false} FirstUseStep(js: seq<Job>, job: Job, key: string, d: int)
    requires if Used(js, key) then FirstUse(js, key, d) else d == |js| + 1 && Uses(job, key)
    ensures FirstUse(js + [job], key, d)
  {
    var all := js + [job];
    assert forall i :: 0 <= i < |js| ==> all[i] == js[i];
    if !Used(js, key) {
      assert forall i :: 0 <= i < |js| ==> !Uses(js[i], key);
    }
  }

  ghost predicate KeysDistinct(assets: seq<Asset>) {
    forall i, j :: 0 <= i < j < |assets| ==> assets[i].assetKey != assets[j].assetKey
  }

  ghost predicate SeenKey(assets: seq<Asset>, n: nat, key: string)
    requires n <= |assets|
  {
    exists i :: 0 <= i < n && assets[i].assetKey == key
  }

  /** The protection map while the first `n` assets of `job` have been counted. */
  ghost predicate TracksPartly(m: map<string, Protected>, js: seq<Job>, job: Job, n: nat)
    requires n <= |job.assets|
  {
    && (forall k :: k in m <==> Used(js, k) || SeenKey(job.assets, n, k))
    && (forall k :: k in m ==>
          && m[k].assetKey == k
          && m[k].futureRefCount == RefCount(js, k) + (if SeenKey(job.assets, n, k) then 1 else 0)
          && if Used(js, k) then FirstUse(js, k, m[k].nextUseDistance) else m[k].nextUseDistance == |js| + 1)
  }

  method CountAssets(m0: map<string, Protected>, job: Job, ghost js: seq<Job>) returns (m: map<string, Protected>)
    requires Tracks(m0, js) && KeysDistinct(job.assets) && job.distance == |js| + 1
    ensures Tracks(m, js + [job])
  {
    m := m0;
    for n := 0 to |job.assets|
      invariant TracksPartly(m, js, job, n)
    {
      var key := job.assets[n].assetKey;
      ghost var before := m;
      var entry := if key in m then m[key] else Protected(key, 0, job.distance);
      entry := entry.(futureRefCount := entry.futureRefCount + 1);
      if job.distance < entry.nextUseDistance {
        entry := entry.(nextUseDistance := job.distance);
      }
      m := m[key := entry];
      TracksPartlyStep(before, m, js, job, n);
    }
    TracksWhole(m, js, job);
  }

  lemma {:induction false} TracksPartlyStep(
    m: map<string, Protected>, m': map<string, Protected>, js: seq<Job>, job: Job, n: nat)
    requires n < |job.assets| && TracksPartly(m, js, job, n) && KeysDistinct(job.assets)
    requires var key := job.assets[n].assetKey;
             var prior := if key in m then m[key] else Protected(key, 0, |js| + 1);
             m' == m[key := Protected(key, prior.futureRefCount + 1, prior.nextUseDistance)]
    ensures TracksPartly(m', js, job, n + 1)
  {
    var key := job.assets[n].assetKey;
    assert !SeenKey(job.assets, n, key);
    forall k ensures SeenKey(job.assets, n + 1, k) <==> SeenKey(job.assets, n, k) || k == key {
      SeenKeyStep(job.assets, n, k);
    }
    if !Used(js, key) {
      assert Users(js, key) == {};
    }
  }

  lemma {:induction false} SeenKeyStep(assets: seq<Asset>, n: nat, k: string)
    requires n < |assets|
    ensures SeenKey(assets, n + 1, k) <==> SeenKey(assets, n, k) || k == assets[n].assetKey
  {
    if k == assets[n].assetKey {
      assert 0 <= n < n + 1 && assets[n].assetKey == k;
    }
  }

  lemma {:induction false} TracksWhole(m: map<string, Protected>, js: seq<Job>, job: Job)
    requires TracksPartly(m, js, job, |job.assets|)
    ensures Tracks(m, js + [job])
  {
    forall k ensures k in m <==> Used(js + [job], k) {
      UsedStep(js, job, k);
    }
    forall k | k in m
      ensures m[k].assetKey == k && m[k].futureRefCount == RefCount(js + [job], k) &&
          FirstUse(js + [job], k, m[k].nextUseDistance)
    {
      CountStep(js, job, k);
      FirstUseStep(js, job, k, m[k].nextUseDistance);
    }
  }

  // ----- the planner

  /** Sorts a hard-horizon job into the prefetch or the deferred list, if it may be planned at all. */
  method Classify(job: Job) returns (ok: bool, deferred: bool)
    ensures ok <==> Reserved(job)
    ensures ok ==> (deferred <==> Unhashed(job))
  {
    if job.reservationId == "" {
      return false, false;
    }
    deferred := false;
    for i := 0 to |job.assets|
      invariant forall j :: 0 <= j < i ==> Fetchable(job.assets[j])
      invariant deferred <==> exists j :: 0 <= j < i && job.assets[j].sha256 == ""
    {
      var a := job.assets[i];
      if a.sizeBytes <= 0 {
        return false, false;
      }
      if a.sha256 == "" {
        if Text.Blank(a.sourceUri) {
          return false, false;
        }
        deferred := true;
      }
    }
    ok := true;
  }

  /** Everything the planner has accumulated so far. */
  datatype Progress = Progress(seen: set<string>, protect: map<string, Protected>, prefetch: seq<Job>,
      waiting: seq<Job>)

  ghost predicate SeenIds(seen: set<string>, js: seq<Job>) {
    forall x :: x in seen <==> exists i :: 0 <= i < |js| && js[i].jobId == x
  }

  ghost predicate UpTo(g: Progress, js: seq<Job>, cs: seq<Job>, h: nat) {
    && Admitted(js, h) && SeenIds(g.seen, js) && CanonQueue(cs, js)
    && Tracks(g.protect, cs)
    && g.prefetch == Split(Near(cs, h), false) && g.waiting == Split(Near(cs, h), true)
  }

  lemma {:induction false} AdmittedPrefix(js: seq<Job>, n: nat, h: int)
    requires n <= |js|
    ensures Admitted(js, h) ==> Admitted(js[..n], h)
  {}

  lemma {:induction false} AdmittedStep(js: seq<Job>, job: Job, h: int, seen: set<string>)
    requires Admitted(js, h) && SeenIds(seen, js)
    ensures Admitted(js + [job], h) <==> Sound(job, |js|, h) && job.jobId !in seen
  {
    var all := js + [job];
    assert all[|js|] == job && forall i :: 0 <= i < |js| ==> all[i] == js[i];
    Orders.PairwiseStep(OtherJob, js, job);
    if Admitted(all, h) {
      assert Sound(all[|js|], |js|, h);
    }
    if Sound(job, |js|, h) {
      assert forall i :: 0 <= i < |all| ==> Sound(all[i], i, h);
    }
  }

  lemma {:induction false} CanonStep(cs: seq<Job>, js: seq<Job>, c: Job, job: Job)
    requires CanonQueue(cs, js) && CanonOf(c, job, |js|)
    ensures CanonQueue(cs + [c], js + [job])
  {}

  lemma {:induction false} SplitStep(cs: seq<Job>, c: Job, h: nat, waiting: bool)
    ensures Split(Near(cs + [c], h), waiting) == Split(Near(cs, h), waiting) + if |cs| < h &&
        Unhashed(c) == waiting then [c] else []
  {
    if |cs| < h {
      assert Near(cs + [c], h) == Near(cs, h) + [c];
      assert (Near(cs, h) + [c])[..|Near(cs, h)|] == Near(cs, h);
    } else {
      assert Near(cs + [c], h) == Near(cs, h);
    }
  }

  lemma {:induction false} ManifestKeys(out: seq<Asset>, ts: seq<Asset>)
    requires IsManifest(out, ts)
    ensures KeysDistinct(out)
    ensures Consistent(ts) ==> forall i :: 0 <= i < |out| ==> out[i].assetKey != ""
  {
    forall i, j | 0 <= i < j < |out| ensures out[i].assetKey != out[j].assetKey {
      assert Orders.LexLess(out[i].assetKey, out[j].assetKey);
    }
    if Consistent(ts) {
      forall i | 0 <= i < |out| ensures out[i].assetKey != "" {
        assert out[i] in out;
        assert Latest(ts, out[i]);
      }
    }
  }

  /** One queue entry. */
  method PlanJob(g: Progress, job: Job, index: nat, h: nat, ghost js: seq<Job>, ghost cs: seq<Job>)
    returns (ok: bool, g': Progress, ghost c: Job)
    requires UpTo(g, js, cs, h) && index == |js|
    ensures ok <==> Admitted(js + [job], h)
    ensures ok ==> UpTo(g', js + [job], cs + [c], h)
  {
    AdmittedStep(js, job, h, g.seen);
    g', c := g, job;
    if !KnownIds(job) || job.jobId in g.seen {
      return false, g, job;
    }
    var canonical := CanonicalAssets(job.assets);
    if canonical.BadManifest? {
      return false, g, job;
    }
    var planned := job.(distance := index + 1, assets := canonical.assets);
    c := planned;
    ManifestKeys(planned.assets, TrimKeys(job.assets));
    CanonKeepsIntegrity(planned, job, index);
    var protect := CountAssets(g.protect, planned, cs);
    g' := g.(seen := g.seen + {job.jobId}, protect := protect);
    SeenStep(g.seen, js, job);
    CanonStep(cs, js, planned, job);
    SplitStep(cs, planned, h, false);
    SplitStep(cs, planned, h, true);
    if index < h {
      var reserved, deferred := Classify(planned);
      if !reserved {
        return false, g, job;
      }
      if deferred {
        g' := g'.(waiting := g.waiting + [planned]);
      } else {
        g' := g'.(prefetch := g.prefetch + [planned]);
      }
    }
    return true, g', planned;
  }

  lemma {:induction false} SeenStep(seen: set<string>, js: seq<Job>, job: Job)
    requires SeenIds(seen, js)
    ensures SeenIds(seen + {job.jobId}, js + [job])
  {
    var all := js + [job];
    assert all[|js|] == job && forall i :: 0 <= i < |js| ==> all[i] == js[i];
    forall x ensures x in seen + {job.jobId} <==> exists i :: 0 <= i < |all| && all[i].jobId == x {
      if x in seen {
        var i :| 0 <= i < |js| && js[i].jobId == x;
        assert all[i].jobId == x;
      }
      if x == job.jobId {
        assert all[|js|].jobId == x;
      }
    }
  }

  /** The first `n` queue entries are planned. */
  ghost predicate PlannedTo(g: Progress, jobs: seq<Job>, n: nat, cs: seq<Job>, h: nat)
    requires n <= |jobs|
  {
    UpTo(g, jobs[..n], cs, h)
  }

  lemma {:induction false} PlannedNone(jobs: seq<Job>, h: nat)
    ensures PlannedTo(Progress({}, map[], [], []), jobs, 0, [], h)
  {
    assert jobs[..0] == [];
  }

  lemma {:induction false} PlannedNext(jobs: seq<Job>, n: nat)
    requires n < |jobs|
    ensures jobs[..n] + [jobs[n]] == jobs[..n + 1]
  {}

  /** The loop over the queue. */
  method PlanJobs(jobs: seq<Job>, h: nat) returns (ok: bool, g: Progress, ghost cs: seq<Job>)
    ensures ok <==> Admitted(jobs, h)
    ensures ok ==> UpTo(g, jobs, cs, h)
  {
    g, cs := Progress({}, map[], [], []), [];
    PlannedNone(jobs, h);
    for i := 0 to |jobs|
      invariant PlannedTo(g, jobs, i, cs, h)
    {
      ghost var c;
      PlannedNext(jobs, i);
      ok, g, c := PlanJob(g, jobs[i], i, h, jobs[..i], cs);
      if !ok {
        AdmittedPrefix(jobs, i + 1, h);
        return;
      }
      cs := cs + [c];
    }
    assert jobs[..|jobs|] == jobs;
    ok := true;
  }

  datatype BuildResult = Built(plan: Plan) | Refused

  method Build(input: Input) returns (r: BuildResult, ghost cs: seq<Job>)
    ensures r.Built? <==> Plannable(input)
    ensures r.Built? ==> IsPlanFor(r.plan, input, cs)
  {
    var limits := input.limits.WithDefaults();
    if !Identified(input) || limits.prefetchHorizon > limits.protectionLookahead {
      return Refused, [];
    }
    var ok, g;
    ok, g, cs := PlanJobs(Considered(input), limits.prefetchHorizon);
    if !ok {
      return Refused, [];
    }
    var keys := KeySets.CollectSorted(g.protect.Keys);
    var protect := KeySets.Values(g.protect, keys);
    ProtectsFromMap(g.protect, protect, cs);
    r := Built(Plan(input.version, Text.Trim(input.planId), Text.Trim(input.workerId), input.generatedAt,
                    input.expiresAt, input.currentJob, g.prefetch, g.waiting, protect, limits));
  }

  lemma {:induction false} ProtectsFromMap(m: map<string, Protected>, protect: seq<Protected>, js: seq<Job>)
    requires Tracks(m, js) && protect == KeySets.Values(m, KeySets.SortedKeys(m.Keys))
    ensures Protects(protect, js)
  {
    var keys := KeySets.SortedKeys(m.Keys);
    KeySets.SortedKeysAscend(m.Keys);
    forall i | 0 <= i < |protect|
      ensures keys[i] in m && protect[i] == m[keys[i]] && protect[i].assetKey == keys[i]
    {
      assert keys[i] in keys;
    }
    forall i, j | 0 <= i < j < |protect| ensures Orders.LexLess(protect[i].assetKey, protect[j].assetKey) {
      assert Orders.LexLess(keys[i], keys[j]);
    }
    forall k ensures Used(js, k) <==> Listed(protect, k) {
      ListedWhenKey(protect, keys, k);
    }
  }

  lemma {:induction false} ListedWhenKey(protect: seq<Protected>, keys: seq<string>, k: string)
    requires |protect| == |keys| && forall i :: 0 <= i < |keys| ==> protect[i].assetKey == keys[i]
    ensures k in keys <==> Listed(protect, k)
  {
    if k in keys {
      var i :| 0 <= i < |keys| && keys[i] == k;
      assert protect[i].assetKey == k;
    }
  }
}
