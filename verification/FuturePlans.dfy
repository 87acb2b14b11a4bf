/** Checking a received plan snapshot, and carrying it over the control stream. */
module FuturePlans {
  import opened Optional
  import opened FutureAssets
  import Orders
  import Text

  predicate Scheduled(job: Job, h: int) {
    0 < job.distance <= h && job.reservationId != "" && job.jobId != "" && job.taskId != ""
  }

  predicate Verified(a: Asset) {
    a.assetKey != "" && a.sizeBytes > 0 && a.sha256 != ""
  }

  predicate Locatable(a: Asset) {
    a.assetKey != "" && a.assetId != "" && a.sizeBytes > 0 && !Text.Blank(a.sourceUri)
  }

  predicate OtherKey(a: Asset, b: Asset) { a.assetKey != b.assetKey }

  /** A prefetch job (`deferred` false) or a source-only job (`deferred` true) as a worker accepts it. */
  ghost predicate JobOk(job: Job, h: int, deferred: bool) {
    && Scheduled(job, h)
    && (forall i :: 0 <= i < |job.assets| ==> if deferred then Locatable(job.assets[i]) else Verified(job.assets[i]))
    && Orders.Pairwise(OtherKey, job.assets)
  }

  ghost predicate JobsOk(jobs: seq<Job>, h: int, deferred: bool) {
    forall i :: 0 <= i < |jobs| ==> JobOk(jobs[i], h, deferred)
  }

  predicate EntryOk(p: Protected, lookahead: int) {
    p.assetKey != "" && p.futureRefCount > 0 && 0 < p.nextUseDistance <= lookahead
  }

  predicate OtherEntry(p: Protected, q: Protected) { p.assetKey != q.assetKey }

  predicate Headed(p: Plan) {
    && p.workerId != "" && p.planId != "" && p.version != 0
    && p.generatedAt != 0 && p.expiresAt != 0 && p.generatedAt < p.expiresAt
    && |p.prefetchJobs| + |p.deferredJobs| <= p.limits.WithDefaults().prefetchHorizon
  }

  /** A well-formed snapshot. */
  ghost predicate ValidPlan(p: Plan) {
    var limits := p.limits.WithDefaults();
    && Headed(p)
    && JobsOk(p.prefetchJobs, limits.prefetchHorizon, false)
    && JobsOk(p.deferredJobs, limits.prefetchHorizon, true)
    && Orders.Pairwise(OtherJob, p.prefetchJobs + p.deferredJobs)
    && (forall i :: 0 <= i < |p.protect| ==> EntryOk(p.protect[i], limits.protectionLookahead))
    && Orders.Pairwise(OtherEntry, p.protect)
  }

  // ----- the validator

  method CheckJob(job: Job, h: int, deferred: bool) returns (ok: bool)
    ensures ok <==> JobOk(job, h, deferred)
  {
    if !Scheduled(job, h) {
      return false;
    }
    var seen: set<string> := {};
    for i := 0 to |job.assets|
      invariant forall j :: 0 <= j < i ==> if deferred then Locatable(job.assets[j]) else Verified(job.assets[j])
      invariant forall x :: x in seen <==> exists j :: 0 <= j < i && job.assets[j].assetKey == x
      invariant forall j, k :: 0 <= j < k < i ==> OtherKey(job.assets[j], job.assets[k])
    {
      var a := job.assets[i];
      if (deferred && !Locatable(a)) || (!deferred && !Verified(a)) {
        return false;
      }
      if a.assetKey in seen {
        ghost var j :| 0 <= j < i && job.assets[j].assetKey == a.assetKey;
        assert !OtherKey(job.assets[j], job.assets[i]);
        return false;
      }
      seen := seen + {a.assetKey};
    }
    return true;
  }

  /** Checks one list; job ids must also differ from those of the lists before it. */
  method CheckJobs(jobs: seq<Job>, h: int, deferred: bool, seen0: set<string>, ghost before: seq<Job>)
    returns (ok: bool, seen: set<string>)
    requires SeenIds(seen0, before) && Orders.Pairwise(OtherJob, before)
    ensures ok <==> JobsOk(jobs, h, deferred) && Orders.Pairwise(OtherJob, before + jobs)
    ensures ok ==> SeenIds(seen, before + jobs)
  {
    seen := seen0;
    assert before + jobs[..0] == before;
    for i := 0 to |jobs|
      invariant JobsOk(jobs[..i], h, deferred)
      invariant Orders.Pairwise(OtherJob, before + jobs[..i]) && SeenIds(seen, before + jobs[..i])
    {
      var job := jobs[i];
      var good := CheckJob(job, h, deferred);
      JobStep(before, jobs, i, seen);
      if !good || job.jobId in seen {
        return false, seen;
      }
      seen := seen + {job.jobId};
    }
    assert jobs[..|jobs|] == jobs;
    return true, seen;
  }

  lemma {:induction false} JobStep(before: seq<Job>, jobs: seq<Job>, i: nat, seen: set<string>)
    requires i < |jobs| && Orders.Pairwise(OtherJob, before + jobs[..i]) && SeenIds(seen, before + jobs[..i])
    ensures Orders.Pairwise(OtherJob, before + jobs[..i + 1]) <==> jobs[i].jobId !in seen
    ensures SeenIds(seen + {jobs[i].jobId}, before + jobs[..i + 1])
    ensures Orders.Pairwise(OtherJob, before + jobs) ==> Orders.Pairwise(OtherJob, before + jobs[..i + 1])
  {
    var done := before + jobs[..i];
    assert before + jobs[..i + 1] == done + [jobs[i]];
    Orders.PairwiseStep(OtherJob, done, jobs[i]);
    SeenStep(seen, done, jobs[i]);
    var all := before + jobs;
    assert before + jobs[..i + 1] == all[..|done| + 1];
    Orders.PairwisePrefix(OtherJob, all, |done| + 1);
  }

  method CheckProtected(protect: seq<Protected>, lookahead: int) returns (ok: bool)
    ensures ok <==>
          (forall i :: 0 <= i < |protect| ==> EntryOk(protect[i], lookahead)) && Orders.Pairwise(OtherEntry, protect)
  {
    var seen: set<string> := {};
    for i := 0 to |protect|
      invariant forall j :: 0 <= j < i ==> EntryOk(protect[j], lookahead)
      invariant forall x :: x in seen <==> exists j :: 0 <= j < i && protect[j].assetKey == x
      invariant forall j, k :: 0 <= j < k < i ==> OtherEntry(protect[j], protect[k])
    {
      if !EntryOk(protect[i], lookahead) {
        return false;
      }
      if protect[i].assetKey in seen {
        ghost var j :| 0 <= j < i && protect[j].assetKey == protect[i].assetKey;
        assert !OtherEntry(protect[j], protect[i]);
        return false;
      }
      seen := seen + {protect[i].assetKey};
    }
    return true;
  }

  method Validate(p: Plan) returns (ok: bool)
    ensures ok <==> ValidPlan(p)
  {
    var limits := p.limits.WithDefaults();
    if !Headed(p) {
      return false;
    }
    var seen;
    assert [] + p.prefetchJobs == p.prefetchJobs;
    ok, seen := CheckJobs(p.prefetchJobs, limits.prefetchHorizon, false, {}, []);
    if !ok {
      Orders.PairwisePrefix(OtherJob, p.prefetchJobs + p.deferredJobs, |p.prefetchJobs|);
      assert (p.prefetchJobs + p.deferredJobs)[..|p.prefetchJobs|] == p.prefetchJobs;
      return;
    }
    ok, seen := CheckJobs(p.deferredJobs, limits.prefetchHorizon, true, seen, p.prefetchJobs);
    if !ok {
      return;
    }
    ok := CheckProtected(p.protect, limits.protectionLookahead);
  }

  // ----- built plans against the validator

  lemma {:induction false} SplitMembers(js: seq<Job>, waiting: bool)
    ensures forall c :: c in Split(js, waiting) <==> c in js && Unhashed(c) == waiting
  {
    if js == [] {
    } else {
      var n := |js| - 1;
      SplitMembers(js[..n], waiting);
      assert js == js[..n] + [js[n]];
    }
  }

  /** The two lists together hold each job of the hard horizon exactly once. */
  lemma {:induction false} SplitConserves(js: seq<Job>)
    ensures multiset(Split(js, false)) + multiset(Split(js, true)) == multiset(js)
    ensures |Split(js, false)| + |Split(js, true)| == |js|
  {
    if js == [] {
    } else {
      var n := |js| - 1;
      SplitConserves(js[..n]);
      assert js == js[..n] + [js[n]];
      var grows := Unhashed(js[n]);
      assert Split(js, grows) == Split(js[..n], grows) + [js[n]];
      assert Split(js, !grows) == Split(js[..n], !grows);
    }
  }

  /** Every job of the horizon appears in exactly one list, at the distance of its queue position. */
  lemma {:induction false} HorizonCovered(p: Plan, input: Input, cs: seq<Job>)
    requires Plannable(input) && IsPlanFor(p, input, cs)
    ensures var near := Near(cs, p.limits.prefetchHorizon);
            && multiset(p.prefetchJobs) + multiset(p.deferredJobs) == multiset(near)
            && (forall i :: 0 <= i < |near| ==>
                  near[i].distance == i + 1 && near[i].jobId == Considered(input)[i].jobId)
            && (forall j :: j in p.prefetchJobs ==> !Unhashed(j)) && (forall j :: j in p.deferredJobs ==> Unhashed(j))
  {
    var near := Near(cs, p.limits.prefetchHorizon);
    SplitConserves(near);
    SplitMembers(near, false);
    SplitMembers(near, true);
    forall i | 0 <= i < |near| ensures near[i].distance == i + 1 && near[i].jobId == Considered(input)[i].jobId {
      assert CanonOf(cs[i], Considered(input)[i], i);
    }
  }

  /** Everything a planned job satisfies by construction. */
  lemma {:induction false} PlannedJob(input: Input, cs: seq<Job>, i: nat)
    requires Plannable(input) && CanonQueue(cs, Considered(input))
    requires i < |cs| && i < input.limits.WithDefaults().prefetchHorizon
    ensures Scheduled(cs[i], input.limits.WithDefaults().prefetchHorizon)
    ensures Orders.Pairwise(OtherKey, cs[i].assets)
    ensures forall k :: 0 <= k < |cs[i].assets| ==> cs[i].assets[k].assetKey != "" && Fetchable(cs[i].assets[k])
  {
    var js := Considered(input);
    assert CanonOf(cs[i], js[i], i) && Sound(js[i], i, input.limits.WithDefaults().prefetchHorizon);
    CanonKeepsIntegrity(cs[i], js[i], i);
    ManifestKeys(cs[i].assets, TrimKeys(js[i].assets));
  }

  lemma {:induction false} PlannedIdsDiffer(input: Input, cs: seq<Job>)
    requires Plannable(input) && CanonQueue(cs, Considered(input))
    ensures Orders.Pairwise(OtherJob, cs)
  {
    var js := Considered(input);
    forall i, j | 0 <= i < j < |cs| ensures OtherJob(cs[i], cs[j]) {
      assert CanonOf(cs[i], js[i], i) && CanonOf(cs[j], js[j], j);
      assert OtherJob(js[i], js[j]);
    }
  }

  lemma {:induction false} PlannedProtection(input: Input, cs: seq<Job>, protect: seq<Protected>)
    requires Plannable(input) && CanonQueue(cs, Considered(input)) && Protects(protect, cs)
    ensures forall i :: 0 <= i < |protect| ==> EntryOk(protect[i], input.limits.WithDefaults().protectionLookahead)
    ensures Orders.Pairwise(OtherEntry, protect)
  {
    var js := Considered(input);
    forall i | 0 <= i < |protect| ensures EntryOk(protect[i], input.limits.WithDefaults().protectionLookahead) {
      var key, d := protect[i].assetKey, protect[i].nextUseDistance;
      assert FirstUse(cs, key, d);
      assert d - 1 in Users(cs, key);
      assert CanonOf(cs[d - 1], js[d - 1], d - 1);
      assert Sound(js[d - 1], d - 1, input.limits.WithDefaults().prefetchHorizon);
      ManifestKeys(cs[d - 1].assets, TrimKeys(js[d - 1].assets));
    }
    forall i, j | 0 <= i < j < |protect| ensures OtherEntry(protect[i], protect[j]) {
      assert Orders.LexLess(protect[i].assetKey, protect[j].assetKey);
    }
  }

  predicate Located(a: Asset) {
    a.assetId != "" && !Text.Blank(a.sourceUri)
  }

  /** Every asset of the jobs names an asset id and a source the worker can fetch from. */
  ghost predicate Hydratable(jobs: seq<Job>) {
    forall i, k :: 0 <= i < |jobs| && 0 <= k < |jobs[i].assets| ==> Located(jobs[i].assets[k])
  }

  lemma {:induction false} PlannedHeader(p: Plan, input: Input, cs: seq<Job>)
    requires Plannable(input) && IsPlanFor(p, input, cs)
    ensures Headed(p) && p.limits.WithDefaults() == p.limits
  {
    Text.BlankTrims(input.workerId);
    Text.BlankTrims(input.planId);
    SplitConserves(Near(cs, p.limits.prefetchHorizon));
  }

  lemma {:induction false} MemberOfNear(cs: seq<Job>, h: nat, waiting: bool, j: Job) returns (i: nat)
    requires j in Split(Near(cs, h), waiting)
    ensures i < |cs| && i < h && cs[i] == j && Unhashed(j) == waiting
  {
    SplitMembers(Near(cs, h), waiting);
    i :| 0 <= i < |Near(cs, h)| && Near(cs, h)[i] == j;
  }

  lemma {:induction false} PlannedPrefetch(p: Plan, input: Input, cs: seq<Job>)
    requires Plannable(input) && IsPlanFor(p, input, cs)
    ensures JobsOk(p.prefetchJobs, p.limits.prefetchHorizon, false)
  {
    var h := p.limits.prefetchHorizon;
    forall n | 0 <= n < |p.prefetchJobs| ensures JobOk(p.prefetchJobs[n], h, false) {
      var i := MemberOfNear(cs, h, false, p.prefetchJobs[n]);
      PlannedJob(input, cs, i);
    }
  }

  lemma {:induction false} PlannedDeferred(p: Plan, input: Input, cs: seq<Job>)
    requires Plannable(input) && IsPlanFor(p, input, cs)
    ensures JobsOk(p.deferredJobs, p.limits.prefetchHorizon, true) <==> Hydratable(p.deferredJobs)
  {
    var h := p.limits.prefetchHorizon;
    forall n | 0 <= n < |p.deferredJobs|
      ensures JobOk(p.deferredJobs[n], h, true) <==>
              forall k :: 0 <= k < |p.deferredJobs[n].assets| ==> Located(p.deferredJobs[n].assets[k])
    {
      var i := MemberOfNear(cs, h, true, p.deferredJobs[n]);
      PlannedJob(input, cs, i);
    }
  }

  lemma {:induction false} PlannedIdsOnce(p: Plan, input: Input, cs: seq<Job>)
    requires Plannable(input) && IsPlanFor(p, input, cs)
    ensures Orders.Pairwise(OtherJob, p.prefetchJobs + p.deferredJobs)
  {
    var near := Near(cs, p.limits.prefetchHorizon);
    PlannedIdsDiffer(input, cs);
    Orders.PairwisePrefix(OtherJob, cs, Min(|cs|, p.limits.prefetchHorizon));
    SplitConserves(near);
    Orders.PairwiseOfPermutation(OtherJob, near, p.prefetchJobs + p.deferredJobs);
  }

  /**
    A plan the planner built is accepted by the validator exactly when every asset of its deferred
    jobs names an asset id and a source; nothing else can go wrong.
   */
  lemma {:induction false} BuiltPlanValid(p: Plan, input: Input, cs: seq<Job>)
    requires Plannable(input) && IsPlanFor(p, input, cs)
    ensures ValidPlan(p) <==> Hydratable(p.deferredJobs)
  {
    PlannedHeader(p, input, cs);
    PlannedPrefetch(p, input, cs);
    PlannedDeferred(p, input, cs);
    PlannedIdsOnce(p, input, cs);
    PlannedProtection(input, cs, p.protect);
  }

  /** A queued job that will wait for a hash names, in the entry kept of each key, an id and a source. */
  ghost predicate JobLocated(job: Job) {
    Unhashed(job) ==> forall a :: Latest(TrimKeys(job.assets), a) ==> Located(a)
  }

  /** The same for all jobs inside the hard horizon, read off the queue. */
  ghost predicate QueueLocated(input: Input) {
    forall i :: 0 <= i < |Considered(input)| && i < input.limits.WithDefaults().prefetchHorizon ==>
      JobLocated(Considered(input)[i])
  }

  lemma {:induction false} CanonLocated(c: Job, job: Job, index: nat)
    requires CanonOf(c, job, index) && Consistent(TrimKeys(job.assets))
    ensures JobLocated(job) <==> (Unhashed(c) ==> Hydratable([c]))
  {
    CanonKeepsIntegrity(c, job, index);
    if Hydratable([c]) {
      forall a | Latest(TrimKeys(job.assets), a) ensures Located(a) {
        assert a in c.assets;
        var k :| 0 <= k < |c.assets| && c.assets[k] == a;
        assert Located([c][0].assets[k]);
      }
    }
    if JobLocated(job) && Unhashed(job) {
      forall k | 0 <= k < |c.assets| ensures Located(c.assets[k]) {
        assert c.assets[k] in c.assets;
      }
    }
  }

  lemma {:induction false} QueueDecides(p: Plan, input: Input, cs: seq<Job>)
    requires Plannable(input) && IsPlanFor(p, input, cs)
    ensures Hydratable(p.deferredJobs) <==> QueueLocated(input)
  {
    var h := p.limits.prefetchHorizon;
    var js := Considered(input);
    forall i | 0 <= i < |js| && i < h
      ensures JobLocated(js[i]) <==> (Unhashed(cs[i]) ==> Hydratable([cs[i]]))
      ensures Unhashed(cs[i]) ==> cs[i] in p.deferredJobs
    {
      assert Sound(js[i], i, h) && CanonOf(cs[i], js[i], i);
      CanonLocated(cs[i], js[i], i);
      SplitMembers(Near(cs, h), true);
      assert Near(cs, h)[i] == cs[i];
    }
    if QueueLocated(input) {
      forall n, k | 0 <= n < |p.deferredJobs| && 0 <= k < |p.deferredJobs[n].assets|
        ensures Located(p.deferredJobs[n].assets[k])
      {
        var i := MemberOfNear(cs, h, true, p.deferredJobs[n]);
        assert JobLocated(js[i]);
        assert Located([cs[i]][0].assets[k]);
      }
    }
    if Hydratable(p.deferredJobs) {
      forall i | 0 <= i < |js| && i < h ensures JobLocated(js[i]) {
        if Unhashed(cs[i]) {
          var n :| 0 <= n < |p.deferredJobs| && p.deferredJobs[n] == cs[i];
          assert Hydratable([p.deferredJobs[n]]);
        }
      }
    }
  }

  /** Whether the planner's output will be refused can be told from the queue beforehand. */
  lemma {:induction false} QueuePlansValidly(p: Plan, input: Input, cs: seq<Job>)
    requires Plannable(input) && IsPlanFor(p, input, cs)
    ensures ValidPlan(p) <==> QueueLocated(input)
  {
    BuiltPlanValid(p, input, cs);
    QueueDecides(p, input, cs);
  }

  /** A hashed asset without a source beside one still to be hashed. */
  predicate Lopsided(job: Job) {
    && |job.assets| == 2 && KnownIds(job) && job.reservationId != ""
    && (forall i :: 0 <= i < 2 ==>
          job.assets[i].assetKey != "" && Text.Trimmed(job.assets[i].assetKey) && job.assets[i].sizeBytes > 0)
    && job.assets[0].assetKey != job.assets[1].assetKey
    && job.assets[0].sha256 != "" && Text.Blank(job.assets[0].sourceUri)
    && job.assets[1].sha256 == "" && !Text.Blank(job.assets[1].sourceUri)
  }

  lemma {:induction false} LopsidedJob(job: Job)
    requires Lopsided(job)
    ensures Sound(job, 0, DEFAULT_PREFETCH_HORIZON) && !JobLocated(job)
  {
    Text.TrimOfTrimmed(job.assets[0].assetKey);
    Text.TrimOfTrimmed(job.assets[1].assetKey);
    var ts := TrimKeys(job.assets);
    assert ts[0] == job.assets[0] && ts[1] == job.assets[1];
    assert Latest(ts, ts[0]) && !Located(ts[0]);
    assert Unhashed(job);
  }

  /** A family of queues that the planner accepts and whose plan is then refused. */
  lemma {:induction false} RefusedQueue(input: Input, job: Job, p: Plan, cs: seq<Job>)
    requires Identified(input) && input.futureJobs == [job] && input.limits == Limits(0, 0) && Lopsided(job)
    requires IsPlanFor(p, input, cs)
    ensures Plannable(input) && !ValidPlan(p)
  {
    LopsidedJob(job);
    assert Considered(input) == [job];
    assert !JobLocated(Considered(input)[0]);
    QueuePlansValidly(p, input, cs);
  }

  // ----- the wire

  datatype WireAsset = WireAsset(assetKey: string, assetId: string, sha256: string, sizeBytes: int, mimeType: string,
      role: string, sourceUri: string)
  datatype WireJob = WireJob(jobId: string, taskId: string, reservationId: string, taskRevision: int, distance: int,
      assets: seq<Option<WireAsset>>)
  datatype WireProtected = WireProtected(assetKey: string, futureRefCount: int, nextUseDistance: int)

  /** The protobuf message; repeated message fields may hold nil entries. */
  datatype WirePlan = WirePlan(
    version: nat,
    planId: string,
    workerId: string,
    generatedAt: Option<int>,
    expiresAt: Option<int>,
    currentJobId: string,
    prefetchJobs: seq<Option<WireJob>>,
    deferredJobs: seq<Option<WireJob>>,
    protectAssets: seq<Option<WireProtected>>,
    prefetchHorizon: int,
    protectionLookahead: int)

  const TWO31 := 0x8000_0000
  const TWO32 := 0x1_0000_0000

  /** Go's int32 conversion. */
  function Int32(x: int): int {
    if -TWO31 <= x < TWO31 then x else (x + TWO31) % TWO32 - TWO31
  }

  function EncodeAsset(a: Asset): Option<WireAsset> {
    Some(WireAsset(a.assetKey, a.assetId, a.sha256, a.sizeBytes, a.mimeType, a.role, a.sourceUri))
  }

  function EncodeJob(j: Job): Option<WireJob> {
    Some(WireJob(j.jobId, j.taskId, j.reservationId, Int32(j.taskRevision), Int32(j.distance),
                 seq(|j.assets|, i requires 0 <= i < |j.assets| => EncodeAsset(j.assets[i]))))
  }

  function EncodeJobs(js: seq<Job>): seq<Option<WireJob>> {
    seq(|js|, i requires 0 <= i < |js| => EncodeJob(js[i]))
  }

  function EncodeProtected(p: Protected): Option<WireProtected> {
    Some(WireProtected(p.assetKey, Int32(p.futureRefCount), Int32(p.nextUseDistance)))
  }

  function ToProto(p: Plan): WirePlan {
    var limits := p.limits.WithDefaults();
    WirePlan(p.version, p.planId, p.workerId, Some(p.generatedAt), Some(p.expiresAt), p.currentJob,
             EncodeJobs(p.prefetchJobs), EncodeJobs(p.deferredJobs),
             seq(|p.protect|, i requires 0 <= i < |p.protect| => EncodeProtected(p.protect[i])),
             Int32(limits.prefetchHorizon), Int32(limits.protectionLookahead))
  }

  ghost predicate AssetsPresent(ws: seq<Option<WireAsset>>) {
    forall i :: 0 <= i < |ws| ==> ws[i].Some?
  }

  ghost predicate JobPresent(w: Option<WireJob>) {
    w.Some? && AssetsPresent(w.value.assets)
  }

  ghost predicate JobsPresent(ws: seq<Option<WireJob>>) {
    forall i :: 0 <= i < |ws| ==> JobPresent(ws[i])
  }

  /** Timestamps are set and no list has a nil entry. */
  ghost predicate Present(w: WirePlan) {
    && w.generatedAt.Some? && w.expiresAt.Some?
    && JobsPresent(w.prefetchJobs) && JobsPresent(w.deferredJobs)
    && (forall i :: 0 <= i < |w.protectAssets| ==> w.protectAssets[i].Some?)
  }

  function DecodeAsset(w: WireAsset): Asset {
    Asset(w.assetKey, w.assetId, w.sha256, w.sizeBytes, w.mimeType, w.role, w.sourceUri)
  }

  ghost function DecodeJob(w: Option<WireJob>): Job
    requires JobPresent(w)
  {
    var j := w.value;
    Job(j.jobId, j.taskId, j.reservationId, j.taskRevision, j.distance,
        seq(|j.assets|, i requires 0 <= i < |j.assets| => DecodeAsset(j.assets[i].value)))
  }

  ghost function DecodeJobs(ws: seq<Option<WireJob>>): seq<Job>
    requires JobsPresent(ws)
  {
    seq(|ws|, i requires 0 <= i < |ws| => DecodeJob(ws[i]))
  }

  function DecodeProtected(w: WireProtected): Protected {
    Protected(w.assetKey, w.futureRefCount, w.nextUseDistance)
  }

  ghost function Decode(w: WirePlan): Plan
    requires Present(w)
  {
    Plan(w.version, w.planId, w.workerId, w.generatedAt.value, w.expiresAt.value, w.currentJobId,
         DecodeJobs(w.prefetchJobs), DecodeJobs(w.deferredJobs),
         seq(|w.protectAssets|, i requires 0 <= i < |w.protectAssets| => DecodeProtected(w.protectAssets[i].value)),
         Limits(w.prefetchHorizon, w.protectionLookahead))
  }

  method ReadAssets(ws: seq<Option<WireAsset>>) returns (ok: bool, assets: seq<Asset>)
    ensures ok <==> AssetsPresent(ws)
    ensures ok ==> |assets| == |ws| && forall i :: 0 <= i < |ws| ==> assets[i] == DecodeAsset(ws[i].value)
  {
    assets := [];
    for i := 0 to |ws|
      invariant |assets| == i && forall j :: 0 <= j < i ==> ws[j].Some? && assets[j] == DecodeAsset(ws[j].value)
    {
      if ws[i].None? {
        return false, assets;
      }
      assets := assets + [DecodeAsset(ws[i].value)];
    }
    return true, assets;
  }

  method ReadJobs(ws: seq<Option<WireJob>>) returns (ok: bool, jobs: seq<Job>)
    ensures ok <==> JobsPresent(ws)
    ensures ok ==> jobs == DecodeJobs(ws)
  {
    jobs := [];
    for i := 0 to |ws|
      invariant |jobs| == i && forall j :: 0 <= j < i ==> JobPresent(ws[j]) && jobs[j] == DecodeJob(ws[j])
    {
      if ws[i].None? {
        return false, jobs;
      }
      var w := ws[i].value;
      var present, assets := ReadAssets(w.assets);
      if !present {
        return false, jobs;
      }
      jobs := jobs + [Job(w.jobId, w.taskId, w.reservationId, w.taskRevision, w.distance, assets)];
    }
    return true, jobs;
  }

  method FromProto(w: WirePlan) returns (r: Option<Plan>)
    ensures r.Some? <==> Present(w) && ValidPlan(Decode(w))
    ensures r.Some? ==> r.value == Decode(w)
  {
    if w.generatedAt.None? || w.expiresAt.None? {
      return None;
    }
    var ok, prefetch := ReadJobs(w.prefetchJobs);
    if !ok {
      return None;
    }
    var deferred;
    ok, deferred := ReadJobs(w.deferredJobs);
    if !ok {
      return None;
    }
    var protect := [];
    for i := 0 to |w.protectAssets|
      invariant |protect| == i
      invariant forall j :: 0 <= j < i ==>
            w.protectAssets[j].Some? && protect[j] == DecodeProtected(w.protectAssets[j].value)
    {
      if w.protectAssets[i].None? {
        return None;
      }
      protect := protect + [DecodeProtected(w.protectAssets[i].value)];
    }
    var p := Plan(w.version, w.planId, w.workerId, w.generatedAt.value, w.expiresAt.value, w.currentJobId,
                  prefetch, deferred, protect, Limits(w.prefetchHorizon, w.protectionLookahead));
    assert p == Decode(w);
    ok := Validate(p);
    return if ok then Some(p) else None;
  }

  // ----- round trip

  predicate Is32(x: int) { -TWO31 <= x < TWO31 }

  ghost predicate JobsFit(js: seq<Job>) {
    forall i :: 0 <= i < |js| ==> Is32(js[i].taskRevision) && Is32(js[i].distance)
  }

  /** Every number survives the wire's 32-bit fields, and the limits carry no defaults to fill in. */
  ghost predicate WireSized(p: Plan) {
    && JobsFit(p.prefetchJobs) && JobsFit(p.deferredJobs)
    && (forall i :: 0 <= i < |p.protect| ==> Is32(p.protect[i].futureRefCount) && Is32(p.protect[i].nextUseDistance))
    && p.limits.WithDefaults() == p.limits && Is32(p.limits.prefetchHorizon) && Is32(p.limits.protectionLookahead)
  }

  lemma {:induction false} JobTrip(j: Job)
    ensures JobPresent(EncodeJob(j))
    ensures DecodeJob(EncodeJob(j)) == j.(taskRevision := Int32(j.taskRevision), distance := Int32(j.distance))
  {
    assert DecodeJob(EncodeJob(j)).assets == j.assets;
  }

  lemma {:induction false} JobsTrip(js: seq<Job>)
    ensures JobsPresent(EncodeJobs(js))
    ensures DecodeJobs(EncodeJobs(js)) == js <==> JobsFit(js)
  {
    forall i | 0 <= i < |js| ensures JobPresent(EncodeJobs(js)[i]) {
      JobTrip(js[i]);
    }
    var back := DecodeJobs(EncodeJobs(js));
    forall i | 0 <= i < |js| ensures back[i] == js[i] <==> Is32(js[i].taskRevision) && Is32(js[i].distance) {
      JobTrip(js[i]);
    }
    if JobsFit(js) {
      assert back == js;
    }
  }

  lemma {:induction false} ProtectTrip(ps: seq<Protected>, back: seq<Protected>)
    requires |back| == |ps| && forall i :: 0 <= i < |ps| ==> back[i] == DecodeProtected(EncodeProtected(ps[i]).value)
    ensures back == ps <==> forall i :: 0 <= i < |ps| ==> Is32(ps[i].futureRefCount) && Is32(ps[i].nextUseDistance)
  {
    forall i | 0 <= i < |ps| ensures back[i] == ps[i] <==> Is32(ps[i].futureRefCount) && Is32(ps[i].nextUseDistance) {
    }
  }

  /** What is sent is received unchanged exactly when it fits the wire; the receiver then also accepts it. */
  lemma {:induction false} RoundTrip(p: Plan)
    ensures Present(ToProto(p))
    ensures Decode(ToProto(p)) == p <==> WireSized(p)
    ensures Decode(ToProto(p)) == p && ValidPlan(Decode(ToProto(p))) <==> WireSized(p) && ValidPlan(p)
  {
    JobsTrip(p.prefetchJobs);
    JobsTrip(p.deferredJobs);
    var back := Decode(ToProto(p));
    ProtectTrip(p.protect, back.protect);
  }
}
