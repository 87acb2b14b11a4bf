/** What a received plan must satisfy and what a sent one carries, spelled out on the fields. */
module FutureRules {
  import opened Optional
  import opened FutureAssets
  import opened FuturePlans
  import Orders
  import Text

  /** Given limits count when they are positive; otherwise three jobs are fetched and ten looked at. */
  predicate LimitsAre(given: Limits, fetch: int, look: int) {
    && fetch == (if 0 < given.prefetchHorizon then given.prefetchHorizon else 3)
    && look == (if 0 < given.protectionLookahead then given.protectionLookahead else 10)
  }

  /** A job of a plan: identified, reserved, within reach and with one entry per key. */
  ghost predicate JobRules(j: Job, fetch: int) {
    && "" !in {j.jobId, j.taskId, j.reservationId} && 1 <= j.distance <= fetch
    && forall k, l :: 0 <= k < l < |j.assets| ==> j.assets[k].assetKey != j.assets[l].assetKey
  }

  /** Fetched by hash. */
  predicate HashedEntry(a: Asset) {
    "" !in {a.assetKey, a.sha256} && 1 <= a.sizeBytes
  }

  /** Fetched from its source. */
  predicate SourcedEntry(a: Asset) {
    "" !in {a.assetKey, a.assetId, Text.Trim(a.sourceUri)} && 1 <= a.sizeBytes
  }

  ghost predicate JobLists(p: Plan, fetch: int) {
    && |p.prefetchJobs| + |p.deferredJobs| <= fetch
    && (forall i :: 0 <= i < |p.prefetchJobs| ==>
          && JobRules(p.prefetchJobs[i], fetch)
          && forall k :: 0 <= k < |p.prefetchJobs[i].assets| ==> HashedEntry(p.prefetchJobs[i].assets[k]))
    && (forall i :: 0 <= i < |p.deferredJobs| ==>
          && JobRules(p.deferredJobs[i], fetch)
          && forall k :: 0 <= k < |p.deferredJobs[i].assets| ==> SourcedEntry(p.deferredJobs[i].assets[k]))
  }

  /** No job id occurs twice, within a list or across both. */
  ghost predicate IdsApart(p: Plan) {
    && (forall i, j :: 0 <= i < j < |p.prefetchJobs| ==> p.prefetchJobs[i].jobId != p.prefetchJobs[j].jobId)
    && (forall i, j :: 0 <= i < j < |p.deferredJobs| ==> p.deferredJobs[i].jobId != p.deferredJobs[j].jobId)
    && forall i, j :: 0 <= i < |p.prefetchJobs| && 0 <= j < |p.deferredJobs| ==>
         p.prefetchJobs[i].jobId != p.deferredJobs[j].jobId
  }

  ghost predicate ProtectRules(p: Plan, look: int) {
    && (forall i :: 0 <= i < |p.protect| ==>
          && p.protect[i].assetKey != "" && 1 <= p.protect[i].futureRefCount
          && 1 <= p.protect[i].nextUseDistance <= look)
    && forall i, j :: 0 <= i < j < |p.protect| ==> p.protect[i].assetKey != p.protect[j].assetKey
  }

  predicate HeaderRules(p: Plan) {
    && "" !in {p.workerId, p.planId} && 0 !in {p.version, p.generatedAt, p.expiresAt}
    && p.generatedAt < p.expiresAt
  }

  ghost predicate SnapshotRules(p: Plan, fetch: int, look: int) {
    HeaderRules(p) && JobLists(p, fetch) && IdsApart(p) && ProtectRules(p, look)
  }

  lemma {:induction false} EntriesExactly(a: Asset)
    ensures HashedEntry(a) <==> Verified(a)
    ensures SourcedEntry(a) <==> Locatable(a)
  {
    Text.BlankTrims(a.sourceUri);
  }

  ghost predicate AllEntries(j: Job, deferred: bool) {
    forall k :: 0 <= k < |j.assets| ==> if deferred then SourcedEntry(j.assets[k]) else HashedEntry(j.assets[k])
  }

  lemma {:induction false} JobExactly(j: Job, fetch: int, deferred: bool)
    ensures JobOk(j, fetch, deferred) <==> JobRules(j, fetch) && AllEntries(j, deferred)
  {
    forall k | 0 <= k < |j.assets|
      ensures HashedEntry(j.assets[k]) <==> Verified(j.assets[k])
      ensures SourcedEntry(j.assets[k]) <==> Locatable(j.assets[k])
    {
      EntriesExactly(j.assets[k]);
    }
    assert Orders.Pairwise(OtherKey, j.assets) ==>
      forall k, l :: 0 <= k < l < |j.assets| ==> OtherKey(j.assets[k], j.assets[l]);
  }

  lemma {:induction false} JobListExactly(jobs: seq<Job>, fetch: int, deferred: bool)
    ensures JobsOk(jobs, fetch, deferred) <==>
            forall i :: 0 <= i < |jobs| ==> JobRules(jobs[i], fetch) && AllEntries(jobs[i], deferred)
  {
    forall i | 0 <= i < |jobs|
      ensures JobOk(jobs[i], fetch, deferred) <==> JobRules(jobs[i], fetch) && AllEntries(jobs[i], deferred)
    {
      JobExactly(jobs[i], fetch, deferred);
    }
  }

  lemma {:induction false} IdsExactly(p: Plan)
    ensures Orders.Pairwise(OtherJob, p.prefetchJobs + p.deferredJobs) <==> IdsApart(p)
  {
    var n, all := |p.prefetchJobs|, p.prefetchJobs + p.deferredJobs;
    assert forall i :: 0 <= i < n ==> all[i] == p.prefetchJobs[i];
    assert forall i :: 0 <= i < |p.deferredJobs| ==> all[n + i] == p.deferredJobs[i];
    if Orders.Pairwise(OtherJob, all) {
      forall i, j | 0 <= i < j < |p.deferredJobs| ensures p.deferredJobs[i].jobId != p.deferredJobs[j].jobId {
        assert OtherJob(all[n + i], all[n + j]);
      }
      forall i, j | 0 <= i < n && 0 <= j < |p.deferredJobs|
        ensures p.prefetchJobs[i].jobId != p.deferredJobs[j].jobId
      {
        assert OtherJob(all[i], all[n + j]);
      }
      forall i, j | 0 <= i < j < n ensures p.prefetchJobs[i].jobId != p.prefetchJobs[j].jobId {
        assert OtherJob(all[i], all[j]);
      }
    }
    if IdsApart(p) {
      forall i, j | 0 <= i < j < |all| ensures OtherJob(all[i], all[j]) {
        assert j >= n ==> all[j] == p.deferredJobs[j - n];
        assert i >= n ==> all[i] == p.deferredJobs[i - n];
      }
    }
  }

  lemma {:induction false} ProtectExactly(p: Plan, look: int)
    ensures ProtectRules(p, look) <==>
            && (forall i :: 0 <= i < |p.protect| ==> EntryOk(p.protect[i], look))
            && Orders.Pairwise(OtherEntry, p.protect)
  {
    assert Orders.Pairwise(OtherEntry, p.protect) ==>
      forall i, j :: 0 <= i < j < |p.protect| ==> OtherEntry(p.protect[i], p.protect[j]);
  }

  /** A worker accepts exactly the snapshots that keep these rules. */
  lemma {:induction false} ValidExactly(p: Plan, fetch: int, look: int)
    requires LimitsAre(p.limits, fetch, look)
    ensures ValidPlan(p) <==> SnapshotRules(p, fetch, look)
  {
    JobListExactly(p.prefetchJobs, fetch, false);
    JobListExactly(p.deferredJobs, fetch, true);
    IdsExactly(p);
    ProtectExactly(p, look);
  }

  // ----- what is sent

  /** A number in a 32-bit field: itself where it fits, and always the same modulo 2^32. */
  predicate Carries(field: int, x: int) {
    -0x8000_0000 <= field < 0x8000_0000 && (field - x) % 0x1_0000_0000 == 0
  }

  predicate SentAsset(w: Option<WireAsset>, a: Asset) {
    && w.Some? && w.value.assetKey == a.assetKey && w.value.assetId == a.assetId && w.value.sha256 == a.sha256
    && w.value.sizeBytes == a.sizeBytes && w.value.mimeType == a.mimeType && w.value.role == a.role
    && w.value.sourceUri == a.sourceUri
  }

  ghost predicate SentJob(w: Option<WireJob>, j: Job) {
    && w.Some? && w.value.jobId == j.jobId && w.value.taskId == j.taskId
    && w.value.reservationId == j.reservationId && Carries(w.value.taskRevision, j.taskRevision)
    && Carries(w.value.distance, j.distance) && |w.value.assets| == |j.assets|
    && forall k :: 0 <= k < |j.assets| ==> SentAsset(w.value.assets[k], j.assets[k])
  }

  ghost predicate SentJobs(ws: seq<Option<WireJob>>, jobs: seq<Job>) {
    |ws| == |jobs| && forall i :: 0 <= i < |jobs| ==> SentJob(ws[i], jobs[i])
  }

  predicate SentProtected(w: Option<WireProtected>, e: Protected) {
    && w.Some? && w.value.assetKey == e.assetKey && Carries(w.value.futureRefCount, e.futureRefCount)
    && Carries(w.value.nextUseDistance, e.nextUseDistance)
  }

  lemma {:induction false} CarriesExactly(x: int)
    ensures Carries(Int32(x), x)
    ensures forall field :: Carries(field, x) ==> field == Int32(x)
  {}

  /** Every field of the message, by name. */
  lemma {:induction false} SentExactly(p: Plan, fetch: int, look: int)
    requires LimitsAre(p.limits, fetch, look)
    ensures var w := ToProto(p);
            && w.version == p.version && w.planId == p.planId && w.workerId == p.workerId
            && w.generatedAt == Some(p.generatedAt) && w.expiresAt == Some(p.expiresAt)
            && w.currentJobId == p.currentJob
            && SentJobs(w.prefetchJobs, p.prefetchJobs) && SentJobs(w.deferredJobs, p.deferredJobs)
            && |w.protectAssets| == |p.protect|
            && (forall i :: 0 <= i < |p.protect| ==> SentProtected(w.protectAssets[i], p.protect[i]))
            && Carries(w.prefetchHorizon, fetch) && Carries(w.protectionLookahead, look)
  {
    SentList(p.prefetchJobs);
    SentList(p.deferredJobs);
    CarriesExactly(fetch);
    CarriesExactly(look);
    forall i | 0 <= i < |p.protect| ensures SentProtected(ToProto(p).protectAssets[i], p.protect[i]) {
      CarriesExactly(p.protect[i].futureRefCount);
      CarriesExactly(p.protect[i].nextUseDistance);
    }
  }

  lemma {:induction false} SentList(jobs: seq<Job>)
    ensures SentJobs(EncodeJobs(jobs), jobs)
  {
    forall i | 0 <= i < |jobs| ensures SentJob(EncodeJobs(jobs)[i], jobs[i]) {
      CarriesExactly(jobs[i].taskRevision);
      CarriesExactly(jobs[i].distance);
    }
  }
}
