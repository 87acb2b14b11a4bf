/** What the planner does with a queue, said of the queued jobs and the given limits alone. */
module FutureQueues {
  import opened FutureAssets
  import opened FuturePlans
  import Orders
  import Text

  /** How many queued jobs are looked at: ten unless a positive lookahead is given. */
  function Seen(input: Input): nat {
    var given := input.limits.protectionLookahead;
    var ahead := if given <= 0 then 10 else given;
    if |input.futureJobs| < ahead then |input.futureJobs| else ahead
  }

  /** How many of those are to be fetched: three unless a positive horizon is given. */
  function Hard(input: Input): nat {
    var given := input.limits.prefetchHorizon;
    if given <= 0 then 3 else given
  }

  /** The job lists an asset under the key, white space aside. */
  predicate Wants(job: Job, key: string) {
    exists k :: 0 <= k < |job.assets| && Text.Trim(job.assets[k].assetKey) == key
  }

  lemma {:induction false} SeenJobs(input: Input)
    ensures Seen(input) <= |input.futureJobs|
    ensures Considered(input) == input.futureJobs[..Seen(input)]
    ensures Hard(input) == input.limits.WithDefaults().prefetchHorizon
  {}

  // ----- acceptance

  /** Entries under one key describe the same bytes, and no key is blank. */
  ghost predicate Coherent(job: Job) {
    && (forall k :: 0 <= k < |job.assets| ==> Text.Trim(job.assets[k].assetKey) != "")
    && forall k, l :: 0 <= k < l < |job.assets| &&
                      Text.Trim(job.assets[k].assetKey) == Text.Trim(job.assets[l].assetKey) ==>
         && job.assets[k].sha256 == job.assets[l].sha256
         && job.assets[k].sizeBytes == job.assets[l].sizeBytes
         && job.assets[k].sourceUri == job.assets[l].sourceUri
  }

  /** A reserved job whose assets have a size and either a hash or a source. */
  ghost predicate Ready(job: Job) {
    && job.reservationId != ""
    && forall k :: 0 <= k < |job.assets| ==>
         job.assets[k].sizeBytes > 0 && (job.assets[k].sha256 != "" || !Text.Blank(job.assets[k].sourceUri))
  }

  lemma {:induction false} CoherentExactly(job: Job)
    ensures Coherent(job) <==> Consistent(TrimKeys(job.assets))
  {
    var ts := TrimKeys(job.assets);
    assert forall k :: 0 <= k < |ts| ==>
      && ts[k].assetKey == Text.Trim(job.assets[k].assetKey) && ts[k].sha256 == job.assets[k].sha256
      && ts[k].sizeBytes == job.assets[k].sizeBytes && ts[k].sourceUri == job.assets[k].sourceUri;
    if Coherent(job) {
      forall k, l | 0 <= k < l < |ts| && ts[k].assetKey == ts[l].assetKey ensures Agrees(ts[k], ts[l]) {
        assert Text.Trim(job.assets[k].assetKey) == Text.Trim(job.assets[l].assetKey);
      }
    }
    if Consistent(ts) {
      forall k, l | 0 <= k < l < |ts| && Text.Trim(job.assets[k].assetKey) == Text.Trim(job.assets[l].assetKey)
        ensures job.assets[k].sha256 == job.assets[l].sha256 && job.assets[k].sizeBytes == job.assets[l].sizeBytes
        ensures job.assets[k].sourceUri == job.assets[l].sourceUri
      {
        assert Agrees(ts[k], ts[l]);
      }
    }
  }

  ghost predicate JobFine(job: Job, i: nat, hard: nat) {
    && !Text.Blank(job.jobId) && !Text.Blank(job.taskId) && Coherent(job)
    && (i < hard ==> Ready(job))
  }

  ghost predicate HeaderFine(input: Input) {
    && !Text.Blank(input.workerId) && !Text.Blank(input.planId) && input.version > 0
    && input.generatedAt != 0 && input.expiresAt != 0 && input.generatedAt < input.expiresAt
    && Hard(input) <= (if input.limits.protectionLookahead <= 0 then 10 else input.limits.protectionLookahead)
  }

  /**
    The planner accepts a queue exactly when header and limits are sound, every job it looks at is sound
    and no two of them share an id.
   */
  lemma {:induction false} AcceptedExactly(input: Input)
    ensures Plannable(input) <==>
            && HeaderFine(input)
            && (forall i :: 0 <= i < Seen(input) ==> JobFine(input.futureJobs[i], i, Hard(input)))
            && (forall i, j :: 0 <= i < j < Seen(input) ==> input.futureJobs[i].jobId != input.futureJobs[j].jobId)
  {
    var js := Considered(input);
    SeenJobs(input);
    forall i | 0 <= i < Seen(input)
      ensures Sound(js[i], i, Hard(input)) <==> JobFine(input.futureJobs[i], i, Hard(input))
    {
      CoherentExactly(js[i]);
    }
    SeenApart(input);
  }

  lemma {:induction false} SeenApart(input: Input)
    ensures Orders.Pairwise(OtherJob, Considered(input)) <==>
            forall i, j :: 0 <= i < j < Seen(input) ==> input.futureJobs[i].jobId != input.futureJobs[j].jobId
  {
    var js := Considered(input);
    SeenJobs(input);
    if Orders.Pairwise(OtherJob, js) {
      forall i, j | 0 <= i < j < Seen(input) ensures input.futureJobs[i].jobId != input.futureJobs[j].jobId {
        assert OtherJob(js[i], js[j]);
      }
    }
  }

  /** The plan's header is the request's, identifiers trimmed and limits filled in. */
  lemma {:induction false} HeaderCopied(p: Plan, input: Input, cs: seq<Job>)
    requires IsPlanFor(p, input, cs)
    ensures p.version == input.version && p.currentJob == input.currentJob
    ensures p.planId == Text.Trim(input.planId) && p.workerId == Text.Trim(input.workerId)
    ensures p.generatedAt == input.generatedAt && p.expiresAt == input.expiresAt
    ensures p.limits.prefetchHorizon == Hard(input)
    ensures p.limits.protectionLookahead ==
            if input.limits.protectionLookahead <= 0 then 10 else input.limits.protectionLookahead
  {}

  // ----- protection

  lemma {:induction false} UsesWhenWanted(c: Job, job: Job, index: nat, key: string)
    requires CanonOf(c, job, index)
    ensures Uses(c, key) <==> Wants(job, key)
  {
    var ts := TrimKeys(job.assets);
    if Uses(c, key) {
      var n :| 0 <= n < |c.assets| && c.assets[n].assetKey == key;
      var k := ManifestFrom(c.assets, ts, n);
      assert Text.Trim(job.assets[k].assetKey) == key;
    }
    if Wants(job, key) {
      var k :| 0 <= k < |job.assets| && Text.Trim(job.assets[k].assetKey) == key;
      assert ts[k].assetKey == key;
      var a := LatestOf(ts, k);
      assert a in c.assets;
    }
  }

  /** The looked-at positions whose job wants the key. */
  ghost function Wanting(input: Input, key: string): set<int> {
    set i | 0 <= i < Seen(input) && Wants(input.futureJobs[i], key)
  }

  lemma {:induction false} WantingAreUsers(input: Input, cs: seq<Job>, key: string)
    requires CanonQueue(cs, Considered(input))
    ensures |cs| == Seen(input) <= |input.futureJobs|
    ensures forall i :: 0 <= i < |cs| ==> (Uses(cs[i], key) <==> Wants(input.futureJobs[i], key))
    ensures Users(cs, key) == Wanting(input, key)
  {
    SeenJobs(input);
    forall i | 0 <= i < |cs| ensures Uses(cs[i], key) <==> Wants(input.futureJobs[i], key) {
      assert CanonOf(cs[i], Considered(input)[i], i);
      UsesWhenWanted(cs[i], Considered(input)[i], i, key);
    }
  }

  /** A key is protected exactly when one of the jobs looked at wants it. */
  lemma {:induction false} ProtectedExactly(p: Plan, input: Input, cs: seq<Job>, key: string)
    requires IsPlanFor(p, input, cs)
    ensures (exists n :: 0 <= n < |p.protect| && p.protect[n].assetKey == key) <==>
            exists i :: 0 <= i < Seen(input) <= |input.futureJobs| && Wants(input.futureJobs[i], key)
  {
    WantingAreUsers(input, cs, key);
    assert Used(cs, key) <==> Listed(p.protect, key);
    if i :| 0 <= i < Seen(input) <= |input.futureJobs| && Wants(input.futureJobs[i], key) {
      assert Uses(cs[i], key);
    }
    if Used(cs, key) {
      var i :| 0 <= i < |cs| && Uses(cs[i], key);
      assert Wants(input.futureJobs[i], key);
    }
  }

  /** Its count is the number of those jobs, and its distance that of the first of them. */
  lemma {:induction false} ProtectedCounts(p: Plan, input: Input, cs: seq<Job>, n: nat)
    requires IsPlanFor(p, input, cs) && n < |p.protect|
    ensures var e := p.protect[n];
            && e.futureRefCount == |Wanting(input, e.assetKey)|
            && 1 <= e.nextUseDistance <= Seen(input) <= |input.futureJobs|
            && Wants(input.futureJobs[e.nextUseDistance - 1], e.assetKey)
            && forall i :: 0 <= i < e.nextUseDistance - 1 ==> !Wants(input.futureJobs[i], e.assetKey)
  {
    var e := p.protect[n];
    WantingAreUsers(input, cs, e.assetKey);
    assert FirstUse(cs, e.assetKey, e.nextUseDistance);
  }

  /** Protected keys are listed in ascending order, each once. */
  lemma {:induction false} ProtectedAscend(p: Plan, input: Input, cs: seq<Job>, i: nat, j: nat)
    requires IsPlanFor(p, input, cs) && i < j < |p.protect|
    ensures var a, b := p.protect[i].assetKey, p.protect[j].assetKey;
            a != b && (a <= b || exists k: nat :: Orders.SmallerAt(a, b, k))
  {
    assert Orders.LexLess(p.protect[i].assetKey, p.protect[j].assetKey);
    Orders.LexExactly(p.protect[i].assetKey, p.protect[j].assetKey);
  }

  // ----- the two lists

  /** An asset of the job has no hash yet. */
  predicate Waits(job: Job) {
    exists k :: 0 <= k < |job.assets| && job.assets[k].sha256 == ""
  }

  /** A planned job is the queued one, with its distance and its manifest. */
  predicate PlannedFrom(c: Job, job: Job, i: nat) {
    && c.jobId == job.jobId && c.taskId == job.taskId && c.reservationId == job.reservationId
    && c.taskRevision == job.taskRevision && c.distance == i + 1
  }

  /** Every job to be fetched is in one of the two lists, told apart by whether it waits for a hash. */
  lemma {:induction false} FetchedExactly(p: Plan, input: Input, cs: seq<Job>, i: nat)
    requires Plannable(input) && IsPlanFor(p, input, cs) && i < Seen(input) && i < Hard(input)
    ensures Seen(input) <= |input.futureJobs|
    ensures var job := input.futureJobs[i];
            exists c :: c in (if Waits(job) then p.deferredJobs else p.prefetchJobs) && PlannedFrom(c, job, i)
  {
    SeenJobs(input);
    var h := p.limits.prefetchHorizon;
    var job := Considered(input)[i];
    assert CanonOf(cs[i], job, i) && Sound(job, i, h);
    CanonKeepsIntegrity(cs[i], job, i);
    SplitMembers(Near(cs, h), Waits(job));
    assert Near(cs, h)[i] == cs[i];
    assert PlannedFrom(cs[i], job, i);
  }

  /** And the lists hold nothing else. */
  lemma {:induction false} NothingElseFetched(p: Plan, input: Input, cs: seq<Job>)
    requires IsPlanFor(p, input, cs)
    ensures |p.prefetchJobs| + |p.deferredJobs| == if Seen(input) < Hard(input) then Seen(input) else Hard(input)
  {
    SeenJobs(input);
    SplitConserves(Near(cs, p.limits.prefetchHorizon));
  }
}
