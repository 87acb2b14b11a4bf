/**
  The compiled render plan: its validator, which collects every violation, against a declarative
  notion of a well-formed plan.
 */
module CompiledPlan {
  import opened Optional
  import opened FrameTime
  import Orders
  import Text
  import Manifest
  import VisualTimeline

  type Segment = VisualTimeline.Segment

  const PLAN_VERSION := 2
  const DURATION_TOLERANCE_US := 1_000

  datatype StockPool = StockPool(sourceKind: string, driveFolderId: string, selection: string)

  datatype Output = Output(
    container: string,
    videoCodec: string,
    width: int,
    height: int,
    fpsNum: int,
    fpsDen: int,
    pixelFormat: string,
    profileId: string,
    codecProfile: string,
    codecLevel: string,
    gopSize: int,
    bFrames: int,
    closedGop: bool,
    timeBaseNum: int,
    timeBaseDen: int)

  datatype FinalAudio = FinalAudio(
    mode: string,
    assetId: string,
    sha256: string,
    sizeBytes: int,
    codec: string,
    sampleRateHz: int,
    channels: int,
    durationUS: int,
    timelineRevision: int,
    timelineSha256: string)

  datatype Track = Track(trackId: string, segments: seq<Segment>)

  datatype AssetRef = AssetRef(
    assetId: string,
    assetKey: string,
    sourceKind: string,
    driveFileId: string,
    sha256: string,
    sizeBytes: int,
    kind: string,
    mime: string,
    durationUS: int,
    width: int,
    height: int,
    profileId: string,
    frameCount: int,
    timelineRevision: int,
    timelineSha256: string,
    timelineStartFrame: int,
    firstFrameKeyframe: bool,
    closedGop: bool)

  datatype Plan = Plan(
    planVersion: int,
    timelineRevision: int,
    timelineSha256: string,
    durationUS: int,
    output: Output,
    finalAudio: FinalAudio,
    tracks: seq<Track>,
    stockPool: Option<StockPool>,
    assets: seq<AssetRef>)

  // ----- scalar checks

  predicate LowerHex(c: char) {
    '0' <= c <= '9' || 'a' <= c <= 'f'
  }

  predicate LowerSha256(s: string) {
    |s| == 64 && forall i :: 0 <= i < |s| ==> LowerHex(s[i])
  }

  /** The difference is taken in 64 bits; it is the true one whenever both durations are non-negative. */
  predicate Within(left: int, right: int, tolerance: int) {
    if left >= right then Wrap64(left - right) <= tolerance else Wrap64(right - left) <= tolerance
  }

  /** The sum of two non-negative 64-bit values, if it is one. */
  function NonNegativeSum(left: int, right: int): Option<int> {
    if left < 0 || right < 0 || left > TWO63 - 1 - right then None else Some(left + right)
  }

  function OutputFrameCount(durationUS: int, num: int, den: int): Option<int> {
    if durationUS <= 0 || num <= 0 || den <= 0 then None
    else
      var n := Manifest.OutputFrames(durationUS, Rate(num, den));
      if n >= TWO63 then None else Some(n)
  }

  function Lower(c: char): char {
    if 'A' <= c <= 'Z' then c - 'A' + 'a' else if c == '\U{130}' then 'i' else c
  }

  /** strings.HasPrefix(strings.ToLower(s), prefix) for an ASCII prefix. */
  predicate HasLowerPrefix(s: string, prefix: string) {
    |prefix| <= |s| && forall i :: 0 <= i < |prefix| ==> Lower(s[i]) == prefix[i]
  }

  predicate DeferredDriveVideo(a: AssetRef) {
    && a.kind == "video"
    && ((a.sourceKind == "drive" && !Text.Blank(a.driveFileId)) || HasLowerPrefix(Text.Trim(a.assetId), "drive:"))
  }

  // ----- a well-formed plan

  predicate HeaderOk(p: Plan) {
    p.planVersion == PLAN_VERSION && p.timelineRevision > 0 && LowerSha256(p.timelineSha256) && p.durationUS > 0
  }

  predicate OutputOk(o: Output) {
    && o.container == "mp4" && !Text.Blank(o.videoCodec)
    && o.width > 0 && o.height > 0 && o.fpsNum > 0 && o.fpsDen > 0
  }

  predicate AudioOk(p: Plan) {
    var a := p.finalAudio;
    && a.mode == "FINAL_AUDIO_COPY" && !Text.Blank(a.assetId) && LowerSha256(a.sha256) && a.sizeBytes > 0
    && a.codec == "aac" && a.sampleRateHz == 48_000 && a.channels == 2
    && a.durationUS > 0 && (p.durationUS > 0 ==> Within(a.durationUS, p.durationUS, DURATION_TOLERANCE_US))
    && a.timelineRevision == p.timelineRevision && a.timelineSha256 == p.timelineSha256
  }

  predicate PoolOk(pool: StockPool) {
    pool.sourceKind == "drive" && !Text.Blank(pool.driveFolderId) && pool.selection == "shuffle"
  }

  predicate Media(kind: string) {
    kind == "video" || kind == "prepared_video_fragment" || kind == "final_audio"
  }

  predicate AssetOk(a: AssetRef) {
    && !Text.Blank(a.assetId)
    && (DeferredDriveVideo(a) || (LowerSha256(a.sha256) && a.sizeBytes > 0))
    && (a.sourceKind == "" || (a.sourceKind == "drive" && DeferredDriveVideo(a)))
    && !Text.Blank(a.kind)
    && a.durationUS >= 0 && a.width >= 0 && a.height >= 0
    && (Media(a.kind) ==> a.durationUS > 0)
  }

  /** The final audio matches the asset it names. */
  predicate AudioMatches(audio: FinalAudio, a: AssetRef) {
    && a.kind == "final_audio" && a.sha256 == audio.sha256 && a.sizeBytes == audio.sizeBytes
    && (a.durationUS > 0 ==> Within(a.durationUS, audio.durationUS, DURATION_TOLERANCE_US))
  }

  /** The segment's source is a video asset with the same content that is long enough. */
  predicate SourceMatches(s: Segment, a: AssetRef) {
    && (a.kind == "video" || a.kind == "prepared_video_fragment")
    && (DeferredDriveVideo(a) || (LowerSha256(s.sha256) && s.sha256 == a.sha256))
    && NonNegativeSum(s.sourceIn, s.sourceDuration).Some?
    && s.sourceIn + s.sourceDuration <= a.durationUS
  }

  /** The segment lies inside the output, if the number of output frames is known. */
  predicate PlacementOk(s: Segment, total: Option<int>) {
    && s.start >= 0 && s.count > 0
    && NonNegativeSum(s.start, s.count).Some?
    && (total.Some? ==> s.start + s.count <= total.value)
  }

  predicate SlotOk(s: Segment) {
    s.assetId == "" && s.sha256 == "" && s.sourceIn == 0 && s.sourceDuration == 0
  }

  predicate Names(a: AssetRef, id: string) { a.assetId == id }

  ghost predicate SegmentOk(s: Segment, assets: seq<AssetRef>, total: Option<int>) {
    && !Text.Blank(s.segmentId) && PlacementOk(s, total)
    && if s.stockPoolSlot then SlotOk(s)
       else
         && s.sourceIn >= 0 && s.sourceDuration > 0
         && exists a :: a in assets && Names(a, s.assetId) && SourceMatches(s, a)
  }

  function AllSegments(tracks: seq<Track>): seq<Segment> {
    if tracks == [] then [] else AllSegments(tracks[..|tracks| - 1]) + tracks[|tracks| - 1].segments
  }

  predicate OtherAsset(a: AssetRef, b: AssetRef) { a.assetId != b.assetId }
  predicate OtherTrack(t: Track, u: Track) { t.trackId != u.trackId }
  predicate OtherSegment(s: Segment, t: Segment) { s.segmentId != t.segmentId }

  ghost predicate AssetsOk(assets: seq<AssetRef>) {
    assets != [] && (forall a :: a in assets ==> AssetOk(a)) && Orders.Pairwise(OtherAsset, assets)
  }

  ghost predicate AudioReferenced(audio: FinalAudio, assets: seq<AssetRef>) {
    exists a :: a in assets && Names(a, audio.assetId) && AudioMatches(audio, a)
  }

  ghost predicate TracksOk(tracks: seq<Track>, assets: seq<AssetRef>, total: Option<int>) {
    && tracks != []
    && (forall i :: 0 <= i < |tracks| ==> !Text.Blank(tracks[i].trackId) && tracks[i].segments != [])
    && Orders.Pairwise(OtherTrack, tracks)
    && (forall s :: s in AllSegments(tracks) ==> SegmentOk(s, assets, total))
    && Orders.Pairwise(OtherSegment, AllSegments(tracks))
  }

  ghost predicate HasSlot(tracks: seq<Track>) {
    exists s :: s in AllSegments(tracks) && s.stockPoolSlot
  }

  ghost predicate WellFormed(p: Plan) {
    && HeaderOk(p) && OutputOk(p.output) && AudioOk(p)
    && AssetsOk(p.assets)
    && AudioReferenced(p.finalAudio, p.assets)
    && TracksOk(p.tracks, p.assets, OutputFrameCount(p.durationUS, p.output.fpsNum, p.output.fpsDen))
    && (p.stockPool.Some? ==> PoolOk(p.stockPool.value) && HasSlot(p.tracks))
  }

  // ----- the validator

  /** Issue codes of the violations found so far. */
  type Violations = seq<string>

  function Check(v: Violations, ok: bool, issue: string): (r: Violations)
    ensures |r| == |v| + if ok then 0 else 1
  {
    if ok then v else v + [issue]
  }

  method ValidateHeader(p: Plan) returns (v: Violations)
    ensures v == [] <==> HeaderOk(p)
  {
    v := Check([], p.planVersion == PLAN_VERSION, "unsupported_version");
    v := Check(v, p.timelineRevision > 0, "out_of_range");
    v := Check(v, LowerSha256(p.timelineSha256), "invalid_sha256");
    v := Check(v, p.durationUS > 0, "out_of_range");
  }

  method ValidateOutput(v: Violations, o: Output) returns (r: Violations)
    ensures |r| >= |v| && (|r| == |v| <==> OutputOk(o))
  {
    r := Check(v, o.container == "mp4", "unsupported_value");
    r := Check(r, !Text.Blank(o.videoCodec), "required");
    r := Check(r, o.width > 0, "out_of_range");
    r := Check(r, o.height > 0, "out_of_range");
    r := Check(r, o.fpsNum > 0, "out_of_range");
    r := Check(r, o.fpsDen > 0, "out_of_range");
  }

  method ValidateAudio(v: Violations, p: Plan) returns (r: Violations)
    ensures |r| >= |v| && (|r| == |v| <==> AudioOk(p))
  {
    var a := p.finalAudio;
    r := Check(v, a.mode == "FINAL_AUDIO_COPY", "unsupported_value");
    r := Check(r, !Text.Blank(a.assetId), "required");
    r := Check(r, LowerSha256(a.sha256), "invalid_sha256");
    r := Check(r, a.sizeBytes > 0, "out_of_range");
    r := Check(r, a.codec == "aac", "unsupported_value");
    r := Check(r, a.sampleRateHz == 48_000, "unsupported_value");
    r := Check(r, a.channels == 2, "unsupported_value");
    if a.durationUS <= 0 {
      r := r + ["out_of_range"];
    } else if p.durationUS > 0 && !Within(a.durationUS, p.durationUS, DURATION_TOLERANCE_US) {
      r := r + ["duration_mismatch"];
    }
    r := Check(r, a.timelineRevision == p.timelineRevision, "timeline_revision_mismatch");
    r := Check(r, a.timelineSha256 == p.timelineSha256, "timeline_hash_mismatch");
  }

  method ValidatePool(v: Violations, pool: StockPool) returns (r: Violations)
    ensures |r| >= |v| && (|r| == |v| <==> PoolOk(pool))
  {
    r := Check(v, pool.sourceKind == "drive", "unsupported_value");
    r := Check(r, !Text.Blank(pool.driveFolderId), "required");
    r := Check(r, pool.selection == "shuffle", "unsupported_value");
  }

  method ValidateAsset(v: Violations, a: AssetRef) returns (r: Violations)
    ensures |r| >= |v| && (|r| == |v| <==> AssetOk(a))
  {
    var deferred := DeferredDriveVideo(a);
    r := Check(v, !Text.Blank(a.assetId), "required");
    r := Check(r, deferred || LowerSha256(a.sha256), "invalid_sha256");
    r := Check(r, deferred || a.sizeBytes > 0, "out_of_range");
    r := Check(r, a.sourceKind == "" || a.sourceKind == "drive", "unsupported_value");
    r := Check(r, a.sourceKind != "drive" || deferred, "invalid_drive_source");
    r := Check(r, !Text.Blank(a.kind), "required");
    r := Check(r, a.durationUS >= 0, "out_of_range");
    r := Check(r, a.width >= 0 && a.height >= 0, "invalid_dimensions");
    if Media(a.kind) {
      r := Check(r, a.durationUS > 0, "required");
    }
  }

  /** The lookup table holds one listed asset for every listed id. */
  ghost predicate Indexes(m: map<string, AssetRef>, assets: seq<AssetRef>) {
    && (forall id :: id in m ==> m[id] in assets && m[id].assetId == id)
    && (forall a :: a in assets ==> a.assetId in m)
  }

  ghost predicate EachAssetOk(assets: seq<AssetRef>) {
    (forall a :: a in assets ==> AssetOk(a)) && Orders.Pairwise(OtherAsset, assets)
  }

  lemma {:induction false} NewId(m: map<string, AssetRef>, assets: seq<AssetRef>, a: AssetRef)
    requires Indexes(m, assets)
    ensures a.assetId !in m <==> forall i :: 0 <= i < |assets| ==> OtherAsset(assets[i], a)
  {
    if a.assetId in m {
      var i :| 0 <= i < |assets| && assets[i] == m[a.assetId];
      assert !OtherAsset(assets[i], a);
    } else {
      assert forall i :: 0 <= i < |assets| ==> assets[i] in assets;
    }
  }

  lemma {:induction false} AssetStep(m: map<string, AssetRef>, assets: seq<AssetRef>, a: AssetRef)
    requires Indexes(m, assets) && EachAssetOk(assets)
    ensures EachAssetOk(assets + [a]) <==> AssetOk(a) && a.assetId !in m
    ensures a.assetId !in m ==> Indexes(m[a.assetId := a], assets + [a])
  {
    var all := assets + [a];
    NewId(m, assets, a);
    Orders.PairwiseStep(OtherAsset, assets, a);
    assert forall x :: x in all <==> x in assets || x == a;
  }

  lemma {:induction false} AssetPrefix(assets: seq<AssetRef>, n: nat)
    requires n <= |assets|
    ensures EachAssetOk(assets) ==> EachAssetOk(assets[..n])
  {
    Orders.PairwisePrefix(OtherAsset, assets, n);
  }

  lemma {:induction false} AssetAt(m: map<string, AssetRef>, assets: seq<AssetRef>, i: nat)
    requires i < |assets| && Indexes(m, assets[..i]) && EachAssetOk(assets[..i])
    ensures EachAssetOk(assets[..i + 1]) <==> AssetOk(assets[i]) && assets[i].assetId !in m
    ensures assets[i].assetId !in m ==> Indexes(m[assets[i].assetId := assets[i]], assets[..i + 1])
    ensures EachAssetOk(assets) ==> EachAssetOk(assets[..i + 1])
  {
    assert assets[..i + 1] == assets[..i] + [assets[i]];
    AssetStep(m, assets[..i], assets[i]);
    AssetPrefix(assets, i + 1);
  }

  /** One asset: its own checks, then its place in the lookup table. */
  method ListAsset(
    v: Violations, a: AssetRef, m: map<string, AssetRef>)
    returns (r: Violations, m': map<string, AssetRef>)
    ensures |r| >= |v| && (|r| == |v| <==> AssetOk(a) && a.assetId !in m)
    ensures |r| == |v| ==> m' == m[a.assetId := a]
  {
    r := ValidateAsset(v, a);
    if a.assetId == "" {
      return r, m;
    }
    if a.assetId in m {
      return r + ["duplicate"], m;
    }
    return r, m[a.assetId := a];
  }

  method ValidateAssets(v: Violations, assets: seq<AssetRef>) returns (r: Violations, m: map<string, AssetRef>)
    ensures |r| >= |v| && (|r| == |v| <==> AssetsOk(assets))
    ensures |r| == |v| ==> Indexes(m, assets)
  {
    r := Check(v, assets != [], "empty");
    ghost var base := |r|;
    m := map[];
    for i := 0 to |assets|
      invariant |r| >= base
      invariant |r| == base ==> EachAssetOk(assets[..i]) && Indexes(m, assets[..i])
      invariant |r| > base ==> !EachAssetOk(assets)
    {
      if |r| == base {
        AssetAt(m, assets, i);
      }
      r, m := ListAsset(r, assets[i], m);
    }
    assert assets[..|assets|] == assets;
  }

  // ----- segments

  /** SegmentOk with the asset looked up in the validator's table. */
  predicate SegmentOkIn(s: Segment, m: map<string, AssetRef>, total: Option<int>) {
    && !Text.Blank(s.segmentId) && PlacementOk(s, total)
    && if s.stockPoolSlot then SlotOk(s)
       else
         && s.sourceIn >= 0 && s.sourceDuration > 0
         && !Text.Blank(s.assetId) && s.assetId in m && SourceMatches(s, m[s.assetId])
  }

  /** The id, placement and timeline checks shared by both kinds of segment. */
  method ValidatePlacement(v: Violations, s: Segment, total: Option<int>) returns (r: Violations)
    ensures |r| >= |v| && (|r| == |v| <==> PlacementOk(s, total))
  {
    r := Check(v, s.start >= 0, "out_of_range");
    r := Check(r, s.count > 0, "out_of_range");
    var end := NonNegativeSum(s.start, s.count);
    if end.None? {
      r := r + ["timeline_range_overflow"];
    } else if total.Some? && end.value > total.value {
      r := r + ["timeline_out_of_bounds"];
    }
  }

  method ValidateSegmentId(v: Violations, s: Segment, seen: set<string>) returns (r: Violations, seen': set<string>)
    ensures |r| >= |v| && (|r| == |v| <==> !Text.Blank(s.segmentId) && s.segmentId !in seen)
    ensures |r| == |v| ==> seen' == seen + {s.segmentId}
  {
    if Text.Blank(s.segmentId) {
      return v + ["required"], seen;
    }
    if s.segmentId in seen {
      return v + ["duplicate"], seen;
    }
    return v, seen + {s.segmentId};
  }

  method ValidateSource(v: Violations, s: Segment, m: map<string, AssetRef>) returns (r: Violations)
    ensures |r| >= |v|
    ensures |r| == |v| <==> !Text.Blank(s.assetId) && s.assetId in m && SourceMatches(s, m[s.assetId])
  {
    r := Check(v, !Text.Blank(s.assetId), "required");
    if s.assetId !in m {
      r := r + ["unknown_reference"];
      return;
    }
    var a := m[s.assetId];
    var deferred := DeferredDriveVideo(a);
    r := Check(r, deferred || LowerSha256(s.sha256), "invalid_sha256");
    r := Check(r, a.kind == "video" || a.kind == "prepared_video_fragment", "wrong_asset_kind");
    r := Check(r, deferred || s.sha256 == a.sha256, "asset_hash_mismatch");
    var end := NonNegativeSum(s.sourceIn, s.sourceDuration);
    r := Check(r, end.Some? && end.value <= a.durationUS, "source_range_out_of_bounds");
  }

  method ValidateSegment(v: Violations, s: Segment, m: map<string, AssetRef>, total: Option<int>, seen: set<string>)
    returns (r: Violations, seen': set<string>)
    ensures |r| >= |v| && (|r| == |v| <==> SegmentOkIn(s, m, total) && s.segmentId !in seen)
    ensures |r| == |v| ==> seen' == seen + {s.segmentId}
  {
    r, seen' := ValidateSegmentId(v, s, seen);
    if s.stockPoolSlot {
      r := Check(r, s.assetId == "" && s.sha256 == "", "stock_pool_slot_has_source");
      r := Check(r, s.sourceIn == 0 && s.sourceDuration == 0, "stock_pool_slot_has_source_range");
    } else {
      r := ValidateSource(r, s, m);
      r := Check(r, s.sourceIn >= 0, "out_of_range");
      r := Check(r, s.sourceDuration > 0, "out_of_range");
    }
    r := ValidatePlacement(r, s, total);
  }

  ghost predicate SegmentsOk(segs: seq<Segment>, m: map<string, AssetRef>, total: Option<int>) {
    (forall s :: s in segs ==> SegmentOkIn(s, m, total)) && Orders.Pairwise(OtherSegment, segs)
  }

  ghost predicate SeenSegments(seen: set<string>, segs: seq<Segment>) {
    forall x :: x in seen <==> exists i :: 0 <= i < |segs| && segs[i].segmentId == x
  }

  lemma {:induction false} SegmentStep(
    segs: seq<Segment>, s: Segment, m: map<string, AssetRef>, total: Option<int>, seen: set<string>)
    requires SegmentsOk(segs, m, total) && SeenSegments(seen, segs)
    ensures SegmentsOk(segs + [s], m, total) <==> SegmentOkIn(s, m, total) && s.segmentId !in seen
    ensures SeenSegments(seen + {s.segmentId}, segs + [s])
  {
    var all := segs + [s];
    assert all[|segs|] == s && forall i :: 0 <= i < |segs| ==> all[i] == segs[i];
    Orders.PairwiseStep(OtherSegment, segs, s);
    assert forall x :: x in all <==> x in segs || x == s;
    forall x ensures x in seen + {s.segmentId} <==> exists i :: 0 <= i < |all| && all[i].segmentId == x {
      if x in seen {
        var i :| 0 <= i < |segs| && segs[i].segmentId == x;
        assert all[i].segmentId == x;
      }
      if x == s.segmentId {
        assert all[|segs|].segmentId == x;
      }
    }
  }

  lemma {:induction false} SegmentsPrefix(
    segs: seq<Segment>, more: seq<Segment>, m: map<string, AssetRef>, total: Option<int>)
    requires SegmentsOk(segs + more, m, total)
    ensures SegmentsOk(segs, m, total)
  {
    Orders.PairwisePrefix(OtherSegment, segs + more, |segs|);
    assert (segs + more)[..|segs|] == segs;
  }

  /** The segments of one track, after the segments `done` of earlier tracks. */
  method ValidateSegments(
    v: Violations, segs: seq<Segment>, m: map<string, AssetRef>, total: Option<int>, seen0: set<string>,
    ghost clean: bool, ghost done: seq<Segment>)
    returns (r: Violations, seen: set<string>, slots: nat)
    requires clean ==> SegmentsOk(done, m, total) && SeenSegments(seen0, done)
    ensures |r| >= |v|
    ensures clean ==> (|r| == |v| <==> SegmentsOk(done + segs, m, total))
    ensures clean && |r| == |v| ==> SeenSegments(seen, done + segs)
    ensures slots > 0 <==> exists i :: 0 <= i < |segs| && segs[i].stockPoolSlot
  {
    r, seen, slots := v, seen0, 0;
    assert done + segs[..0] == done;
    for i := 0 to |segs|
      invariant |r| >= |v|
      invariant clean && |r| == |v| ==> SegmentsOk(done + segs[..i], m, total) && SeenSegments(seen, done + segs[..i])
      invariant clean && |r| > |v| ==> !SegmentsOk(done + segs, m, total)
      invariant slots > 0 <==> exists j :: 0 <= j < i && segs[j].stockPoolSlot
    {
      if clean && |r| == |v| {
        TrackStep(done, segs, i, m, total, seen);
      }
      if segs[i].stockPoolSlot {
        slots := slots + 1;
      }
      r, seen := ValidateSegment(r, segs[i], m, total, seen);
    }
    assert segs[..|segs|] == segs;
  }

  lemma {:induction false} TrackStep(
    done: seq<Segment>, segs: seq<Segment>, i: nat, m: map<string, AssetRef>, total: Option<int>, seen: set<string>)
    requires i < |segs| && SegmentsOk(done + segs[..i], m, total) && SeenSegments(seen, done + segs[..i])
    ensures SegmentsOk(done + segs[..i + 1], m, total) <==> SegmentOkIn(segs[i], m, total) && segs[i].segmentId !in seen
    ensures SeenSegments(seen + {segs[i].segmentId}, done + segs[..i + 1])
    ensures SegmentsOk(done + segs, m, total) ==> SegmentsOk(done + segs[..i + 1], m, total)
  {
    assert done + segs[..i + 1] == (done + segs[..i]) + [segs[i]];
    SegmentStep(done + segs[..i], segs[i], m, total, seen);
    assert done + segs == (done + segs[..i + 1]) + segs[i + 1..];
    if SegmentsOk(done + segs, m, total) {
      SegmentsPrefix(done + segs[..i + 1], segs[i + 1..], m, total);
    }
  }

  ghost predicate TrackHeads(tracks: seq<Track>) {
    && (forall i :: 0 <= i < |tracks| ==> !Text.Blank(tracks[i].trackId) && tracks[i].segments != [])
    && Orders.Pairwise(OtherTrack, tracks)
  }

  ghost predicate EachTrackOk(tracks: seq<Track>, m: map<string, AssetRef>, total: Option<int>) {
    TrackHeads(tracks) && SegmentsOk(AllSegments(tracks), m, total)
  }

  ghost predicate SeenTracks(seen: set<string>, tracks: seq<Track>) {
    forall x :: x in seen <==> exists i :: 0 <= i < |tracks| && tracks[i].trackId == x
  }

  lemma {:induction false} HeadStep(tracks: seq<Track>, t: Track, seen: set<string>)
    requires SeenTracks(seen, tracks) && TrackHeads(tracks)
    ensures TrackHeads(tracks + [t]) <==> !Text.Blank(t.trackId) && t.segments != [] && t.trackId !in seen
    ensures SeenTracks(seen + {t.trackId}, tracks + [t])
  {
    var all := tracks + [t];
    assert all[|tracks|] == t && forall i :: 0 <= i < |tracks| ==> all[i] == tracks[i];
    Orders.PairwiseStep(OtherTrack, tracks, t);
    if TrackHeads(all) {
      assert !Text.Blank(all[|tracks|].trackId) && all[|tracks|].segments != [];
    }
    forall x ensures x in seen + {t.trackId} <==> exists i :: 0 <= i < |all| && all[i].trackId == x {
      if x in seen {
        var i :| 0 <= i < |tracks| && tracks[i].trackId == x;
        assert all[i].trackId == x;
      }
      if x == t.trackId {
        assert all[|tracks|].trackId == x;
      }
    }
  }

  lemma {:induction false} TracksPrefix(tracks: seq<Track>, n: nat, m: map<string, AssetRef>, total: Option<int>)
    requires n <= |tracks| && EachTrackOk(tracks, m, total)
    ensures EachTrackOk(tracks[..n], m, total)
    decreases |tracks|
  {
    if n < |tracks| {
      var last := |tracks| - 1;
      Orders.PairwisePrefix(OtherTrack, tracks, last);
      SegmentsPrefix(AllSegments(tracks[..last]), tracks[last].segments, m, total);
      TracksPrefix(tracks[..last], n, m, total);
      assert tracks[..last][..n] == tracks[..n];
    } else {
      assert tracks[..n] == tracks;
    }
  }

  lemma {:induction false} SlotStep(tracks: seq<Track>, t: Track)
    ensures AllSegments(tracks + [t]) == AllSegments(tracks) + t.segments
    ensures HasSlot(tracks + [t]) <==>
          HasSlot(tracks) || exists i :: 0 <= i < |t.segments| && t.segments[i].stockPoolSlot
  {
    var all := tracks + [t];
    assert all[..|tracks|] == tracks;
    if i :| 0 <= i < |t.segments| && t.segments[i].stockPoolSlot {
      assert t.segments[i] in AllSegments(all);
    }
  }

  /** The id and emptiness checks of one track. */
  method ValidateTrackHead(v: Violations, t: Track, seen: set<string>) returns (r: Violations, seen': set<string>)
    ensures |r| >= |v| && (|r| == |v| <==> !Text.Blank(t.trackId) && t.segments != [] && t.trackId !in seen)
    ensures |r| == |v| ==> seen' == seen + {t.trackId}
  {
    r, seen' := v, seen;
    if Text.Blank(t.trackId) {
      r := r + ["required"];
    } else if t.trackId in seen {
      r := r + ["duplicate"];
    } else {
      seen' := seen + {t.trackId};
    }
    r := Check(r, t.segments != [], "empty");
  }

  lemma {:induction false} TrackAt(
    tracks: seq<Track>, i: nat, m: map<string, AssetRef>, total: Option<int>, seen: set<string>)
    requires i < |tracks| && EachTrackOk(tracks[..i], m, total) && SeenTracks(seen, tracks[..i])
    ensures EachTrackOk(tracks[..i + 1], m, total) <==>
              && !Text.Blank(tracks[i].trackId) && tracks[i].segments != [] && tracks[i].trackId !in seen
              && SegmentsOk(AllSegments(tracks[..i]) + tracks[i].segments, m, total)
    ensures SeenTracks(seen + {tracks[i].trackId}, tracks[..i + 1])
    ensures EachTrackOk(tracks, m, total) ==> EachTrackOk(tracks[..i + 1], m, total)
  {
    assert tracks[..i + 1] == tracks[..i] + [tracks[i]];
    HeadStep(tracks[..i], tracks[i], seen);
    SlotStep(tracks[..i], tracks[i]);
    if EachTrackOk(tracks, m, total) {
      TracksPrefix(tracks, i + 1, m, total);
    }
  }

  method ValidateTracks(v: Violations, tracks: seq<Track>, m: map<string, AssetRef>, total: Option<int>)
    returns (r: Violations, slots: nat)
    ensures |r| >= |v| && (|r| == |v| <==> tracks != [] && EachTrackOk(tracks, m, total))
    ensures slots > 0 <==> HasSlot(tracks)
  {
    r, slots := Check(v, tracks != [], "empty"), 0;
    ghost var base := |r|;
    var trackIds: set<string>, segmentIds: set<string> := {}, {};
    for i := 0 to |tracks|
      invariant |r| >= base
      invariant |r| == base ==>
                  EachTrackOk(tracks[..i], m, total) && SeenTracks(trackIds, tracks[..i]) &&
                      SeenSegments(segmentIds, AllSegments(tracks[..i]))
      invariant |r| > base ==> !EachTrackOk(tracks, m, total)
      invariant slots > 0 <==> HasSlot(tracks[..i])
    {
      ghost var clean := |r| == base;
      ghost var done := AllSegments(tracks[..i]);
      SlotStep(tracks[..i], tracks[i]);
      assert tracks[..i + 1] == tracks[..i] + [tracks[i]];
      if clean {
        TrackAt(tracks, i, m, total, trackIds);
      }
      r, trackIds := ValidateTrackHead(r, tracks[i], trackIds);
      var n;
      r, segmentIds, n := ValidateSegments(r, tracks[i].segments, m, total, segmentIds, clean, done);
      slots := slots + n;
    }
    assert tracks[..|tracks|] == tracks;
  }

  /** Under a valid asset list the lookup table and the list say the same. */
  lemma {:induction false} LookupAgrees(m: map<string, AssetRef>, assets: seq<AssetRef>, s: Segment, total: Option<int>)
    requires AssetsOk(assets) && Indexes(m, assets)
    ensures SegmentOkIn(s, m, total) <==> SegmentOk(s, assets, total)
  {
    forall a | a in assets ensures m[a.assetId] == a && !Text.Blank(a.assetId) {
      SameId(assets, a, m[a.assetId]);
    }
  }

  lemma {:induction false} SameId(assets: seq<AssetRef>, a: AssetRef, b: AssetRef)
    requires Orders.Pairwise(OtherAsset, assets) && a in assets && b in assets && a.assetId == b.assetId
    ensures a == b
  {
    Orders.PairwiseMembers(OtherAsset, assets, a, b);
  }

  method ValidateAudioReference(v: Violations, audio: FinalAudio, m: map<string, AssetRef>) returns (r: Violations)
    ensures |r| >= |v|
    ensures |r| == |v| <==> audio.assetId == "" || (audio.assetId in m && AudioMatches(audio, m[audio.assetId]))
  {
    r := v;
    if audio.assetId != "" {
      if audio.assetId !in m {
        r := r + ["unknown_reference"];
      } else {
        var a := m[audio.assetId];
        r := Check(r, a.kind == "final_audio", "wrong_asset_kind");
        r := Check(r, a.sha256 == audio.sha256, "asset_hash_mismatch");
        r := Check(r, a.sizeBytes == audio.sizeBytes, "asset_size_mismatch");
        r := Check(r, !(a.durationUS > 0) || Within(a.durationUS, audio.durationUS, DURATION_TOLERANCE_US),
            "asset_duration_mismatch");
      }
    }
  }

  lemma {:induction false} TablesAgree(p: Plan, m: map<string, AssetRef>, total: Option<int>)
    requires AssetsOk(p.assets) && Indexes(m, p.assets) && AudioOk(p)
    ensures p.tracks != [] && EachTrackOk(p.tracks, m, total) <==> TracksOk(p.tracks, p.assets, total)
    ensures (p.finalAudio.assetId in m && AudioMatches(p.finalAudio, m[p.finalAudio.assetId])) <==>
        AudioReferenced(p.finalAudio, p.assets)
    ensures p.finalAudio.assetId != ""
  {
    forall s | s in AllSegments(p.tracks) ensures SegmentOkIn(s, m, total) <==> SegmentOk(s, p.assets, total) {
      LookupAgrees(m, p.assets, s, total);
    }
    forall a | a in p.assets && Names(a, p.finalAudio.assetId) ensures m[a.assetId] == a {
      SameId(p.assets, a, m[a.assetId]);
    }
  }

  /** The validator finds no violation exactly in well-formed plans. */
  method Validate(p: Plan) returns (v: Violations)
    ensures v == [] <==> WellFormed(p)
  {
    v := ValidateHeader(p);
    v := ValidateOutput(v, p.output);
    v := ValidateAudio(v, p);
    if p.stockPool.Some? {
      v := ValidatePool(v, p.stockPool.value);
    }
    var m, slots;
    v, m := ValidateAssets(v, p.assets);
    ghost var clean := v == [];
    v := ValidateAudioReference(v, p.finalAudio, m);
    var total := OutputFrameCount(p.durationUS, p.output.fpsNum, p.output.fpsDen);
    v, slots := ValidateTracks(v, p.tracks, m, total);
    if clean {
      TablesAgree(p, m, total);
    }
    v := Check(v, p.stockPool.None? || slots > 0, "missing_stock_pool_slot");
  }
}
