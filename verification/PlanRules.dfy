/**
  The validator's rules written out on the fields of a plan, without any of the validator's own helpers,
  and the proof that they are the rules the validator checks.
 */
module PlanRules {
  import opened Optional
  import opened CompiledPlan
  import Manifest
  import Orders
  import Text

  // ----- fields

  predicate Digest(s: string) {
    |s| == 64 && forall c :: c in s ==> c in "0123456789abcdef"
  }

  predicate Said(s: string) {
    exists i :: 0 <= i < |s| && !Text.IsSpace(s[i])
  }

  lemma {:induction false} DigestExactly(s: string)
    ensures Digest(s) <==> LowerSha256(s)
  {
    forall c: char ensures c in "0123456789abcdef" <==> LowerHex(c) {
      HexDigit(c);
    }
    if LowerSha256(s) {
      forall c | c in s ensures LowerHex(c) {
        var i :| 0 <= i < |s| && s[i] == c;
      }
    }
    if Digest(s) {
      forall i | 0 <= i < |s| ensures LowerHex(s[i]) {
        assert s[i] in s;
      }
    }
  }

  lemma {:induction false} HexDigit(c: char)
    ensures c in "0123456789abcdef" <==> LowerHex(c)
  {
    var hex := "0123456789abcdef";
    if '0' <= c <= '9' {
      assert hex[c as int - '0' as int] == c;
    } else if 'a' <= c <= 'f' {
      assert hex[c as int - 'a' as int + 10] == c;
    }
  }

  /** The two durations differ by at most a millisecond. */
  predicate Close(a: int, b: int) {
    -1000 <= a - b <= 1000
  }

  /** On 64-bit durations that are not negative the validator's tolerance is that millisecond. */
  lemma {:induction false} CloseExactly(a: int, b: int)
    requires 0 <= a < 0x8000_0000_0000_0000 && 0 <= b < 0x8000_0000_0000_0000
    ensures Within(a, b, DURATION_TOLERANCE_US) <==> Close(a, b)
  {}

  /** A video on Google Drive that is fetched later: no hash is known. */
  predicate OnDrive(a: AssetRef) {
    a.kind == "video" && ((a.sourceKind == "drive" && Said(a.driveFileId)) || DriveName(Text.Trim(a.assetId)))
  }

  predicate DriveName(id: string) {
    && |id| >= 6 && id[0] in "dD" && id[1] in "rR" && id[2] in "iI\U{130}" && id[3] in "vV" && id[4] in "eE"
    && id[5] == ':'
  }

  lemma {:induction false} DriveNameExactly(id: string)
    ensures DriveName(id) <==> HasLowerPrefix(id, "drive:")
  {
    var p := "drive:";
    if |id| >= 6 {
      assert Lower(id[0]) == p[0] <==> id[0] in "dD";
      assert Lower(id[1]) == p[1] <==> id[1] in "rR";
      assert Lower(id[2]) == p[2] <==> id[2] in "iI\U{130}";
      assert Lower(id[3]) == p[3] <==> id[3] in "vV";
      assert Lower(id[4]) == p[4] <==> id[4] in "eE";
      assert Lower(id[5]) == p[5] <==> id[5] == ':';
    }
  }

  lemma {:induction false} OnDriveExactly(a: AssetRef)
    ensures OnDrive(a) <==> DeferredDriveVideo(a)
  {
    DriveNameExactly(Text.Trim(a.assetId));
  }

  // ----- rules

  predicate HeaderRules(p: Plan) {
    p.planVersion == 2 && p.timelineRevision >= 1 && Digest(p.timelineSha256) && p.durationUS >= 1
  }

  predicate OutputRules(o: Output) {
    && o.container == "mp4" && Said(o.videoCodec)
    && o.width >= 1 && o.height >= 1 && o.fpsNum >= 1 && o.fpsDen >= 1
  }

  predicate AudioRules(p: Plan) {
    var a := p.finalAudio;
    && a.mode == "FINAL_AUDIO_COPY" && Said(a.assetId) && Digest(a.sha256) && a.sizeBytes >= 1
    && a.codec == "aac" && a.sampleRateHz == 48000 && a.channels == 2
    && a.durationUS >= 1 && Close(a.durationUS, p.durationUS)
    && a.timelineRevision == p.timelineRevision && a.timelineSha256 == p.timelineSha256
  }

  predicate AssetRules(a: AssetRef) {
    && Said(a.assetId) && Said(a.kind)
    && (OnDrive(a) || (Digest(a.sha256) && a.sizeBytes >= 1))
    && (a.sourceKind == "" || (a.sourceKind == "drive" && OnDrive(a)))
    && a.durationUS >= 0 && a.width >= 0 && a.height >= 0
    && (a.kind == "video" || a.kind == "prepared_video_fragment" || a.kind == "final_audio" ==> a.durationUS >= 1)
  }

  /** The asset the final audio names is that audio. */
  predicate AudioAssetRules(audio: FinalAudio, a: AssetRef) {
    && a.assetId == audio.assetId && a.kind == "final_audio"
    && a.sha256 == audio.sha256 && a.sizeBytes == audio.sizeBytes && Close(a.durationUS, audio.durationUS)
  }

  /** Inside the timeline, and inside 64 bits. */
  predicate PlaceRules(s: Segment, frames: Option<int>) {
    && s.start >= 0 && s.count >= 1 && s.start + s.count < 0x8000_0000_0000_0000
    && (frames.Some? ==> s.start + s.count <= frames.value)
  }

  predicate SourceRules(s: Segment, a: AssetRef) {
    && a.assetId == s.assetId && (a.kind == "video" || a.kind == "prepared_video_fragment")
    && (OnDrive(a) || (Digest(s.sha256) && s.sha256 == a.sha256))
    && s.sourceIn >= 0 && s.sourceDuration >= 1
    && s.sourceIn + s.sourceDuration < 0x8000_0000_0000_0000 && s.sourceIn + s.sourceDuration <= a.durationUS
  }

  ghost predicate SegmentRules(s: Segment, assets: seq<AssetRef>, frames: Option<int>) {
    && Said(s.segmentId) && PlaceRules(s, frames)
    && if s.stockPoolSlot then s.assetId == "" && s.sha256 == "" && s.sourceIn == 0 && s.sourceDuration == 0
       else exists a :: a in assets && SourceRules(s, a)
  }

  /** The smallest number of frames that covers the duration, unless it leaves 64 bits. */
  ghost predicate FrameBudget(durationUS: int, num: int, den: int, frames: Option<int>) {
    && (frames.Some? ==>
          && frames.value < 0x8000_0000_0000_0000
          && frames.value * (den * 1_000_000) >= durationUS * num
          && (frames.value - 1) * (den * 1_000_000) < durationUS * num)
    && (frames.None? ==> 0x7FFF_FFFF_FFFF_FFFF * (den * 1_000_000) < durationUS * num)
  }

  /** No two segments of a plan, on whatever tracks, share an id. */
  ghost predicate IdsApart(tracks: seq<Track>) {
    && (forall i, k, l :: 0 <= i < |tracks| && 0 <= k < l < |tracks[i].segments| ==>
          tracks[i].segments[k].segmentId != tracks[i].segments[l].segmentId)
    && (forall i, j, x, y :: 0 <= i < j < |tracks| && x in tracks[i].segments && y in tracks[j].segments ==>
          x.segmentId != y.segmentId)
  }

  ghost predicate TrackRules(p: Plan, frames: Option<int>) {
    && |p.tracks| >= 1
    && (forall i :: 0 <= i < |p.tracks| ==> Said(p.tracks[i].trackId) && |p.tracks[i].segments| >= 1)
    && (forall i, j :: 0 <= i < j < |p.tracks| ==> p.tracks[i].trackId != p.tracks[j].trackId)
    && (forall i, s :: 0 <= i < |p.tracks| && s in p.tracks[i].segments ==> SegmentRules(s, p.assets, frames))
    && IdsApart(p.tracks)
  }

  ghost predicate PoolRules(p: Plan) {
    p.stockPool.Some? ==>
      && p.stockPool.value.sourceKind == "drive" && p.stockPool.value.selection == "shuffle"
      && Said(p.stockPool.value.driveFolderId)
      && exists i, s :: 0 <= i < |p.tracks| && s in p.tracks[i].segments && s.stockPoolSlot
  }

  ghost predicate AssetListRules(p: Plan) {
    && |p.assets| >= 1
    && (forall i :: 0 <= i < |p.assets| ==> AssetRules(p.assets[i]))
    && (forall i, j :: 0 <= i < j < |p.assets| ==> p.assets[i].assetId != p.assets[j].assetId)
    && exists i :: 0 <= i < |p.assets| && AudioAssetRules(p.finalAudio, p.assets[i])
  }

  /** All rules of a plan. */
  ghost predicate Rules(p: Plan) {
    && HeaderRules(p) && OutputRules(p.output) && AudioRules(p) && AssetListRules(p) && PoolRules(p)
    && exists frames :: FrameBudget(p.durationUS, p.output.fpsNum, p.output.fpsDen, frames) && TrackRules(p, frames)
  }

  /** Durations are 64-bit values. */
  ghost predicate Representable(p: Plan) {
    && p.durationUS < 0x8000_0000_0000_0000 && p.finalAudio.durationUS < 0x8000_0000_0000_0000
    && forall i :: 0 <= i < |p.assets| ==> p.assets[i].durationUS < 0x8000_0000_0000_0000
  }

  // ----- the rules are what the validator checks

  lemma {:induction false} HeaderExactly(p: Plan)
    ensures HeaderRules(p) <==> HeaderOk(p)
    ensures OutputRules(p.output) <==> OutputOk(p.output)
  {
    DigestExactly(p.timelineSha256);
  }

  lemma {:induction false} AudioExactly(p: Plan)
    requires Representable(p) && HeaderOk(p)
    ensures AudioRules(p) <==> AudioOk(p)
  {
    DigestExactly(p.finalAudio.sha256);
    if p.finalAudio.durationUS >= 1 {
      CloseExactly(p.finalAudio.durationUS, p.durationUS);
    }
  }

  lemma {:induction false} AssetExactly(a: AssetRef)
    ensures AssetRules(a) <==> AssetOk(a)
  {
    DigestExactly(a.sha256);
    OnDriveExactly(a);
  }

  lemma {:induction false} AudioAssetExactly(p: Plan, i: nat)
    requires Representable(p) && i < |p.assets| && AssetOk(p.assets[i]) && p.finalAudio.durationUS >= 1
    ensures AudioAssetRules(p.finalAudio, p.assets[i]) <==>
            Names(p.assets[i], p.finalAudio.assetId) && AudioMatches(p.finalAudio, p.assets[i])
  {
    CloseExactly(p.assets[i].durationUS, p.finalAudio.durationUS);
  }

  lemma {:induction false} AssetListExactly(p: Plan)
    requires Representable(p) && p.finalAudio.durationUS >= 1
    ensures AssetListRules(p) <==> AssetsOk(p.assets) && AudioReferenced(p.finalAudio, p.assets)
  {
    forall i | 0 <= i < |p.assets| ensures AssetRules(p.assets[i]) <==> AssetOk(p.assets[i]) {
      AssetExactly(p.assets[i]);
    }
    assert (forall a :: a in p.assets ==> AssetOk(a)) <==> forall i :: 0 <= i < |p.assets| ==> AssetOk(p.assets[i]);
    AssetIdsExactly(p.assets);
    if forall i :: 0 <= i < |p.assets| ==> AssetOk(p.assets[i]) {
      forall i | 0 <= i < |p.assets|
        ensures AudioAssetRules(p.finalAudio, p.assets[i]) <==>
                Names(p.assets[i], p.finalAudio.assetId) && AudioMatches(p.finalAudio, p.assets[i])
      {
        AudioAssetExactly(p, i);
      }
    }
  }

  lemma {:induction false} AssetIdsExactly(assets: seq<AssetRef>)
    ensures Orders.Pairwise(OtherAsset, assets) <==>
            forall i, j :: 0 <= i < j < |assets| ==> assets[i].assetId != assets[j].assetId
  {
    if Orders.Pairwise(OtherAsset, assets) {
      forall i, j | 0 <= i < j < |assets| ensures assets[i].assetId != assets[j].assetId {
        assert OtherAsset(assets[i], assets[j]);
      }
    }
  }

  lemma {:induction false} SourceExactly(s: Segment, a: AssetRef)
    requires a.durationUS < 0x8000_0000_0000_0000
    ensures SourceRules(s, a) <==>
            s.sourceIn >= 0 && s.sourceDuration > 0 && Names(a, s.assetId) && SourceMatches(s, a)
  {
    DigestExactly(s.sha256);
    OnDriveExactly(a);
  }

  lemma {:induction false} SegmentExactly(s: Segment, assets: seq<AssetRef>, frames: Option<int>)
    requires forall i :: 0 <= i < |assets| ==> assets[i].durationUS < 0x8000_0000_0000_0000
    ensures SegmentRules(s, assets, frames) <==> SegmentOk(s, assets, frames)
  {
    forall a | a in assets
      ensures SourceRules(s, a) <==>
              s.sourceIn >= 0 && s.sourceDuration > 0 && Names(a, s.assetId) && SourceMatches(s, a)
    {
      SourceExactly(s, a);
    }
    assert PlaceRules(s, frames) <==> PlacementOk(s, frames);
    if SegmentOk(s, assets, frames) && !s.stockPoolSlot {
      var a :| a in assets && Names(a, s.assetId) && SourceMatches(s, a);
      assert SourceRules(s, a);
    }
    if SegmentRules(s, assets, frames) && !s.stockPoolSlot {
      var a :| a in assets && SourceRules(s, a);
      assert Names(a, s.assetId) && SourceMatches(s, a);
    }
  }

  lemma {:induction false} BudgetExactly(durationUS: int, num: int, den: int, frames: Option<int>)
    requires durationUS >= 1 && num >= 1 && den >= 1
    ensures FrameBudget(durationUS, num, den, frames) <==> frames == OutputFrameCount(durationUS, num, den)
  {
    var x, w := durationUS * num, den * 1_000_000;
    var n := x / w + if x % w > 0 then 1 else 0;
    CeilingBounds(x, w);
    assert OutputFrameCount(durationUS, num, den) == if n >= 0x8000_0000_0000_0000 then None else Some(n);
    CeilingOnly(x, w, 0x7FFF_FFFF_FFFF_FFFF);
    if frames.Some? {
      CeilingOnly(x, w, frames.value);
      CeilingOnly(x, w, frames.value - 1);
    }
  }

  lemma {:induction false} CeilingBounds(x: int, w: int)
    requires w > 0
    ensures var n := x / w + if x % w > 0 then 1 else 0;
            n * w >= x && (n - 1) * w < x
  {
    CeilingOnly(x, w, x / w + if x % w > 0 then 1 else 0);
    CeilingOnly(x, w, x / w + (if x % w > 0 then 1 else 0) - 1);
  }

  lemma {:induction false} CeilingOnly(x: int, w: int, m: int)
    requires w > 0
    ensures m * w >= x <==> m >= x / w + if x % w > 0 then 1 else 0
  {
    Manifest.CeilingDecides(m + 1, x, w);
  }

  // ----- segments of all tracks

  lemma {:induction false} Gathered(tracks: seq<Track>, s: Segment)
    ensures s in AllSegments(tracks) <==> exists i :: 0 <= i < |tracks| && s in tracks[i].segments
  {
    if tracks == [] {
    } else {
      var init := tracks[..|tracks| - 1];
      Gathered(init, s);
      assert forall i :: 0 <= i < |init| ==> init[i] == tracks[i];
    }
  }

  lemma {:induction false} ApartConcat(xs: seq<Segment>, ys: seq<Segment>)
    ensures Orders.Pairwise(OtherSegment, xs + ys) <==>
            && Orders.Pairwise(OtherSegment, xs) && Orders.Pairwise(OtherSegment, ys)
            && forall x, y :: x in xs && y in ys ==> OtherSegment(x, y)
  {
    var all := xs + ys;
    if Orders.Pairwise(OtherSegment, all) {
      Orders.PairwisePrefix(OtherSegment, all, |xs|);
      assert all[..|xs|] == xs;
      forall i, j | 0 <= i < j < |ys| ensures OtherSegment(ys[i], ys[j]) {
        assert OtherSegment(all[|xs| + i], all[|xs| + j]);
      }
      forall x, y | x in xs && y in ys ensures OtherSegment(x, y) {
        var i :| 0 <= i < |xs| && xs[i] == x;
        var j :| 0 <= j < |ys| && ys[j] == y;
        assert OtherSegment(all[i], all[|xs| + j]);
      }
    } else {
      var i, j :| 0 <= i < j < |all| && !OtherSegment(all[i], all[j]);
      if j < |xs| {
        assert !OtherSegment(xs[i], xs[j]);
      } else if i >= |xs| {
        assert !OtherSegment(ys[i - |xs|], ys[j - |xs|]);
      } else {
        assert all[i] in xs && all[j] in ys;
      }
    }
  }

  ghost predicate WithinApart(t: Track) {
    forall k, l :: 0 <= k < l < |t.segments| ==> t.segments[k].segmentId != t.segments[l].segmentId
  }

  lemma {:induction false} WithinExactly(t: Track)
    ensures WithinApart(t) <==> Orders.Pairwise(OtherSegment, t.segments)
  {
    if Orders.Pairwise(OtherSegment, t.segments) {
      forall k, l | 0 <= k < l < |t.segments| ensures t.segments[k].segmentId != t.segments[l].segmentId {
        assert OtherSegment(t.segments[k], t.segments[l]);
      }
    }
  }

  lemma {:induction false} IdsExactly(tracks: seq<Track>)
    ensures IdsApart(tracks) <==> Orders.Pairwise(OtherSegment, AllSegments(tracks))
  {
    if tracks == [] {
    } else {
      var n := |tracks| - 1;
      var init, last := tracks[..n], tracks[n];
      IdsExactly(init);
      WithinExactly(last);
      ApartConcat(AllSegments(init), last.segments);
      ApartStep(tracks);
    }
  }

  lemma {:induction false} ApartStep(tracks: seq<Track>)
    requires tracks != []
    ensures var n := |tracks| - 1;
            IdsApart(tracks) <==>
            && IdsApart(tracks[..n]) && WithinApart(tracks[n])
            && forall x, y :: x in AllSegments(tracks[..n]) && y in tracks[n].segments ==> OtherSegment(x, y)
  {
    var n := |tracks| - 1;
    var init, last := tracks[..n], tracks[n];
    assert forall i :: 0 <= i < n ==> init[i] == tracks[i];
    if IdsApart(tracks) {
      forall x, y | x in AllSegments(init) && y in last.segments ensures OtherSegment(x, y) {
        Gathered(init, x);
        var i :| 0 <= i < n && x in init[i].segments;
        assert x in tracks[i].segments && y in tracks[n].segments;
      }
      assert IdsApart(init);
    }
    if IdsApart(init) && WithinApart(last) &&
       forall x, y :: x in AllSegments(init) && y in last.segments ==> OtherSegment(x, y) {
      forall i, j, x, y | 0 <= i < j < |tracks| && x in tracks[i].segments && y in tracks[j].segments
        ensures x.segmentId != y.segmentId
      {
        if j == n {
          Gathered(init, x);
          assert x in init[i].segments;
          assert OtherSegment(x, y);
        } else {
          assert x in init[i].segments && y in init[j].segments;
        }
      }
      forall i, k, l | 0 <= i < |tracks| && 0 <= k < l < |tracks[i].segments|
        ensures tracks[i].segments[k].segmentId != tracks[i].segments[l].segmentId
      {
        if i < n {
          assert init[i].segments == tracks[i].segments;
        }
      }
    }
  }

  lemma {:induction false} TracksExactly(p: Plan, frames: Option<int>)
    requires Representable(p)
    ensures TrackRules(p, frames) <==> TracksOk(p.tracks, p.assets, frames)
  {
    IdsExactly(p.tracks);
    forall s ensures s in AllSegments(p.tracks) <==> exists i :: 0 <= i < |p.tracks| && s in p.tracks[i].segments {
      Gathered(p.tracks, s);
    }
    forall s ensures SegmentRules(s, p.assets, frames) <==> SegmentOk(s, p.assets, frames) {
      SegmentExactly(s, p.assets, frames);
    }
    TrackIdsExactly(p.tracks);
  }

  lemma {:induction false} TrackIdsExactly(tracks: seq<Track>)
    ensures Orders.Pairwise(OtherTrack, tracks) <==>
            forall i, j :: 0 <= i < j < |tracks| ==> tracks[i].trackId != tracks[j].trackId
  {
    if Orders.Pairwise(OtherTrack, tracks) {
      forall i, j | 0 <= i < j < |tracks| ensures tracks[i].trackId != tracks[j].trackId {
        assert OtherTrack(tracks[i], tracks[j]);
      }
    }
  }

  lemma {:induction false} PoolExactly(p: Plan)
    ensures PoolRules(p) <==> (p.stockPool.Some? ==> PoolOk(p.stockPool.value) && HasSlot(p.tracks))
  {
    if HasSlot(p.tracks) {
      var s :| s in AllSegments(p.tracks) && s.stockPoolSlot;
      Gathered(p.tracks, s);
    }
    if i, s :| 0 <= i < |p.tracks| && s in p.tracks[i].segments && s.stockPoolSlot {
      Gathered(p.tracks, s);
    }
  }

  /** The validator finds nothing exactly when all the written-out rules hold. */
  lemma {:induction false} RulesExactly(p: Plan)
    requires Representable(p)
    ensures WellFormed(p) <==> Rules(p)
  {
    var frames := OutputFrameCount(p.durationUS, p.output.fpsNum, p.output.fpsDen);
    HeaderExactly(p);
    PoolExactly(p);
    TracksExactly(p, frames);
    if HeaderOk(p) && OutputOk(p.output) {
      AudioExactly(p);
      BudgetExactly(p.durationUS, p.output.fpsNum, p.output.fpsDen, frames);
      if AudioOk(p) {
        AssetListExactly(p);
      }
      if other :| FrameBudget(p.durationUS, p.output.fpsNum, p.output.fpsDen, other) && TrackRules(p, other) {
        BudgetExactly(p.durationUS, p.output.fpsNum, p.output.fpsDen, other);
      }
    }
  }
}
