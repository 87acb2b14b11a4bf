/**
  The plan the manifest compiler hands to the validator: which of the validator's demands compiled video
  tracks meet by construction, and what is left to check.
 */
module ManifestPlans {
  import opened Optional
  import opened FrameTime
  import opened VisualTimeline
  import opened VisualSemantics
  import opened VisualFrames
  import opened Cues
  import opened Manifest
  import opened ManifestOverlays
  import CanonicalPlan
  import CompiledPlan
  import Orders
  import Overlays
  import OverlayTimeline
  import PlanSources
  import Text

  type AssetRef = CompiledPlan.AssetRef
  type Budget = Option<int>

  function PlanTrack(t: OutTrack): CompiledPlan.Track {
    CompiledPlan.Track(t.id, t.segments)
  }

  // ----- segments

  /** Segments numbered within their track, none of them a stock-pool slot. */
  ghost predicate Numbered(segs: seq<Segment>, trackId: string) {
    forall k :: 0 <= k < |segs| ==> segs[k].segmentId == SegmentId(trackId, k) && !segs[k].stockPoolSlot
  }

  lemma {:induction false} EmittedPlain(p: Piece, s: Segment, rate: Rate)
    requires Emit(p, rate) == Emitted(s)
    ensures !s.stockPoolSlot
  {}

  lemma {:induction false} AllPlain(ps: seq<Piece>, out: seq<Segment>, rate: Rate)
    requires EmittedAs(ps, out, rate)
    ensures forall s :: s in out ==> !s.stockPoolSlot
  {
    forall n | 0 <= n < |out| ensures !out[n].stockPoolSlot {
      EmittedPlain(ps[n], out[n], rate);
    }
  }

  lemma {:induction false} ResolvedPlain(base: seq<Segment>, reps: seq<Replacement>, rate: Rate)
    requires reps != [] && Resolve(base, reps, rate).Ok?
    ensures forall s :: s in Resolve(base, reps, rate).segments ==> !s.stockPoolSlot
  {
    AcceptedCut(base, reps, rate);
    AllPlain(CutFrom(base, 0, Orders.Sort(StartsNoLater, reps), 0, rate), Resolve(base, reps, rate).segments, rate);
  }

  lemma {:induction false} TrackNumbered(track: VideoTrack, reps: seq<Replacement>, assets: Assets, rate: Rate)
    requires TrackSegments(track, reps, assets, rate).Some?
    ensures Numbered(TrackSegments(track, reps, assets, rate).value, track.id)
  {
    var base := CompiledSegments(track, assets, rate);
    if reps == [] {
      forall k | 0 <= k < |base| ensures base[k].segmentId == SegmentId(track.id, k) && !base[k].stockPoolSlot {
        assert CompileEvent(track.id, k, track.events[k], assets, rate) == Compiled(base[k]);
      }
    } else {
      ResolvedPlain(base, reps, rate);
    }
  }

  /** A full track plays the same frames whatever is cut in. */
  lemma {:induction false} TrackTiles(track: VideoTrack, reps: seq<Replacement>, assets: Assets, rate: Rate, e: nat)
    returns (a: int)
    requires rate.Roomy() && FullTrack(track, assets, rate, e) && TrackSegments(track, reps, assets, rate).Some?
    ensures 0 <= a < e < TWO63 && Tiles(TrackSegments(track, reps, assets, rate).value, a, e)
    ensures TrackSegments(track, reps, assets, rate).value != []
  {
    var base := CompiledSegments(track, assets, rate);
    a :| Playable(base, a, e, rate);
    AcceptedConserves(base, reps, rate, a, e);
    TilesInside(base, a, e, 0);
    FitsBelow(e, e, rate);
    if reps == [] {
    } else {
      var out := Resolve(base, reps, rate).segments;
      RenamedTiles(out, track.id, a, e);
    }
  }

  lemma {:induction false} RenamedTiles(segs: seq<Segment>, trackId: string, a: int, e: int)
    requires Tiles(segs, a, e)
    ensures Tiles(Renamed(segs, trackId), a, e)
  {}

  ghost predicate InBudget(total: Budget, e: int) {
    total.Some? ==> e <= total.value
  }

  lemma {:induction false} TrackFits(segs: seq<Segment>, a: int, e: int, total: Budget)
    requires Tiles(segs, a, e) && 0 <= a && e < TWO63 && segs != []
    ensures (forall s :: s in segs ==> CompiledPlan.PlacementOk(s, total)) <==> InBudget(total, e)
  {
    if total.Some? {
      CanonicalPlan.TilingFitsBudget(segs, a, e, total.value);
    } else {
      forall s | s in segs ensures CompiledPlan.PlacementOk(s, total) {
        var k :| 0 <= k < |segs| && segs[k] == s;
        TilesInside(segs, a, e, k);
      }
    }
  }

  // ----- all tracks together

  /** Track ids as the plan needs them. */
  ghost predicate NamedApart(tracks: seq<VideoTrack>) {
    && (forall i :: 0 <= i < |tracks| ==> !Text.Blank(tracks[i].id))
    && forall i, j :: 0 <= i < j < |tracks| ==> tracks[i].id != tracks[j].id
  }

  /** Plan tracks that are numbered, named apart and full. */
  ghost predicate Assembled(ts: seq<CompiledPlan.Track>, e: nat) {
    && (forall i :: 0 <= i < |ts| ==> Numbered(ts[i].segments, ts[i].trackId) && Full(ts[i].segments, e))
    && (forall i :: 0 <= i < |ts| ==> !Text.Blank(ts[i].trackId))
    && forall i, j :: 0 <= i < j < |ts| ==> ts[i].trackId != ts[j].trackId
  }

  ghost predicate Full(segs: seq<Segment>, e: nat) {
    segs != [] && exists a: int :: 0 <= a < e < TWO63 && Tiles(segs, a, e)
  }

  lemma {:induction false} SegmentSources(ts: seq<CompiledPlan.Track>, s: Segment)
    ensures s in CompiledPlan.AllSegments(ts) <==> exists i :: 0 <= i < |ts| && s in ts[i].segments
  {
    if ts == [] {
    } else {
      var init := ts[..|ts| - 1];
      SegmentSources(init, s);
      assert forall i :: 0 <= i < |init| ==> init[i] == ts[i];
    }
  }

  lemma {:induction false} OtherConcat(xs: seq<Segment>, ys: seq<Segment>)
    requires Orders.Pairwise(CompiledPlan.OtherSegment, xs) && Orders.Pairwise(CompiledPlan.OtherSegment, ys)
    requires forall x, y :: x in xs && y in ys ==> CompiledPlan.OtherSegment(x, y)
    ensures Orders.Pairwise(CompiledPlan.OtherSegment, xs + ys)
  {
    var all := xs + ys;
    forall i, j | 0 <= i < j < |all| ensures CompiledPlan.OtherSegment(all[i], all[j]) {
      if j < |xs| {
        assert CompiledPlan.OtherSegment(xs[i], xs[j]);
      } else if i >= |xs| {
        assert CompiledPlan.OtherSegment(ys[i - |xs|], ys[j - |xs|]);
      } else {
        assert all[i] in xs && all[j] in ys;
      }
    }
  }

  lemma {:induction false} NumberedApart(segs: seq<Segment>, trackId: string)
    requires Numbered(segs, trackId)
    ensures Orders.Pairwise(CompiledPlan.OtherSegment, segs)
  {
    forall i, j | 0 <= i < j < |segs| ensures CompiledPlan.OtherSegment(segs[i], segs[j]) {
      SegmentIdsDiffer(trackId, i, trackId, j);
    }
  }

  lemma {:induction false} TracksApart(xs: seq<Segment>, s: string, ys: seq<Segment>, t: string)
    requires Numbered(xs, s) && Numbered(ys, t) && s != t
    ensures forall x, y :: x in xs && y in ys ==> CompiledPlan.OtherSegment(x, y)
  {
    forall x, y | x in xs && y in ys ensures CompiledPlan.OtherSegment(x, y) {
      var i :| 0 <= i < |xs| && xs[i] == x;
      var j :| 0 <= j < |ys| && ys[j] == y;
      SegmentIdsDiffer(s, i, t, j);
    }
  }

  lemma {:induction false} InitApart(init: seq<CompiledPlan.Track>, last: CompiledPlan.Track, x: Segment, y: Segment)
    requires forall i :: 0 <= i < |init| ==>
               Numbered(init[i].segments, init[i].trackId) && init[i].trackId != last.trackId
    requires Numbered(last.segments, last.trackId)
    requires x in CompiledPlan.AllSegments(init) && y in last.segments
    ensures CompiledPlan.OtherSegment(x, y)
  {
    SegmentSources(init, x);
    var i :| 0 <= i < |init| && x in init[i].segments;
    TracksApart(init[i].segments, init[i].trackId, last.segments, last.trackId);
  }

  lemma {:induction false} AssembledInit(ts: seq<CompiledPlan.Track>, e: nat)
    requires Assembled(ts, e) && ts != []
    ensures var n := |ts| - 1;
            Assembled(ts[..n], e) && forall i :: 0 <= i < n ==> ts[..n][i].trackId != ts[n].trackId
  {}

  /** Segment ids are unique across all tracks. */
  lemma {:induction false} IdsUnique(ts: seq<CompiledPlan.Track>, e: nat)
    requires Assembled(ts, e)
    ensures Orders.Pairwise(CompiledPlan.OtherSegment, CompiledPlan.AllSegments(ts))
  {
    if ts == [] {
    } else {
      var n := |ts| - 1;
      var init, last := ts[..n], ts[n];
      AssembledInit(ts, e);
      IdsUnique(init, e);
      NumberedApart(last.segments, last.trackId);
      forall x, y | x in CompiledPlan.AllSegments(init) && y in last.segments ensures CompiledPlan.OtherSegment(x, y) {
        InitApart(init, last, x, y);
      }
      OtherConcat(CompiledPlan.AllSegments(init), last.segments);
    }
  }

  lemma {:induction false} IdNotBlank(trackId: string, k: nat)
    ensures !Text.Blank(SegmentId(trackId, k))
  {
    assert SegmentId(trackId, k)[|trackId|] == '-';
  }

  // ----- validity

  /** The source of a segment is a long enough listed asset with the same content. */
  ghost predicate SourceOk(s: Segment, assets: seq<AssetRef>) {
    && s.sourceIn >= 0 && s.sourceDuration > 0
    && exists a :: a in assets && CompiledPlan.Names(a, s.assetId) && CompiledPlan.SourceMatches(s, a)
  }

  ghost predicate SourcesOk(ts: seq<CompiledPlan.Track>, assets: seq<AssetRef>) {
    forall i, s :: 0 <= i < |ts| && s in ts[i].segments ==> SourceOk(s, assets)
  }

  /** Everything the validator asks of a plan apart from its tracks. */
  ghost predicate Framed(p: CompiledPlan.Plan) {
    && CompiledPlan.HeaderOk(p) && CompiledPlan.OutputOk(p.output) && CompiledPlan.AudioOk(p)
    && CompiledPlan.AssetsOk(p.assets) && CompiledPlan.AudioReferenced(p.finalAudio, p.assets)
    && p.stockPool.None?
  }

  lemma {:induction false} TrackSegmentsOk(t: CompiledPlan.Track, assets: seq<AssetRef>, total: Budget, e: nat)
    requires Numbered(t.segments, t.trackId) && Full(t.segments, e)
    ensures (forall s :: s in t.segments ==> CompiledPlan.SegmentOk(s, assets, total)) <==>
            InBudget(total, e) && forall s :: s in t.segments ==> SourceOk(s, assets)
  {
    var a: int :| 0 <= a < e < TWO63 && Tiles(t.segments, a, e);
    TrackFits(t.segments, a, e, total);
    forall s | s in t.segments
      ensures CompiledPlan.SegmentOk(s, assets, total) <==> CompiledPlan.PlacementOk(s, total) && SourceOk(s, assets)
    {
      var k :| 0 <= k < |t.segments| && t.segments[k] == s;
      IdNotBlank(t.trackId, k);
    }
  }

  lemma {:induction false} TracksValid(ts: seq<CompiledPlan.Track>, assets: seq<AssetRef>, total: Budget, e: nat)
    requires Assembled(ts, e) && ts != []
    ensures CompiledPlan.TracksOk(ts, assets, total) <==> InBudget(total, e) && SourcesOk(ts, assets)
  {
    IdsUnique(ts, e);
    forall i | 0 <= i < |ts|
      ensures (forall s :: s in ts[i].segments ==> CompiledPlan.SegmentOk(s, assets, total)) <==>
              InBudget(total, e) && forall s :: s in ts[i].segments ==> SourceOk(s, assets)
    {
      TrackSegmentsOk(ts[i], assets, total, e);
    }
    forall s ensures s in CompiledPlan.AllSegments(ts) <==> exists i :: 0 <= i < |ts| && s in ts[i].segments {
      SegmentSources(ts, s);
    }
    if CompiledPlan.TracksOk(ts, assets, total) {
      forall i, s | 0 <= i < |ts| && s in ts[i].segments ensures CompiledPlan.SegmentOk(s, assets, total) {
        assert s in CompiledPlan.AllSegments(ts);
      }
      assert ts[0].segments[0] in ts[0].segments;
    }
    assert Orders.Pairwise(CompiledPlan.OtherTrack, ts);
  }

  lemma {:induction false} TracksAssembled(
    tracks: seq<VideoTrack>, reps: seq<Replacement>, assets: Assets, rate: Rate, e: nat)
    requires rate.Roomy() && FullTracks(tracks, assets, rate, e) && NamedApart(tracks)
    requires VideoTracks(tracks, reps, assets, rate).Some?
    ensures var out := VideoTracks(tracks, reps, assets, rate).value;
            out != [] && Assembled(Orders.Map(PlanTrack, out), e)
  {
    var cut := CutterFor(reps, assets, rate);
    forall i | 0 <= i < |tracks|
      ensures cut(tracks[i]).Some? && Numbered(cut(tracks[i]).value, tracks[i].id) && Full(cut(tracks[i]).value, e)
    {
      EachTrackCut(tracks, cut, i);
      assert FullTrack(tracks[i], assets, rate, e);
      TrackNumbered(tracks[i], reps, assets, rate);
      var a := TrackTiles(tracks[i], reps, assets, rate, e);
    }
    OutTracksAll(tracks, cut);
  }

  /**
    A plan assembled from compiled video tracks passes validation exactly when its frames fit the
    budget and every segment's source is sound; ids, order and placement need no further check.
   */
  lemma {:induction false} PlanValidExactly(
    p: CompiledPlan.Plan, tracks: seq<VideoTrack>, reps: seq<Replacement>, assets: Assets, rate: Rate, e: nat)
    requires rate.Roomy() && FullTracks(tracks, assets, rate, e) && NamedApart(tracks) && Framed(p)
    requires VideoTracks(tracks, reps, assets, rate).Some?
    requires p.tracks == Orders.Map(PlanTrack, VideoTracks(tracks, reps, assets, rate).value)
    ensures CompiledPlan.WellFormed(p) <==>
            && InBudget(CompiledPlan.OutputFrameCount(p.durationUS, p.output.fpsNum, p.output.fpsDen), e)
            && SourcesOk(p.tracks, p.assets)
  {
    TracksAssembled(tracks, reps, assets, rate, e);
    TracksValid(p.tracks, p.assets, CompiledPlan.OutputFrameCount(p.durationUS, p.output.fpsNum, p.output.fpsDen), e);
  }

  // ----- sound sources

  /** An asset that backs a base segment through resolution. */
  predicate Backs(a: AssetRef, b: Segment, rate: Rate) {
    && CompiledPlan.Names(a, b.assetId) && CompiledPlan.SourceMatches(b, a)
    && a.durationUS < TWO63 && PlanSources.LongEnough(b, a, rate)
  }

  /** An asset that backs every share of a replacement: the right content, as long as the whole window. */
  predicate Carries(a: AssetRef, r: Replacement) {
    && CompiledPlan.Names(a, r.assetId) && (a.kind == "video" || a.kind == "prepared_video_fragment")
    && (CompiledPlan.DeferredDriveVideo(a) || (CompiledPlan.LowerSha256(r.sha256) && r.sha256 == a.sha256))
    && r.endUS - r.startUS <= a.durationUS < TWO63
  }

  ghost predicate AllBacked(base: seq<Segment>, assets: seq<AssetRef>, rate: Rate) {
    forall b :: b in base ==> exists a :: a in assets && Backs(a, b, rate)
  }

  ghost predicate AllCarried(reps: seq<Replacement>, assets: seq<AssetRef>) {
    forall r :: r in reps ==> exists a :: a in assets && Carries(a, r)
  }

  lemma {:induction false} BasePieceSource(
    p: Piece, s: Segment, base: seq<Segment>, sorted: seq<Replacement>, rate: Rate, a: int, e: int, asset: AssetRef)
    requires GoodBase(base, a, e, rate) && SourceFits(base, rate) && Backs(asset, p.seg, rate)
    requires FaithfulTo(p, base, sorted, rate) && p.BasePiece? && Emit(p, rate) == Emitted(s)
    ensures s.sourceIn >= 0 && s.sourceDuration > 0
    ensures CompiledPlan.Names(asset, s.assetId) && CompiledPlan.SourceMatches(s, asset)
  {
    var i :| 0 <= i < |base| && base[i] == p.seg;
    BaseBounds(base, a, e, rate, i);
    EmittedSource(p, s, rate);
    SourceInRange(base[i].sourceIn, p.from, StartUS(base[i], rate), EndUS(base[i], rate));
  }

  lemma {:induction false} PreparedPieceSource(
    p: Piece, s: Segment, base: seq<Segment>, sorted: seq<Replacement>, rate: Rate, a: int, e: int, asset: AssetRef)
    requires GoodBase(base, a, e, rate) && p.PreparedPiece? && Carries(asset, p.rep)
    requires FaithfulTo(p, base, sorted, rate) && Emit(p, rate) == Emitted(s) && p.rep.startUS < p.rep.endUS
    ensures s.sourceIn >= 0 && s.sourceDuration > 0
    ensures CompiledPlan.Names(asset, s.assetId) && CompiledPlan.SourceMatches(s, asset)
  {
    var i :| 0 <= i < |base| && base[i] == p.seg;
    BaseBounds(base, a, e, rate, i);
    assert s.sourceIn == 0 && s.sourceDuration == p.to - p.from <= p.rep.endUS - p.rep.startUS;
  }

  /** Resolving keeps every source sound if the base is backed and the replacements are carried. */
  lemma {:induction false} ResolvedSourcesOk(
    base: seq<Segment>, reps: seq<Replacement>, rate: Rate, a: int, e: int, assets: seq<AssetRef>, s: Segment)
    requires GoodBase(base, a, e, rate) && SourceFits(base, rate) && reps != []
    requires Resolve(base, reps, rate).Ok? && s in Resolve(base, reps, rate).segments
    requires AllBacked(base, assets, rate) && AllCarried(reps, assets)
    ensures SourceOk(s, assets)
  {
    var ps := AcceptedPieces(base, reps, rate, a, e);
    var sorted := Orders.Sort(StartsNoLater, reps);
    Orders.MembersOfPermutation(sorted, reps);
    var out := Resolve(base, reps, rate).segments;
    var n :| 0 <= n < |out| && out[n] == s;
    var p := ps[n];
    assert FaithfulTo(p, base, sorted, rate) && Emit(p, rate) == Emitted(s);
    if p.BasePiece? {
      assert p.seg in base;
      var asset :| asset in assets && Backs(asset, p.seg, rate);
      BasePieceSource(p, s, base, sorted, rate, a, e, asset);
    } else {
      assert p.rep in reps;
      var asset :| asset in assets && Carries(asset, p.rep);
      PreparedPieceSource(p, s, base, sorted, rate, a, e, asset);
    }
  }

  lemma {:induction false} TrackSourcesOk(
    track: VideoTrack, reps: seq<Replacement>, assets: Assets, rate: Rate, e: nat, listed: seq<AssetRef>)
    requires rate.Positive() && FullTrack(track, assets, rate, e) && TrackSegments(track, reps, assets, rate).Some?
    requires AllBacked(CompiledSegments(track, assets, rate), listed, rate) && AllCarried(reps, listed)
    ensures forall s :: s in TrackSegments(track, reps, assets, rate).value ==> SourceOk(s, listed)
  {
    var base := CompiledSegments(track, assets, rate);
    var segs := TrackSegments(track, reps, assets, rate).value;
    var a: int :| Playable(base, a, e, rate);
    forall k | 0 <= k < |segs| ensures SourceOk(segs[k], listed) {
      if reps == [] {
        assert CompileEvent(track.id, k, track.events[k], assets, rate) == Compiled(base[k]);
        assert base[k] in base;
      } else {
        var out := Resolve(base, reps, rate).segments;
        assert out[k] in out;
        ResolvedSourcesOk(base, reps, rate, a, e, listed, out[k]);
        SourceOkRenamed(out[k], SegmentId(track.id, k), listed);
      }
    }
  }

  lemma {:induction false} SourceOkRenamed(s: Segment, id: string, assets: seq<AssetRef>)
    requires SourceOk(s, assets)
    ensures SourceOk(s.(segmentId := id), assets)
  {
    var a :| a in assets && CompiledPlan.Names(a, s.assetId) && CompiledPlan.SourceMatches(s, a);
    assert CompiledPlan.SourceMatches(s.(segmentId := id), a);
  }

  /**
    With backed bases and carried replacements, a compiled plan passes validation exactly when the end
    of its tracks fits the frame budget.
   */
  lemma {:induction false} BackedPlanValid(
    p: CompiledPlan.Plan, tracks: seq<VideoTrack>, reps: seq<Replacement>, assets: Assets, rate: Rate, e: nat)
    requires rate.Roomy() && FullTracks(tracks, assets, rate, e) && NamedApart(tracks) && Framed(p)
    requires VideoTracks(tracks, reps, assets, rate).Some?
    requires p.tracks == Orders.Map(PlanTrack, VideoTracks(tracks, reps, assets, rate).value)
    requires AllCarried(reps, p.assets)
    requires forall i :: 0 <= i < |tracks| ==>
               Compiles(tracks[i], assets, rate) && AllBacked(CompiledSegments(tracks[i], assets, rate), p.assets, rate)
    ensures CompiledPlan.WellFormed(p) <==>
            InBudget(CompiledPlan.OutputFrameCount(p.durationUS, p.output.fpsNum, p.output.fpsDen), e)
  {
    PlanValidExactly(p, tracks, reps, assets, rate, e);
    BackedSources(p, tracks, reps, assets, rate, e);
  }

  lemma {:induction false} BackedSources(
    p: CompiledPlan.Plan, tracks: seq<VideoTrack>, reps: seq<Replacement>, assets: Assets, rate: Rate, e: nat)
    requires rate.Roomy() && FullTracks(tracks, assets, rate, e)
    requires VideoTracks(tracks, reps, assets, rate).Some?
    requires p.tracks == Orders.Map(PlanTrack, VideoTracks(tracks, reps, assets, rate).value)
    requires AllCarried(reps, p.assets)
    requires forall i :: 0 <= i < |tracks| ==>
               Compiles(tracks[i], assets, rate) && AllBacked(CompiledSegments(tracks[i], assets, rate), p.assets, rate)
    ensures SourcesOk(p.tracks, p.assets)
  {
    var cut := CutterFor(reps, assets, rate);
    forall i | 0 <= i < |tracks|
      ensures cut(tracks[i]).Some? && cut(tracks[i]).value != []
      ensures forall s :: s in cut(tracks[i]).value ==> SourceOk(s, p.assets)
    {
      EachTrackCut(tracks, cut, i);
      assert FullTrack(tracks[i], assets, rate, e);
      var a := TrackTiles(tracks[i], reps, assets, rate, e);
      TrackSourcesOk(tracks[i], reps, assets, rate, e, p.assets);
    }
    OutTracksAll(tracks, cut);
  }

  /**
    The overlay path to its end: valid overlays over full tracks compile to a plan that passes validation
    exactly when none is composite, every one carries a frame count and the tracks fit the budget.
   */
  lemma {:induction false} OverlayPlanValid(
    p: CompiledPlan.Plan, tracks: seq<VideoTrack>, os: seq<Overlays.Overlay>, assets: Assets, rate: Rate, e: nat)
    requires rate.Roomy() && FullTracks(tracks, assets, rate, e) && NamedApart(tracks) && Framed(p) && os != []
    requires forall i :: 0 <= i < |os| ==> Overlays.InRange(os[i])
    requires Overlays.Valid(os, e) && Backed(os, assets, rate)
    requires AllCarried(ToReplacements(OverlayTimeline.CuesOf(os), rate), p.assets)
    requires forall i :: 0 <= i < |tracks| ==>
               Compiles(tracks[i], assets, rate) && AllBacked(CompiledSegments(tracks[i], assets, rate), p.assets, rate)
    requires OverlayPath(tracks, os, assets, rate).Some? ==>
               p.tracks == Orders.Map(PlanTrack, OverlayPath(tracks, os, assets, rate).value)
    ensures OverlayPath(tracks, os, assets, rate).Some? && CompiledPlan.WellFormed(p) <==>
            && NoComposite(os) && Counted(os)
            && InBudget(CompiledPlan.OutputFrameCount(p.durationUS, p.output.fpsNum, p.output.fpsDen), e)
  {
    ManifestPathNeedsCounts(tracks, os, assets, rate, e);
    if OverlayPath(tracks, os, assets, rate).Some? {
      var reps := ToReplacements(OverlayTimeline.CuesOf(os), rate);
      assert VideoTracks(tracks, reps, assets, rate) == OverlayPath(tracks, os, assets, rate);
      BackedPlanValid(p, tracks, reps, assets, rate, e);
    }
  }

  // ----- an instance

  const EXAMPLE_VIDEO := VideoTrack("v", [Event("base", 0, 0, 2_000)])
  const EXAMPLE_RATE := Rate(25, 1)

  function ExampleDeclared(): Assets {
    map["base" := Asset("video", CanonicalPlan.Zeros(), 2_000)]
  }

  function ExampleMedia(): AssetRef {
    CanonicalPlan.SlotAsset().(assetId := "base", kind := "video", durationUS := 2_000_000)
  }

  /** Two seconds of video, whose fifty frames are put in a plan of the given duration. */
  ghost function ExamplePlan(durationUS: int): CompiledPlan.Plan
    requires VideoTracks([EXAMPLE_VIDEO], [], ExampleDeclared(), EXAMPLE_RATE).Some?
  {
    var audio := CanonicalPlan.SlotAsset().(durationUS := durationUS);
    CanonicalPlan.SlotPlan().(
      durationUS := durationUS, finalAudio := CanonicalPlan.SlotAudio().(durationUS := durationUS),
      assets := [audio, ExampleMedia()],
      tracks := Orders.Map(PlanTrack, VideoTracks([EXAMPLE_VIDEO], [], ExampleDeclared(), EXAMPLE_RATE).value))
  }

  lemma {:induction false} ExampleSegment()
    ensures Compiles(EXAMPLE_VIDEO, ExampleDeclared(), EXAMPLE_RATE)
    ensures var segs := CompiledSegments(EXAMPLE_VIDEO, ExampleDeclared(), EXAMPLE_RATE);
            && |segs| == 1
            && segs[0] == Segment(SegmentId("v", 0), false, "base", CanonicalPlan.Zeros(), 0, 50, 0, 2_000_000)
  {
    assert ExampleDeclared()["base"].kind == "video";
    assert Nearest(0, EXAMPLE_RATE) == 0 && Nearest(2_000_000, EXAMPLE_RATE) == 50;
  }

  lemma {:induction false} ExampleTracks()
    ensures EXAMPLE_RATE.Roomy() && FullTracks([EXAMPLE_VIDEO], ExampleDeclared(), EXAMPLE_RATE, 50)
    ensures NamedApart([EXAMPLE_VIDEO]) && VideoTracks([EXAMPLE_VIDEO], [], ExampleDeclared(), EXAMPLE_RATE).Some?
  {
    var segs := CompiledSegments(EXAMPLE_VIDEO, ExampleDeclared(), EXAMPLE_RATE);
    ExampleSegment();
    assert Playable(segs, 0, 50, EXAMPLE_RATE);
    assert EXAMPLE_VIDEO.id[0] == 'v';
    var cut := CutterFor([], ExampleDeclared(), EXAMPLE_RATE);
    assert cut(EXAMPLE_VIDEO) == Some(segs);
    OutTracksAll([EXAMPLE_VIDEO], cut);
  }

  lemma {:induction false} ExampleFrame(durationUS: int)
    requires durationUS == 2_000_000 || durationUS == 1_960_000
    requires VideoTracks([EXAMPLE_VIDEO], [], ExampleDeclared(), EXAMPLE_RATE).Some?
    ensures Framed(ExamplePlan(durationUS))
  {
    var p := ExamplePlan(durationUS);
    CanonicalPlan.SlotHeader();
    CanonicalPlan.SlotAssets();
    var audio, media := p.assets[0], ExampleMedia();
    assert audio.assetId[0] == 'a' && audio.kind[0] == 'f' && media.assetId[0] == 'b' && media.kind[0] == 'v';
    assert CompiledPlan.OtherAsset(audio, media);
    assert audio in p.assets && CompiledPlan.Names(audio, p.finalAudio.assetId);
    assert CompiledPlan.AudioMatches(p.finalAudio, audio);
  }

  lemma {:induction false} ExampleFields(durationUS: int)
    requires VideoTracks([EXAMPLE_VIDEO], [], ExampleDeclared(), EXAMPLE_RATE).Some?
    ensures var p := ExamplePlan(durationUS);
            p.durationUS == durationUS && p.output.fpsNum == 25 && p.output.fpsDen == 1
  {}

  lemma {:induction false} ExampleDecided(durationUS: int)
    requires durationUS == 2_000_000 || durationUS == 1_960_000
    requires VideoTracks([EXAMPLE_VIDEO], [], ExampleDeclared(), EXAMPLE_RATE).Some?
    ensures CompiledPlan.WellFormed(ExamplePlan(durationUS)) <==>
            InBudget(CompiledPlan.OutputFrameCount(durationUS, 25, 1), 50)
  {
    ExampleTracks();
    ExampleFrame(durationUS);
    ExampleBacked(durationUS);
    ExampleFields(durationUS);
    BackedPlanValid(ExamplePlan(durationUS), [EXAMPLE_VIDEO], [], ExampleDeclared(), EXAMPLE_RATE, 50);
  }

  lemma {:induction false} ExampleBudgets()
    ensures CompiledPlan.OutputFrameCount(2_000_000, 25, 1) == Some(50)
    ensures CompiledPlan.OutputFrameCount(1_960_000, 25, 1) == Some(49)
  {}

  /** The plan is valid at its own length and refused when it is a frame shorter. */
  lemma {:induction false} BudgetSeen(durationUS: int)
    requires durationUS == 2_000_000 || durationUS == 1_960_000
    ensures VideoTracks([EXAMPLE_VIDEO], [], ExampleDeclared(), EXAMPLE_RATE).Some?
    ensures CompiledPlan.WellFormed(ExamplePlan(durationUS)) <==> durationUS == 2_000_000
  {
    ExampleTracks();
    ExampleDecided(durationUS);
    ExampleBudgets();
  }

  lemma {:induction false} ExampleBacked(durationUS: int)
    requires VideoTracks([EXAMPLE_VIDEO], [], ExampleDeclared(), EXAMPLE_RATE).Some?
    ensures Compiles(EXAMPLE_VIDEO, ExampleDeclared(), EXAMPLE_RATE)
    ensures AllBacked(CompiledSegments(EXAMPLE_VIDEO, ExampleDeclared(), EXAMPLE_RATE),
                      ExamplePlan(durationUS).assets, EXAMPLE_RATE)
  {
    ExampleSegment();
    var b := CompiledSegments(EXAMPLE_VIDEO, ExampleDeclared(), EXAMPLE_RATE)[0];
    assert StartUS(b, EXAMPLE_RATE) == 0 && EndUS(b, EXAMPLE_RATE) == 2_000_000;
    assert ExamplePlan(durationUS).assets[1] == ExampleMedia() && Backs(ExampleMedia(), b, EXAMPLE_RATE);
  }
}
