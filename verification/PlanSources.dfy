/**
  From the compiler through the resolver to the validator: when the segments of a resolved track still
  read inside their assets.
 */
module PlanSources {
  import opened Optional
  import opened FrameTime
  import opened VisualTimeline
  import opened VisualSemantics
  import opened VisualFrames
  import opened Manifest
  import Cues
  import CompiledPlan

  type AssetRef = CompiledPlan.AssetRef

  /** The asset lasts, from the segment's entry point, as long as the segment's frames do. */
  predicate LongEnough(s: Segment, asset: AssetRef, rate: Rate) {
    s.sourceIn + (EndUS(s, rate) - StartUS(s, rate)) <= asset.durationUS
  }

  /** A base segment that is not cut is valid after resolution exactly if its asset lasts as long as its frames. */
  lemma {:induction false} UncutSourceMatches(
    base: seq<Segment>, replacements: seq<Replacement>, rate: Rate, a: int, e: int, j: nat, asset: AssetRef)
    returns (n: nat)
    requires GoodBase(base, a, e, rate) && rate.Roomy() && replacements != []
    requires Resolve(base, replacements, rate).Ok?
    requires j < |base| && Untouched(base[j], replacements, rate)
    requires CompiledPlan.SourceMatches(base[j], asset) && asset.durationUS < TWO63
    ensures var out := Resolve(base, replacements, rate).segments;
            && n < |out| && out[n].start == base[j].start && out[n].count == base[j].count
            && (CompiledPlan.SourceMatches(out[n], asset) <==> LongEnough(base[j], asset, rate))
  {
    BaseBounds(base, a, e, rate, j);
    FloorStrict(base[j].start, base[j].start + base[j].count, rate);
    BaseOrdered(base, a, e, rate);
    n := UncutReemitted(base, replacements, rate, j);
    FitsBelow(base[j].start + base[j].count, e, rate);
    WholeMatches(base[j], Resolve(base, replacements, rate).segments[n], rate, asset);
  }

  lemma {:induction false} WholeMatches(s: Segment, t: Segment, rate: Rate, asset: AssetRef)
    requires rate.Roomy() && 0 <= s.start && 0 < s.count && Fits(s.start + s.count, rate)
    requires Emit(WholePiece(s, rate), rate) == Emitted(t)
    requires CompiledPlan.SourceMatches(s, asset) && asset.durationUS < TWO63
    ensures t.start == s.start && t.count == s.count
    ensures CompiledPlan.SourceMatches(t, asset) <==> LongEnough(s, asset, rate)
  {
    WholeLength(s, t, rate);
    FloorStrict(s.start, s.start + s.count, rate);
    EmittedRange(WholePiece(s, rate), rate);
    RoundTrip(s.start, rate);
    RoundTrip(s.start + s.count, rate);
  }

  /** Whatever is cut, the pieces left of a base segment stay inside an asset that lasts as long as its frames. */
  lemma {:induction false} CutSourcesMatch(
    base: seq<Segment>, replacements: seq<Replacement>, rate: Rate, a: int, e: int, i: nat, n: nat, f: int,
        asset: AssetRef)
    requires GoodBase(base, a, e, rate) && SourceFits(base, rate) && replacements != []
    requires Resolve(base, replacements, rate).Ok? && n < |Resolve(base, replacements, rate).segments|
    requires i < |base| && Plays(base[i], f, rate) && Covers(Resolve(base, replacements, rate).segments[n], f)
    requires forall r :: r in replacements ==> !Claims(r, f, rate)
    requires CompiledPlan.SourceMatches(base[i], asset) && asset.durationUS < TWO63 && LongEnough(base[i], asset, rate)
    ensures CompiledPlan.SourceMatches(Resolve(base, replacements, rate).segments[n], asset)
  {
    UnclaimedSegment(base, replacements, rate, a, e, i, n, f);
  }

  /** Half a frame and a microsecond of spare media are enough for an event to survive resolution. */
  lemma {:induction false} SlackSuffices(
    trackId: string, index: nat, event: Event, assets: map<string, Asset>, rate: Rate, asset: AssetRef)
    requires rate.Positive() && Timed(event) && CompileEvent(trackId, index, event, assets, rate).Compiled?
    requires var s := CompileEvent(trackId, index, event, assets, rate).segment;
             && Fits(s.start + s.count, rate)
             && rate.Span() + 2 * rate.num <= 2 * ((asset.durationUS - (s.sourceIn + s.sourceDuration)) * rate.num)
    ensures LongEnough(CompileEvent(trackId, index, event, assets, rate).segment, asset, rate)
  {
    var s := CompileEvent(trackId, index, event, assets, rate).segment;
    CompiledFrames(trackId, index, event, assets, rate);
    var length := FloorUS(s.start + s.count, rate) - FloorUS(s.start, rate);
    FramesLength(event, s, rate);
    FitsBelow(s.start, s.start + s.count, rate);
    FitsBelow(s.start + s.count, s.start + s.count, rate);
    FrameToUSExact(s.start, rate);
    FrameToUSExact(s.start + s.count, rate);
    Spare(length - s.sourceDuration, asset.durationUS - (s.sourceIn + s.sourceDuration), rate.num, rate.Span());
  }

  lemma {:induction false} Spare(grown: int, spare: int, num: int, w: int)
    requires num > 0 && 2 * (grown * num) < w + 2 * num <= 2 * (spare * num)
    ensures grown <= spare
  {
    if grown > spare {
      MulMono(spare, grown, num);
    }
  }

  // ----- an instance

  function ExampleAssets(sha: string): map<string, Asset> {
    map["v" := Asset("video", sha, 17), "w" := Asset("video", sha, 1_000)]
  }

  /** Both events of a track at 30 frames a second: 17 ms, then a second. */
  ghost predicate ExampleTrack(base: seq<Segment>, sha: string, rate: Rate) {
    rate == Rate(30, 1) && CompiledFrom(base, "t", [Event("v", 0, 0, 17), Event("w", 17, 0, 1_000)],
        ExampleAssets(sha), rate)
  }

  lemma {:induction false} ExampleTrackPlays(base: seq<Segment>, sha: string, rate: Rate)
    requires ExampleTrack(base, sha, rate)
    ensures rate.Roomy() && |base| == 2 && Cues.Playable(base, 0, 31, rate)
    ensures base[0].start == 0 && base[0].count == 1 && base[0].sourceIn == 0 && base[0].sourceDuration == 17_000
    ensures base[0].sha256 == sha && StartUS(base[0], rate) == 0 && EndUS(base[0], rate) == 33_333
  {
    var events := [Event("v", 0, 0, 17), Event("w", 17, 0, 1_000)];
    assert Nearest(0, rate) == 0 && Nearest(17_000, rate) == 1 && Nearest(1_000_000, rate) == 30;
    assert CompileEvent("t", 0, events[0], ExampleAssets(sha), rate) == Compiled(base[0]);
    assert CompileEvent("t", 1, events[1], ExampleAssets(sha), rate) == Compiled(base[1]);
  }

  /**
    A 17 ms event over a 17 ms asset compiles to a valid segment; after a replacement elsewhere on the
    track it is re-emitted with 33333 microseconds of source, which the validator refuses.
   */
  lemma {:induction false} ResolvingBreaksSource(base: seq<Segment>, asset: AssetRef, rate: Rate) returns (n: nat)
    requires ExampleTrack(base, asset.sha256, rate)
    requires asset.kind == "video" && CompiledPlan.LowerSha256(asset.sha256) && asset.durationUS == 17_000
    ensures |base| == 2 && CompiledPlan.SourceMatches(base[0], asset)
    ensures var out := Resolve(base, Cues.ToReplacements([Cues.EXAMPLE_CUE.(startFrame := 10, endFrame := 20)], rate),
        rate);
            out.Ok? && n < |out.segments| && out.segments[n].start == 0 &&
                !CompiledPlan.SourceMatches(out.segments[n], asset)
  {
    ExampleTrackPlays(base, asset.sha256, rate);
    var cue := Cues.EXAMPLE_CUE.(startFrame := 10, endFrame := 20);
    assert cue.assetId[0] == 't';
    assert Cues.CuesFit([cue], 31);
    Cues.CuesAccepted(base, [cue], 0, 31, rate);
    var rs := Cues.ToReplacements([cue], rate);
    assert FrameToUS(10, rate) == 333_333;
    assert Untouched(base[0], rs, rate);
    n := UncutSourceMatches(base, rs, rate, 0, 31, 0, asset);
  }
}
