/**
  The manifest entry point for replace overlays: the overlays are validated on normalized copies,
  converted as they were given, and cut into every compiled video track.
 */
module ManifestOverlays {
  import opened Optional
  import opened FrameTime
  import opened VisualTimeline
  import opened VisualSemantics
  import opened VisualFrames
  import opened Cues
  import opened Overlays
  import opened OverlayWindows
  import opened OverlayTimeline
  import opened Manifest
  import Orders
  import Text

  const DURATION_TOLERANCE_US := 50_000

  type Assets = map<string, Asset>

  datatype VideoTrack = VideoTrack(id: string, events: seq<Event>)
  datatype OutTrack = OutTrack(id: string, segments: seq<Segment>)

  // ----- the length of the base

  function EventEnd(e: Event, rate: Rate): Option<int> {
    match TimeUSToNearestFrame(MillisToMicros(e.timelineStartMS), rate)
    case NoFrame(_) => None
    case Frame(start) =>
      match TimeUSToNearestFrame(MillisToMicros(e.durationMS), rate)
      case NoFrame(_) => None
      case Frame(duration) => if duration <= 0 then None else Some(Wrap64(start + duration))
  }

  function BaseFrames(events: seq<Event>, rate: Rate): Option<int> {
    if events == [] then Some(0)
    else
      var last := |events| - 1;
      match BaseFrames(events[..last], rate)
      case None => None
      case Some(b) =>
        match EventEnd(events[last], rate)
        case None => None
        case Some(x) => Some(Max(b, x))
  }

  function AllEvents(tracks: seq<VideoTrack>): seq<Event> {
    if tracks == [] then [] else AllEvents(tracks[..|tracks| - 1]) + tracks[|tracks| - 1].events
  }

  /** An event ends where its nearest start and its nearest length add up; without a frame it has no end. */
  lemma {:induction false} EndExactly(e: Event, rate: Rate, start: int, count: int)
    requires rate.Positive() && 0 <= e.timelineStartMS <= LONGEST_MS && 0 <= e.durationMS <= LONGEST_MS
    requires IsNearest(start, 1_000 * e.timelineStartMS, rate) && IsNearest(count, 1_000 * e.durationMS, rate)
    ensures EventEnd(e, rate) == if 0 < count then Some(Wrap64(start + count)) else None
  {
    MicrosExactly(e.timelineStartMS);
    MicrosExactly(e.durationMS);
    NearestExactly(1_000 * e.timelineStartMS, rate, start);
    NearestExactly(1_000 * e.durationMS, rate, count);
  }

  /** The base is as long as the latest end, and unknown exactly when some event has none. */
  lemma {:induction false} LengthExactly(events: seq<Event>, rate: Rate)
    ensures BaseFrames(events, rate).None? <==> exists i :: 0 <= i < |events| && EventEnd(events[i], rate).None?
    ensures BaseFrames(events, rate).Some? ==>
              var b := BaseFrames(events, rate).value;
              && 0 <= b && (forall i :: 0 <= i < |events| ==> EventEnd(events[i], rate).value <= b)
              && (b == 0 || exists i :: 0 <= i < |events| && EventEnd(events[i], rate).value == b)
  {
    if events == [] {
    } else {
      var n := |events| - 1;
      LengthExactly(events[..n], rate);
      assert forall i :: 0 <= i < n ==> events[..n][i] == events[i];
      assert forall i :: 0 <= i < |events| && i != n ==> events[i] == events[..n][i];
    }
  }

  lemma {:induction false} BaseFramesFails(done: seq<Event>, more: seq<Event>, rate: Rate)
    requires BaseFrames(done, rate).None?
    ensures BaseFrames(done + more, rate).None?
  {
    if more == [] {
      assert done + more == done;
    } else {
      BaseFramesFails(done, more[..|more| - 1], rate);
      assert (done + more)[..|done + more| - 1] == done + more[..|more| - 1];
    }
  }

  lemma {:induction false} BaseFramesStep(done: seq<Event>, events: seq<Event>, i: nat, rate: Rate)
    requires i < |events|
    ensures var now, next := BaseFrames(done + events[..i], rate), BaseFrames(done + events[..i + 1], rate);
            next == if now.None? || EventEnd(events[i], rate).None? then None
                    else Some(Max(now.value, EventEnd(events[i], rate).value))
    ensures BaseFrames(done + events[..i + 1], rate).None? ==> BaseFrames(done + events, rate).None?
  {
    var all := done + events[..i + 1];
    assert all[..|all| - 1] == done + events[..i];
    assert all[|all| - 1] == events[i];
    if BaseFrames(all, rate).None? {
      BaseFramesFails(all, events[i + 1..], rate);
      assert all + events[i + 1..] == done + events;
    }
  }

  /** One track's share of the loop over all events. */
  method CountTrack(events: seq<Event>, rate: Rate, b: int, ghost done: seq<Event>) returns (r: Option<int>)
    requires BaseFrames(done, rate) == Some(b)
    ensures r == BaseFrames(done + events, rate)
  {
    var frames := b;
    assert done + events[..0] == done;
    for i := 0 to |events|
      invariant BaseFrames(done + events[..i], rate) == Some(frames)
    {
      BaseFramesStep(done, events, i, rate);
      var end := EventEnd(events[i], rate);
      if end.None? {
        return None;
      }
      if end.value > frames {
        frames := end.value;
      }
    }
    assert events[..|events|] == events;
    r := Some(frames);
  }

  method CountBaseFrames(tracks: seq<VideoTrack>, rate: Rate) returns (r: Option<int>)
    ensures r == BaseFrames(AllEvents(tracks), rate)
  {
    var frames := 0;
    for i := 0 to |tracks|
      invariant BaseFrames(AllEvents(tracks[..i]), rate) == Some(frames)
    {
      assert tracks[..i + 1][..i] == tracks[..i];
      var counted := CountTrack(tracks[i].events, rate, frames, AllEvents(tracks[..i]));
      if counted.None? {
        EventsPrefix(tracks, i + 1);
        BaseFramesFails(AllEvents(tracks[..i + 1]), AllEvents(tracks)[|AllEvents(tracks[..i + 1])|..], rate);
        return None;
      }
      frames := counted.value;
    }
    assert tracks[..|tracks|] == tracks;
    r := Some(frames);
  }

  lemma {:induction false} EventsPrefix(tracks: seq<VideoTrack>, n: nat)
    requires n <= |tracks|
    ensures var done := AllEvents(tracks[..n]);
            |done| <= |AllEvents(tracks)| && AllEvents(tracks) == done + AllEvents(tracks)[|done|..]
  {
    if n == |tracks| {
      assert tracks[..n] == tracks;
    } else {
      var init := tracks[..|tracks| - 1];
      EventsPrefix(init, n);
      assert init[..n] == tracks[..n];
    }
  }

  // ----- the video tracks

  predicate IdentityOk(r: Replacement, assets: Assets) {
    && r.assetId in assets && assets[r.assetId].kind == "video"
    && (r.sha256 == "" || r.sha256 == assets[r.assetId].sha256)
  }

  function Abs64(v: int): int {
    if v < 0 then Wrap64(-v) else v
  }

  predicate DurationOk(r: Replacement, assets: Assets) {
    var window := Wrap64(r.endUS - r.startUS);
    r.assetId in assets && window > 0 ==>
      Abs64(Wrap64(MillisToMicros(assets[r.assetId].durationMS) - window)) <= DURATION_TOLERANCE_US
  }

  ghost predicate Compiles(track: VideoTrack, assets: Assets, rate: Rate) {
    forall i :: 0 <= i < |track.events| ==> CompileEvent(track.id, i, track.events[i], assets, rate).Compiled?
  }

  function CompiledSegments(track: VideoTrack, assets: Assets, rate: Rate): (segs: seq<Segment>)
    requires Compiles(track, assets, rate)
    ensures CompiledFrom(segs, track.id, track.events, assets, rate)
  {
    seq(|track.events|, i requires 0 <= i < |track.events| =>
      CompileEvent(track.id, i, track.events[i], assets, rate).segment)
  }

  function Renamed(segs: seq<Segment>, trackId: string): (r: seq<Segment>)
    ensures |r| == |segs|
    ensures forall i :: 0 <= i < |segs| ==> r[i] == segs[i].(segmentId := SegmentId(trackId, i))
  {
    seq(|segs|, i requires 0 <= i < |segs| => segs[i].(segmentId := SegmentId(trackId, i)))
  }

  /** One video track with the replacements cut in. */
  ghost function TrackSegments(
    track: VideoTrack, reps: seq<Replacement>, assets: Assets, rate: Rate): Option<seq<Segment>>
  {
    if !Compiles(track, assets, rate) then None
    else if reps == [] then Some(CompiledSegments(track, assets, rate))
    else
      match Resolve(CompiledSegments(track, assets, rate), reps, rate)
      case Err(_) => None
      case Ok(out) => Some(Renamed(out, track.id))
  }

  /** How a video track is cut. */
  type Cutter = VideoTrack -> Option<seq<Segment>>

  ghost function CutterFor(reps: seq<Replacement>, assets: Assets, rate: Rate): Cutter {
    track => TrackSegments(track, reps, assets, rate)
  }

  /** All video tracks that are not empty. */
  ghost function OutTracks(tracks: seq<VideoTrack>, cut: Cutter): Option<seq<OutTrack>> {
    if tracks == [] then Some([])
    else
      var last := |tracks| - 1;
      match OutTracks(tracks[..last], cut)
      case None => None
      case Some(ts) =>
        match cut(tracks[last])
        case None => None
        case Some(segs) => Some(if segs == [] then ts else ts + [OutTrack(tracks[last].id, segs)])
  }

  ghost predicate AllIdentified(reps: seq<Replacement>, assets: Assets) {
    forall i :: 0 <= i < |reps| ==> IdentityOk(reps[i], assets)
  }

  ghost predicate AllTimed(reps: seq<Replacement>, assets: Assets) {
    forall i :: 0 <= i < |reps| ==> DurationOk(reps[i], assets)
  }

  ghost function VideoTracks(
    tracks: seq<VideoTrack>, reps: seq<Replacement>, assets: Assets, rate: Rate): Option<seq<OutTrack>>
  {
    if !AllIdentified(reps, assets) then None
    else
      match OutTracks(tracks, CutterFor(reps, assets, rate))
      case None => None
      case Some(ts) => if ts == [] || !AllTimed(reps, assets) then None else Some(ts)
  }

  lemma {:induction false} OutTracksFail(tracks: seq<VideoTrack>, n: nat, cut: Cutter)
    requires n <= |tracks| && OutTracks(tracks[..n], cut).None?
    ensures OutTracks(tracks, cut).None?
  {
    if n == |tracks| {
      assert tracks[..n] == tracks;
    } else {
      var init := tracks[..|tracks| - 1];
      assert init[..n] == tracks[..n];
      OutTracksFail(init, n, cut);
    }
  }

  lemma {:induction false} OutTracksFailAt(tracks: seq<VideoTrack>, n: nat, cut: Cutter)
    requires n < |tracks| && cut(tracks[n]).None?
    ensures OutTracks(tracks, cut).None?
  {
    assert tracks[..n + 1][..n] == tracks[..n];
    OutTracksFail(tracks, n + 1, cut);
  }

  lemma {:induction false} OutTracksAll(tracks: seq<VideoTrack>, cut: Cutter)
    requires forall i :: 0 <= i < |tracks| ==> cut(tracks[i]).Some? && cut(tracks[i]).value != []
    ensures OutTracks(tracks, cut).Some? && |OutTracks(tracks, cut).value| == |tracks|
    ensures forall i :: 0 <= i < |tracks| ==>
              OutTracks(tracks, cut).value[i] == OutTrack(tracks[i].id, cut(tracks[i]).value)
  {
    if tracks == [] {
    } else {
      OutTracksAll(tracks[..|tracks| - 1], cut);
    }
  }

  /** If all tracks are cut, each on its own was. */
  lemma {:induction false} EachTrackCut(tracks: seq<VideoTrack>, cut: Cutter, i: nat)
    requires i < |tracks| && OutTracks(tracks, cut).Some?
    ensures cut(tracks[i]).Some?
  {
    if cut(tracks[i]).None? {
      OutTracksFailAt(tracks, i, cut);
    }
  }

  method CompileOne(
    track: VideoTrack, reps: seq<Replacement>, assets: Assets, rate: Rate)
    returns (r: Option<seq<Segment>>)
    ensures r == TrackSegments(track, reps, assets, rate)
  {
    var compiled := CompileTrack(track.id, track.events, assets, rate);
    if compiled.BadTrack? {
      return None;
    }
    assert compiled.segments == CompiledSegments(track, assets, rate);
    if |reps| == 0 {
      return Some(compiled.segments);
    }
    var resolved := ResolveVisualReplacements(compiled.segments, reps, rate);
    if resolved.Err? {
      return None;
    }
    var segs := RenameSegments(resolved.segments, track.id);
    r := Some(segs);
  }

  method RenameSegments(segments: seq<Segment>, trackId: string) returns (segs: seq<Segment>)
    ensures segs == Renamed(segments, trackId)
  {
    segs := segments;
    for i := 0 to |segs|
      invariant |segs| == |segments|
      invariant forall k :: 0 <= k < i ==> segs[k] == Renamed(segments, trackId)[k]
      invariant forall k :: i <= k < |segs| ==> segs[k] == segments[k]
    {
      segs := segs[i := segs[i].(segmentId := SegmentId(trackId, i))];
    }
  }

  method CheckIdentities(reps: seq<Replacement>, assets: Assets) returns (ok: bool)
    ensures ok <==> AllIdentified(reps, assets)
  {
    for i := 0 to |reps|
      invariant forall k :: 0 <= k < i ==> IdentityOk(reps[k], assets)
    {
      if !IdentityOk(reps[i], assets) {
        return false;
      }
    }
    return true;
  }

  method CheckDurations(reps: seq<Replacement>, assets: Assets) returns (ok: bool)
    ensures ok <==> AllTimed(reps, assets)
  {
    for i := 0 to |reps|
      invariant forall k :: 0 <= k < i ==> DurationOk(reps[k], assets)
    {
      if !DurationOk(reps[i], assets) {
        return false;
      }
    }
    return true;
  }

  method CompileTracks(tracks: seq<VideoTrack>, reps: seq<Replacement>, assets: Assets, rate: Rate)
    returns (r: Option<seq<OutTrack>>)
    ensures r == OutTracks(tracks, CutterFor(reps, assets, rate))
  {
    ghost var cut := CutterFor(reps, assets, rate);
    var out: seq<OutTrack> := [];
    for i := 0 to |tracks|
      invariant OutTracks(tracks[..i], cut) == Some(out)
    {
      assert tracks[..i + 1][..i] == tracks[..i];
      var segs := CompileOne(tracks[i], reps, assets, rate);
      if segs.None? {
        OutTracksFail(tracks, i + 1, cut);
        return None;
      }
      if |segs.value| > 0 {
        out := out + [OutTrack(tracks[i].id, segs.value)];
      }
    }
    assert tracks[..|tracks|] == tracks;
    r := Some(out);
  }

  method CompileVideoTracks(tracks: seq<VideoTrack>, reps: seq<Replacement>, assets: Assets, rate: Rate)
    returns (r: Option<seq<OutTrack>>)
    ensures r == VideoTracks(tracks, reps, assets, rate)
  {
    var identified := CheckIdentities(reps, assets);
    if !identified {
      return None;
    }
    var out := CompileTracks(tracks, reps, assets, rate);
    if out.None? {
      return None;
    }
    if |out.value| == 0 {
      return None;
    }
    var timed := CheckDurations(reps, assets);
    r := if timed then out else None;
  }

  // ----- the overlay path

  ghost predicate NoComposite(os: seq<Overlay>) {
    forall i :: 0 <= i < |os| ==> os[i].mode != COMPOSITE
  }

  /** What compiling with overlays yields. */
  ghost function OverlayPath(
    tracks: seq<VideoTrack>, os: seq<Overlay>, assets: Assets, rate: Rate): Option<seq<OutTrack>>
  {
    if os == [] then VideoTracks(tracks, [], assets, rate)
    else
      match BaseFrames(AllEvents(tracks), rate)
      case None => None
      case Some(e) =>
        if !Valid(os, e) || !NoComposite(os) then None
        else VideoTracks(tracks, ToReplacements(CuesOf(os), rate), assets, rate)
  }

  method CompileWithOverlays(tracks: seq<VideoTrack>, os: seq<Overlay>, assets: Assets, rate: Rate)
    returns (r: Option<seq<OutTrack>>)
    requires forall i :: 0 <= i < |os| ==> InRange(os[i])
    ensures r == OverlayPath(tracks, os, assets, rate)
  {
    if |os| == 0 {
      r := CompileVideoTracks(tracks, [], assets, rate);
      return;
    }
    var frames := CountBaseFrames(tracks, rate);
    if frames.None? {
      return None;
    }
    var valid := ValidateOverlays(os, frames.value);
    if !valid {
      return None;
    }
    var plain := CheckNoComposite(os);
    if !plain {
      return None;
    }
    var reps := ConvertOverlays(os, rate);
    r := CompileVideoTracks(tracks, reps, assets, rate);
  }

  method CheckNoComposite(os: seq<Overlay>) returns (ok: bool)
    ensures ok <==> NoComposite(os)
  {
    for i := 0 to |os|
      invariant forall k :: 0 <= k < i ==> os[k].mode != COMPOSITE
    {
      if os[i].mode == COMPOSITE {
        return false;
      }
    }
    return true;
  }

  /** The overlays are converted as given, not as normalized. */
  method ConvertOverlays(os: seq<Overlay>, rate: Rate) returns (reps: seq<Replacement>)
    ensures reps == ToReplacements(CuesOf(os), rate)
  {
    reps := [];
    for i := 0 to |os|
      invariant |reps| == i && forall k :: 0 <= k < i ==> reps[k] == ToReplacement(CueOf(os[k]), rate)
    {
      var o := os[i];
      reps := reps + [Replacement(o.id, o.assetId, o.sha256, FrameToUS(o.startFrame, rate),
                                  FrameToUS(Wrap64(o.startFrame + o.frameCount), rate), "")];
    }
  }

  // ----- overlays without a frame count

  lemma {:induction false} CuesOfCounted(os: seq<Overlay>, i: nat)
    requires i < |os| && InRange(os[i]) && NormalizeWindow(os[i]).Window? && os[i].frameCount > 0
    ensures CueOf(os[i]) == CueOf(NormalizeWindow(os[i]).overlay)
  {
    NormalizeCanonical(os[i]);
  }

  lemma {:induction false} EmptyCue(o: Overlay, rate: Rate)
    requires InRange(o) && NormalizeWindow(o).Window? && o.frameCount <= 0 && rate.Positive() &&
        Fits(o.startFrame, rate)
    ensures ToReplacement(CueOf(o), rate).endUS <= ToReplacement(CueOf(o), rate).startUS
  {
    var end := o.startFrame + o.frameCount;
    assert CueOf(o).endFrame == end <= o.startFrame;
    FrameToUSExact(o.startFrame, rate);
    if end > 0 {
      FitsBelow(end, o.startFrame, rate);
      FrameToUSExact(end, rate);
      FloorMonotone(end, o.startFrame, rate);
    }
  }

  lemma {:induction false} ReplacesEach(os: seq<Overlay>)
    requires Normalizes(os) && forall i :: 0 <= i < |os| ==> os[i].mode == REPLACE
    ensures |Replaces(os)| == |os|
    ensures forall i :: 0 <= i < |os| ==> Replaces(os)[i] == NormalizeWindow(os[i]).overlay
  {
    if os == [] {
    } else {
      ReplacesEach(os[..|os| - 1]);
    }
  }

  lemma {:induction false} AllReplaces(os: seq<Overlay>)
    requires Normalizes(os) && forall i :: 0 <= i < |os| ==> os[i].mode == REPLACE
    ensures Replaces(os) == NormalizeAll(os)
  {
    ReplacesEach(os);
    assert |Replaces(os)| == |NormalizeAll(os)|;
  }

  lemma {:induction false} EmptyCueRejected(base: seq<Segment>, os: seq<Overlay>, i: nat, rate: Rate)
    requires i < |os| && rate.Positive()
    requires ToReplacement(CueOf(os[i]), rate).endUS <= ToReplacement(CueOf(os[i]), rate).startUS
    ensures Resolve(base, ToReplacements(CuesOf(os), rate), rate).Err?
  {
    var rs := ToReplacements(CuesOf(os), rate);
    var sorted := Orders.Sort(StartsNoLater, rs);
    Orders.MembersOfPermutation(sorted, rs);
    assert rs[i] in sorted;
    var k :| 0 <= k < |sorted| && sorted[k] == rs[i];
    ChecksDecidePlacement(sorted, TotalUS(base, |base|, rate));
    assert !(sorted[k].startUS < sorted[k].endUS);
  }

  lemma {:induction false} CountedPath(base: seq<Segment>, os: seq<Overlay>, a: int, e: nat, rate: Rate)
    requires Playable(base, a, e, rate) && rate.Roomy() && base != []
    requires forall i :: 0 <= i < |os| ==> InRange(os[i]) && os[i].mode == REPLACE && os[i].frameCount > 0
    requires Valid(os, e) && Normalizes(os)
    ensures CuesOf(os) == ReplaceCues(NormalizeAll(os))
    ensures Resolve(base, ToReplacements(CuesOf(os), rate), rate).Ok?
  {
    var ns := NormalizeAll(os);
    NormalizeAllCanonical(os);
    CountedCues(os);
    ValidNormalized(os, e);
    ReplaceExact(base, ns, a, e, rate);
  }

  lemma {:induction false} CountedCues(os: seq<Overlay>)
    requires forall i :: 0 <= i < |os| ==> InRange(os[i]) && os[i].mode == REPLACE && os[i].frameCount > 0
    requires Normalizes(os)
    ensures CuesOf(os) == ReplaceCues(NormalizeAll(os))
  {
    SameCues(os);
    NormalizedReplaces(os);
  }

  lemma {:induction false} SameCues(os: seq<Overlay>)
    requires Normalizes(os) && forall i :: 0 <= i < |os| ==> InRange(os[i]) && os[i].frameCount > 0
    ensures CuesOf(os) == CuesOf(NormalizeAll(os))
  {
    var ns := NormalizeAll(os);
    forall i | 0 <= i < |os| ensures CuesOf(os)[i] == CuesOf(ns)[i] {
      CuesOfCounted(os, i);
    }
  }

  lemma {:induction false} NormalizedReplaces(os: seq<Overlay>)
    requires Normalizes(os) && forall i :: 0 <= i < |os| ==> InRange(os[i]) && os[i].mode == REPLACE
    ensures Replaces(NormalizeAll(os)) == NormalizeAll(os)
  {
    NormalizeAllIdempotent(os);
    NormalizeKeeps(os);
    AllReplaces(NormalizeAll(os));
  }

  lemma {:induction false} AdmissibleNormalized(o: Overlay, e: int)
    requires InRange(o) && Admissible(o, e)
    ensures Admissible(NormalizeWindow(o).overlay, e) && NormalizeWindow(o).overlay.id == o.id
  {
    NormalizeCanonical(o);
  }

  lemma {:induction false} EachValidNormalized(os: seq<Overlay>, e: int)
    requires EachValid(os, e) && Normalizes(os) && forall i :: 0 <= i < |os| ==> InRange(os[i])
    ensures EachValid(NormalizeAll(os), e)
  {
    var ns := NormalizeAll(os);
    forall i | 0 <= i < |ns| ensures Admissible(ns[i], e) && ns[i].id == os[i].id {
      AdmissibleNormalized(os[i], e);
    }
    forall i, j | 0 <= i < j < |ns| ensures Text.Trim(ns[i].id) != Text.Trim(ns[j].id) {
      assert Text.Trim(os[i].id) != Text.Trim(os[j].id);
    }
  }

  /** Normalizing keeps a list valid. */
  lemma {:induction false} ValidNormalized(os: seq<Overlay>, e: int)
    requires Valid(os, e) && Normalizes(os)
    requires forall i :: 0 <= i < |os| ==> InRange(os[i]) && os[i].mode == REPLACE
    ensures Valid(NormalizeAll(os), e)
  {
    var ns := NormalizeAll(os);
    EachValidNormalized(os, e);
    NormalizeAllIdempotent(os);
    NormalizeKeeps(os);
    AllReplaces(os);
    AllReplaces(ns);
  }

  lemma {:induction false} NormalizeKeeps(os: seq<Overlay>)
    requires Normalizes(os)
    ensures forall i :: 0 <= i < |os| ==> NormalizeAll(os)[i].mode == os[i].mode && NormalizeAll(os)[i].id == os[i].id
  {}

  /** A track that compiles to a gapless base ending at frame `e`. */
  ghost predicate FullTrack(track: VideoTrack, assets: Assets, rate: Rate, e: nat) {
    && Compiles(track, assets, rate)
    && CompiledSegments(track, assets, rate) != []
    && exists a: int :: Playable(CompiledSegments(track, assets, rate), a, e, rate)
  }

  /** Every track is full, and they all end together. */
  ghost predicate FullTracks(tracks: seq<VideoTrack>, assets: Assets, rate: Rate, e: nat) {
    tracks != [] && forall i :: 0 <= i < |tracks| ==> FullTrack(tracks[i], assets, rate, e)
  }

  /** Declared assets back the overlays: their identity always, their duration where a window is known. */
  ghost predicate Backed(os: seq<Overlay>, assets: Assets, rate: Rate) {
    forall i :: 0 <= i < |os| ==>
      var r := ToReplacement(CueOf(os[i]), rate);
      IdentityOk(r, assets) && DurationOk(r, assets)
  }

  lemma {:induction false} SegmentEnd(track: VideoTrack, assets: Assets, rate: Rate, i: nat)
    requires i < |track.events| && CompileEvent(track.id, i, track.events[i], assets, rate).Compiled?
    ensures var s := CompileEvent(track.id, i, track.events[i], assets, rate).segment;
            EventEnd(track.events[i], rate) == Some(Wrap64(s.start + s.count))
  {}

  lemma {:induction false} EventEndsInside(
    track: VideoTrack, segs: seq<Segment>, assets: Assets, rate: Rate, a: int, e: nat, i: nat)
    requires CompiledFrom(segs, track.id, track.events, assets, rate) && Playable(segs, a, e, rate) && i < |segs|
    ensures EventEnd(track.events[i], rate) == Some(segs[i].start + segs[i].count)
    ensures 0 <= segs[i].start + segs[i].count <= e
  {
    FitsBelow(e, e, rate);
    SegmentEnd(track, assets, rate, i);
    BaseBounds(segs, a, e, rate, i);
  }

  lemma {:induction false} TrackEnds(track: VideoTrack, assets: Assets, rate: Rate, e: nat)
    requires FullTrack(track, assets, rate, e) && rate.Positive()
    ensures forall i :: 0 <= i < |track.events| ==>
              EventEnd(track.events[i], rate).Some? && 0 <= EventEnd(track.events[i], rate).value <= e
    ensures track.events != [] && EventEnd(track.events[|track.events| - 1], rate) == Some(e)
  {
    var segs := CompiledSegments(track, assets, rate);
    var a: int :| Playable(segs, a, e, rate);
    forall i | 0 <= i < |segs|
      ensures EventEnd(track.events[i], rate) == Some(segs[i].start + segs[i].count)
      ensures 0 <= segs[i].start + segs[i].count <= e
    {
      EventEndsInside(track, segs, assets, rate, a, e, i);
    }
    assert segs[|segs| - 1].start + segs[|segs| - 1].count == e;
  }

  ghost predicate Ending(events: seq<Event>, rate: Rate, e: nat) {
    forall i :: 0 <= i < |events| ==> EventEnd(events[i], rate).Some? && 0 <= EventEnd(events[i], rate).value <= e
  }

  lemma {:induction false} BaseFramesBound(events: seq<Event>, rate: Rate, e: nat)
    requires Ending(events, rate, e)
    ensures BaseFrames(events, rate).Some? && 0 <= BaseFrames(events, rate).value <= e
    ensures forall i :: 0 <= i < |events| ==> EventEnd(events[i], rate).value <= BaseFrames(events, rate).value
  {
    if events == [] {
    } else {
      BaseFramesBound(events[..|events| - 1], rate, e);
      assert forall i :: 0 <= i < |events| - 1 ==> events[..|events| - 1][i] == events[i];
    }
  }

  ghost predicate EndsWith(events: seq<Event>, rate: Rate, e: nat) {
    events != [] && EventEnd(events[|events| - 1], rate) == Some(e)
  }

  lemma {:induction false} EndingConcat(xs: seq<Event>, ys: seq<Event>, rate: Rate, e: nat)
    requires Ending(xs, rate, e) && Ending(ys, rate, e) && EndsWith(ys, rate, e)
    ensures Ending(xs + ys, rate, e) && EndsWith(xs + ys, rate, e)
  {
    var all := xs + ys;
    assert all[|all| - 1] == ys[|ys| - 1];
    forall i | 0 <= i < |all| ensures EventEnd(all[i], rate).Some? && 0 <= EventEnd(all[i], rate).value <= e {
      assert all[i] == if i < |xs| then xs[i] else ys[i - |xs|];
    }
  }

  lemma {:induction false} EventsEnd(tracks: seq<VideoTrack>, assets: Assets, rate: Rate, e: nat)
    requires rate.Positive() && forall i :: 0 <= i < |tracks| ==> FullTrack(tracks[i], assets, rate, e)
    ensures Ending(AllEvents(tracks), rate, e)
    ensures tracks != [] ==> EndsWith(AllEvents(tracks), rate, e)
  {
    if tracks == [] {
    } else {
      var init, last := tracks[..|tracks| - 1], tracks[|tracks| - 1];
      EventsEnd(init, assets, rate, e);
      TrackEnds(last, assets, rate, e);
      EndingConcat(AllEvents(init), last.events, rate, e);
    }
  }

  /** The base frame count of full tracks is their common end. */
  lemma {:induction false} FullTracksCount(tracks: seq<VideoTrack>, assets: Assets, rate: Rate, e: nat)
    requires rate.Positive() && FullTracks(tracks, assets, rate, e)
    ensures BaseFrames(AllEvents(tracks), rate) == Some(e)
  {
    EventsEnd(tracks, assets, rate, e);
    BaseFramesBound(AllEvents(tracks), rate, e);
  }

  ghost predicate Counted(os: seq<Overlay>) {
    forall i :: 0 <= i < |os| ==> os[i].frameCount > 0
  }

  lemma {:induction false} UncountedRejected(
    base: seq<Segment>, os: seq<Overlay>, a: int, e: nat, rate: Rate, i: nat)
    requires Playable(base, a, e, rate) && i < |os| && InRange(os[i]) && os[i].frameCount <= 0 && Admissible(os[i], e)
    ensures Resolve(base, ToReplacements(CuesOf(os), rate), rate).Err?
  {
    NormalizeCanonical(os[i]);
    FitsBelow(os[i].startFrame, e, rate);
    EmptyCue(os[i], rate);
    EmptyCueRejected(base, os, i, rate);
  }

  lemma {:induction false} UncountedTrack(
    track: VideoTrack, os: seq<Overlay>, assets: Assets, rate: Rate, e: nat, i: nat)
    requires rate.Positive() && FullTrack(track, assets, rate, e)
    requires i < |os| && InRange(os[i]) && os[i].frameCount <= 0 && Admissible(os[i], e)
    ensures TrackSegments(track, ToReplacements(CuesOf(os), rate), assets, rate).None?
  {
    var segs := CompiledSegments(track, assets, rate);
    var a: int :| Playable(segs, a, e, rate);
    UncountedRejected(segs, os, a, e, rate, i);
  }

  lemma {:induction false} CountedTrack(track: VideoTrack, os: seq<Overlay>, assets: Assets, rate: Rate, e: nat)
    requires rate.Roomy() && FullTrack(track, assets, rate, e) && Valid(os, e) && os != []
    requires forall i :: 0 <= i < |os| ==> InRange(os[i]) && os[i].mode == REPLACE && os[i].frameCount > 0
    ensures var reps := ToReplacements(CuesOf(os), rate);
            TrackSegments(track, reps, assets, rate).Some? && TrackSegments(track, reps, assets, rate).value != []
  {
    var segs := CompiledSegments(track, assets, rate);
    var a: int :| Playable(segs, a, e, rate);
    forall i | 0 <= i < |os| ensures NormalizeWindow(os[i]).Window? {
      assert Admissible(os[i], e);
    }
    CountedPath(segs, os, a, e, rate);
    AcceptedConserves(segs, ToReplacements(CuesOf(os), rate), rate, a, e);
    TilesInside(segs, a, e, 0);
  }

  /**
    The manifest path validates normalized copies but converts the overlays as given. For valid
    overlays backed by declared assets over full tracks it therefore succeeds exactly when all of them
    are replace overlays with an explicit frame count; a composite overlay, or one with only an end
    frame, is refused.
   */
  lemma {:induction false} ManifestPathNeedsCounts(
    tracks: seq<VideoTrack>, os: seq<Overlay>, assets: Assets, rate: Rate, e: nat)
    requires rate.Roomy() && FullTracks(tracks, assets, rate, e) && os != []
    requires (forall i :: 0 <= i < |os| ==> InRange(os[i])) && Valid(os, e) && Backed(os, assets, rate)
    ensures OverlayPath(tracks, os, assets, rate).Some? <==> NoComposite(os) && Counted(os)
  {
    PathOpens(tracks, os, assets, rate, e);
    if Counted(os) && NoComposite(os) {
      CountedTracks(tracks, os, assets, rate, e);
    } else {
      NeverCompiles(tracks, os, assets, rate, e);
    }
  }

  /** Over full tracks valid overlays reach the video tracks unless one is composite. */
  lemma {:induction false} PathOpens(tracks: seq<VideoTrack>, os: seq<Overlay>, assets: Assets, rate: Rate, e: nat)
    requires rate.Positive() && FullTracks(tracks, assets, rate, e) && os != [] && Valid(os, e)
    ensures OverlayPath(tracks, os, assets, rate) ==
            if NoComposite(os) then VideoTracks(tracks, ToReplacements(CuesOf(os), rate), assets, rate) else None
  {
    FullTracksCount(tracks, assets, rate, e);
  }

  lemma {:induction false} CountedTracks(tracks: seq<VideoTrack>, os: seq<Overlay>, assets: Assets, rate: Rate, e: nat)
    requires rate.Roomy() && FullTracks(tracks, assets, rate, e) && os != []
    requires (forall i :: 0 <= i < |os| ==> InRange(os[i])) && Valid(os, e) && Backed(os, assets, rate)
    requires NoComposite(os) && Counted(os)
    ensures VideoTracks(tracks, ToReplacements(CuesOf(os), rate), assets, rate).Some?
  {
    var reps := ToReplacements(CuesOf(os), rate);
    CountedCut(tracks, os, assets, rate, e);
    OutTracksAll(tracks, CutterFor(reps, assets, rate));
    BackedReplacements(os, assets, rate);
  }

  /** The declared asset is a video, has the wanted hash if one is wanted, and is 50 ms within the window. */
  ghost predicate Declared(r: Replacement, assets: Assets) {
    && r.assetId in assets && assets[r.assetId].kind == "video" && r.sha256 in ["", assets[r.assetId].sha256]
    && -50_000 <= assets[r.assetId].durationMS * 1_000 - (r.endUS - r.startUS) <= 50_000
  }

  /** Declared durations are not negative and convert to microseconds within 64 bits. */
  ghost predicate Convertible(assets: Assets) {
    forall id :: id in assets ==> 0 <= assets[id].durationMS * 1_000 < 0x8000_0000_0000_0000
  }

  /** Both gates on plain integers. */
  lemma {:induction false} GatesExactly(r: Replacement, assets: Assets)
    requires 0 <= r.startUS < r.endUS < 0x8000_0000_0000_0000 && Convertible(assets)
    ensures IdentityOk(r, assets) && DurationOk(r, assets) <==> Declared(r, assets)
  {
    if r.assetId in assets {
      var wanted := ["", assets[r.assetId].sha256];
      assert wanted[0] == "" && wanted[1] == assets[r.assetId].sha256;
    }
  }

  /** Replacements that are cut in at all are cut in exactly when a declared asset stands behind each. */
  lemma {:induction false} TracksNeedDeclared(
    tracks: seq<VideoTrack>, reps: seq<Replacement>, assets: Assets, rate: Rate)
    requires Convertible(assets)
    requires forall i :: 0 <= i < |reps| ==> 0 <= reps[i].startUS < reps[i].endUS < 0x8000_0000_0000_0000
    ensures var out := OutTracks(tracks, CutterFor(reps, assets, rate));
            VideoTracks(tracks, reps, assets, rate).Some? <==>
            out.Some? && out.value != [] && forall i :: 0 <= i < |reps| ==> Declared(reps[i], assets)
  {
    forall i | 0 <= i < |reps|
      ensures IdentityOk(reps[i], assets) && DurationOk(reps[i], assets) <==> Declared(reps[i], assets)
    {
      GatesExactly(reps[i], assets);
    }
  }

  /** What an overlay needs on the manifest path: replace mode, a frame count and a declared asset. */
  ghost predicate Accompanied(o: Overlay, assets: Assets, rate: Rate)
    requires rate.Positive()
  {
    && o.mode == "replace" && 0 <= o.startFrame && 0 < o.frameCount
    && o.assetId in assets && assets[o.assetId].kind == "video" && o.sha256 in ["", assets[o.assetId].sha256]
    && -50_000
       <= assets[o.assetId].durationMS * 1_000
          - (FloorUS(o.startFrame + o.frameCount, rate) - FloorUS(o.startFrame, rate))
       <= 50_000
  }

  ghost predicate AllAccompanied(os: seq<Overlay>, assets: Assets, rate: Rate)
    requires rate.Positive()
  {
    forall i :: 0 <= i < |os| ==> Accompanied(os[i], assets, rate)
  }

  lemma {:induction false} AccompaniedExactly(o: Overlay, assets: Assets, rate: Rate, e: nat)
    requires rate.Roomy() && Fits(e, rate) && InRange(o) && Admissible(o, e) && 0 < o.frameCount
    ensures var r := ToReplacement(CueOf(o), rate);
            && 0 <= r.startUS < r.endUS < 0x8000_0000_0000_0000
            && (Accompanied(o, assets, rate) <==> o.mode == REPLACE && Declared(r, assets))
  {
    NormalizeCanonical(o);
    CueTimes(CueOf(o), e, rate);
    FrameToUSExact(e, rate);
  }

  /**
    The manifest path as a whole: over full tracks valid overlays compile exactly when every one of
    them is a replace overlay with a frame count and a declared video of its length behind it.
   */
  lemma {:induction false} ManifestPathExactly(
    tracks: seq<VideoTrack>, os: seq<Overlay>, assets: Assets, rate: Rate, e: nat)
    requires rate.Roomy() && FullTracks(tracks, assets, rate, e) && os != [] && Convertible(assets)
    requires (forall i :: 0 <= i < |os| ==> InRange(os[i])) && Valid(os, e)
    ensures OverlayPath(tracks, os, assets, rate).Some? <==> AllAccompanied(os, assets, rate)
  {
    PathOpens(tracks, os, assets, rate, e);
    if Counted(os) && NoComposite(os) {
      CountedNeedDeclared(tracks, os, assets, rate, e);
    } else {
      NeverCompiles(tracks, os, assets, rate, e);
    }
  }

  lemma {:induction false} NeverCompiles(
    tracks: seq<VideoTrack>, os: seq<Overlay>, assets: Assets, rate: Rate, e: nat)
    requires rate.Positive() && FullTracks(tracks, assets, rate, e) && !(Counted(os) && NoComposite(os))
    requires (forall i :: 0 <= i < |os| ==> InRange(os[i])) && Valid(os, e)
    ensures !NoComposite(os) || VideoTracks(tracks, ToReplacements(CuesOf(os), rate), assets, rate).None?
    ensures !AllAccompanied(os, assets, rate)
  {
    if i :| 0 <= i < |os| && os[i].frameCount <= 0 {
      assert !Accompanied(os[i], assets, rate);
      assert FullTrack(tracks[0], assets, rate, e) && Admissible(os[i], e);
      UncountedTrack(tracks[0], os, assets, rate, e, i);
      OutTracksFailAt(tracks, 0, CutterFor(ToReplacements(CuesOf(os), rate), assets, rate));
    } else {
      var i :| 0 <= i < |os| && os[i].mode == COMPOSITE;
      assert !Accompanied(os[i], assets, rate);
    }
  }

  lemma {:induction false} FullFits(track: VideoTrack, assets: Assets, rate: Rate, e: nat)
    requires FullTrack(track, assets, rate, e)
    ensures Fits(e, rate)
  {
    var a: int :| Playable(CompiledSegments(track, assets, rate), a, e, rate);
  }

  lemma {:induction false} CountedNeedDeclared(
    tracks: seq<VideoTrack>, os: seq<Overlay>, assets: Assets, rate: Rate, e: nat)
    requires rate.Roomy() && FullTracks(tracks, assets, rate, e) && os != [] && Convertible(assets)
    requires (forall i :: 0 <= i < |os| ==> InRange(os[i])) && Valid(os, e) && NoComposite(os) && Counted(os)
    ensures VideoTracks(tracks, ToReplacements(CuesOf(os), rate), assets, rate).Some? <==>
            AllAccompanied(os, assets, rate)
  {
    var reps := ToReplacements(CuesOf(os), rate);
    CountedCut(tracks, os, assets, rate, e);
    OutTracksAll(tracks, CutterFor(reps, assets, rate));
    FullFits(tracks[0], assets, rate, e);
    forall i | 0 <= i < |os|
      ensures 0 <= reps[i].startUS < reps[i].endUS < 0x8000_0000_0000_0000
      ensures Accompanied(os[i], assets, rate) <==> Declared(reps[i], assets)
    {
      assert Admissible(os[i], e);
      AccompaniedExactly(os[i], assets, rate, e);
    }
    TracksNeedDeclared(tracks, reps, assets, rate);
  }

  lemma {:induction false} BackedReplacements(os: seq<Overlay>, assets: Assets, rate: Rate)
    requires Backed(os, assets, rate)
    ensures var reps := ToReplacements(CuesOf(os), rate);
            AllIdentified(reps, assets) && AllTimed(reps, assets)
  {}

  lemma {:induction false} CountedCut(tracks: seq<VideoTrack>, os: seq<Overlay>, assets: Assets, rate: Rate, e: nat)
    requires rate.Roomy() && FullTracks(tracks, assets, rate, e) && os != []
    requires (forall i :: 0 <= i < |os| ==> InRange(os[i])) && Valid(os, e) && NoComposite(os) && Counted(os)
    ensures var cut := CutterFor(ToReplacements(CuesOf(os), rate), assets, rate);
            forall i :: 0 <= i < |tracks| ==> cut(tracks[i]).Some? && cut(tracks[i]).value != []
  {
    var cut := CutterFor(ToReplacements(CuesOf(os), rate), assets, rate);
    forall i | 0 <= i < |os| ensures os[i].mode == REPLACE {
      assert Admissible(os[i], e);
    }
    forall i | 0 <= i < |tracks| ensures cut(tracks[i]).Some? && cut(tracks[i]).value != [] {
      CountedTrack(tracks[i], os, assets, rate, e);
    }
  }

  /** With counts the manifest path cuts in exactly what the normalizing path would. */
  lemma {:induction false} CountsAgree(os: seq<Overlay>, e: int)
    requires forall i :: 0 <= i < |os| ==> InRange(os[i]) && os[i].mode == REPLACE && os[i].frameCount > 0
    requires Valid(os, e)
    ensures Normalizes(os) && CuesOf(os) == ReplaceCues(NormalizeAll(os))
  {
    forall i | 0 <= i < |os| ensures NormalizeWindow(os[i]).Window? {
      assert Admissible(os[i], e);
    }
    CountedCues(os);
  }

  const EXAMPLE_TRACK := VideoTrack("v", [Event("base", 0, 0, 2_000)])
  const EXAMPLE_MANIFEST := map["base" := Asset("video", "h", 2_000), "x" := Asset("video", "hx", 400)]

  /** An overlay over frames 10 to 20, with its frame count given (10) or not (0). */
  function ExampleOverlay(count: int): Overlay {
    Overlay("o", "x", "", "", "", 10, 20, count, REPLACE, 0, "")
  }

  lemma {:induction false} ExampleFull(rate: Rate)
    requires rate == Rate(25, 1)
    ensures rate.Roomy() && FullTracks([EXAMPLE_TRACK], EXAMPLE_MANIFEST, rate, 50)
  {
    assert EXAMPLE_MANIFEST["base"].kind == "video";
    assert Nearest(0, rate) == 0 && Nearest(2_000_000, rate) == 50;
    assert Compiles(EXAMPLE_TRACK, EXAMPLE_MANIFEST, rate);
    var segs := CompiledSegments(EXAMPLE_TRACK, EXAMPLE_MANIFEST, rate);
    assert segs[0].start == 0 && segs[0].count == 50 && segs[0].sourceIn == 0;
    assert Playable(segs, 0, 50, rate);
  }

  lemma {:induction false} ExampleValid(rate: Rate, count: int)
    requires rate == Rate(25, 1) && (count == 0 || count == 10)
    ensures InRange(ExampleOverlay(count)) && Valid([ExampleOverlay(count)], 50)
    ensures Backed([ExampleOverlay(count)], EXAMPLE_MANIFEST, rate)
  {
    var o := ExampleOverlay(count);
    assert o.id[0] == 'o' && o.assetId[0] == 'x';
    assert EXAMPLE_MANIFEST["x"].kind == "video";
    assert Admissible(o, 50);
    assert [o][..0] == [];
    assert Replaces([o][..0]) == [];
    assert |Replaces([o])| <= 1;
    assert FrameToUS(10, rate) == 400_000 && FrameToUS(20, rate) == 800_000;
  }

  /** The same valid overlay compiles with its frame count and is refused with only its end frame. */
  lemma {:induction false} EndFrameOnlyRefused()
    ensures var rate := Rate(25, 1);
            && OverlayPath([EXAMPLE_TRACK], [ExampleOverlay(10)], EXAMPLE_MANIFEST, rate).Some?
            && OverlayPath([EXAMPLE_TRACK], [ExampleOverlay(0)], EXAMPLE_MANIFEST, rate).None?
  {
    var rate := Rate(25, 1);
    ExampleFull(rate);
    ExampleValid(rate, 0);
    ExampleValid(rate, 10);
    ManifestPathNeedsCounts([EXAMPLE_TRACK], [ExampleOverlay(10)], EXAMPLE_MANIFEST, rate, 50);
    ManifestPathNeedsCounts([EXAMPLE_TRACK], [ExampleOverlay(0)], EXAMPLE_MANIFEST, rate, 50);
    assert [ExampleOverlay(0)][0].frameCount == 0;
  }
}
