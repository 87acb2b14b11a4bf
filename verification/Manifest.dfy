/** Compiling manifest events to frame segments, and what rounding does to neighbouring events. */
module Manifest {
  import opened FrameTime
  import opened VisualTimeline
  import opened VisualFrames
  import Decimal

  datatype Event = Event(assetId: string, timelineStartMS: int, sourceStartMS: int, durationMS: int)

  /** A declared asset, reduced to what compiling the video tracks reads. */
  datatype Asset = Asset(kind: string, sha256: string, durationMS: int)

  function MillisToMicros(ms: int): int {
    if ms <= 0 then Wrap64(ms * 1000)
    else if ms > (TWO63 - 1) / 1000 then 0
    else ms * 1000
  }

  function SegmentId(trackId: string, index: nat): string {
    trackId + "-segment" + "-" + Decimal.Padded(index, 6)
  }

  datatype CompiledEvent = Compiled(segment: Segment) | NotCompiled

  function CompileEvent(
    trackId: string, index: nat, event: Event, assets: map<string, Asset>, rate: Rate): CompiledEvent
  {
    if event.assetId !in assets || assets[event.assetId].kind != "video" then NotCompiled
    else
      var duration := MillisToMicros(event.durationMS);
      if duration <= 0 then NotCompiled
      else
        match TimeUSToNearestFrame(MillisToMicros(event.timelineStartMS), rate)
        case NoFrame(_) => NotCompiled
        case Frame(start) =>
          match TimeUSToNearestFrame(duration, rate)
          case NoFrame(_) => NotCompiled
          case Frame(count) =>
            if count <= 0 then NotCompiled
            else
              Compiled(Segment(SegmentId(trackId, index), false, event.assetId, assets[event.assetId].sha256,
                               start, count, MillisToMicros(event.sourceStartMS), duration))
  }

  datatype CompiledTrack = Track(segments: seq<Segment>) | BadTrack

  /** `segments` are the compiled events of a track, in order. */
  ghost predicate CompiledFrom(
    segments: seq<Segment>, trackId: string, events: seq<Event>, assets: map<string, Asset>, rate: Rate)
  {
    && |segments| == |events|
    && forall i :: 0 <= i < |events| ==> CompileEvent(trackId, i, events[i], assets, rate) == Compiled(segments[i])
  }

  method CompileTrack(trackId: string, events: seq<Event>, assets: map<string, Asset>, rate: Rate)
    returns (r: CompiledTrack)
    ensures r.Track? <==> forall i :: 0 <= i < |events| ==> CompileEvent(trackId, i, events[i], assets, rate).Compiled?
    ensures r.Track? ==> CompiledFrom(r.segments, trackId, events, assets, rate)
  {
    var segments := [];
    for i := 0 to |events|
      invariant |segments| == i
      invariant forall j :: 0 <= j < i ==> CompileEvent(trackId, j, events[j], assets, rate) == Compiled(segments[j])
    {
      var c := CompileEvent(trackId, i, events[i], assets, rate);
      if c.NotCompiled? {
        return BadTrack;
      }
      segments := segments + [c.segment];
    }
    return Track(segments);
  }

  /** Segment ids never repeat, within a track or across tracks, whatever the tracks are called. */
  lemma {:induction false} SegmentIdsDiffer(s: string, i: nat, t: string, j: nat)
    ensures SegmentId(s, i) == SegmentId(t, j) <==> s == t && i == j
  {
    var d, e := Decimal.Padded(i, 6), Decimal.Padded(j, 6);
    Decimal.PaddedAreDigits(i, 6);
    Decimal.PaddedAreDigits(j, 6);
    if SegmentId(s, i) == SegmentId(t, j) {
      SameTail(s + "-segment", d, t + "-segment", e);
      SameTail(t + "-segment", e, s + "-segment", d);
      Decimal.ValueOfPadded(i, 6);
      Decimal.ValueOfPadded(j, 6);
      assert SegmentId(s, i)[..|s|] == s && SegmentId(t, j)[..|t|] == t;
    }
  }

  lemma {:induction false} SameTail(s: string, d: string, t: string, e: string)
    requires s + "-" + d == t + "-" + e && '-' !in d
    ensures |d| <= |e|
    ensures |d| == |e| ==> d == e && |s| == |t|
  {
    var whole := s + "-" + d;
    assert whole == t + "-" + e;
    assert whole[|t|] == '-';
    assert whole[|s| + 1..] == d && whole[|t| + 1..] == e;
  }

  // ----- what an event compiles to

  const LONGEST_MS := 9_223_372_036_854_775

  /** Milliseconds count a thousandfold; a time too long for 64 bits counts as zero. */
  lemma {:induction false} MicrosExactly(ms: int)
    requires -LONGEST_MS <= ms
    ensures MillisToMicros(ms) == if ms > 9_223_372_036_854_775 then 0 else 1_000 * ms
  {}

  /** Frame `f` is the one nearest to `t` microseconds, the later one of two equally near. */
  predicate IsNearest(f: int, t: int, rate: Rate) {
    && 0 <= f < 0x8000_0000_0000_0000
    && f * rate.den * 2_000_000 - rate.den * 1_000_000 <= 2 * t * rate.num
    && 2 * t * rate.num < f * rate.den * 2_000_000 + rate.den * 1_000_000
  }

  lemma {:induction false} NearestExactly(t: nat, rate: Rate, f: int)
    requires rate.Positive()
    ensures TimeUSToNearestFrame(t, rate) == Frame(f) <==> IsNearest(f, t, rate)
  {
    NearestBounds(t, rate);
    var n := Nearest(t, rate);
    assert n * rate.den * 2_000_000 == 2 * (n * rate.Span());
    assert f * rate.den * 2_000_000 == 2 * (f * rate.Span());
    assert 2 * t * rate.num == 2 * (t * rate.num);
    if IsNearest(f, t, rate) {
      NearestUnique(t, f, rate);
    }
  }

  /** How a segment is called: the track, and the index in at least six digits. */
  predicate NamedAfter(id: string, trackId: string, index: nat) {
    var n := |trackId| + 9;
    && n + 6 <= |id| && id[..n] == trackId + "-segment-" && Decimal.Value(id[n..]) == index
    && (n + 6 < |id| ==> id[n] != '0')
  }

  lemma {:induction false} SegmentIdExactly(trackId: string, index: nat)
    ensures NamedAfter(SegmentId(trackId, index), trackId, index)
  {
    var id, n := SegmentId(trackId, index), |trackId| + 9;
    assert id[..n] == trackId + "-segment-" && id[n..] == Decimal.Padded(index, 6);
    Decimal.ValueOfPadded(index, 6);
    Decimal.PaddedWidth(index, 6);
  }

  /** The segment on the event's own fields. */
  predicate Shows(s: Segment, e: Event, sha256: string, startUS: int, sourceUS: int, lengthUS: int, rate: Rate) {
    && s.assetId == e.assetId && s.sha256 == sha256 && !s.stockPoolSlot
    && IsNearest(s.start, startUS, rate) && IsNearest(s.count, lengthUS, rate)
    && s.sourceIn == sourceUS && s.sourceDuration == lengthUS
  }

  /** An event compiles exactly to a segment of its declared video, nearest its start and nearest its length. */
  lemma {:induction false} CompiledExactly(
    trackId: string, index: nat, e: Event, assets: map<string, Asset>, rate: Rate, s: Segment,
    startUS: int, sourceUS: int, lengthUS: int)
    requires rate.Positive() && -LONGEST_MS <= e.timelineStartMS && -LONGEST_MS <= e.sourceStartMS
    requires -LONGEST_MS <= e.durationMS
    requires startUS == if e.timelineStartMS > 9_223_372_036_854_775 then 0 else 1_000 * e.timelineStartMS
    requires sourceUS == if e.sourceStartMS > 9_223_372_036_854_775 then 0 else 1_000 * e.sourceStartMS
    requires lengthUS == if e.durationMS > 9_223_372_036_854_775 then 0 else 1_000 * e.durationMS
    ensures CompileEvent(trackId, index, e, assets, rate) == Compiled(s) <==>
            && e.assetId in assets && assets[e.assetId].kind == "video" && 0 <= startUS && 0 < lengthUS
            && Shows(s, e, assets[e.assetId].sha256, startUS, sourceUS, lengthUS, rate) && 0 < s.count
            && s.segmentId == SegmentId(trackId, index)
  {
    MicrosExactly(e.timelineStartMS);
    MicrosExactly(e.sourceStartMS);
    MicrosExactly(e.durationMS);
    if 0 <= startUS && 0 < lengthUS {
      NearestExactly(startUS, rate, s.start);
      NearestExactly(lengthUS, rate, s.count);
    }
  }

  // ----- rounding of event boundaries

  /** A multiple of `w` strictly between -2w and 2w is -w, 0 or w. */
  lemma {:induction false} SmallMultiple(k: int, w: int)
    requires w > 0 && -2 * w < k * w < 2 * w
    ensures -1 <= k <= 1
  {
    if k >= 2 {
      MulMono(2, k, w);
    } else if k <= -2 {
      MulMono(k, -2, w);
    }
  }

  lemma {:induction false} SumOfRoundings(x: int, y: int, n: int, m: int, q: int, w: int)
    requires w > 0
    requires 2 * (n * w) - w <= 2 * x < 2 * (n * w) + w
    requires 2 * (m * w) - w <= 2 * y < 2 * (m * w) + w
    requires 2 * (q * w) - w <= 2 * (x + y) < 2 * (q * w) + w
    ensures -1 <= n + m - q <= 1
  {
    assert (n + m - q) * w == n * w + m * w - q * w;
    SmallMultiple(n + m - q, w);
  }

  /** Rounding a start and a duration separately lands within one frame of rounding their sum. */
  lemma {:induction false} RoundedSum(s: nat, d: nat, rate: Rate)
    requires rate.Positive()
    ensures -1 <= Nearest(s, rate) + Nearest(d, rate) - Nearest(s + d, rate) <= 1
  {
    NearestBounds(s, rate);
    NearestBounds(d, rate);
    NearestBounds(s + d, rate);
    Distributes(s, d, rate.num);
    SumOfRoundings(s * rate.num, d * rate.num, Nearest(s, rate), Nearest(d, rate), Nearest(s + d, rate), rate.Span());
  }

  lemma {:induction false} Distributes(a: int, b: int, c: int)
    ensures (a + b) * c == a * c + b * c
  {}

  /** What rounding leaves over, in units of 1/Span of a frame: between minus half a frame and half a frame. */
  function Drift(t: nat, rate: Rate): int
    requires rate.Positive()
  {
    t * rate.num - Nearest(t, rate) * rate.Span()
  }

  lemma {:induction false} DriftBounds(t: nat, rate: Rate)
    requires rate.Positive()
    ensures -rate.Span() <= 2 * Drift(t, rate) < rate.Span()
  {
    NearestBounds(t, rate);
  }

  lemma {:induction false} ThreeWays(k: int, x: int, w: int)
    requires w > 0 && -1 <= k <= 1 && -2 * (k * w) - w <= x < -2 * (k * w) + w
    ensures k == 0 <==> -w <= x < w
    ensures k == 1 <==> x < -w
    ensures k == -1 <==> w <= x
  {}

  lemma {:induction false} SumArithmetic(s: int, d: int, num: int, n: int, m: int, q: int, w: int)
    ensures (s * num - n * w) + (d * num - m * w) == ((s + d) * num - q * w) - (n + m - q) * w
  {
    assert (s + d) * num == s * num + d * num;
    assert (n + m - q) * w == n * w + m * w - q * w;
  }

  lemma {:induction false} DriftOfSum(s: nat, d: nat, rate: Rate)
    requires rate.Positive()
    ensures var k := Nearest(s, rate) + Nearest(d, rate) - Nearest(s + d, rate);
            Drift(s, rate) + Drift(d, rate) == Drift(s + d, rate) - k * rate.Span()
  {
    SumArithmetic(s, d, rate.num, Nearest(s, rate), Nearest(d, rate), Nearest(s + d, rate), rate.Span());
  }

  /** By how many frames the separately rounded end misses the rounded end is decided by the two drifts. */
  lemma {:induction false} RoundedSumExactly(s: nat, d: nat, rate: Rate)
    requires rate.Positive()
    ensures var k := Nearest(s, rate) + Nearest(d, rate) - Nearest(s + d, rate);
            var x, w := 2 * (Drift(s, rate) + Drift(d, rate)), rate.Span();
            && -1 <= k <= 1
            && (k == 0 <==> -w <= x < w) && (k == 1 <==> x < -w) && (k == -1 <==> w <= x)
  {
    var k := Nearest(s, rate) + Nearest(d, rate) - Nearest(s + d, rate);
    RoundedSum(s, d, rate);
    DriftOfSum(s, d, rate);
    DriftBounds(s + d, rate);
    ThreeWays(k, 2 * (Drift(s, rate) + Drift(d, rate)), rate.Span());
  }

  /** Whole frames covered by a duration, rounded up: the validator's frame budget. */
  function OutputFrames(duration: nat, rate: Rate): nat
    requires rate.Positive()
  {
    var x, w := duration * rate.num, rate.Span();
    x / w + if x % w > 0 then 1 else 0
  }

  lemma {:induction false} CeilingDecides(n: int, x: int, w: int)
    requires w > 0
    ensures n > x / w + (if x % w > 0 then 1 else 0) <==> (n - 1) * w >= x
  {
    var q := x / w;
    DivBounds(x, w);
    assert x == q * w + x % w;
    Distributes(n - 1 - q, q, w);
    if n - 1 - q >= 1 {
      MulMono(1, n - 1 - q, w);
    } else {
      MulMono(n - 1 - q, 0, w);
    }
  }

  /** An event inside the 64-bit range of microseconds. */
  ghost predicate Timed(e: Event) {
    && 0 <= e.timelineStartMS && 0 < e.durationMS
    && e.timelineStartMS * 1000 < TWO63 && e.durationMS * 1000 < TWO63
  }

  lemma {:induction false} CompiledFrames(
    trackId: string, index: nat, event: Event, assets: map<string, Asset>, rate: Rate)
    requires rate.Positive() && Timed(event)
    requires CompileEvent(trackId, index, event, assets, rate).Compiled?
    ensures var s := CompileEvent(trackId, index, event, assets, rate).segment;
            && s.start == Nearest(event.timelineStartMS * 1000, rate)
            && s.count == Nearest(event.durationMS * 1000, rate) && s.count > 0
            && s.sourceDuration == event.durationMS * 1000
            && s.sourceIn == MillisToMicros(event.sourceStartMS)
  {}

  /** Twice the sum of the drifts of an event's start and length. */
  function Offset(e: Event, rate: Rate): int
    requires rate.Positive() && 0 <= e.timelineStartMS && 0 < e.durationMS
  {
    2 * (Drift(e.timelineStartMS * 1000, rate) + Drift(e.durationMS * 1000, rate))
  }

  /**
    Back-to-back events compile to segments that meet, overlap by one frame or leave a gap of one
    frame; which of the three is decided by the drifts of the first event.
   */
  lemma {:induction false} EventsMeet(
    trackId: string, i: nat, j: nat, e1: Event, e2: Event, assets: map<string, Asset>, rate: Rate)
    requires rate.Positive() && Timed(e1) && Timed(e2) && e2.timelineStartMS == e1.timelineStartMS + e1.durationMS
    requires CompileEvent(trackId, i, e1, assets, rate).Compiled? &&
        CompileEvent(trackId, j, e2, assets, rate).Compiled?
    ensures var s, t := CompileEvent(trackId, i, e1, assets, rate).segment,
        CompileEvent(trackId, j, e2, assets, rate).segment;
            var w := rate.Span();
            && -1 <= s.start + s.count - t.start <= 1
            && (s.start + s.count == t.start <==> -w <= Offset(e1, rate) < w)
            && (s.start + s.count == t.start + 1 <==> Offset(e1, rate) < -w)
            && (s.start + s.count == t.start - 1 <==> w <= Offset(e1, rate))
  {
    CompiledFrames(trackId, i, e1, assets, rate);
    CompiledFrames(trackId, j, e2, assets, rate);
    var x, y := e1.timelineStartMS * 1000, e1.durationMS * 1000;
    assert x + y == e2.timelineStartMS * 1000;
    RoundedSumExactly(x, y, rate);
  }

  /** An event that starts on a frame always meets its successor. */
  lemma {:induction false} OnFrameMeets(e: Event, rate: Rate)
    requires rate.Positive() && Timed(e) && (e.timelineStartMS * 1000 * rate.num) % rate.Span() == 0
    ensures -rate.Span() <= Offset(e, rate) < rate.Span()
  {
    var x, w := e.timelineStartMS * 1000, rate.Span();
    assert Drift(x, rate) == 0 by {
      var n := (x * rate.num) / w;
      assert x * rate.num == n * w;
      NearestUnique(x, n, rate);
    }
    DriftBounds(e.durationMS * 1000, rate);
  }

  const EXAMPLE_ASSETS := map["v" := Asset("video", "h", 17)]

  /** At 30 frames a second two compiled 17 ms events, the second directly after the first, overlap by a frame. */
  lemma {:induction false} EventsOverlap()
    ensures var rate := Rate(30, 1);
            var c, d := CompileEvent("t", 0, Event("v", 17, 0, 17), EXAMPLE_ASSETS, rate),
                        CompileEvent("t", 1, Event("v", 34, 0, 17), EXAMPLE_ASSETS, rate);
            c.Compiled? && d.Compiled? && c.segment.start + c.segment.count == d.segment.start + 1
  {
    assert EXAMPLE_ASSETS["v"].kind == "video";
    assert Nearest(17_000, Rate(30, 1)) == 1 && Nearest(34_000, Rate(30, 1)) == 1;
  }

  /** And a 49 ms event that starts at 16 ms leaves a gap of a frame. */
  lemma {:induction false} EventsGap()
    ensures var rate := Rate(30, 1);
            var c, d := CompileEvent("t", 0, Event("v", 16, 0, 49), EXAMPLE_ASSETS, rate),
                        CompileEvent("t", 1, Event("v", 65, 0, 49), EXAMPLE_ASSETS, rate);
            c.Compiled? && d.Compiled? && c.segment.start + c.segment.count == d.segment.start - 1
  {
    assert EXAMPLE_ASSETS["v"].kind == "video";
    assert Nearest(16_000, Rate(30, 1)) == 0 && Nearest(49_000, Rate(30, 1)) == 1 && Nearest(65_000, Rate(30, 1)) == 2;
  }

  // ----- whole tracks

  /** Events in the 64-bit range, each starting where the one before it ends. */
  ghost predicate Consecutive(events: seq<Event>) {
    && (forall i :: 0 <= i < |events| ==> Timed(events[i]))
    && forall i :: 0 < i < |events| ==>
         events[i].timelineStartMS == events[i - 1].timelineStartMS + events[i - 1].durationMS
  }

  /** An event whose rounded end is the rounded start of its successor. */
  ghost predicate Smooth(e: Event, rate: Rate) {
    rate.Positive() && Timed(e) && -rate.Span() <= Offset(e, rate) < rate.Span()
  }

  lemma {:induction false} NeighboursMeet(
    segments: seq<Segment>, trackId: string, events: seq<Event>, assets: map<string, Asset>, rate: Rate, i: nat)
    requires rate.Positive() && Consecutive(events) && i + 1 < |events|
    requires CompiledFrom(segments, trackId, events, assets, rate)
    ensures segments[i].start + segments[i].count == segments[i + 1].start <==> Smooth(events[i], rate)
  {
    assert events[i + 1].timelineStartMS == events[i].timelineStartMS + events[i].durationMS;
    EventsMeet(trackId, i, i + 1, events[i], events[i + 1], assets, rate);
  }

  /** A compiled track of consecutive events is gapless exactly when every event but the last is smooth. */
  lemma {:induction false} CompiledTrackTiles(
    segments: seq<Segment>, trackId: string, events: seq<Event>, assets: map<string, Asset>, rate: Rate)
    requires rate.Positive() && Consecutive(events) && events != []
    requires CompiledFrom(segments, trackId, events, assets, rate)
    ensures var last := segments[|segments| - 1];
            Tiles(segments, segments[0].start, last.start + last.count) <==>
            forall i :: 0 <= i < |events| - 1 ==> Smooth(events[i], rate)
  {
    var last := segments[|segments| - 1];
    forall i | 0 <= i < |segments| ensures segments[i].count > 0 {
      assert CompileEvent(trackId, i, events[i], assets, rate) == Compiled(segments[i]);
    }
    forall i | 0 <= i < |segments| - 1
      ensures segments[i].start + segments[i].count == segments[i + 1].start <==> Smooth(events[i], rate)
    {
      NeighboursMeet(segments, trackId, events, assets, rate, i);
    }
    TilesWhenMeeting(segments);
    forall i | 0 <= i < |events| - 1 && Tiles(segments, segments[0].start, last.start + last.count)
      ensures Smooth(events[i], rate)
    {
      assert segments[i].start + segments[i].count == segments[i + 1].start;
    }
  }

  lemma {:induction false} TilesWhenMeeting(segments: seq<Segment>)
    requires segments != [] && forall i :: 0 <= i < |segments| ==> segments[i].count > 0
    ensures var last := segments[|segments| - 1];
            Tiles(segments, segments[0].start, last.start + last.count) <==>
            forall i :: 0 <= i < |segments| - 1 ==> segments[i].start + segments[i].count == segments[i + 1].start
  {}

  /**
    A compiled segment exceeds the frame budget of a plan that ends with it by at most one frame, and
    it does so exactly when both its start and its length fall on the middle of a frame.
   */
  lemma {:induction false} OverrunsByAtMostOne(
    trackId: string, index: nat, event: Event, assets: map<string, Asset>, rate: Rate)
    requires rate.Positive() && Timed(event)
    requires CompileEvent(trackId, index, event, assets, rate).Compiled?
    ensures var s := CompileEvent(trackId, index, event, assets, rate).segment;
            var x, y := event.timelineStartMS * 1000, event.durationMS * 1000;
            var budget := OutputFrames(x + y, rate);
            && s.start + s.count <= budget + 1
            && (s.start + s.count > budget <==>
                2 * Drift(x, rate) == -rate.Span() && 2 * Drift(y, rate) == -rate.Span())
  {
    CompiledFrames(trackId, index, event, assets, rate);
    BudgetOfSum(event.timelineStartMS * 1000, event.durationMS * 1000, rate);
  }

  lemma {:induction false} BudgetOfSum(x: nat, y: nat, rate: Rate)
    requires rate.Positive()
    ensures var end, budget := Nearest(x, rate) + Nearest(y, rate), OutputFrames(x + y, rate);
            && end <= budget + 1
            && (end > budget <==> 2 * Drift(x, rate) == -rate.Span() && 2 * Drift(y, rate) == -rate.Span())
  {
    var n: int, m: int, w: int := Nearest(x, rate), Nearest(y, rate), rate.Span();
    DriftBounds(x, rate);
    DriftBounds(y, rate);
    OverrunArithmetic(x * rate.num, y * rate.num, n, m, w);
    Distributes(x, y, rate.num);
    CeilingDecides(n + m, (x + y) * rate.num, w);
    CeilingDecides(n + m - 1, (x + y) * rate.num, w);
  }

  lemma {:induction false} OverrunArithmetic(x: int, y: int, n: int, m: int, w: int)
    requires w > 0 && -w <= 2 * (x - n * w) && -w <= 2 * (y - m * w)
    ensures (n + m - 1) * w >= x + y <==> 2 * (x - n * w) == -w && 2 * (y - m * w) == -w
    ensures (n + m - 1 - 1) * w < x + y
  {
    assert (n + m - 1) * w == n * w + m * w - w;
    assert (n + m - 1 - 1) * w == n * w + m * w - 2 * w;
  }

  /** At 500 frames a second an event from 1 ms to 2 ms ends at frame 2 of a plan of one frame. */
  lemma {:induction false} OverrunSeen()
    ensures var rate := Rate(500, 1);
            var c := CompileEvent("t", 0, Event("v", 1, 0, 1), EXAMPLE_ASSETS, rate);
            c.Compiled? && c.segment.start + c.segment.count == 2 && OutputFrames(2_000, rate) == 1
  {
    assert EXAMPLE_ASSETS["v"].kind == "video";
    assert Nearest(1_000, Rate(500, 1)) == 1;
  }

  // ----- re-emission

  /**
    Re-emitting an uncut compiled segment replaces its source length by the exact length of its
    frames, which differs by less than half a frame plus a microsecond.
   */
  lemma {:induction false} ReemittedLength(
    trackId: string, index: nat, event: Event, assets: map<string, Asset>, rate: Rate, t: Segment)
    requires rate.Positive() && Timed(event)
    requires CompileEvent(trackId, index, event, assets, rate).Compiled?
    requires var s := CompileEvent(trackId, index, event, assets, rate).segment;
             Fits(s.start + s.count, rate) && Emit(WholePiece(s, rate), rate) == Emitted(t)
    ensures var s := CompileEvent(trackId, index, event, assets, rate).segment;
            && t.sourceDuration == FloorUS(s.start + s.count, rate) - FloorUS(s.start, rate)
            && -rate.Span() - 2 * rate.num
               < 2 * ((t.sourceDuration - s.sourceDuration) * rate.num)
               < rate.Span() + 2 * rate.num
  {
    var s := CompileEvent(trackId, index, event, assets, rate).segment;
    CompiledFrames(trackId, index, event, assets, rate);
    WholeLength(s, t, rate);
    FramesLength(event, s, rate);
  }

  /** The exact length of an event's frames against the event's own length. */
  lemma {:induction false} FramesLength(event: Event, s: Segment, rate: Rate)
    requires rate.Positive() && Timed(event) && 0 <= s.start && s.count == Nearest(event.durationMS * 1000, rate)
    ensures var grown := FloorUS(s.start + s.count, rate) - FloorUS(s.start, rate) - event.durationMS * 1000;
            -rate.Span() - 2 * rate.num < 2 * (grown * rate.num) < rate.Span() + 2 * rate.num
  {
    var duration := event.durationMS * 1000;
    NearestBounds(duration, rate);
    FloorBounds(s.start, rate);
    FloorBounds(s.start + s.count, rate);
    Distributes(s.start, s.count, rate.Span());
    LengthArithmetic(FloorUS(s.start, rate), FloorUS(s.start + s.count, rate), duration, s.start, s.count,
                     rate.num, rate.Span());
  }

  lemma {:induction false} WholeLength(s: Segment, t: Segment, rate: Rate)
    requires rate.Positive() && 0 <= s.start && 0 < s.count && Fits(s.start + s.count, rate)
    requires Emit(WholePiece(s, rate), rate) == Emitted(t)
    ensures t.sourceDuration == FloorUS(s.start + s.count, rate) - FloorUS(s.start, rate)
    ensures StartUS(s, rate) == FloorUS(s.start, rate) && EndUS(s, rate) == FloorUS(s.start + s.count, rate)
    ensures -TWO63 <= s.sourceIn < TWO63 ==> t.sourceIn == s.sourceIn
    ensures t.assetId == s.assetId && t.sha256 == s.sha256
  {
    FitsBelow(s.start, s.start + s.count, rate);
    FitsBelow(s.start + s.count, s.start + s.count, rate);
    FrameToUSExact(s.start, rate);
    FrameToUSExact(s.start + s.count, rate);
    EmittedSource(WholePiece(s, rate), t, rate);
  }

  lemma {:induction false} LengthArithmetic(u: int, v: int, d: int, start: int, count: int, n: int, w: int)
    requires 2 * (count * w) - w <= 2 * (d * n) < 2 * (count * w) + w
    requires u * n <= start * w < u * n + n
    requires v * n <= start * w + count * w < v * n + n
    ensures -w - 2 * n < 2 * ((v - u - d) * n) < w + 2 * n
  {
    assert (v - u - d) * n == v * n - u * n - d * n;
  }
}
