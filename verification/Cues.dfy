/**
  Replacements whose boundaries are output frames, as both overlay paths produce them. For these the
  resolver never fails and its output is exact on every frame.
 */
module Cues {
  import opened FrameTime
  import opened VisualTimeline
  import opened VisualSemantics
  import opened VisualFrames
  import Orders
  import Text

  datatype Cue = Cue(id: string, assetId: string, sha256: string, startFrame: int, endFrame: int, profileId: string)

  function ToReplacement(c: Cue, rate: Rate): Replacement {
    Replacement(c.id, c.assetId, c.sha256, FrameToUS(c.startFrame, rate), FrameToUS(c.endFrame, rate), c.profileId)
  }

  function ToReplacements(cues: seq<Cue>, rate: Rate): (rs: seq<Replacement>)
    ensures |rs| == |cues|
    ensures forall i :: 0 <= i < |cues| ==> rs[i] == ToReplacement(cues[i], rate)
  {
    if cues == [] then [] else [ToReplacement(cues[0], rate)] + ToReplacements(cues[1..], rate)
  }

  predicate OnCue(c: Cue, f: int) {
    c.startFrame <= f < c.endFrame
  }

  predicate Disjoint(c: Cue, d: Cue) {
    c.endFrame <= d.startFrame || d.endFrame <= c.startFrame
  }

  /** Cues that name an asset, lie inside the first `e` frames and do not overlap. */
  ghost predicate CuesFit(cues: seq<Cue>, e: int) {
    && (forall i :: 0 <= i < |cues| ==> !Text.Blank(cues[i].assetId) && 0 <= cues[i].startFrame < cues[i].endFrame <= e)
    && Orders.Pairwise(Disjoint, cues)
  }

  predicate Separate(r: Replacement, s: Replacement) {
    r.endUS <= s.startUS || s.endUS <= r.startUS
  }

  lemma {:induction false} CueTimes(c: Cue, e: nat, rate: Rate)
    requires rate.Roomy() && Fits(e, rate) && 0 <= c.startFrame < c.endFrame <= e
    ensures var r := ToReplacement(c, rate);
            && r.startUS == FloorUS(c.startFrame, rate) && r.endUS == FloorUS(c.endFrame, rate)
            && 0 <= r.startUS < r.endUS <= FloorUS(e, rate)
  {
    FitsBelow(c.startFrame, e, rate);
    FitsBelow(c.endFrame, e, rate);
    FrameToUSExact(c.startFrame, rate);
    FrameToUSExact(c.endFrame, rate);
    FloorStrict(c.startFrame, c.endFrame, rate);
    FloorMonotone(c.endFrame, e, rate);
  }

  lemma {:induction false} StartOrder()
    ensures Orders.Total(StartsNoLater) && Orders.Transitive(StartsNoLater)
  {}

  /** Frame-aligned, non-overlapping cues pass every check of the resolver. */
  lemma {:induction false} CuesPlaced(cues: seq<Cue>, e: nat, rate: Rate)
    requires rate.Roomy() && Fits(e, rate) && CuesFit(cues, e)
    ensures Placed(Orders.Sort(StartsNoLater, ToReplacements(cues, rate)), FloorUS(e, rate))
  {
    var rs := ToReplacements(cues, rate);
    var sorted := Orders.Sort(StartsNoLater, rs);
    StartOrder();
    Orders.SortSorted(StartsNoLater, rs);
    Orders.MembersOfPermutation(sorted, rs);
    forall i, j | 0 <= i < j < |rs| ensures Separate(rs[i], rs[j]) {
      assert Disjoint(cues[i], cues[j]);
      CueTimes(cues[i], e, rate);
      CueTimes(cues[j], e, rate);
      if cues[i].endFrame <= cues[j].startFrame {
        FloorMonotone(cues[i].endFrame, cues[j].startFrame, rate);
      } else {
        FloorMonotone(cues[j].endFrame, cues[i].startFrame, rate);
      }
    }
    Orders.PairwiseOfPermutation(Separate, rs, sorted);
    forall k | 0 <= k < |sorted|
      ensures !Text.Blank(sorted[k].assetId) && 0 <= sorted[k].startUS < sorted[k].endUS <= FloorUS(e, rate)
    {
      assert sorted[k] in rs;
      var i :| 0 <= i < |rs| && rs[i] == sorted[k];
      CueTimes(cues[i], e, rate);
    }
    forall j, k | 0 <= j < k < |sorted| ensures sorted[j].endUS <= sorted[k].startUS {
      assert Separate(sorted[j], sorted[k]) && StartsNoLater(sorted[j], sorted[k]);
    }
  }

  // ----- every piece boundary is a frame

  ghost predicate OnFrame(t: int, e: nat, rate: Rate)
    requires rate.Positive()
  {
    exists g: nat :: g <= e && t == FloorUS(g, rate)
  }

  /** Replacements whose two ends are frame boundaries in [0, e]. */
  ghost predicate AllOnFrames(sorted: seq<Replacement>, e: nat, rate: Rate)
    requires rate.Positive()
  {
    forall r :: r in sorted ==> r.startUS < r.endUS && OnFrame(r.startUS, e, rate) && OnFrame(r.endUS, e, rate)
  }

  lemma {:induction false} CuesOnFrames(cues: seq<Cue>, e: nat, rate: Rate)
    requires rate.Roomy() && Fits(e, rate) && CuesFit(cues, e)
    ensures AllOnFrames(Orders.Sort(StartsNoLater, ToReplacements(cues, rate)), e, rate)
  {
    var rs := ToReplacements(cues, rate);
    var sorted := Orders.Sort(StartsNoLater, rs);
    Orders.MembersOfPermutation(sorted, rs);
    forall r | r in sorted ensures r.startUS < r.endUS && OnFrame(r.startUS, e, rate) && OnFrame(r.endUS, e, rate) {
      var i :| 0 <= i < |rs| && rs[i] == r;
      CueTimes(cues[i], e, rate);
    }
  }

  lemma {:induction false} PieceOnFrames(
    p: Piece, base: seq<Segment>, a: int, e: nat, sorted: seq<Replacement>, rate: Rate)
    returns (g: nat, h: nat)
    requires GoodBase(base, a, e, rate) && rate.Roomy() && AllOnFrames(sorted, e, rate)
    requires FaithfulTo(p, base, sorted, rate)
    ensures g < h <= e && p.from == FloorUS(g, rate) && p.to == FloorUS(h, rate)
  {
    var i :| 0 <= i < |base| && base[i] == p.seg;
    BaseBounds(base, a, e, rate, i);
    var lo, hi := StartUS(p.seg, rate), EndUS(p.seg, rate);
    FloorStrict(base[i].start, base[i].start + base[i].count, rate);
    assert OnFrame(lo, e, rate) && OnFrame(hi, e, rate);
    assert OnFrame(p.from, e, rate) && OnFrame(p.to, e, rate) && p.from < p.to;
    g :| g <= e && p.from == FloorUS(g, rate);
    h :| h <= e && p.to == FloorUS(h, rate);
    FloorStrict(g, h, rate);
  }

  /** A piece between frame boundaries is always emitted, and plays exactly those frames. */
  lemma {:induction false} OnFramesEmits(p: Piece, g: nat, h: nat, e: nat, rate: Rate)
    requires rate.Roomy() && Fits(e, rate) && g < h <= e
    requires p.from == FloorUS(g, rate) && p.to == FloorUS(h, rate)
    ensures Emit(p, rate).Emitted?
    ensures Emit(p, rate).segment.start == g && Emit(p, rate).segment.start + Emit(p, rate).segment.count == h
  {
    RoundTrip(g, rate);
    RoundTrip(h, rate);
    FitsBelow(h, e, rate);
    assert PieceFrames(p.from, p.to, rate) == Range(g, h - g);
  }

  lemma {:induction false} OnFramesAllEmitted(base: seq<Segment>, a: int, e: nat, sorted: seq<Replacement>, rate: Rate)
    requires GoodBase(base, a, e, rate) && rate.Roomy() && base != [] && Apart(sorted) && AllOnFrames(sorted, e, rate)
    ensures EmitOnto([], CutFrom(base, 0, sorted, 0, rate), rate).Ok?
  {
    PiecesOfBase(base, a, e, sorted, rate);
    var ps := CutFrom(base, 0, sorted, 0, rate);
    forall k | 0 <= k < |ps| ensures Emit(ps[k], rate).Emitted? {
      assert FaithfulTo(ps[k], base, sorted, rate);
      var g, h := PieceOnFrames(ps[k], base, a, e, sorted, rate);
      OnFramesEmits(ps[k], g, h, e, rate);
    }
    EmitOntoOk([], ps, rate);
  }

  /** Frame-aligned cues are always accepted. */
  lemma {:induction false} CuesAccepted(base: seq<Segment>, cues: seq<Cue>, a: int, e: nat, rate: Rate)
    requires GoodBase(base, a, e, rate) && rate.Roomy() && base != [] && CuesFit(cues, e)
    ensures Resolve(base, ToReplacements(cues, rate), rate).Ok?
  {
    if cues != [] {
      var sorted := Orders.Sort(StartsNoLater, ToReplacements(cues, rate));
      TotalIsEnd(base, a, e, rate);
      CuesPlaced(cues, e, rate);
      ChecksDecidePlacement(sorted, FloorUS(e, rate));
      CuesOnFrames(cues, e, rate);
      OnFramesAllEmitted(base, a, e, sorted, rate);
    }
  }

  // ----- frame by frame

  /** What a frame displays: an asset and the microsecond position inside its source. */
  datatype Shot = Shot(assetId: string, sha256: string, sourceUS: int)

  function Play(s: Segment, f: int, rate: Rate): Shot
    requires rate.Positive() && 0 <= s.start && 0 <= f
  {
    Shot(s.assetId, s.sha256, s.sourceIn + FloorUS(f, rate) - FloorUS(s.start, rate))
  }

  /** A cue plays its source from the start, counted from its own beginning or from that of `home`. */
  function CueShot(c: Cue, home: Segment, f: int, rate: Rate): Shot
    requires rate.Positive() && 0 <= home.start && 0 <= f
  {
    Shot(c.assetId, c.sha256, FloorUS(f, rate) - FloorUS(Max(c.startFrame, home.start), rate))
  }

  /** A gapless base whose frame and source arithmetic stays inside 64 bits. */
  ghost predicate Playable(segs: seq<Segment>, a: int, e: nat, rate: Rate) {
    GoodBase(segs, a, e, rate) && SourceFits(segs, rate)
  }

  /** Frame `f`, played by `s` in the output and by `home` in the base, shows the right media. */
  ghost predicate FrameExact(s: Segment, home: Segment, cues: seq<Cue>, f: int, rate: Rate)
    requires rate.Positive()
  {
    && 0 <= s.start && 0 <= home.start && 0 <= f
    && (forall c :: c in cues && OnCue(c, f) ==> Play(s, f, rate) == CueShot(c, home, f, rate))
    && ((forall c :: c in cues ==> !OnCue(c, f)) ==> Play(s, f, rate) == Play(home, f, rate))
  }

  ghost predicate Exact(out: seq<Segment>, base: seq<Segment>, cues: seq<Cue>, rate: Rate)
    requires rate.Positive()
  {
    forall k, i, f :: 0 <= k < |out| && 0 <= i < |base| && Covers(out[k], f) && Covers(base[i], f)
      ==> FrameExact(out[k], base[i], cues, f, rate)
  }

  lemma {:induction false} CueClaims(c: Cue, e: nat, rate: Rate, f: int)
    requires rate.Roomy() && Fits(e, rate) && 0 <= c.startFrame < c.endFrame <= e
    ensures Claims(ToReplacement(c, rate), f, rate) <==> OnCue(c, f)
  {
    CueTimes(c, e, rate);
    RoundTrip(c.startFrame, rate);
    RoundTrip(c.endFrame, rate);
  }

  lemma {:induction false} FloorOfMax(x: nat, y: nat, rate: Rate)
    requires rate.Positive()
    ensures FloorUS(Max(x, y), rate) == Max(FloorUS(x, rate), FloorUS(y, rate))
  {
    if x <= y {
      FloorMonotone(x, y, rate);
    } else {
      FloorMonotone(y, x, rate);
    }
  }

  /** A piece is emitted at its own frame boundaries, inside the 64-bit range. */
  lemma {:induction false} PieceEmitted(
    p: Piece, s: Segment, base: seq<Segment>, a: int, e: nat, sorted: seq<Replacement>, rate: Rate)
    requires Playable(base, a, e, rate) && rate.Roomy() && AllOnFrames(sorted, e, rate)
    requires FaithfulTo(p, base, sorted, rate) && Emit(p, rate) == Emitted(s)
    ensures 0 <= s.start < s.start + s.count <= e
    ensures p.from == FloorUS(s.start, rate) == StartUS(s, rate)
    ensures p.to == FloorUS(s.start + s.count, rate) == EndUS(s, rate)
    ensures 0 <= p.from <= p.to <= FloorUS(e, rate) < TWO63
  {
    var g, h := PieceOnFrames(p, base, a, e, sorted, rate);
    OnFramesEmits(p, g, h, e, rate);
    FitsBelow(g, e, rate);
    FitsBelow(h, e, rate);
    FrameToUSExact(g, rate);
    FrameToUSExact(h, rate);
    FloorMonotone(g, h, rate);
  }

  lemma {:induction false} PieceSourceFits(
    p: Piece, s: Segment, base: seq<Segment>, a: int, e: nat, sorted: seq<Replacement>, rate: Rate)
    requires Playable(base, a, e, rate) && rate.Roomy() && AllOnFrames(sorted, e, rate)
    requires FaithfulTo(p, base, sorted, rate) && Emit(p, rate) == Emitted(s)
    ensures -TWO63 <= s.sourceIn && s.sourceIn + (EndUS(s, rate) - StartUS(s, rate)) < TWO63
    ensures 0 <= s.start && 0 < s.count
    ensures s.sourceDuration == FloorUS(s.start + s.count, rate) - FloorUS(s.start, rate)
  {
    PieceEmitted(p, s, base, a, e, sorted, rate);
    if p.BasePiece? {
      var i :| 0 <= i < |base| && base[i] == p.seg;
      BaseBounds(base, a, e, rate, i);
      EmittedSource(p, s, rate);
      SourceInRange(base[i].sourceIn, p.from, StartUS(base[i], rate), EndUS(base[i], rate));
    }
  }

  lemma {:induction false} CuePieceExact(
    p: Piece, s: Segment, base: seq<Segment>, a: int, e: nat, cues: seq<Cue>, sorted: seq<Replacement>, rate: Rate,
    i: nat, f: int, c: Cue)
    requires Playable(base, a, e, rate) && rate.Roomy() && CuesFit(cues, e) && AllOnFrames(sorted, e, rate)
    requires Apart(sorted) && (forall x :: x in sorted ==> 0 <= x.startUS)
    requires FaithfulTo(p, base, sorted, rate) && Emit(p, rate) == Emitted(s)
    requires i < |base| && Covers(s, f) && Covers(base[i], f)
    requires c in cues && OnCue(c, f) && ToReplacement(c, rate) in sorted
    ensures 0 <= s.start && 0 <= base[i].start && 0 <= f && Play(s, f, rate) == CueShot(c, base[i], f, rate)
  {
    var j :| 0 <= j < |cues| && cues[j] == c;
    CueClaims(c, e, rate, f);
    CueTimes(c, e, rate);
    PieceClaims(p, s, base, sorted, rate, f, ToReplacement(c, rate));
    PlaysItsFrames(base, a, e, rate, i, f);
    PieceHome(p, s, base, sorted, rate, a, e, f, i);
    PieceEmitted(p, s, base, a, e, sorted, rate);
    BaseBounds(base, a, e, rate, i);
    FloorOfMax(c.startFrame, base[i].start, rate);
  }

  lemma {:induction false} BasePieceExact(
    p: Piece, s: Segment, base: seq<Segment>, a: int, e: nat, sorted: seq<Replacement>, rate: Rate, i: nat, f: int)
    requires Playable(base, a, e, rate) && rate.Roomy() && AllOnFrames(sorted, e, rate)
    requires Apart(sorted) && (forall x :: x in sorted ==> 0 <= x.startUS)
    requires FaithfulTo(p, base, sorted, rate) && Emit(p, rate) == Emitted(s)
    requires i < |base| && Covers(s, f) && Covers(base[i], f)
    requires forall x :: x in sorted ==> !Claims(x, f, rate)
    ensures 0 <= s.start && 0 <= base[i].start && 0 <= f && Play(s, f, rate) == Play(base[i], f, rate)
  {
    if p.PreparedPiece? {
      PieceClaims(p, s, base, sorted, rate, f, p.rep);
      assert false;
    }
    PlaysItsFrames(base, a, e, rate, i, f);
    PieceHome(p, s, base, sorted, rate, a, e, f, i);
    PieceEmitted(p, s, base, a, e, sorted, rate);
    BaseBounds(base, a, e, rate, i);
    BaseShows(p, s, base, sorted, rate, a, e, i);
  }

  lemma {:induction false} CueMembers(cues: seq<Cue>, rate: Rate)
    ensures var sorted := Orders.Sort(StartsNoLater, ToReplacements(cues, rate));
            && (forall c :: c in cues ==> ToReplacement(c, rate) in sorted)
            && (forall r :: r in sorted ==> exists c :: c in cues && ToReplacement(c, rate) == r)
  {
    var rs := ToReplacements(cues, rate);
    var sorted := Orders.Sort(StartsNoLater, rs);
    Orders.MembersOfPermutation(sorted, rs);
    forall c | c in cues ensures ToReplacement(c, rate) in sorted {
      var i :| 0 <= i < |cues| && cues[i] == c;
      assert rs[i] in sorted;
    }
    forall r | r in sorted ensures exists c :: c in cues && ToReplacement(c, rate) == r {
      var i :| 0 <= i < |rs| && rs[i] == r;
      assert cues[i] in cues;
    }
  }

  lemma {:induction false} CueFrame(
    p: Piece, s: Segment, base: seq<Segment>, a: int, e: nat, cues: seq<Cue>, rate: Rate, i: nat, f: int)
    requires Playable(base, a, e, rate) && rate.Roomy() && CuesFit(cues, e)
    requires FaithfulTo(p, base, Orders.Sort(StartsNoLater, ToReplacements(cues, rate)), rate) &&
        Emit(p, rate) == Emitted(s)
    requires i < |base| && Covers(s, f) && Covers(base[i], f)
    ensures FrameExact(s, base[i], cues, f, rate)
  {
    var sorted := Orders.Sort(StartsNoLater, ToReplacements(cues, rate));
    CueMembers(cues, rate);
    CuesPlaced(cues, e, rate);
    CuesOnFrames(cues, e, rate);
    PieceEmitted(p, s, base, a, e, sorted, rate);
    BaseBounds(base, a, e, rate, i);
    assert forall x :: x in sorted ==> 0 <= x.startUS;
    forall c | c in cues && OnCue(c, f) ensures Play(s, f, rate) == CueShot(c, base[i], f, rate) {
      CuePieceExact(p, s, base, a, e, cues, sorted, rate, i, f, c);
    }
    if forall c :: c in cues ==> !OnCue(c, f) {
      forall x | x in sorted ensures !Claims(x, f, rate) {
        var c :| c in cues && ToReplacement(c, rate) == x;
        CueClaims(c, e, rate, f);
      }
      BasePieceExact(p, s, base, a, e, sorted, rate, i, f);
    }
  }

  /**
    Frame-exact replacement: cues on frame boundaries are always accepted; the result plays the same
    frames as the base, each showing the cue that covers it or else exactly what the base showed.
   */
  lemma {:induction false} CuesExact(base: seq<Segment>, cues: seq<Cue>, a: int, e: nat, rate: Rate)
    requires Playable(base, a, e, rate) && rate.Roomy() && base != [] && CuesFit(cues, e)
    ensures Resolve(base, ToReplacements(cues, rate), rate).Ok?
    ensures var out := Resolve(base, ToReplacements(cues, rate), rate).segments;
            Playable(out, a, e, rate) && Exact(out, base, cues, rate)
  {
    CuesAccepted(base, cues, a, e, rate);
    var out := Resolve(base, ToReplacements(cues, rate), rate).segments;
    AcceptedConserves(base, ToReplacements(cues, rate), rate, a, e);
    if cues == [] {
      UncutExact(base, a, e, rate);
    } else {
      var ps := AcceptedPieces(base, ToReplacements(cues, rate), rate, a, e);
      ExplainedExact(ps, out, base, a, e, cues, rate);
    }
  }

  lemma {:induction false} ExplainedExact(
    ps: seq<Piece>, out: seq<Segment>, base: seq<Segment>, a: int, e: nat, cues: seq<Cue>, rate: Rate)
    requires Playable(base, a, e, rate) && rate.Roomy() && CuesFit(cues, e)
    requires Explains(ps, out, base, Orders.Sort(StartsNoLater, ToReplacements(cues, rate)), a, e, rate)
    ensures SourceFits(out, rate) && Exact(out, base, cues, rate)
  {
    var sorted := Orders.Sort(StartsNoLater, ToReplacements(cues, rate));
    CuesOnFrames(cues, e, rate);
    forall k | 0 <= k < |out|
      ensures -TWO63 <= out[k].sourceIn && out[k].sourceIn + (EndUS(out[k], rate) - StartUS(out[k], rate)) < TWO63
    {
      PieceSourceFits(ps[k], out[k], base, a, e, sorted, rate);
    }
    forall k, i, f | 0 <= k < |out| && 0 <= i < |base| && Covers(out[k], f) && Covers(base[i], f)
      ensures FrameExact(out[k], base[i], cues, f, rate)
    {
      CueFrame(ps[k], out[k], base, a, e, cues, rate, i, f);
    }
  }

  lemma {:induction false} UncutExact(base: seq<Segment>, a: int, e: nat, rate: Rate)
    requires Playable(base, a, e, rate)
    ensures Exact(base, base, [], rate)
  {
    forall k, i, f | 0 <= k < |base| && 0 <= i < |base| && Covers(base[k], f) && Covers(base[i], f)
      ensures FrameExact(base[k], base[i], [], f, rate)
    {
      TilesUnique(base, a, e, f, i, k);
      BaseBounds(base, a, e, rate, i);
    }
  }

  /**
    A cue that crosses into a later base segment starts over there: the resolved track shows the cue at
    the cue's own running position exactly if the base segment playing the frame begins no later than
    the cue.
   */
  lemma {:induction false} CueRestarts(
    base: seq<Segment>, cues: seq<Cue>, a: int, e: nat, rate: Rate, c: Cue, k: nat, i: nat, f: int)
    requires Playable(base, a, e, rate) && rate.Roomy() && base != [] && CuesFit(cues, e)
    requires c in cues && OnCue(c, f) && i < |base| && Covers(base[i], f)
    requires Resolve(base, ToReplacements(cues, rate), rate).Ok?
    requires k < |Resolve(base, ToReplacements(cues, rate), rate).segments|
    requires Covers(Resolve(base, ToReplacements(cues, rate), rate).segments[k], f)
    ensures var s := Resolve(base, ToReplacements(cues, rate), rate).segments[k];
            && 0 <= s.start && 0 <= c.startFrame && 0 <= f
            && Play(s, f, rate).assetId == c.assetId && Play(s, f, rate).sha256 == c.sha256
            && (Play(s, f, rate).sourceUS == FloorUS(f, rate) - FloorUS(c.startFrame, rate) <==>
                base[i].start <= c.startFrame)
  {
    CuesExact(base, cues, a, e, rate);
    var s := Resolve(base, ToReplacements(cues, rate), rate).segments[k];
    assert FrameExact(s, base[i], cues, f, rate);
    assert 0 <= c.startFrame by {
      var n :| 0 <= n < |cues| && cues[n] == c;
    }
    FloorStrict(c.startFrame, base[i].start, rate);
  }

  const EXAMPLE_BASE := [Segment("s-0", false, "left", "h0", 0, 25, 0, 1_000_000),
      Segment("s-1", false, "right", "h1", 25, 25, 0, 1_000_000)]
  const EXAMPLE_CUE := Cue("c", "title", "h2", 10, 40, "")

  lemma {:induction false} ExamplePlays(rate: Rate)
    requires rate == Rate(25, 1)
    ensures rate.Roomy() && Playable(EXAMPLE_BASE, 0, 50, rate) && CuesFit([EXAMPLE_CUE], 50)
    ensures FloorUS(10, rate) == 400_000 && FloorUS(24, rate) == 960_000 && FloorUS(25, rate) == 1_000_000
  {
    assert EXAMPLE_CUE.assetId[0] == 't';
  }

  /** A cue of 30 frames across a cut at its 15th frame: its source jumps from 560 ms back to 0. */
  lemma {:induction false} CrossingCueJumpsBack() returns (j: nat, k: nat)
    ensures var rate := Rate(25, 1);
            var r := Resolve(EXAMPLE_BASE, ToReplacements([EXAMPLE_CUE], rate), rate);
            && r.Ok? && j < |r.segments| && k < |r.segments|
            && Covers(r.segments[j], 24) && Covers(r.segments[k], 25)
            && r.segments[j].start >= 0 && Play(r.segments[j], 24, rate) == Shot("title", "h2", 560_000)
            && r.segments[k].start >= 0 && Play(r.segments[k], 25, rate) == Shot("title", "h2", 0)
  {
    var rate := Rate(25, 1);
    ExamplePlays(rate);
    CuesExact(EXAMPLE_BASE, [EXAMPLE_CUE], 0, 50, rate);
    var out := Resolve(EXAMPLE_BASE, ToReplacements([EXAMPLE_CUE], rate), rate).segments;
    j := TilesCover(out, 0, 50, 24);
    k := TilesCover(out, 0, 50, 25);
    assert Covers(EXAMPLE_BASE[0], 24) && Covers(EXAMPLE_BASE[1], 25);
    assert FrameExact(out[j], EXAMPLE_BASE[0], [EXAMPLE_CUE], 24, rate);
    assert FrameExact(out[k], EXAMPLE_BASE[1], [EXAMPLE_CUE], 25, rate);
    assert EXAMPLE_CUE in [EXAMPLE_CUE] && OnCue(EXAMPLE_CUE, 24) && OnCue(EXAMPLE_CUE, 25);
  }
}
