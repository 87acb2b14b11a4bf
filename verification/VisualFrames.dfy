/**
  Frame-level guarantees of the visual replacement resolver: the output tiles the base's frame range,
  and every output frame shows the replacement that covers it or else the base.
 */
module VisualFrames {
  import opened FrameTime
  import opened VisualTimeline
  import opened VisualSemantics
  import Orders

  /** Segments that play frames [a, e) in order: no gap, no overlap, every count positive. */
  ghost predicate Tiles(segs: seq<Segment>, a: int, e: int) {
    && (forall k :: 0 <= k < |segs| ==> segs[k].count > 0)
    && if segs == [] then a == e
       else
         && segs[0].start == a
         && segs[|segs| - 1].start + segs[|segs| - 1].count == e
         && forall k :: 0 <= k < |segs| - 1 ==> segs[k].start + segs[k].count == segs[k + 1].start
  }

  predicate Covers(s: Segment, f: int) {
    s.start <= f < s.start + s.count
  }

  function TotalFrames(segs: seq<Segment>): int {
    if segs == [] then 0 else TotalFrames(segs[..|segs| - 1]) + segs[|segs| - 1].count
  }

  lemma {:induction false} TilesInit(segs: seq<Segment>, a: int, e: int)
    requires Tiles(segs, a, e) && segs != []
    ensures Tiles(segs[..|segs| - 1], a, segs[|segs| - 1].start)
  {}

  /** A tiling accounts for every frame once. */
  lemma {:induction false} TilesTotal(segs: seq<Segment>, a: int, e: int)
    requires Tiles(segs, a, e)
    ensures TotalFrames(segs) == e - a
  {
    if segs == [] {
    } else {
      TilesInit(segs, a, e);
      TilesTotal(segs[..|segs| - 1], a, segs[|segs| - 1].start);
    }
  }

  lemma {:induction false} TilesInside(segs: seq<Segment>, a: int, e: int, k: nat)
    requires Tiles(segs, a, e) && k < |segs|
    ensures a <= segs[k].start && segs[k].start + segs[k].count <= e
    decreases |segs|
  {
    var last := |segs| - 1;
    TilesInit(segs, a, e);
    if k < last {
      TilesInside(segs[..last], a, segs[last].start, k);
    } else if last > 0 {
      TilesInside(segs[..last], a, segs[last].start, last - 1);
    }
  }

  /** Every frame of the range is played by a segment. */
  lemma {:induction false} TilesCover(segs: seq<Segment>, a: int, e: int, f: int) returns (k: nat)
    requires Tiles(segs, a, e) && a <= f < e
    ensures k < |segs| && Covers(segs[k], f)
    decreases |segs|
  {
    var last := |segs| - 1;
    if f >= segs[last].start {
      k := last;
    } else {
      TilesInit(segs, a, e);
      k := TilesCover(segs[..last], a, segs[last].start, f);
    }
  }

  lemma {:induction false} TilesOrdered(segs: seq<Segment>, a: int, e: int, j: nat, k: nat)
    requires Tiles(segs, a, e) && j < k < |segs|
    ensures segs[j].start + segs[j].count <= segs[k].start
  {
    TilesInside(segs, a, e, k);
    TilesInsidePrefix(segs, a, e, k);
    TilesInside(segs[..k], a, segs[k].start, j);
  }

  lemma {:induction false} TilesInsidePrefix(segs: seq<Segment>, a: int, e: int, k: nat)
    requires Tiles(segs, a, e) && k < |segs|
    ensures Tiles(segs[..k], a, segs[k].start)
  {}

  /** ... and by only one. */
  lemma {:induction false} TilesUnique(segs: seq<Segment>, a: int, e: int, f: int, j: nat, k: nat)
    requires Tiles(segs, a, e) && j < |segs| && k < |segs|
    requires Covers(segs[j], f) && Covers(segs[k], f)
    ensures j == k
  {
    if j < k {
      TilesOrdered(segs, a, e, j, k);
    } else if k < j {
      TilesOrdered(segs, a, e, k, j);
    }
  }

  // ----- the base in microseconds

  /** A gapless base whose last frame converts without 64-bit overflow. */
  ghost predicate GoodBase(base: seq<Segment>, a: int, e: int, rate: Rate) {
    0 <= a && Tiles(base, a, e) && rate.Positive() && Fits(e, rate)
  }

  lemma {:induction false} BaseBounds(base: seq<Segment>, a: int, e: int, rate: Rate, i: nat)
    requires GoodBase(base, a, e, rate) && i < |base|
    ensures a <= base[i].start < base[i].start + base[i].count <= e
    ensures StartUS(base[i], rate) == FloorUS(base[i].start, rate)
    ensures EndUS(base[i], rate) == FloorUS(base[i].start + base[i].count, rate)
    ensures StartUS(base[i], rate) <= EndUS(base[i], rate) <= FloorUS(e, rate) < TWO63
  {
    TilesInside(base, a, e, i);
    var s, t := base[i].start, base[i].start + base[i].count;
    FitsBelow(s, e, rate);
    FitsBelow(t, e, rate);
    FitsBelow(e, e, rate);
    FrameToUSExact(s, rate);
    FrameToUSExact(t, rate);
    FloorMonotone(s, t, rate);
  }

  lemma {:induction false} BaseOrdered(base: seq<Segment>, a: int, e: int, rate: Rate)
    requires GoodBase(base, a, e, rate)
    ensures Ordered(base, rate)
    ensures forall j :: 0 <= j < |base| - 1 ==> EndUS(base[j], rate) == StartUS(base[j + 1], rate)
  {
    forall i | 0 <= i < |base| ensures StartUS(base[i], rate) <= EndUS(base[i], rate) {
      BaseBounds(base, a, e, rate, i);
    }
    forall j | 0 <= j < |base| - 1 ensures EndUS(base[j], rate) == StartUS(base[j + 1], rate) {
      BaseBounds(base, a, e, rate, j);
      BaseBounds(base, a, e, rate, j + 1);
    }
  }

  // ----- quantization

  lemma {:induction false} EmitOntoOk(out: seq<Segment>, ps: seq<Piece>, rate: Rate)
    ensures EmitOnto(out, ps, rate).Ok? <==> forall k :: 0 <= k < |ps| ==> Emit(ps[k], rate).Emitted?
    ensures EmitOnto(out, ps, rate).Ok? ==>
              var segs := EmitOnto(out, ps, rate).segments;
              && |segs| == |out| + |ps|
              && segs[..|out|] == out
              && forall k :: 0 <= k < |ps| ==> Emit(ps[k], rate) == Emitted(segs[|out| + k])
    decreases |ps|
  {
    if ps == [] {
    } else {
      var first := Emit(ps[0], rate);
      if first.Emitted? {
        EmitOntoOk(out + [first.segment], ps[1..], rate);
        var r := EmitOnto(out, ps, rate);
        assert forall k :: 0 < k < |ps| ==> ps[k] == ps[1..][k - 1];
        if r.Ok? {
          assert r.segments[..|out|] == r.segments[..|out| + 1][..|out|];
          assert r.segments[|out|] == r.segments[..|out| + 1][|out|];
          forall k | 0 <= k < |ps| ensures Emit(ps[k], rate) == Emitted(r.segments[|out| + k]) {
            if k > 0 {
              assert Emit(ps[1..][k - 1], rate) == Emitted(r.segments[|out| + 1 + (k - 1)]);
            }
          }
        }
      }
    }
  }

  /** An emitted segment plays from the frame nearest to the piece's start to the one nearest to its end. */
  lemma {:induction false} EmittedRange(p: Piece, rate: Rate)
    requires rate.Positive() && Emit(p, rate).Emitted?
    ensures var s := Emit(p, rate).segment;
            0 <= p.from && 0 <= p.to && s.start == Nearest(p.from, rate) &&
                s.start + s.count == Nearest(p.to, rate) && s.count > 0
  {
    var range := PieceFrames(p.from, p.to, rate);
    assert range.Range?;
  }

  lemma {:induction false} ChainQuantized(ps: seq<Piece>, segs: seq<Segment>, from: nat, to: nat, rate: Rate)
    requires rate.Positive() && Chain(ps, from, to) && |segs| == |ps|
    requires forall k :: 0 <= k < |ps| ==> Emit(ps[k], rate) == Emitted(segs[k])
    ensures Tiles(segs, Nearest(from, rate), Nearest(to, rate))
  {
    forall k | 0 <= k < |ps|
      ensures segs[k].count > 0 && 0 <= ps[k].from && 0 <= ps[k].to
      ensures segs[k].start == Nearest(ps[k].from, rate) && segs[k].start + segs[k].count == Nearest(ps[k].to, rate)
    {
      EmittedRange(ps[k], rate);
    }
  }

  // ----- accepted replacements

  lemma {:induction false} TotalUSOfBase(base: seq<Segment>, a: int, e: int, rate: Rate, n: nat)
    requires GoodBase(base, a, e, rate) && n <= |base|
    ensures TotalUS(base, n, rate) == if n == 0 then 0 else EndUS(base[n - 1], rate)
  {
    if n == 0 {
    } else {
      TotalUSOfBase(base, a, e, rate, n - 1);
      BaseBounds(base, a, e, rate, n - 1);
      if n > 1 {
        BaseBounds(base, a, e, rate, n - 2);
      }
    }
  }

  lemma {:induction false} TotalIsEnd(base: seq<Segment>, a: int, e: int, rate: Rate)
    requires GoodBase(base, a, e, rate) && base != []
    ensures TotalUS(base, |base|, rate) == FloorUS(e, rate)
  {
    TotalUSOfBase(base, a, e, rate, |base|);
    BaseBounds(base, a, e, rate, |base| - 1);
  }

  /** `ps` are the pieces behind the accepted output `segs`. */
  ghost predicate Explains(
    ps: seq<Piece>, segs: seq<Segment>, base: seq<Segment>, sorted: seq<Replacement>, a: nat, e: nat, rate: Rate)
    requires rate.Positive()
  {
    && AllFaithfulTo(ps, base, sorted, rate)
    && Chain(ps, FloorUS(a, rate), FloorUS(e, rate))
    && |segs| == |ps|
    && forall k :: 0 <= k < |ps| ==> Emit(ps[k], rate) == Emitted(segs[k])
  }

  lemma {:induction false} PiecesOfBase(base: seq<Segment>, a: int, e: int, sorted: seq<Replacement>, rate: Rate)
    requires GoodBase(base, a, e, rate) && base != [] && Apart(sorted)
    ensures var ps := CutFrom(base, 0, sorted, 0, rate);
            AllFaithfulTo(ps, base, sorted, rate) && Chain(ps, FloorUS(a, rate), FloorUS(e, rate))
  {
    var ps := CutFrom(base, 0, sorted, 0, rate);
    BaseOrdered(base, a, e, rate);
    TrackFaithful(base, 0, sorted, 0, rate);
    assert Chain(ps, StartUS(base[0], rate), EndUS(base[|base| - 1], rate)) by {
      TrackChain(base, 0, sorted, 0, rate);
    }
    assert StartUS(base[0], rate) == FloorUS(a, rate) by {
      BaseBounds(base, a, e, rate, 0);
    }
    assert EndUS(base[|base| - 1], rate) == FloorUS(e, rate) by {
      BaseBounds(base, a, e, rate, |base| - 1);
    }
  }

  lemma {:induction false} AcceptedPieces(
    base: seq<Segment>, replacements: seq<Replacement>, rate: Rate, a: int, e: int)
    returns (ps: seq<Piece>)
    requires GoodBase(base, a, e, rate) && replacements != []
    requires Resolve(base, replacements, rate).Ok?
    ensures Placed(Orders.Sort(StartsNoLater, replacements), FloorUS(e, rate))
    ensures Explains(ps, Resolve(base, replacements, rate).segments, base, Orders.Sort(StartsNoLater, replacements),
        a, e, rate)
  {
    var sorted := Orders.Sort(StartsNoLater, replacements);
    var total := TotalUS(base, |base|, rate);
    ChecksDecidePlacement(sorted, total);
    assert base != [] by {
      assert sorted[0].endUS > 0;
    }
    TotalIsEnd(base, a, e, rate);
    ps := CutFrom(base, 0, sorted, 0, rate);
    PiecesOfBase(base, a, e, sorted, rate);
    EmitOntoOk([], ps, rate);
  }

  /**
    Accepted replacements over a gapless base leave a gapless track. It spans the frames nearest to
    the base's ends in microseconds, and those are the base's own ends exactly when they survive
    the trip.
   */
  lemma {:induction false} AcceptedTiles(base: seq<Segment>, replacements: seq<Replacement>, rate: Rate, a: int, e: int)
    requires GoodBase(base, a, e, rate) && replacements != []
    requires Resolve(base, replacements, rate).Ok?
    ensures var out := Resolve(base, replacements, rate).segments;
            && Tiles(out, Nearest(FloorUS(a, rate), rate), Nearest(FloorUS(e, rate), rate))
            && (out != [] ==> (Tiles(out, a, e) <==>
                  2 * ((a * rate.Span()) % rate.num) <= rate.Span() &&
                      2 * ((e * rate.Span()) % rate.num) <= rate.Span()))
  {
    var ps := AcceptedPieces(base, replacements, rate, a, e);
    var out := Resolve(base, replacements, rate).segments;
    ChainQuantized(ps, out, FloorUS(a, rate), FloorUS(e, rate), rate);
    RoundTripExactly(a, rate);
    RoundTripExactly(e, rate);
  }

  /** In the working range of frame rates the frame range and the number of frames are conserved. */
  lemma {:induction false} AcceptedConserves(
    base: seq<Segment>, replacements: seq<Replacement>, rate: Rate, a: int, e: int)
    requires GoodBase(base, a, e, rate) && rate.Roomy()
    requires Resolve(base, replacements, rate).Ok?
    ensures var out := Resolve(base, replacements, rate).segments;
            Tiles(out, a, e) && TotalFrames(out) == TotalFrames(base) == e - a
  {
    var out := Resolve(base, replacements, rate).segments;
    if replacements != [] {
      AcceptedTiles(base, replacements, rate, a, e);
      RoundTrip(a, rate);
      RoundTrip(e, rate);
    }
    TilesTotal(out, a, e);
    TilesTotal(base, a, e);
  }

  // ----- what a frame shows

  /** Frames a replacement interval claims after quantization. */
  ghost predicate Claims(r: Replacement, f: int, rate: Rate)
    requires rate.Positive()
  {
    0 <= r.startUS <= r.endUS && Nearest(r.startUS, rate) <= f < Nearest(r.endUS, rate)
  }

  /** Source positions stay inside 64 bits over the whole segment. */
  ghost predicate SourceFits(segs: seq<Segment>, rate: Rate) {
    forall i :: 0 <= i < |segs| ==>
      -TWO63 <= segs[i].sourceIn && segs[i].sourceIn + (EndUS(segs[i], rate) - StartUS(segs[i], rate)) < TWO63
  }

  lemma {:induction false} ApartMembers(sorted: seq<Replacement>, r: Replacement, s: Replacement)
    requires Apart(sorted) && r in sorted && s in sorted && r != s
    ensures r.endUS <= s.startUS || s.endUS <= r.startUS
  {
    var i :| 0 <= i < |sorted| && sorted[i] == r;
    var j :| 0 <= j < |sorted| && sorted[j] == s;
    if i < j {
      assert sorted[i].endUS <= sorted[j].startUS;
    } else {
      assert sorted[j].endUS <= sorted[i].startUS;
    }
  }

  /** A prepared piece plays only frames its own replacement claims; a base piece only unclaimed frames. */
  lemma {:induction false} PieceClaims(
    p: Piece, s: Segment, base: seq<Segment>, sorted: seq<Replacement>, rate: Rate, f: int, r: Replacement)
    requires rate.Positive() && FaithfulTo(p, base, sorted, rate) && Emit(p, rate) == Emitted(s)
    requires Apart(sorted) && (forall x :: x in sorted ==> 0 <= x.startUS < x.endUS)
    requires Covers(s, f) && r in sorted
    ensures Claims(r, f, rate) <==> p.PreparedPiece? && p.rep == r
  {
    EmittedRange(p, rate);
    if p.PreparedPiece? && p.rep == r {
      NearestMonotone(r.startUS, p.from, rate);
      NearestMonotone(p.to, r.endUS, rate);
    } else {
      if p.PreparedPiece? {
        ApartMembers(sorted, r, p.rep);
      }
      assert r.endUS <= p.from || p.to <= r.startUS;
      if r.endUS <= p.from {
        NearestMonotone(r.endUS, p.from, rate);
      } else {
        NearestMonotone(p.to, r.startUS, rate);
      }
    }
  }

  /** The frames `home` plays after its ends went through microseconds and back. */
  ghost predicate Plays(home: Segment, f: int, rate: Rate)
    requires rate.Positive()
  {
    && 0 <= StartUS(home, rate) <= EndUS(home, rate)
    && Nearest(StartUS(home, rate), rate) <= f < Nearest(EndUS(home, rate), rate)
  }

  /** In the working range those are its own frames. */
  lemma {:induction false} PlaysItsFrames(base: seq<Segment>, a: int, e: int, rate: Rate, i: nat, f: int)
    requires rate.Roomy() && GoodBase(base, a, e, rate) && i < |base|
    ensures Plays(base[i], f, rate) <==> Covers(base[i], f)
  {
    BaseBounds(base, a, e, rate, i);
    RoundTrip(base[i].start, rate);
    RoundTrip(base[i].start + base[i].count, rate);
  }

  /** At any rate, a frame is played by at most one base segment. */
  lemma {:induction false} PlaysUnique(base: seq<Segment>, a: int, e: int, rate: Rate, f: int, i: nat, j: nat)
    requires GoodBase(base, a, e, rate) && i < j < |base| && Plays(base[i], f, rate)
    ensures !Plays(base[j], f, rate)
  {
    BaseOrdered(base, a, e, rate);
    OrderedStarts(base, rate, i + 1, j);
    assert EndUS(base[i], rate) == StartUS(base[i + 1], rate);
    NearestMonotone(EndUS(base[i], rate), StartUS(base[j], rate), rate);
  }

  /** The segment a piece was cut from is the base segment playing the same frames. */
  lemma {:induction false} PieceHome(
    p: Piece, s: Segment, base: seq<Segment>, sorted: seq<Replacement>, rate: Rate, a: int, e: int, f: int, i: nat)
    requires GoodBase(base, a, e, rate)
    requires FaithfulTo(p, base, sorted, rate) && Emit(p, rate) == Emitted(s)
    requires Covers(s, f) && i < |base| && Plays(base[i], f, rate)
    ensures p.seg == base[i]
  {
    var j :| 0 <= j < |base| && base[j] == p.seg;
    BaseBounds(base, a, e, rate, j);
    EmittedRange(p, rate);
    NearestMonotone(StartUS(p.seg, rate), p.from, rate);
    NearestMonotone(p.to, EndUS(p.seg, rate), rate);
    if i < j {
      PlaysUnique(base, a, e, rate, f, i, j);
    } else if j < i {
      PlaysUnique(base, a, e, rate, f, j, i);
    }
  }

  /** `s` plays replacement `r` from its source's beginning, starting where the cut or `home` begins. */
  ghost predicate ShowsReplacement(s: Segment, r: Replacement, home: Segment, rate: Rate)
    requires rate.Positive()
  {
    && 0 <= r.startUS && s.assetId == r.assetId && s.sha256 == r.sha256 && s.sourceIn == 0
    && 0 <= StartUS(home, rate) && s.start == Nearest(Max(r.startUS, StartUS(home, rate)), rate)
  }

  /**
    `s` plays the media of `home`, entered at the source time that matches its start: where `home`
    begins, or where one of the replacements ends.
   */
  ghost predicate ShowsBase(s: Segment, home: Segment, rs: seq<Replacement>, rate: Rate)
    requires rate.Positive()
  {
    && s.assetId == home.assetId && s.sha256 == home.sha256
    && exists t: nat :: EntersAt(s, home, t, rate) && (t == FloorUS(home.start, rate) || EndsAt(rs, t))
  }

  ghost predicate EntersAt(s: Segment, home: Segment, t: nat, rate: Rate)
    requires rate.Positive()
  {
    && 0 <= home.start && Nearest(t, rate) == s.start && FloorUS(home.start, rate) <= t
    && s.sourceIn == home.sourceIn + (t - FloorUS(home.start, rate))
  }

  lemma {:induction false} PreparedShows(
    p: Piece, s: Segment, base: seq<Segment>, sorted: seq<Replacement>, rate: Rate, a: int, e: int, i: nat)
    requires GoodBase(base, a, e, rate) && i < |base| && p.seg == base[i]
    requires FaithfulTo(p, base, sorted, rate) && p.PreparedPiece? && Emit(p, rate) == Emitted(s)
    requires 0 <= p.rep.startUS
    ensures ShowsReplacement(s, p.rep, base[i], rate)
  {
    BaseBounds(base, a, e, rate, i);
    EmittedRange(p, rate);
  }

  lemma {:induction false} BaseShows(
    p: Piece, s: Segment, base: seq<Segment>, sorted: seq<Replacement>, rate: Rate, a: int, e: int, i: nat)
    requires GoodBase(base, a, e, rate) && SourceFits(base, rate) && i < |base| && p.seg == base[i]
    requires FaithfulTo(p, base, sorted, rate) && p.BasePiece? && Emit(p, rate) == Emitted(s)
    ensures 0 <= p.from && EntersAt(s, base[i], p.from, rate) && ShowsBase(s, base[i], sorted, rate)
  {
    BaseBounds(base, a, e, rate, i);
    EmittedRange(p, rate);
    EmittedSource(p, s, rate);
    SourceInRange(base[i].sourceIn, p.from, StartUS(base[i], rate), EndUS(base[i], rate));
    assert EntersAt(s, base[i], p.from, rate);
  }

  lemma {:induction false} EmittedSource(p: Piece, s: Segment, rate: Rate)
    requires p.BasePiece? && Emit(p, rate) == Emitted(s)
    ensures s.assetId == p.seg.assetId && s.sha256 == p.seg.sha256
    ensures s.sourceIn == Wrap64(p.seg.sourceIn + Wrap64(p.from - StartUS(p.seg, rate)))
    ensures s.sourceDuration == Wrap64(p.to - p.from)
  {}

  lemma {:induction false} SourceInRange(sourceIn: int, from: int, lo: int, hi: int)
    requires 0 <= lo <= from <= hi < TWO63
    requires -TWO63 <= sourceIn && sourceIn + (hi - lo) < TWO63
    ensures Wrap64(sourceIn + Wrap64(from - lo)) == sourceIn + (from - lo)
  {}

  /**
    Which media each output frame shows, for arbitrary accepted microsecond intervals and any frame
    rate: the replacement that claims the frame, or else the base segment playing that frame.
   */
  lemma {:induction false} FrameShows(
    base: seq<Segment>, replacements: seq<Replacement>, rate: Rate, a: int, e: int, k: nat, f: int)
    returns (i: nat)
    requires GoodBase(base, a, e, rate) && SourceFits(base, rate) && replacements != []
    requires Resolve(base, replacements, rate).Ok?
    requires k < |Resolve(base, replacements, rate).segments|
    requires Covers(Resolve(base, replacements, rate).segments[k], f)
    ensures i < |base| && Plays(base[i], f, rate)
    ensures var s := Resolve(base, replacements, rate).segments[k];
            || (exists r :: r in replacements && Claims(r, f, rate) && ShowsReplacement(s, r, base[i], rate))
            || ((forall r :: r in replacements ==> !Claims(r, f, rate)) && ShowsBase(s, base[i], replacements, rate))
  {
    var ps := AcceptedPieces(base, replacements, rate, a, e);
    var sorted := Orders.Sort(StartsNoLater, replacements);
    Orders.MembersOfPermutation(sorted, replacements);
    var s := Resolve(base, replacements, rate).segments[k];
    assert FaithfulTo(ps[k], base, sorted, rate) && Emit(ps[k], rate) == Emitted(s);
    i := PiecePlays(ps[k], s, base, sorted, rate, a, e, f);
    assert forall x :: x in sorted ==> 0 <= x.startUS < x.endUS;
    if ps[k].PreparedPiece? {
      PieceClaims(ps[k], s, base, sorted, rate, f, ps[k].rep);
      PreparedShows(ps[k], s, base, sorted, rate, a, e, i);
    } else {
      forall r | r in replacements ensures !Claims(r, f, rate) {
        PieceClaims(ps[k], s, base, sorted, rate, f, r);
      }
      BaseShows(ps[k], s, base, sorted, rate, a, e, i);
      assert ShowsBase(s, base[i], sorted, rate) ==> ShowsBase(s, base[i], replacements, rate);
    }
  }

  /** Every frame of an emitted piece is played by the base segment it was cut from. */
  lemma {:induction false} PiecePlays(
    p: Piece, s: Segment, base: seq<Segment>, sorted: seq<Replacement>, rate: Rate, a: int, e: int, f: int)
    returns (i: nat)
    requires GoodBase(base, a, e, rate)
    requires FaithfulTo(p, base, sorted, rate) && Emit(p, rate) == Emitted(s) && Covers(s, f)
    ensures i < |base| && base[i] == p.seg && Plays(base[i], f, rate)
  {
    i :| 0 <= i < |base| && base[i] == p.seg;
    BaseBounds(base, a, e, rate, i);
    EmittedRange(p, rate);
    NearestMonotone(StartUS(p.seg, rate), p.from, rate);
    NearestMonotone(p.to, EndUS(p.seg, rate), rate);
  }

  /** At most one replacement claims a frame. */
  lemma {:induction false} ClaimUnique(sorted: seq<Replacement>, rate: Rate, f: int, r: Replacement, s: Replacement)
    requires rate.Positive() && Apart(sorted) && r in sorted && s in sorted
    requires Claims(r, f, rate) && Claims(s, f, rate)
    ensures r == s
  {
    if r != s {
      ApartMembers(sorted, r, s);
      if r.endUS <= s.startUS {
        NearestMonotone(r.endUS, s.startUS, rate);
      } else {
        NearestMonotone(s.endUS, r.startUS, rate);
      }
    }
  }

  lemma {:induction false} ChainOrdered(ps: seq<Piece>, from: int, to: int, j: nat, k: nat)
    requires Chain(ps, from, to) && j < k < |ps| && forall i :: 0 <= i < |ps| ==> ps[i].from <= ps[i].to
    ensures ps[j].to <= ps[k].from
  {
    if j == k - 1 {
    } else {
      ChainOrdered(ps, from, to, j, k - 1);
    }
    assert ps[k - 1].to == ps[k].from;
  }

  /** The output segment playing an unclaimed frame is cut from the base segment playing that frame. */
  lemma {:induction false} UnclaimedPiece(
    p: Piece, s: Segment, base: seq<Segment>, sorted: seq<Replacement>, rate: Rate, a: int, e: int, f: int, i: nat)
    requires GoodBase(base, a, e, rate) && SourceFits(base, rate) && Apart(sorted)
    requires forall x :: x in sorted ==> 0 <= x.startUS < x.endUS && !Claims(x, f, rate)
    requires FaithfulTo(p, base, sorted, rate) && Emit(p, rate) == Emitted(s)
    requires Covers(s, f) && i < |base| && Plays(base[i], f, rate)
    ensures FloorUS(a, rate) <= StartUS(base[i], rate) <= p.from <= p.to <= EndUS(base[i], rate)
    ensures s.sourceIn == base[i].sourceIn + (p.from - StartUS(base[i], rate)) && s.sourceDuration == p.to - p.from
    ensures s.assetId == base[i].assetId && s.sha256 == base[i].sha256
  {
    PieceHome(p, s, base, sorted, rate, a, e, f, i);
    if p.PreparedPiece? {
      PieceClaims(p, s, base, sorted, rate, f, p.rep);
    }
    BaseBounds(base, a, e, rate, i);
    FloorMonotone(a, base[i].start, rate);
    EmittedSource(p, s, rate);
    SourceInRange(base[i].sourceIn, p.from, StartUS(base[i], rate), EndUS(base[i], rate));
  }

  /** Such a segment keeps the asset and reads inside the part of the source the base segment played. */
  lemma {:induction false} UnclaimedSegment(
    base: seq<Segment>, replacements: seq<Replacement>, rate: Rate, a: int, e: int, i: nat, n: nat, f: int)
    requires GoodBase(base, a, e, rate) && SourceFits(base, rate) && replacements != []
    requires Resolve(base, replacements, rate).Ok? && n < |Resolve(base, replacements, rate).segments|
    requires i < |base| && Plays(base[i], f, rate) && Covers(Resolve(base, replacements, rate).segments[n], f)
    requires forall r :: r in replacements ==> !Claims(r, f, rate)
    ensures var s := Resolve(base, replacements, rate).segments[n];
            && s.assetId == base[i].assetId && s.sha256 == base[i].sha256
            && base[i].sourceIn <= s.sourceIn && 0 <= s.sourceDuration
            && s.sourceIn + s.sourceDuration <= base[i].sourceIn + (EndUS(base[i], rate) - StartUS(base[i], rate))
  {
    var ps := AcceptedPieces(base, replacements, rate, a, e);
    var sorted := Orders.Sort(StartsNoLater, replacements);
    Orders.MembersOfPermutation(sorted, replacements);
    var s := Resolve(base, replacements, rate).segments[n];
    assert FaithfulTo(ps[n], base, sorted, rate) && Emit(ps[n], rate) == Emitted(s);
    UnclaimedPiece(ps[n], s, base, sorted, rate, a, e, f, i);
  }

  /**
    The pieces left of one base segment read its source in order, without overlap, and never beyond
    the part the segment itself played.
   */
  lemma {:induction false} SourceRangesIncrease(
    base: seq<Segment>, replacements: seq<Replacement>, rate: Rate, a: int, e: int, i: nat, j: nat, k: nat, f: int,
    g: int)
    requires GoodBase(base, a, e, rate) && SourceFits(base, rate) && replacements != []
    requires Resolve(base, replacements, rate).Ok?
    requires j < k < |Resolve(base, replacements, rate).segments| && i < |base|
    requires Plays(base[i], f, rate) && Plays(base[i], g, rate)
    requires Covers(Resolve(base, replacements, rate).segments[j], f) &&
        Covers(Resolve(base, replacements, rate).segments[k], g)
    requires forall r :: r in replacements ==> !Claims(r, f, rate) && !Claims(r, g, rate)
    ensures var s, t := Resolve(base, replacements, rate).segments[j], Resolve(base, replacements, rate).segments[k];
            && base[i].sourceIn <= s.sourceIn
            && s.sourceIn + s.sourceDuration <= t.sourceIn
            && t.sourceIn + t.sourceDuration <= base[i].sourceIn + (EndUS(base[i], rate) - StartUS(base[i], rate))
  {
    var ps := AcceptedPieces(base, replacements, rate, a, e);
    var sorted := Orders.Sort(StartsNoLater, replacements);
    Orders.MembersOfPermutation(sorted, replacements);
    var out := Resolve(base, replacements, rate).segments;
    assert FaithfulTo(ps[j], base, sorted, rate) && FaithfulTo(ps[k], base, sorted, rate);
    UnclaimedPiece(ps[j], out[j], base, sorted, rate, a, e, f, i);
    UnclaimedPiece(ps[k], out[k], base, sorted, rate, a, e, g, i);
    ChainOrdered(ps, FloorUS(a, rate), FloorUS(e, rate), j, k);
  }

  // ----- gaps

  /** The part of `home` that `r` takes, as it is emitted. */
  ghost function Share(r: Replacement, home: Segment, rate: Rate): Emitted {
    Emit(PreparedPiece(home, r, Max(r.startUS, StartUS(home, rate)), Min(r.endUS, EndUS(home, rate))), rate)
  }

  ghost predicate Shares(out: seq<Segment>, r: Replacement, home: Segment, rate: Rate) {
    exists n :: 0 <= n < |out| && Share(r, home, rate) == Emitted(out[n])
  }

  /** Segments made from `home` itself keep its asset and hash. */
  ghost predicate Keeps(s: Segment, home: Segment) {
    s.assetId == home.assetId && s.sha256 == home.sha256
  }

  /** What an output segment was made of: a base segment, or a replacement that meets one. */
  ghost predicate MadeOf(s: Segment, base: seq<Segment>, replacements: seq<Replacement>, rate: Rate) {
    || (exists j :: 0 <= j < |base| && Keeps(s, base[j]))
    || (exists r, j ::
          r in replacements && 0 <= j < |base| && Meets(r, base[j], rate) && Share(r, base[j], rate) == Emitted(s))
  }

  /** The segments are the pieces, emitted one by one. */
  ghost predicate EmittedAs(ps: seq<Piece>, out: seq<Segment>, rate: Rate) {
    |out| == |ps| && forall n :: 0 <= n < |ps| ==> Emit(ps[n], rate) == Emitted(out[n])
  }

  lemma {:induction false} EmittedAll(ps: seq<Piece>, rate: Rate)
    requires EmitOnto([], ps, rate).Ok?
    ensures EmittedAs(ps, EmitOnto([], ps, rate).segments, rate)
  {
    EmitOntoOk([], ps, rate);
  }

  lemma {:induction false} AcceptedCut(base: seq<Segment>, replacements: seq<Replacement>, rate: Rate)
    requires replacements != [] && Resolve(base, replacements, rate).Ok?
    ensures var sorted := Orders.Sort(StartsNoLater, replacements);
            && Apart(sorted)
            && EmittedAs(CutFrom(base, 0, sorted, 0, rate), Resolve(base, replacements, rate).segments, rate)
  {
    var sorted := Orders.Sort(StartsNoLater, replacements);
    ChecksDecidePlacement(sorted, TotalUS(base, |base|, rate));
    EmittedAll(CutFrom(base, 0, sorted, 0, rate), rate);
  }

  /**
    On any ordered base, gaps included, an accepted replacement takes its share of exactly the base
    segments it meets, and every output segment is made of a base segment or of such a share.
   */
  lemma {:induction false} AppearsWhereItMeets(
    base: seq<Segment>, replacements: seq<Replacement>, rate: Rate, r: Replacement)
    requires Ordered(base, rate) && r in replacements && Resolve(base, replacements, rate).Ok?
    ensures var out := Resolve(base, replacements, rate).segments;
            && (forall j :: 0 <= j < |base| ==> (Meets(r, base[j], rate) <==> Shares(out, r, base[j], rate)))
            && (forall s :: s in out ==> MadeOf(s, base, replacements, rate))
  {
    var sorted := Orders.Sort(StartsNoLater, replacements);
    var out := Resolve(base, replacements, rate).segments;
    AcceptedCut(base, replacements, rate);
    Orders.MembersOfPermutation(sorted, replacements);
    var k :| 0 <= k < |sorted| && sorted[k] == r;
    SharesTaken(base, sorted, out, rate, k);
    AllMade(base, sorted, replacements, out, rate);
  }

  lemma {:induction false} AllMade(
    base: seq<Segment>, sorted: seq<Replacement>, replacements: seq<Replacement>, out: seq<Segment>, rate: Rate)
    requires Ordered(base, rate) && Apart(sorted) && forall r :: r in sorted ==> r in replacements
    requires EmittedAs(CutFrom(base, 0, sorted, 0, rate), out, rate)
    ensures forall s :: s in out ==> MadeOf(s, base, replacements, rate)
  {
    var ps := CutFrom(base, 0, sorted, 0, rate);
    TrackFaithful(base, 0, sorted, 0, rate);
    forall n | 0 <= n < |out| ensures MadeOf(out[n], base, replacements, rate) {
      assert FaithfulTo(ps[n], base, sorted, rate) && Emit(ps[n], rate) == Emitted(out[n]);
      PieceMade(ps[n], out[n], base, sorted, replacements, rate);
    }
  }

  lemma {:induction false} SharesTaken(
    base: seq<Segment>, sorted: seq<Replacement>, out: seq<Segment>, rate: Rate, k: nat)
    requires rate.Positive() && Ordered(base, rate) && Apart(sorted) && k < |sorted|
    requires EmittedAs(CutFrom(base, 0, sorted, 0, rate), out, rate)
    ensures forall j :: 0 <= j < |base| ==>
              (Meets(sorted[k], base[j], rate) <==> Shares(out, sorted[k], base[j], rate))
  {
    forall j | 0 <= j < |base| ensures Meets(sorted[k], base[j], rate) <==> Shares(out, sorted[k], base[j], rate) {
      if Meets(sorted[k], base[j], rate) {
        ShareTaken(base, sorted, out, rate, k, j);
      }
      if Shares(out, sorted[k], base[j], rate) {
        SharedIsMet(sorted[k], base[j], rate);
      }
    }
  }

  /** Only a replacement that meets a segment has a share of it that can be emitted. */
  lemma {:induction false} SharedIsMet(r: Replacement, home: Segment, rate: Rate)
    requires rate.Positive() && Share(r, home, rate).Emitted?
    ensures Meets(r, home, rate)
  {
    var from, to := Max(r.startUS, StartUS(home, rate)), Min(r.endUS, EndUS(home, rate));
    EmittedRange(PreparedPiece(home, r, from, to), rate);
    if to <= from {
      NearestMonotone(to, from, rate);
    }
  }

  lemma {:induction false} ShareTaken(
    base: seq<Segment>, sorted: seq<Replacement>, out: seq<Segment>, rate: Rate, k: nat, j: nat)
    requires Ordered(base, rate) && Apart(sorted) && k < |sorted| && j < |base| && Meets(sorted[k], base[j], rate)
    requires EmittedAs(CutFrom(base, 0, sorted, 0, rate), out, rate)
    ensures Shares(out, sorted[k], base[j], rate)
  {
    var ps := CutFrom(base, 0, sorted, 0, rate);
    TrackFaithful(base, 0, sorted, 0, rate);
    CutWhereItMeets(base, sorted, rate, k, j);
    var n :| 0 <= n < |ps| && ps[n].PreparedPiece? && ps[n].rep == sorted[k] && ps[n].seg == base[j];
    assert FaithfulTo(ps[n], base, sorted, rate);
    assert Emit(ps[n], rate) == Emitted(out[n]);
  }

  lemma {:induction false} PieceMade(
    p: Piece, s: Segment, base: seq<Segment>, sorted: seq<Replacement>, replacements: seq<Replacement>, rate: Rate)
    requires FaithfulTo(p, base, sorted, rate) && Emit(p, rate) == Emitted(s)
    requires forall r :: r in sorted ==> r in replacements
    ensures MadeOf(s, base, replacements, rate)
  {
    var j :| 0 <= j < |base| && base[j] == p.seg &&
        Faithful(p, base[j], StartUS(base[j], rate), EndUS(base[j], rate), sorted);
    if p.BasePiece? {
      EmittedSource(p, s, rate);
      assert Keeps(s, base[j]);
    } else {
      assert Meets(p.rep, base[j], rate) && Share(p.rep, base[j], rate) == Emitted(s);
    }
  }

  /** An asset used by nothing else reaches the output exactly when its replacement meets a base segment. */
  lemma {:induction false} AppearsWhenItMeets(
    base: seq<Segment>, replacements: seq<Replacement>, rate: Rate, r: Replacement)
    requires Ordered(base, rate) && r in replacements && Resolve(base, replacements, rate).Ok?
    requires forall j :: 0 <= j < |base| ==> base[j].assetId != r.assetId
    requires forall x :: x in replacements && x != r ==> x.assetId != r.assetId
    ensures (exists s :: s in Resolve(base, replacements, rate).segments && s.assetId == r.assetId) <==>
            exists j :: 0 <= j < |base| && Meets(r, base[j], rate)
  {
    var out := Resolve(base, replacements, rate).segments;
    AppearsWhereItMeets(base, replacements, rate, r);
    if j :| 0 <= j < |base| && Meets(r, base[j], rate) {
      assert Shares(out, r, base[j], rate);
      var n :| 0 <= n < |out| && Share(r, base[j], rate) == Emitted(out[n]);
      assert out[n] in out && out[n].assetId == r.assetId;
    }
    if s :| s in out && s.assetId == r.assetId {
      assert MadeOf(s, base, replacements, rate);
    }
  }

  ghost predicate GapScene(base: seq<Segment>, r: Replacement, rate: Rate) {
    && rate == Rate(1, 1) && r == Replacement("r", "x", "h", 1_000_000, 2_000_000, "")
    && base == [Segment("s-0", false, "a", "h", 0, 1, 0, 1_000_000),
        Segment("s-1", false, "a", "h", 2, 1, 0, 1_000_000)]
  }

  /**
    A base playing seconds 0 and 2 at one frame a second, and a replacement for second 1: it is lost
    without an error.
   */
  lemma {:induction false} GapDrops(base: seq<Segment>, r: Replacement, rate: Rate)
    requires GapScene(base, r, rate)
    ensures Resolve(base, [r], rate).Ok?
    ensures forall s :: s in Resolve(base, [r], rate).segments ==> s.assetId == "a"
  {
    var ps := CutFrom(base, 0, [r], 0, rate);
    GapPlaced(base, r, rate);
    forall n | 0 <= n < |ps| ensures Emit(ps[n], rate).Emitted? && Emit(ps[n], rate).segment.assetId == "a" {
      assert FaithfulTo(ps[n], base, [r], rate);
      GapPiece(ps[n], base, r, rate);
    }
    EmitOntoOk([], ps, rate);
    AcceptedCut(base, [r], rate);
    var out := Resolve(base, [r], rate).segments;
    forall s | s in out ensures s.assetId == "a" {
      var n :| 0 <= n < |out| && out[n] == s;
      assert Emit(ps[n], rate) == Emitted(s);
    }
  }

  lemma {:induction false} GapPlaced(base: seq<Segment>, r: Replacement, rate: Rate)
    requires GapScene(base, r, rate)
    ensures Orders.Sort(StartsNoLater, [r]) == [r] && FirstViolation([r], 0, TotalUS(base, |base|, rate)).None?
    ensures Ordered(base, rate) && AllFaithfulTo(CutFrom(base, 0, [r], 0, rate), base, [r], rate)
  {
    assert r.assetId[0] == 'x';
    Orders.SortOfSorted(StartsNoLater, [r]);
    assert EndUS(base[0], rate) == 1_000_000 && EndUS(base[1], rate) == 3_000_000;
    assert TotalUS(base, 0, rate) == 0;
    assert TotalUS(base, 1, rate) == 1_000_000;
    assert TotalUS(base, 2, rate) == 3_000_000;
    ChecksDecidePlacement([r], 3_000_000);
    assert Ordered(base, rate);
    TrackFaithful(base, 0, [r], 0, rate);
  }

  lemma {:induction false} GapPiece(p: Piece, base: seq<Segment>, r: Replacement, rate: Rate)
    requires GapScene(base, r, rate) && FaithfulTo(p, base, [r], rate)
    ensures Emit(p, rate).Emitted? && Emit(p, rate).segment.assetId == "a"
  {
    var j :| 0 <= j < |base| && base[j] == p.seg;
    assert p.BasePiece?;
    assert p.from == StartUS(base[j], rate) && p.to == EndUS(base[j], rate);
  }

  // ----- re-emission

  /** The base piece a segment becomes when nothing is cut from it. */
  function WholePiece(s: Segment, rate: Rate): Piece {
    BasePiece(s, StartUS(s, rate), EndUS(s, rate))
  }

  /** A base segment no replacement meets is re-emitted whole. */
  lemma {:induction false} UncutReemitted(
    base: seq<Segment>, replacements: seq<Replacement>, rate: Rate, j: nat)
    returns (n: nat)
    requires Ordered(base, rate) && replacements != [] && Resolve(base, replacements, rate).Ok?
    requires j < |base| && StartUS(base[j], rate) < EndUS(base[j], rate) && Untouched(base[j], replacements, rate)
    ensures n < |Resolve(base, replacements, rate).segments|
    ensures Emit(WholePiece(base[j], rate), rate) == Emitted(Resolve(base, replacements, rate).segments[n])
  {
    var sorted := Orders.Sort(StartsNoLater, replacements);
    var ps := CutFrom(base, 0, sorted, 0, rate);
    Orders.MembersOfPermutation(sorted, replacements);
    AcceptedCut(base, replacements, rate);
    TrackKeeps(base, 0, sorted, 0, rate, j);
    n :| 0 <= n < |ps| && ps[n] == WholePiece(base[j], rate);
  }
}
