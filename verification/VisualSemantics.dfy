/** The pieces a timeline is cut into, in microseconds: which are accepted, what they cover and show. */
module VisualSemantics {
  import opened Optional
  import opened FrameTime
  import opened VisualTimeline
  import Orders
  import Text

  // ----- acceptance

  /** Accepted replacements, in timeline order: positive, inside the timeline, never overlapping. */
  ghost predicate Placed(sorted: seq<Replacement>, total: int) {
    && (forall k :: 0 <= k < |sorted| ==>
          !Text.Blank(sorted[k].assetId) && 0 <= sorted[k].startUS && sorted[k].endUS <= total)
    && Apart(sorted)
  }

  ghost predicate Apart(sorted: seq<Replacement>) {
    && (forall k :: 0 <= k < |sorted| ==> sorted[k].startUS < sorted[k].endUS)
    && (forall j, k :: 0 <= j < k < |sorted| ==> sorted[j].endUS <= sorted[k].startUS)
  }

  lemma {:induction false} FirstViolationNone(sorted: seq<Replacement>, i: nat, total: int)
    requires i <= |sorted|
    ensures FirstViolation(sorted, i, total).None? <==>
            forall k :: i <= k < |sorted| ==> ViolationAt(sorted, k, total).None?
    decreases |sorted| - i
  {
    if i == |sorted| {
    } else {
      FirstViolationNone(sorted, i + 1, total);
    }
  }

  function StartOf(r: Replacement): int { r.startUS }
  function EndOf(r: Replacement): int { r.endUS }

  /** The neighbour-only overlap check finds every overlap. */
  lemma {:induction false} ChecksDecidePlacement(sorted: seq<Replacement>, total: int)
    ensures FirstViolation(sorted, 0, total).None? <==> Placed(sorted, total)
  {
    FirstViolationNone(sorted, 0, total);
    if FirstViolation(sorted, 0, total).None? {
      forall k | 0 <= k < |sorted|
        ensures !Text.Blank(sorted[k].assetId) && 0 <= sorted[k].startUS < sorted[k].endUS <= total
        ensures k > 0 ==> sorted[k - 1].endUS <= sorted[k].startUS
      {
        assert ViolationAt(sorted, k, total).None?;
      }
      forall j, k | 0 <= j < k < |sorted| ensures sorted[j].endUS <= sorted[k].startUS {
        Orders.NeighboursSuffice(StartOf, EndOf, sorted, j, k);
      }
    }
  }

  // ----- pieces in microseconds

  ghost predicate Chain(ps: seq<Piece>, from: int, to: int) {
    if ps == [] then from == to
    else
      && ps[0].from == from
      && ps[|ps| - 1].to == to
      && forall k :: 0 <= k < |ps| - 1 ==> ps[k].to == ps[k + 1].from
  }

  lemma {:induction false} ChainConcat(ps: seq<Piece>, qs: seq<Piece>, a: int, b: int, c: int)
    requires Chain(ps, a, b) && Chain(qs, b, c)
    ensures Chain(ps + qs, a, c)
  {
    if ps == [] {
      assert ps + qs == qs;
    } else if qs == [] {
      assert ps + qs == ps;
    }
  }

  ghost predicate EndsAt(sorted: seq<Replacement>, t: int) {
    exists r :: r in sorted && r.endUS == t
  }

  ghost predicate StartsAt(sorted: seq<Replacement>, t: int) {
    exists r :: r in sorted && r.startUS == t
  }

  ghost predicate Avoids(sorted: seq<Replacement>, from: int, to: int) {
    forall r :: r in sorted ==> r.endUS <= from || to <= r.startUS
  }

  /**
    A piece of the segment spanning [lo, hi) tells the truth: a prepared piece is exactly the part of
    its replacement inside the segment; a base piece avoids every replacement and ends only where the
    segment or a replacement does.
   */
  ghost predicate Faithful(p: Piece, seg: Segment, lo: int, hi: int, sorted: seq<Replacement>) {
    && p.seg == seg
    && lo <= p.from <= p.to <= hi
    && match p {
         case PreparedPiece(_, r, from, to) =>
           && r in sorted && r.startUS < hi && lo < r.endUS
           && from == Max(r.startUS, lo) && to == Min(r.endUS, hi)
         case BasePiece(_, from, to) =>
           && from < to
           && Avoids(sorted, from, to)
           && (from == lo || EndsAt(sorted, from))
           && (to == hi || StartsAt(sorted, to))
       }
  }

  ghost predicate AllFaithful(ps: seq<Piece>, seg: Segment, lo: int, hi: int, sorted: seq<Replacement>) {
    forall k :: 0 <= k < |ps| ==> Faithful(ps[k], seg, lo, hi, sorted)
  }

  /** Everything before index `n` has ended by `t`, nothing from `n` on has begun before `t`. */
  ghost predicate Splits(sorted: seq<Replacement>, n: nat, t: int, u: int)
    requires n <= |sorted|
  {
    && (forall k :: 0 <= k < n ==> sorted[k].endUS <= t)
    && (forall k :: n <= k < |sorted| ==> u <= sorted[k].startUS)
  }

  lemma {:induction false} AllFaithfulConcat(
    ps: seq<Piece>, qs: seq<Piece>, seg: Segment, lo: int, hi: int, sorted: seq<Replacement>)
    requires AllFaithful(ps, seg, lo, hi, sorted) && AllFaithful(qs, seg, lo, hi, sorted)
    ensures AllFaithful(ps + qs, seg, lo, hi, sorted)
  {}

  lemma {:induction false} BaseUpToFaithful(
    seg: Segment, lo: int, hi: int, sorted: seq<Replacement>, n: nat, cursor: int, to: int)
    requires lo <= cursor <= to <= hi && n <= |sorted|
    requires cursor < to ==> Splits(sorted, n, cursor, to)
    requires cursor == lo || EndsAt(sorted, cursor)
    requires to == hi || cursor == to || StartsAt(sorted, to)
    ensures AllFaithful(BaseUpTo(seg, cursor, to), seg, lo, hi, sorted)
    ensures Chain(BaseUpTo(seg, cursor, to), cursor, to)
  {
    if cursor < to {
      forall r | r in sorted ensures r.endUS <= cursor || to <= r.startUS {
        var k :| 0 <= k < |sorted| && sorted[k] == r;
        assert k < n ==> sorted[k].endUS <= cursor;
      }
      assert Avoids(sorted, cursor, to);
    }
  }

  /** The condition under which the inner loop is entered with replacement `ri` at time `cursor`. */
  ghost predicate Ready(sorted: seq<Replacement>, lo: int, hi: int, ri: nat, cursor: int)
    requires ri <= |sorted|
  {
    && lo <= cursor <= hi
    && (cursor == lo || EndsAt(sorted, cursor))
    && (forall k :: 0 <= k < ri ==> sorted[k].endUS <= cursor)
    && (forall k :: ri <= k < |sorted| ==> lo < sorted[k].endUS && cursor <= Max(sorted[k].startUS, lo))
  }

  /** The state in which the inner loop leaves its cursors. */
  ghost predicate Settled(sorted: seq<Replacement>, lo: int, hi: int, ri: nat, cursor: int)
    requires ri <= |sorted|
  {
    && lo <= cursor <= hi
    && (cursor < hi ==> cursor == lo || EndsAt(sorted, cursor))
    && (forall k :: 0 <= k < ri ==> sorted[k].endUS <= cursor)
    && (cursor < hi ==> forall k :: ri <= k < |sorted| ==> hi <= sorted[k].startUS)
  }

  /** The pieces one pass of the inner loop adds. */
  lemma {:induction false} CutOneSound(seg: Segment, lo: int, hi: int, sorted: seq<Replacement>, ri: nat, cursor: int)
    requires Apart(sorted) && ri < |sorted| && Ready(sorted, lo, hi, ri, cursor)
    requires sorted[ri].startUS < hi
    ensures var rs, re := Max(sorted[ri].startUS, lo), Min(sorted[ri].endUS, hi);
            var ps := BaseUpTo(seg, cursor, rs) + [PreparedPiece(seg, sorted[ri], rs, re)];
            cursor <= re && Chain(ps, cursor, re) && AllFaithful(ps, seg, lo, hi, sorted)
  {
    var r := sorted[ri];
    var rs, re := Max(r.startUS, lo), Min(r.endUS, hi);
    assert r in sorted;
    assert rs == lo || StartsAt(sorted, rs);
    BaseUpToFaithful(seg, lo, hi, sorted, ri, cursor, rs);
    var prepared := [PreparedPiece(seg, r, rs, re)];
    ChainConcat(BaseUpTo(seg, cursor, rs), prepared, cursor, rs, re);
    assert Faithful(prepared[0], seg, lo, hi, sorted);
    AllFaithfulConcat(BaseUpTo(seg, cursor, rs), prepared, seg, lo, hi, sorted);
  }

  lemma {:induction false} ReadyNext(lo: int, hi: int, sorted: seq<Replacement>, ri: nat, cursor: int)
    requires Apart(sorted) && ri < |sorted| && Ready(sorted, lo, hi, ri, cursor)
    requires sorted[ri].startUS < hi && sorted[ri].endUS <= hi
    ensures Ready(sorted, lo, hi, ri + 1, sorted[ri].endUS)
  {
    assert sorted[ri] in sorted;
    assert forall k :: ri < k < |sorted| ==> sorted[ri].endUS <= sorted[k].startUS < sorted[k].endUS;
  }

  /** The inner loop leaves its cursors where the rest of the timeline can go on. */
  lemma {:induction false} CutInnerSettled(
    seg: Segment, lo: int, hi: int, sorted: seq<Replacement>, ri: nat, cursor: int)
    requires Apart(sorted) && ri <= |sorted| && Ready(sorted, lo, hi, ri, cursor)
    ensures var c := CutInner(sorted, seg, lo, hi, ri, cursor);
            Settled(sorted, lo, hi, c.ri, c.cursor)
    decreases |sorted| - ri
  {
    if ri < |sorted| && sorted[ri].startUS < hi {
      if sorted[ri].endUS <= hi {
        ReadyNext(lo, hi, sorted, ri, cursor);
        CutInnerSettled(seg, lo, hi, sorted, ri + 1, sorted[ri].endUS);
      }
    } else if ri < |sorted| {
      assert forall k :: ri < k < |sorted| ==> sorted[ri].endUS <= sorted[k].startUS;
    }
  }

  /** The inner loop cuts one segment into a faithful chain. */
  lemma {:induction false} CutInnerSound(seg: Segment, lo: int, hi: int, sorted: seq<Replacement>, ri: nat, cursor: int)
    requires Apart(sorted) && ri <= |sorted| && Ready(sorted, lo, hi, ri, cursor)
    ensures var c := CutInner(sorted, seg, lo, hi, ri, cursor);
            Chain(c.pieces, cursor, c.cursor) && AllFaithful(c.pieces, seg, lo, hi, sorted)
    decreases |sorted| - ri
  {
    if ri == |sorted| || hi <= sorted[ri].startUS {
    } else {
      var r := sorted[ri];
      var rs, re := Max(r.startUS, lo), Min(r.endUS, hi);
      var ps := BaseUpTo(seg, cursor, rs) + [PreparedPiece(seg, r, rs, re)];
      CutOneSound(seg, lo, hi, sorted, ri, cursor);
      var rest := if r.endUS <= hi then CutInner(sorted, seg, lo, hi, ri + 1, re) else Cut([], ri, re);
      assert Chain(rest.pieces, re, rest.cursor) && AllFaithful(rest.pieces, seg, lo, hi, sorted) by {
        if r.endUS <= hi {
          ReadyNext(lo, hi, sorted, ri, cursor);
          CutInnerSound(seg, lo, hi, sorted, ri + 1, re);
        }
      }
      ChainConcat(ps, rest.pieces, cursor, re, rest.cursor);
      AllFaithfulConcat(ps, rest.pieces, seg, lo, hi, sorted);
    }
  }

  lemma {:induction false} SkipEndedSound(sorted: seq<Replacement>, ri: nat, lo: int, hi: int)
    requires Apart(sorted) && ri <= |sorted| && lo <= hi
    requires forall k :: 0 <= k < ri ==> sorted[k].endUS <= lo
    ensures Ready(sorted, lo, hi, SkipEnded(sorted, ri, lo), lo)
    decreases |sorted| - ri
  {
    if ri == |sorted| {
    } else {
      if sorted[ri].endUS <= lo {
        SkipEndedSound(sorted, ri + 1, lo, hi);
      } else {
        assert forall k :: ri < k < |sorted| ==> sorted[ri].endUS <= sorted[k].startUS < sorted[k].endUS;
      }
    }
  }

  /** One base segment, replacements of earlier segments already behind: its whole range is covered. */
  lemma {:induction false} SegmentSound(seg: Segment, sorted: seq<Replacement>, ri: nat, rate: Rate)
    requires Apart(sorted) && ri <= |sorted|
    requires StartUS(seg, rate) <= EndUS(seg, rate)
    requires forall k :: 0 <= k < ri ==> sorted[k].endUS <= StartUS(seg, rate)
    ensures var lo, hi := StartUS(seg, rate), EndUS(seg, rate);
            && Chain(SegmentPieces(seg, sorted, ri, rate), lo, hi)
            && AllFaithful(SegmentPieces(seg, sorted, ri, rate), seg, lo, hi, sorted)
            && forall k :: 0 <= k < SegmentNext(seg, sorted, ri, rate) ==> sorted[k].endUS <= hi
  {
    var lo, hi := StartUS(seg, rate), EndUS(seg, rate);
    var first := SkipEnded(sorted, ri, lo);
    SkipEndedSound(sorted, ri, lo, hi);
    CutInnerSettled(seg, lo, hi, sorted, first, lo);
    CutInnerSound(seg, lo, hi, sorted, first, lo);
    var c := CutInner(sorted, seg, lo, hi, first, lo);
    if c.cursor < hi {
      BaseUpToFaithful(seg, lo, hi, sorted, c.ri, c.cursor, hi);
    }
    ChainConcat(c.pieces, BaseUpTo(seg, c.cursor, hi), lo, c.cursor, hi);
    AllFaithfulConcat(c.pieces, BaseUpTo(seg, c.cursor, hi), seg, lo, hi, sorted);
  }

  // ----- the whole track

  /** Segments in timeline order: each ends before the next begins. Gaps are allowed. */
  ghost predicate Ordered(base: seq<Segment>, rate: Rate) {
    && (forall i :: 0 <= i < |base| ==> StartUS(base[i], rate) <= EndUS(base[i], rate))
    && (forall i :: 0 <= i < |base| - 1 ==> EndUS(base[i], rate) <= StartUS(base[i + 1], rate))
  }

  ghost predicate FaithfulTo(p: Piece, base: seq<Segment>, sorted: seq<Replacement>, rate: Rate) {
    p.seg in base && Faithful(p, p.seg, StartUS(p.seg, rate), EndUS(p.seg, rate), sorted)
  }

  ghost predicate AllFaithfulTo(ps: seq<Piece>, base: seq<Segment>, sorted: seq<Replacement>, rate: Rate) {
    forall k :: 0 <= k < |ps| ==> FaithfulTo(ps[k], base, sorted, rate)
  }

  lemma {:induction false} AllFaithfulToConcat(
    ps: seq<Piece>, qs: seq<Piece>, base: seq<Segment>, sorted: seq<Replacement>, rate: Rate)
    requires AllFaithfulTo(ps, base, sorted, rate) && AllFaithfulTo(qs, base, sorted, rate)
    ensures AllFaithfulTo(ps + qs, base, sorted, rate)
  {}

  /** The replacement cursor carried across segments loses nothing: every piece is faithful. */
  lemma {:induction false} TrackFaithful(base: seq<Segment>, i: nat, sorted: seq<Replacement>, ri: nat, rate: Rate)
    requires Ordered(base, rate) && Apart(sorted) && i <= |base| && ri <= |sorted|
    requires i < |base| ==> forall k :: 0 <= k < ri ==> sorted[k].endUS <= StartUS(base[i], rate)
    ensures AllFaithfulTo(CutFrom(base, i, sorted, ri, rate), base, sorted, rate)
    decreases |base| - i
  {
    if i == |base| {
    } else {
      var seg := base[i];
      SegmentSound(seg, sorted, ri, rate);
      var next := SegmentNext(seg, sorted, ri, rate);
      TrackFaithful(base, i + 1, sorted, next, rate);
      var ps, qs := SegmentPieces(seg, sorted, ri, rate), CutFrom(base, i + 1, sorted, next, rate);
      assert AllFaithfulTo(ps, base, sorted, rate) by {
        assert seg in base;
      }
      AllFaithfulToConcat(ps, qs, base, sorted, rate);
    }
  }

  /** Over a gapless track the pieces form one unbroken chain. */
  lemma {:induction false} TrackChain(base: seq<Segment>, i: nat, sorted: seq<Replacement>, ri: nat, rate: Rate)
    requires Ordered(base, rate) && Apart(sorted) && i < |base| && ri <= |sorted|
    requires forall j :: 0 <= j < |base| - 1 ==> EndUS(base[j], rate) == StartUS(base[j + 1], rate)
    requires forall k :: 0 <= k < ri ==> sorted[k].endUS <= StartUS(base[i], rate)
    ensures Chain(CutFrom(base, i, sorted, ri, rate), StartUS(base[i], rate), EndUS(base[|base| - 1], rate))
    decreases |base| - i
  {
    var seg := base[i];
    SegmentSound(seg, sorted, ri, rate);
    var next := SegmentNext(seg, sorted, ri, rate);
    var ps, qs := SegmentPieces(seg, sorted, ri, rate), CutFrom(base, i + 1, sorted, next, rate);
    if i + 1 < |base| {
      TrackChain(base, i + 1, sorted, next, rate);
      ChainConcat(ps, qs, StartUS(seg, rate), EndUS(seg, rate), EndUS(base[|base| - 1], rate));
    } else {
      assert ps + qs == ps;
    }
  }

  // ----- gaps

  ghost predicate Meets(r: Replacement, seg: Segment, rate: Rate) {
    r.startUS < EndUS(seg, rate) && StartUS(seg, rate) < r.endUS
  }

  /** Some piece shows `r` in place of part of `seg`. */
  ghost predicate Emits(ps: seq<Piece>, r: Replacement, seg: Segment) {
    exists k :: 0 <= k < |ps| && ps[k].PreparedPiece? && ps[k].rep == r && ps[k].seg == seg
  }

  lemma {:induction false} EmitsConcat(ps: seq<Piece>, qs: seq<Piece>, r: Replacement, seg: Segment)
    requires Emits(ps, r, seg) || Emits(qs, r, seg)
    ensures Emits(ps + qs, r, seg)
  {
    var all := ps + qs;
    if Emits(ps, r, seg) {
      var k :| 0 <= k < |ps| && ps[k].PreparedPiece? && ps[k].rep == r && ps[k].seg == seg;
      assert all[k] == ps[k];
    } else {
      var k :| 0 <= k < |qs| && qs[k].PreparedPiece? && qs[k].rep == r && qs[k].seg == seg;
      assert all[|ps| + k] == qs[k];
    }
  }

  lemma {:induction false} InnerEmits(
    seg: Segment, lo: int, hi: int, sorted: seq<Replacement>, ri: nat, cursor: int, k: nat)
    requires Apart(sorted) && ri <= k < |sorted| && sorted[k].startUS < hi
    ensures Emits(CutInner(sorted, seg, lo, hi, ri, cursor).pieces, sorted[k], seg)
    decreases |sorted| - ri
  {
    assert ri < k ==> sorted[ri].endUS <= sorted[k].startUS;
    var r := sorted[ri];
    var rs, re := Max(r.startUS, lo), Min(r.endUS, hi);
    var now := BaseUpTo(seg, cursor, rs) + [PreparedPiece(seg, r, rs, re)];
    var rest := if r.endUS <= hi then CutInner(sorted, seg, lo, hi, ri + 1, re) else Cut([], ri, re);
    if ri == k {
      assert now[|now| - 1] == PreparedPiece(seg, r, rs, re);
    } else {
      InnerEmits(seg, lo, hi, sorted, ri + 1, re, k);
    }
    EmitsConcat(now, rest.pieces, sorted[k], seg);
  }

  lemma {:induction false} SkipEndedKeeps(sorted: seq<Replacement>, ri: nat, lo: int, k: nat)
    requires ri <= k < |sorted| && lo < sorted[k].endUS
    ensures SkipEnded(sorted, ri, lo) <= k
    decreases |sorted| - ri
  {
    if lo < sorted[ri].endUS {
    } else {
      SkipEndedKeeps(sorted, ri + 1, lo, k);
    }
  }

  lemma {:induction false} TrackEmits(
    base: seq<Segment>, i: nat, sorted: seq<Replacement>, ri: nat, rate: Rate, j: nat, k: nat)
    requires Ordered(base, rate) && Apart(sorted) && i <= j < |base| && ri <= |sorted| && k < |sorted|
    requires forall m :: 0 <= m < ri ==> sorted[m].endUS <= StartUS(base[i], rate)
    requires StartUS(base[i], rate) <= StartUS(base[j], rate)
    requires Meets(sorted[k], base[j], rate)
    ensures Emits(CutFrom(base, i, sorted, ri, rate), sorted[k], base[j])
    decreases |base| - i
  {
    var seg := base[i];
    var lo, hi := StartUS(seg, rate), EndUS(seg, rate);
    var next := SegmentNext(seg, sorted, ri, rate);
    if i == j {
      var first := SkipEnded(sorted, ri, lo);
      SkipEndedKeeps(sorted, ri, lo, k);
      InnerEmits(seg, lo, hi, sorted, first, lo, k);
      var c := CutInner(sorted, seg, lo, hi, first, lo);
      EmitsConcat(c.pieces, BaseUpTo(seg, c.cursor, hi), sorted[k], seg);
    } else {
      SegmentSound(seg, sorted, ri, rate);
      OrderedStarts(base, rate, i + 1, j);
      TrackEmits(base, i + 1, sorted, next, rate, j, k);
    }
    EmitsConcat(SegmentPieces(seg, sorted, ri, rate), CutFrom(base, i + 1, sorted, next, rate), sorted[k], base[j]);
  }

  lemma {:induction false} OrderedStarts(base: seq<Segment>, rate: Rate, i: nat, j: nat)
    requires Ordered(base, rate) && i <= j < |base|
    ensures StartUS(base[i], rate) <= StartUS(base[j], rate)
    decreases j
  {
    if i == j {
    } else {
      OrderedStarts(base, rate, i, j - 1);
      assert EndUS(base[j - 1], rate) <= StartUS(base[j], rate);
    }
  }

  /** Gaps or not, a replacement takes part of a base segment exactly when it meets that segment. */
  lemma {:induction false} CutWhereItMeets(base: seq<Segment>, sorted: seq<Replacement>, rate: Rate, k: nat, j: nat)
    requires Ordered(base, rate) && Apart(sorted) && k < |sorted| && j < |base|
    ensures Emits(CutFrom(base, 0, sorted, 0, rate), sorted[k], base[j]) <==> Meets(sorted[k], base[j], rate)
  {
    var ps := CutFrom(base, 0, sorted, 0, rate);
    TrackFaithful(base, 0, sorted, 0, rate);
    if Emits(ps, sorted[k], base[j]) {
      var n :| 0 <= n < |ps| && ps[n].PreparedPiece? && ps[n].rep == sorted[k] && ps[n].seg == base[j];
      assert FaithfulTo(ps[n], base, sorted, rate);
    }
    if Meets(sorted[k], base[j], rate) {
      OrderedStarts(base, rate, 0, j);
      TrackEmits(base, 0, sorted, 0, rate, j, k);
    }
  }

  // ----- segments nothing is cut from

  ghost predicate Untouched(seg: Segment, sorted: seq<Replacement>, rate: Rate) {
    forall r :: r in sorted ==> !Meets(r, seg, rate)
  }

  ghost predicate HasPiece(ps: seq<Piece>, p: Piece) {
    exists n :: 0 <= n < |ps| && ps[n] == p
  }

  lemma {:induction false} HasPieceConcat(ps: seq<Piece>, qs: seq<Piece>, p: Piece)
    requires HasPiece(ps, p) || HasPiece(qs, p)
    ensures HasPiece(ps + qs, p)
  {
    var all := ps + qs;
    if HasPiece(ps, p) {
      var n :| 0 <= n < |ps| && ps[n] == p;
      assert all[n] == p;
    } else {
      var n :| 0 <= n < |qs| && qs[n] == p;
      assert all[|ps| + n] == p;
    }
  }

  lemma {:induction false} UncutSegment(seg: Segment, sorted: seq<Replacement>, ri: nat, rate: Rate)
    requires Apart(sorted) && ri <= |sorted| && StartUS(seg, rate) < EndUS(seg, rate) && Untouched(seg, sorted, rate)
    requires forall k :: 0 <= k < ri ==> sorted[k].endUS <= StartUS(seg, rate)
    ensures HasPiece(SegmentPieces(seg, sorted, ri, rate), BasePiece(seg, StartUS(seg, rate), EndUS(seg, rate)))
  {
    var lo, hi := StartUS(seg, rate), EndUS(seg, rate);
    var ps := SegmentPieces(seg, sorted, ri, rate);
    SegmentSound(seg, sorted, ri, rate);
    assert ps != [] && ps[0].from == lo && Faithful(ps[0], seg, lo, hi, sorted);
    assert ps[0] == BasePiece(seg, lo, hi);
  }

  /** A base segment no replacement meets stays in one piece. */
  lemma {:induction false} TrackKeeps(base: seq<Segment>, i: nat, sorted: seq<Replacement>, ri: nat, rate: Rate, j: nat)
    requires Ordered(base, rate) && Apart(sorted) && i <= j < |base| && ri <= |sorted|
    requires forall k :: 0 <= k < ri ==> sorted[k].endUS <= StartUS(base[i], rate)
    requires StartUS(base[j], rate) < EndUS(base[j], rate) && Untouched(base[j], sorted, rate)
    ensures HasPiece(CutFrom(base, i, sorted, ri, rate),
        BasePiece(base[j], StartUS(base[j], rate), EndUS(base[j], rate)))
    decreases |base| - i
  {
    var next := SegmentNext(base[i], sorted, ri, rate);
    if i == j {
      UncutSegment(base[i], sorted, ri, rate);
    } else {
      SegmentSound(base[i], sorted, ri, rate);
      TrackKeeps(base, i + 1, sorted, next, rate, j);
    }
    HasPieceConcat(SegmentPieces(base[i], sorted, ri, rate), CutFrom(base, i + 1, sorted, next, rate),
                   BasePiece(base[j], StartUS(base[j], rate), EndUS(base[j], rate)));
  }
}
