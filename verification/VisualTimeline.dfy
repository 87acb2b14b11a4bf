/**
  The visual replacement resolver: one base video track is cut around replacement intervals given in
  microseconds, and every piece is quantized to output frames.
 */
module VisualTimeline {
  import opened Optional
  import opened FrameTime
  import Orders
  import Text

  datatype Segment = Segment(
    segmentId: string,
    stockPoolSlot: bool,
    assetId: string,
    sha256: string,
    start: int,
    count: int,
    sourceIn: int,
    sourceDuration: int)

  datatype Replacement = Replacement(
    id: string,
    assetId: string,
    sha256: string,
    startUS: int,
    endUS: int,
    profileId: string)

  datatype Error =
    | InvalidRate
    | AssetInvalid
    | InvalidRange
    | Overlap
    | OutOfBounds
    | NotAFrame(cause: TimeError)
    | ZeroFrames

  datatype Resolved = Ok(segments: seq<Segment>) | Err(error: Error)

  function EndFrame(seg: Segment): int {
    Wrap64(seg.start + seg.count)
  }

  function StartUS(seg: Segment, rate: Rate): int {
    FrameToUS(seg.start, rate)
  }

  function EndUS(seg: Segment, rate: Rate): int {
    FrameToUS(EndFrame(seg), rate)
  }

  function Max(a: int, b: int): int { if a < b then b else a }
  function Min(a: int, b: int): int { if a < b then a else b }

  // ----- checks on the sorted replacements

  predicate StartsNoLater(a: Replacement, b: Replacement) {
    a.startUS <= b.startUS
  }

  function TotalUS(base: seq<Segment>, n: nat, rate: Rate): int
    requires n <= |base|
  {
    if n == 0 then 0 else Max(TotalUS(base, n - 1, rate), EndUS(base[n - 1], rate))
  }

  function ViolationAt(sorted: seq<Replacement>, i: nat, total: int): Option<Error>
    requires i < |sorted|
  {
    var r := sorted[i];
    if Text.Blank(r.assetId) then Some(AssetInvalid)
    else if r.startUS < 0 then Some(InvalidRange)
    else if r.endUS <= r.startUS then Some(InvalidRange)
    else if i > 0 && r.startUS < sorted[i - 1].endUS then Some(Overlap)
    else if r.endUS > total then Some(OutOfBounds)
    else None
  }

  function FirstViolation(sorted: seq<Replacement>, i: nat, total: int): Option<Error>
    requires i <= |sorted|
    decreases |sorted| - i
  {
    if i == |sorted| then None
    else if ViolationAt(sorted, i, total).Some? then ViolationAt(sorted, i, total)
    else FirstViolation(sorted, i + 1, total)
  }

  /** An entry of the sorted list that breaks no rule. */
  ghost predicate Sound(sorted: seq<Replacement>, i: nat, total: int)
    requires i < |sorted|
  {
    && !Text.Blank(sorted[i].assetId)
    && 0 <= sorted[i].startUS < sorted[i].endUS <= total
    && (i > 0 ==> sorted[i - 1].endUS <= sorted[i].startUS)
  }

  /** The rule an entry is refused for. */
  ghost predicate Breaks(sorted: seq<Replacement>, i: nat, total: int, e: Error)
    requires i < |sorted|
  {
    var blank, proper := Text.Blank(sorted[i].assetId), 0 <= sorted[i].startUS < sorted[i].endUS;
    var apart := i > 0 ==> sorted[i - 1].endUS <= sorted[i].startUS;
    match e
    case AssetInvalid => blank
    case InvalidRange => !blank && !proper
    case Overlap => !blank && proper && !apart
    case OutOfBounds => !blank && proper && apart && total < sorted[i].endUS
    case _ => false
  }

  /** The first entry that is not sound, and the rule it breaks. */
  ghost predicate Reported(sorted: seq<Replacement>, i: nat, total: int, e: Error) {
    && i < |sorted| && Breaks(sorted, i, total, e)
    && forall j: nat :: j < i ==> Sound(sorted, j, total)
  }

  lemma {:induction false} EntryExactly(sorted: seq<Replacement>, i: nat, total: int, e: Error)
    requires i < |sorted|
    ensures ViolationAt(sorted, i, total) == Some(e) <==> Breaks(sorted, i, total, e)
    ensures ViolationAt(sorted, i, total) == None <==> Sound(sorted, i, total)
  {}

  lemma {:induction false} FirstExactly(sorted: seq<Replacement>, n: nat, total: int, e: Error)
    requires n <= |sorted| && forall j: nat :: j < n ==> Sound(sorted, j, total)
    ensures FirstViolation(sorted, n, total) == Some(e) <==> exists i: nat :: Reported(sorted, i, total, e)
    decreases |sorted| - n
  {
    forall i: nat | i < n ensures !Reported(sorted, i, total, e) {
      EntryExactly(sorted, i, total, e);
    }
    if n == |sorted| {
    } else {
      EntryExactly(sorted, n, total, e);
      if ViolationAt(sorted, n, total).Some? {
        assert Reported(sorted, n, total, e) <==> Breaks(sorted, n, total, e);
      } else {
        FirstExactly(sorted, n + 1, total, e);
      }
    }
  }

  // ----- cutting, in microseconds

  /**
    A piece of the output before quantization: the part [from, to) of the base segment `seg`,
    showing either that segment or the replacement `rep`.
   */
  datatype Piece =
    | BasePiece(seg: Segment, from: int, to: int)
    | PreparedPiece(seg: Segment, rep: Replacement, from: int, to: int)

  datatype Cut = Cut(pieces: seq<Piece>, ri: nat, cursor: int)

  function SkipEnded(sorted: seq<Replacement>, ri: nat, lo: int): (r: nat)
    requires ri <= |sorted|
    ensures ri <= r <= |sorted|
    decreases |sorted| - ri
  {
    if ri < |sorted| && sorted[ri].endUS <= lo then SkipEnded(sorted, ri + 1, lo) else ri
  }

  /** The base piece in front of a replacement, if any time is left there. */
  function BaseUpTo(seg: Segment, cursor: int, to: int): seq<Piece> {
    if to > cursor then [BasePiece(seg, cursor, to)] else []
  }

  /** Cuts `seg`, spanning [lo, hi), around the replacements from `ri` on. */
  function CutInner(sorted: seq<Replacement>, seg: Segment, lo: int, hi: int, ri: nat, cursor: int): (c: Cut)
    requires ri <= |sorted|
    ensures ri <= c.ri <= |sorted|
    decreases |sorted| - ri
  {
    if ri < |sorted| && sorted[ri].startUS < hi then
      var rs, re := Max(sorted[ri].startUS, lo), Min(sorted[ri].endUS, hi);
      var rest := if sorted[ri].endUS <= hi then CutInner(sorted, seg, lo, hi, ri + 1, re) else Cut([], ri, re);
      Cut((BaseUpTo(seg, cursor, rs) + [PreparedPiece(seg, sorted[ri], rs, re)]) + rest.pieces, rest.ri, rest.cursor)
    else
      Cut([], ri, cursor)
  }

  /** All pieces of one base segment, given the replacement cursor carried into it. */
  function SegmentPieces(seg: Segment, sorted: seq<Replacement>, ri: nat, rate: Rate): seq<Piece>
    requires ri <= |sorted|
  {
    var lo, hi := StartUS(seg, rate), EndUS(seg, rate);
    var c := CutInner(sorted, seg, lo, hi, SkipEnded(sorted, ri, lo), lo);
    c.pieces + BaseUpTo(seg, c.cursor, hi)
  }

  /** The replacement cursor carried out of it. */
  function SegmentNext(seg: Segment, sorted: seq<Replacement>, ri: nat, rate: Rate): (r: nat)
    requires ri <= |sorted|
    ensures r <= |sorted|
  {
    var lo, hi := StartUS(seg, rate), EndUS(seg, rate);
    CutInner(sorted, seg, lo, hi, SkipEnded(sorted, ri, lo), lo).ri
  }

  /** All pieces of the base segments from `i` on. */
  function CutFrom(base: seq<Segment>, i: nat, sorted: seq<Replacement>, ri: nat, rate: Rate): seq<Piece>
    requires i <= |base| && ri <= |sorted|
    decreases |base| - i
  {
    if i == |base| then []
    else
      SegmentPieces(base[i], sorted, ri, rate)
      + CutFrom(base, i + 1, sorted, SegmentNext(base[i], sorted, ri, rate), rate)
  }

  // ----- quantization

  datatype FrameRange = Range(start: int, count: int) | NoRange(error: Error)

  function PieceFrames(from: int, to: int, rate: Rate): FrameRange {
    match TimeUSToNearestFrame(from, rate)
    case NoFrame(e) => NoRange(NotAFrame(e))
    case Frame(s) =>
      match TimeUSToNearestFrame(to, rate)
      case NoFrame(e) => NoRange(NotAFrame(e))
      case Frame(t) => if t - s <= 0 then NoRange(ZeroFrames) else Range(s, t - s)
  }

  datatype Emitted = Emitted(segment: Segment) | Failed(error: Error)

  function EmitBase(seg: Segment, from: int, to: int, lo: int, rate: Rate): Emitted {
    match PieceFrames(from, to, rate)
    case NoRange(e) => Failed(e)
    case Range(start, count) =>
      Emitted(Segment("", false, seg.assetId, seg.sha256, start, count,
                      Wrap64(seg.sourceIn + Wrap64(from - lo)), Wrap64(to - from)))
  }

  function EmitPrepared(r: Replacement, from: int, to: int, rate: Rate): Emitted {
    match PieceFrames(from, to, rate)
    case NoRange(e) => Failed(e)
    case Range(start, count) =>
      Emitted(Segment("", false, r.assetId, r.sha256, start, count, 0, Wrap64(to - from)))
  }

  function Emit(p: Piece, rate: Rate): Emitted {
    match p
    case BasePiece(seg, from, to) => EmitBase(seg, from, to, StartUS(seg, rate), rate)
    case PreparedPiece(_, r, from, to) => EmitPrepared(r, from, to, rate)
  }

  /** Quantizes pieces left to right behind `out` and stops at the first failure. */
  function EmitOnto(out: seq<Segment>, ps: seq<Piece>, rate: Rate): Resolved
    decreases |ps|
  {
    if ps == [] then Ok(out)
    else
      match Emit(ps[0], rate)
      case Failed(e) => Err(e)
      case Emitted(s) => EmitOnto(out + [s], ps[1..], rate)
  }

  lemma {:induction false} EmitOntoConcat(out: seq<Segment>, ps: seq<Piece>, qs: seq<Piece>, rate: Rate)
    ensures EmitOnto(out, ps + qs, rate) ==
            match EmitOnto(out, ps, rate)
            case Err(e) => Err(e)
            case Ok(o) => EmitOnto(o, qs, rate)
    decreases |ps|
  {
    if ps == [] {
      assert ps + qs == qs;
    } else {
      assert (ps + qs)[1..] == ps[1..] + qs;
      match Emit(ps[0], rate)
      case Failed(_) =>
      case Emitted(s) => EmitOntoConcat(out + [s], ps[1..], qs, rate);
    }
  }

  // ----- the resolver

  function Resolve(base: seq<Segment>, replacements: seq<Replacement>, rate: Rate): Resolved {
    if replacements == [] then Ok(base)
    else if !rate.Positive() then Err(InvalidRate)
    else
      var sorted := Orders.Sort(StartsNoLater, replacements);
      match FirstViolation(sorted, 0, TotalUS(base, |base|, rate))
      case Some(e) => Err(e)
      case None =>
        EmitOnto([], CutFrom(base, 0, sorted, 0, rate), rate)
  }

  predicate Quantizing(e: Error) {
    e.NotAFrame? || e.ZeroFrames?
  }

  lemma {:induction false} EmitErrors(out: seq<Segment>, ps: seq<Piece>, rate: Rate)
    ensures EmitOnto(out, ps, rate).Err? ==> Quantizing(EmitOnto(out, ps, rate).error)
    decreases |ps|
  {
    if ps == [] {
    } else if Emit(ps[0], rate).Emitted? {
      EmitErrors(out + [Emit(ps[0], rate).segment], ps[1..], rate);
    }
  }

  ghost predicate Anonymous(segs: seq<Segment>) {
    forall i :: 0 <= i < |segs| ==> segs[i].segmentId == "" && !segs[i].stockPoolSlot
  }

  lemma {:induction false} EmitAnonymous(out: seq<Segment>, ps: seq<Piece>, rate: Rate)
    requires Anonymous(out) && EmitOnto(out, ps, rate).Ok?
    ensures Anonymous(EmitOnto(out, ps, rate).segments)
    decreases |ps|
  {
    if ps == [] {
    } else {
      EmitAnonymous(out + [Emit(ps[0], rate).segment], ps[1..], rate);
    }
  }

  /** Segments are emitted without an id and are never pool slots, whatever the base was. */
  lemma {:induction false} ResolvedAnonymous(base: seq<Segment>, replacements: seq<Replacement>, rate: Rate)
    requires replacements != [] && Resolve(base, replacements, rate).Ok?
    ensures Anonymous(Resolve(base, replacements, rate).segments)
  {
    EmitAnonymous([], CutFrom(base, 0, Orders.Sort(StartsNoLater, replacements), 0, rate), rate);
  }

  /** The end of the base: zero, or the last of the segments' ends. */
  lemma {:induction false} TotalExactly(base: seq<Segment>, n: nat, rate: Rate)
    requires n <= |base|
    ensures var total := TotalUS(base, n, rate);
            && 0 <= total && (forall k :: 0 <= k < n ==> EndUS(base[k], rate) <= total)
            && (total == 0 || exists k :: 0 <= k < n && EndUS(base[k], rate) == total)
  {
    if n == 0 {
    } else {
      TotalExactly(base, n - 1, rate);
    }
  }

  lemma {:induction false} ResolveSteps(base: seq<Segment>, replacements: seq<Replacement>, rate: Rate, e: Error)
    requires replacements != [] && rate.Positive() && !Quantizing(e)
    ensures Resolve(base, replacements, rate) == Err(e) <==>
            FirstViolation(Orders.Sort(StartsNoLater, replacements), 0, TotalUS(base, |base|, rate)) == Some(e)
  {
    EmitErrors([], CutFrom(base, 0, Orders.Sort(StartsNoLater, replacements), 0, rate), rate);
  }

  /** Which error a request is refused with before anything is cut. */
  lemma {:induction false} RefusedExactly(base: seq<Segment>, replacements: seq<Replacement>, rate: Rate, e: Error)
    requires replacements != [] && !Quantizing(e)
    ensures Resolve(base, replacements, rate) == Err(e) <==>
            if rate.num <= 0 || rate.den <= 0 then e == InvalidRate
            else exists i: nat ::
                   Reported(Orders.Sort(StartsNoLater, replacements), i, TotalUS(base, |base|, rate), e)
  {
    if rate.Positive() {
      FirstExactly(Orders.Sort(StartsNoLater, replacements), 0, TotalUS(base, |base|, rate), e);
      ResolveSteps(base, replacements, rate, e);
    }
  }

  /** The order of the checks. */
  lemma {:induction false} CheckedByStart(replacements: seq<Replacement>, i: nat, j: nat)
    requires i < j < |replacements|
    ensures var sorted := Orders.Sort(StartsNoLater, replacements);
            multiset(sorted) == multiset(replacements) && sorted[i].startUS <= sorted[j].startUS
  {
    Orders.SortSorted(StartsNoLater, replacements);
    assert StartsNoLater(Orders.Sort(StartsNoLater, replacements)[i], Orders.Sort(StartsNoLater, replacements)[j]);
  }

  function IfAt(r: Replacement, at: int): seq<Replacement> {
    if r.startUS == at then [r] else []
  }

  /** The entries that start at `at`, in order. */
  function StartingAt(rs: seq<Replacement>, at: int): seq<Replacement> {
    if rs == [] then [] else IfAt(rs[0], at) + StartingAt(rs[1..], at)
  }

  lemma {:induction false} Swapped(x: Replacement, y: Replacement, rest: seq<Replacement>, at: int)
    requires x.startUS != y.startUS
    ensures IfAt(y, at) + (IfAt(x, at) + rest) == IfAt(x, at) + (IfAt(y, at) + rest)
  {}

  lemma {:induction false} InsertedInFront(x: Replacement, rs: seq<Replacement>, at: int)
    ensures StartingAt(Orders.Insert(StartsNoLater, x, rs), at) == IfAt(x, at) + StartingAt(rs, at)
  {
    var r := Orders.Insert(StartsNoLater, x, rs);
    if rs == [] || StartsNoLater(x, rs[0]) {
      assert r[1..] == rs;
    } else {
      var rest := Orders.Insert(StartsNoLater, x, rs[1..]);
      assert r[0] == rs[0] && r[1..] == rest;
      InsertedInFront(x, rs[1..], at);
      Swapped(x, rs[0], StartingAt(rs[1..], at), at);
    }
  }

  /** Entries with the same start keep their listed order. */
  lemma {:induction false} StableByStart(replacements: seq<Replacement>, at: int)
    ensures StartingAt(Orders.Sort(StartsNoLater, replacements), at) == StartingAt(replacements, at)
  {
    if replacements == [] {
    } else {
      StableByStart(replacements[1..], at);
      InsertedInFront(replacements[0], Orders.Sort(StartsNoLater, replacements[1..]), at);
    }
  }

  /** One pass of the inner loop: the base piece before a replacement, then the replacement itself. */
  method EmitReplacement(seg: Segment, rep: Replacement, cursor: int, rs: int, re: int, out: seq<Segment>, rate: Rate)
    returns (r: Resolved)
    ensures r == EmitOnto(out, BaseUpTo(seg, cursor, rs) + [PreparedPiece(seg, rep, rs, re)], rate)
  {
    var acc := out;
    ghost var prepared := PreparedPiece(seg, rep, rs, re);
    EmitOntoConcat(out, BaseUpTo(seg, cursor, rs), [prepared], rate);
    if rs > cursor {
      var piece := EmitBase(seg, cursor, rs, StartUS(seg, rate), rate);
      if piece.Failed? {
        return Err(piece.error);
      }
      acc := acc + [piece.segment];
    }
    var piece := EmitPrepared(rep, rs, re, rate);
    if piece.Failed? {
      return Err(piece.error);
    }
    return Ok(acc + [piece.segment]);
  }

  /** What the inner loop does after handling replacement `ri`. */
  function CutRest(sorted: seq<Replacement>, seg: Segment, lo: int, hi: int, ri: nat): Cut
    requires ri < |sorted|
  {
    var re := Min(sorted[ri].endUS, hi);
    if sorted[ri].endUS <= hi then CutInner(sorted, seg, lo, hi, ri + 1, re) else Cut([], ri, re)
  }

  lemma {:induction false} EmitCutStep(
    out: seq<Segment>, sorted: seq<Replacement>, seg: Segment, lo: int, hi: int, ri: nat, cursor: int, rate: Rate)
    requires ri < |sorted| && sorted[ri].startUS < hi
    ensures var rs, re := Max(sorted[ri].startUS, lo), Min(sorted[ri].endUS, hi);
            var first := EmitOnto(out, BaseUpTo(seg, cursor, rs) + [PreparedPiece(seg, sorted[ri], rs, re)], rate);
            var c, rest := CutInner(sorted, seg, lo, hi, ri, cursor), CutRest(sorted, seg, lo, hi, ri);
            && c.ri == rest.ri && c.cursor == rest.cursor
            && EmitOnto(out, c.pieces, rate) == if first.Err? then first else EmitOnto(first.segments, rest.pieces,
                rate)
  {
    var rs, re := Max(sorted[ri].startUS, lo), Min(sorted[ri].endUS, hi);
    EmitOntoConcat(out, BaseUpTo(seg, cursor, rs) + [PreparedPiece(seg, sorted[ri], rs, re)],
        CutRest(sorted, seg, lo, hi, ri).pieces, rate);
  }

  /** The inner loop: cuts the segment's range [lo, hi) around the replacements from `ri` on. */
  method CutRange(seg: Segment, lo: int, hi: int, sorted: seq<Replacement>, ri: nat, out: seq<Segment>, rate: Rate)
    returns (r: Resolved, next: nat, cursor: int)
    requires ri <= |sorted|
    ensures next <= |sorted|
    ensures var c := CutInner(sorted, seg, lo, hi, ri, lo);
            r == EmitOnto(out, c.pieces, rate) && (r.Ok? ==> next == c.ri && cursor == c.cursor)
  {
    ghost var whole := CutInner(sorted, seg, lo, hi, ri, lo);
    ghost var goal := EmitOnto(out, whole.pieces, rate);
    cursor := lo;
    next := ri;
    r := Ok(out);
    while next < |sorted| && sorted[next].startUS < hi
      invariant next <= |sorted| && r.Ok?
      invariant var c := CutInner(sorted, seg, lo, hi, next, cursor);
                && c.ri == whole.ri && c.cursor == whole.cursor
                && EmitOnto(r.segments, c.pieces, rate) == goal
    {
      var rs := sorted[next].startUS;
      if rs < lo {
        rs := lo;
      }
      var re := sorted[next].endUS;
      if re > hi {
        re := hi;
      }
      EmitCutStep(r.segments, sorted, seg, lo, hi, next, cursor, rate);
      r := EmitReplacement(seg, sorted[next], cursor, rs, re, r.segments, rate);
      if r.Err? {
        return;
      }
      cursor := re;
      if sorted[next].endUS <= hi {
        next := next + 1;
      } else {
        break;
      }
    }
  }

  /** The body of the resolver's loop over base segments. */
  method ResolveSegment(seg: Segment, sorted: seq<Replacement>, ri: nat, out: seq<Segment>, rate: Rate)
    returns (r: Resolved, next: nat)
    requires ri <= |sorted|
    ensures next <= |sorted|
    ensures r == EmitOnto(out, SegmentPieces(seg, sorted, ri, rate), rate)
    ensures r.Ok? ==> next == SegmentNext(seg, sorted, ri, rate)
  {
    var segStart := StartUS(seg, rate);
    var segEnd := EndUS(seg, rate);
    next := ri;
    while next < |sorted| && sorted[next].endUS <= segStart
      invariant next <= |sorted|
      invariant SkipEnded(sorted, ri, segStart) == SkipEnded(sorted, next, segStart)
    {
      next := next + 1;
    }
    ghost var c := CutInner(sorted, seg, segStart, segEnd, next, segStart);
    EmitOntoConcat(out, c.pieces, BaseUpTo(seg, c.cursor, segEnd), rate);
    var cursor;
    r, next, cursor := CutRange(seg, segStart, segEnd, sorted, next, out, rate);
    if r.Ok? && cursor < segEnd {
      var piece := EmitBase(seg, cursor, segEnd, segStart, rate);
      r := if piece.Failed? then Err(piece.error) else Ok(r.segments + [piece.segment]);
    }
  }

  /** The resolver's checks: range, overlap, bounds and asset identity, first failure first. */
  method CheckReplacements(base: seq<Segment>, sorted: seq<Replacement>, rate: Rate) returns (violation: Option<Error>)
    ensures violation == FirstViolation(sorted, 0, TotalUS(base, |base|, rate))
  {
    var totalUS := 0;
    for n := 0 to |base|
      invariant totalUS == TotalUS(base, n, rate)
    {
      var end := EndUS(base[n], rate);
      if end > totalUS {
        totalUS := end;
      }
    }
    for i := 0 to |sorted|
      invariant FirstViolation(sorted, 0, totalUS) == FirstViolation(sorted, i, totalUS)
    {
      violation := ViolationAt(sorted, i, totalUS);
      if violation.Some? {
        return;
      }
    }
    violation := None;
  }

  method ResolveVisualReplacements(base: seq<Segment>, replacements: seq<Replacement>, rate: Rate)
    returns (r: Resolved)
    ensures r == Resolve(base, replacements, rate)
  {
    if |replacements| == 0 {
      return Ok(base);
    }
    if rate.num <= 0 || rate.den <= 0 {
      return Err(InvalidRate);
    }
    var sorted := Orders.Sort(StartsNoLater, replacements);
    var violation := CheckReplacements(base, sorted, rate);
    if violation.Some? {
      return Err(violation.value);
    }
    ghost var goal := EmitOnto([], CutFrom(base, 0, sorted, 0, rate), rate);
    var out := [];
    var ri: nat := 0;
    for i := 0 to |base|
      invariant ri <= |sorted|
      invariant EmitOnto(out, CutFrom(base, i, sorted, ri, rate), rate) == goal
    {
      EmitOntoConcat(out, SegmentPieces(base[i], sorted, ri, rate),
                     CutFrom(base, i + 1, sorted, SegmentNext(base[i], sorted, ri, rate), rate), rate);
      var segment;
      segment, ri := ResolveSegment(base[i], sorted, ri, out, rate);
      if segment.Err? {
        return segment;
      }
      out := segment.segments;
    }
    return Ok(out);
  }
}
