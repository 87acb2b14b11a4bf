/** The boundary sweep that splits composite overlays into windows with a constant set of layers. */
module OverlayWindows {
  import opened Overlays
  import Orders
  import Decimal

  datatype OverlayWindow = OverlayWindow(
    windowId: string,
    startFrame: int,
    endFrame: int,
    frameCount: int,
    overlays: seq<Overlay>)

  function WindowId(n: nat): string {
    "overlay-window-" + Decimal.Padded(n, 6)
  }

  function Composites(os: seq<Overlay>): (cs: seq<Overlay>)
    ensures forall o :: o in cs <==> o in os && o.mode == COMPOSITE
  {
    if os == [] then []
    else
      var last := |os| - 1;
      Composites(os[..last]) + if os[last].mode == COMPOSITE then [os[last]] else []
  }

  predicate ActiveAt(o: Overlay, f: int) {
    o.startFrame <= f < o.startFrame + o.frameCount
  }

  function Active(cs: seq<Overlay>, f: int): (r: seq<Overlay>)
    ensures forall o :: o in r <==> o in cs && ActiveAt(o, f)
  {
    if cs == [] then []
    else
      var last := |cs| - 1;
      Active(cs[..last], f) + if ActiveAt(cs[last], f) then [cs[last]] else []
  }

  /** Bottom to top: z_index, then id. */
  predicate Below(a: Overlay, b: Overlay) {
    a.zIndex < b.zIndex || (a.zIndex == b.zIndex && Orders.LexLeq(a.id, b.id))
  }

  lemma {:induction false} BelowOrder()
    ensures Orders.Total(Below) && Orders.Transitive(Below)
  {
    Orders.LexIsOrder();
  }

  /** The stack of composite overlays a frame must show, bottom to top. */
  function LayersAt(cs: seq<Overlay>, f: int): seq<Overlay> {
    Orders.Sort(Below, Active(cs, f))
  }

  lemma {:induction false} LayersSorted(cs: seq<Overlay>, f: int)
    ensures Orders.Sorted(Below, LayersAt(cs, f))
  {
    BelowOrder();
    Orders.SortSorted(Below, Active(cs, f));
  }

  predicate Holds(w: OverlayWindow, f: int) {
    w.startFrame <= f < w.endFrame
  }

  /** A window lists exactly the layers of each of its frames. */
  ghost predicate Constant(w: OverlayWindow, cs: seq<Overlay>) {
    && 0 <= w.startFrame < w.endFrame && w.frameCount == w.endFrame - w.startFrame
    && w.overlays != []
    && forall f :: Holds(w, f) ==> w.overlays == LayersAt(cs, f)
  }

  /**
    The specification of the sweep: numbered windows in order, each constant and stacked by (z_index,
    id), together holding exactly the frames some composite overlay covers, and never splitting a run
    of equal layers.
   */
  ghost predicate Sweep(ws: seq<OverlayWindow>, cs: seq<Overlay>) {
    && Numbered(ws) && AllConstant(ws, cs) && AllStacked(ws)
    && InOrder(ws)
    && (forall f :: LayersAt(cs, f) != [] ==> Held(ws, f))
    && Coarse(ws)
  }

  ghost predicate Numbered(ws: seq<OverlayWindow>) {
    forall k :: 0 <= k < |ws| ==> ws[k].windowId == WindowId(k)
  }

  ghost predicate AllConstant(ws: seq<OverlayWindow>, cs: seq<Overlay>) {
    forall k :: 0 <= k < |ws| ==> Constant(ws[k], cs)
  }

  ghost predicate AllStacked(ws: seq<OverlayWindow>) {
    forall k :: 0 <= k < |ws| ==> Orders.Sorted(Below, ws[k].overlays)
  }

  ghost predicate InOrder(ws: seq<OverlayWindow>) {
    forall j, k :: 0 <= j < k < |ws| ==> ws[j].endFrame <= ws[k].startFrame
  }

  ghost predicate Held(ws: seq<OverlayWindow>, f: int) {
    exists k :: 0 <= k < |ws| && Holds(ws[k], f)
  }

  ghost predicate Coarse(ws: seq<OverlayWindow>) {
    forall k :: 0 < k < |ws| && ws[k - 1].endFrame == ws[k].startFrame ==> ws[k - 1].overlays != ws[k].overlays
  }

  // ----- boundary points

  predicate Leq(a: int, b: int) { a <= b }

  ghost predicate IsBoundary(p: int, cs: seq<Overlay>) {
    exists o :: o in cs && (o.startFrame == p || o.endFrame == p)
  }

  ghost predicate HasBoundaries(points: set<int>, cs: seq<Overlay>) {
    && 0 in points
    && (forall o :: o in cs ==> o.startFrame in points && o.endFrame in points)
    && (forall p :: p in points ==> p == 0 || IsBoundary(p, cs))
  }

  ghost predicate Increasing(ps: seq<int>) {
    forall i, j :: 0 <= i < j < |ps| ==> ps[i] < ps[j]
  }

  lemma {:induction false} SortedDistinct(ps: seq<int>)
    requires Orders.Distinct(ps)
    ensures Increasing(Orders.Sort(Leq, ps))
  {
    var sorted := Orders.Sort(Leq, ps);
    Orders.SortSorted(Leq, ps);
    Orders.SortDistinct(Leq, ps);
    forall i, j | 0 <= i < j < |sorted| ensures sorted[i] < sorted[j] {
      assert Leq(sorted[i], sorted[j]);
    }
  }

  /** The members of a set in increasing order, as collected from a map's keys and sorted. */
  method SortedPoints(s: set<int>) returns (points: seq<int>)
    ensures Increasing(points)
    ensures forall p :: p in points <==> p in s
  {
    var collected := Orders.Collect(s);
    points := Orders.Sort(Leq, collected);
    SortedDistinct(collected);
    Orders.MembersOfPermutation(collected, points);
  }

  // ----- the sweep

  ghost predicate Points(points: seq<int>, cs: seq<Overlay>) {
    && Increasing(points)
    && |points| > 0 && points[0] == 0
    && (forall o :: o in cs ==> o.startFrame in points && o.endFrame in points)
    && (forall i :: 0 < i < |points| ==> IsBoundary(points[i], cs))
  }

  lemma {:induction false} PointSide(points: seq<int>, i: nat, p: int)
    requires Increasing(points) && i + 1 < |points| && p in points
    ensures p <= points[i] || points[i + 1] <= p
  {
    var a :| 0 <= a < |points| && points[a] == p;
    assert a <= i || a >= i + 1;
  }

  /** No overlay starts or ends between neighbouring points. */
  lemma {:induction false} SameBetween(points: seq<int>, cs: seq<Overlay>, i: nat, f: int, o: Overlay)
    requires Points(points, cs) && i + 1 < |points| && points[i] <= f < points[i + 1]
    requires o in cs && Canonical(o)
    ensures ActiveAt(o, f) <==> ActiveAt(o, points[i])
  {
    PointSide(points, i, o.startFrame);
    PointSide(points, i, o.endFrame);
  }

  lemma {:induction false} ActiveSame(cs: seq<Overlay>, f: int, g: int)
    requires forall o :: o in cs ==> (ActiveAt(o, f) <==> ActiveAt(o, g))
    ensures Active(cs, f) == Active(cs, g)
  {
    if cs == [] {
    } else {
      ActiveSame(cs[..|cs| - 1], f, g);
    }
  }

  lemma {:induction false} LayersBetween(points: seq<int>, cs: seq<Overlay>, i: nat, f: int)
    requires Points(points, cs) && i + 1 < |points| && points[i] <= f < points[i + 1]
    requires forall o :: o in cs ==> Canonical(o)
    ensures LayersAt(cs, f) == LayersAt(cs, points[i])
  {
    forall o | o in cs ensures ActiveAt(o, f) <==> ActiveAt(o, points[i]) {
      SameBetween(points, cs, i, f, o);
    }
    ActiveSame(cs, f, points[i]);
  }

  /** A frame with layers lies between the first and the last point. */
  lemma {:induction false} LayersInside(points: seq<int>, cs: seq<Overlay>, f: int)
    requires Points(points, cs) && LayersAt(cs, f) != []
    requires forall o :: o in cs ==> Canonical(o)
    ensures points != [] && points[0] <= f < points[|points| - 1]
  {
    var o := LayersAt(cs, f)[0];
    LayerMembers(cs, f, o);
    assert o.endFrame in points;
    var b :| 0 <= b < |points| && points[b] == o.endFrame;
    assert points[b] <= points[|points| - 1];
  }

  /** Neighbouring points see different layers. */
  lemma {:induction false} LayersChange(points: seq<int>, cs: seq<Overlay>, i: nat)
    requires Points(points, cs) && 0 < i < |points| && (forall o :: o in cs ==> Canonical(o))
    ensures LayersAt(cs, points[i - 1]) != LayersAt(cs, points[i])
  {
    var p, prev := points[i], points[i - 1];
    assert IsBoundary(p, cs);
    var o :| o in cs && (o.startFrame == p || o.endFrame == p);
    assert prev < p;
    if o.endFrame == p {
      SameBetween(points, cs, i - 1, p - 1, o);
    }
    assert ActiveAt(o, prev) != ActiveAt(o, p);
    LayerMembers(cs, prev, o);
    LayerMembers(cs, p, o);
  }

  lemma {:induction false} LayerMembers(cs: seq<Overlay>, f: int, o: Overlay)
    ensures o in LayersAt(cs, f) <==> o in cs && ActiveAt(o, f)
  {
    Orders.MembersOfPermutation(LayersAt(cs, f), Active(cs, f));
  }

  /** The sweep after the first `n` intervals between points. */
  ghost predicate SweepUpTo(ws: seq<OverlayWindow>, cs: seq<Overlay>, points: seq<int>, n: nat)
    requires n < |points|
  {
    && Numbered(ws) && AllConstant(ws, cs)
    && (forall k :: 0 <= k < |ws| ==> ws[k].endFrame <= points[n])
    && InOrder(ws)
    && (forall f :: f < points[n] && LayersAt(cs, f) != [] ==> Held(ws, f))
    && Coarse(ws)
  }

  function NextWindow(ws: seq<OverlayWindow>, start: int, end: int, layers: seq<Overlay>): OverlayWindow {
    OverlayWindow(WindowId(|ws|), start, end, end - start, layers)
  }

  lemma {:induction false} NextConstant(ws: seq<OverlayWindow>, cs: seq<Overlay>, points: seq<int>, n: nat)
    requires Points(points, cs) && n + 1 < |points| && (forall o :: o in cs ==> Canonical(o))
    requires LayersAt(cs, points[n]) != []
    ensures Constant(NextWindow(ws, points[n], points[n + 1], LayersAt(cs, points[n])), cs)
  {
    var w := NextWindow(ws, points[n], points[n + 1], LayersAt(cs, points[n]));
    assert points[0] <= points[n] < points[n + 1];
    forall f | Holds(w, f) ensures w.overlays == LayersAt(cs, f) {
      LayersBetween(points, cs, n, f);
    }
  }

  lemma {:induction false} HeldLayers(w: OverlayWindow, cs: seq<Overlay>, f: int)
    requires Constant(w, cs) && Holds(w, f)
    ensures w.overlays == LayersAt(cs, f)
  {}

  lemma {:induction false} Differs(x: seq<Overlay>, y: seq<Overlay>, z: seq<Overlay>)
    requires x == y && y != z
    ensures x != z
  {}

  lemma {:induction false} LayersBefore(points: seq<int>, cs: seq<Overlay>, n: nat)
    requires Points(points, cs) && 0 < n < |points| && (forall o :: o in cs ==> Canonical(o))
    ensures LayersAt(cs, points[n] - 1) == LayersAt(cs, points[n - 1])
  {
    assert points[n - 1] < points[n];
    LayersBetween(points, cs, n - 1, points[n] - 1);
  }

  /** A window ending at a point cannot have the layers of the window beginning there. */
  lemma {:induction false} NextDiffers(w: OverlayWindow, cs: seq<Overlay>, points: seq<int>, n: nat)
    requires Points(points, cs) && 0 < n < |points| && (forall o :: o in cs ==> Canonical(o))
    requires Constant(w, cs) && w.endFrame == points[n]
    ensures w.overlays != LayersAt(cs, points[n])
  {
    var before := LayersAt(cs, points[n - 1]);
    assert w.overlays == before by {
      HeldLayers(w, cs, points[n] - 1);
      LayersBefore(points, cs, n);
    }
    assert before != LayersAt(cs, points[n]) by {
      LayersChange(points, cs, n);
    }
    Differs(w.overlays, before, LayersAt(cs, points[n]));
  }

  lemma {:induction false} SweepExtends(ws: seq<OverlayWindow>, cs: seq<Overlay>, points: seq<int>, n: nat)
    requires Points(points, cs) && n + 1 < |points| && (forall o :: o in cs ==> Canonical(o))
    requires SweepUpTo(ws, cs, points, n) && LayersAt(cs, points[n]) != []
    ensures SweepUpTo(ws + [NextWindow(ws, points[n], points[n + 1], LayersAt(cs, points[n]))], cs, points, n + 1)
  {
    var w := NextWindow(ws, points[n], points[n + 1], LayersAt(cs, points[n]));
    NextConstant(ws, cs, points, n);
    assert points[n] < points[n + 1];
    forall f | f < points[n + 1] && LayersAt(cs, f) != [] ensures Held(ws + [w], f) {
      HeldLonger(ws, w, f);
    }
    if |ws| > 0 && ws[|ws| - 1].endFrame == points[n] {
      assert n > 0 by {
        assert ws[|ws| - 1].endFrame > 0;
      }
      NextDiffers(ws[|ws| - 1], cs, points, n);
    }
    CoarseLonger(ws, w);
    OrderLonger(ws, w, cs);
  }

  lemma {:induction false} HeldLonger(ws: seq<OverlayWindow>, w: OverlayWindow, f: int)
    requires Held(ws, f) || Holds(w, f)
    ensures Held(ws + [w], f)
  {
    var all := ws + [w];
    if Held(ws, f) {
      var k :| 0 <= k < |ws| && Holds(ws[k], f);
      assert Holds(all[k], f);
    } else {
      assert Holds(all[|ws|], f);
    }
  }

  lemma {:induction false} OrderLonger(ws: seq<OverlayWindow>, w: OverlayWindow, cs: seq<Overlay>)
    requires Numbered(ws) && AllConstant(ws, cs) && InOrder(ws)
    requires w.windowId == WindowId(|ws|) && Constant(w, cs)
    requires forall k :: 0 <= k < |ws| ==> ws[k].endFrame <= w.startFrame
    ensures Numbered(ws + [w]) && AllConstant(ws + [w], cs) && InOrder(ws + [w])
  {}

  lemma {:induction false} CoarseLonger(ws: seq<OverlayWindow>, w: OverlayWindow)
    requires Coarse(ws)
    requires |ws| > 0 && ws[|ws| - 1].endFrame == w.startFrame ==> ws[|ws| - 1].overlays != w.overlays
    ensures Coarse(ws + [w])
  {}

  lemma {:induction false} SweepSkips(ws: seq<OverlayWindow>, cs: seq<Overlay>, points: seq<int>, n: nat)
    requires Points(points, cs) && n + 1 < |points| && (forall o :: o in cs ==> Canonical(o))
    requires SweepUpTo(ws, cs, points, n) && LayersAt(cs, points[n]) == []
    ensures SweepUpTo(ws, cs, points, n + 1)
  {
    assert points[n] < points[n + 1];
    forall f | f < points[n + 1] && LayersAt(cs, f) != [] ensures Held(ws, f) {
      if f >= points[n] {
        LayersBetween(points, cs, n, f);
      }
    }
  }

  /** Collects the overlays active at `start`, in list order. */
  method CollectActive(cs: seq<Overlay>, start: int) returns (active: seq<Overlay>)
    ensures active == Active(cs, start)
  {
    active := [];
    for j := 0 to |cs|
      invariant active == Active(cs[..j], start)
    {
      assert cs[..j + 1][..j] == cs[..j];
      if cs[j].startFrame <= start < cs[j].startFrame + cs[j].frameCount {
        active := active + [cs[j]];
      }
    }
    assert cs[..|cs|] == cs;
  }

  /** The loop over neighbouring points. */
  method SweepPoints(cs: seq<Overlay>, points: seq<int>) returns (ws: seq<OverlayWindow>)
    requires Points(points, cs) && (forall o :: o in cs ==> Canonical(o))
    ensures Sweep(ws, cs)
  {
    ws := [];
    assert SweepUpTo(ws, cs, points, 0) by {
      forall f | f < points[0] ensures LayersAt(cs, f) == [] {
        if LayersAt(cs, f) != [] {
          LayersInside(points, cs, f);
        }
      }
    }
    for i := 0 to |points| - 1
      invariant SweepUpTo(ws, cs, points, i)
    {
      var active := CollectActive(cs, points[i]);
      var layers := Orders.Sort(Below, active);
      if |active| == 0 {
        SweepSkips(ws, cs, points, i);
      } else {
        SweepExtends(ws, cs, points, i);
        ws := ws + [NextWindow(ws, points[i], points[i + 1], layers)];
      }
    }
    forall f | LayersAt(cs, f) != [] ensures Held(ws, f) {
      LayersInside(points, cs, f);
    }
    ConstantStacked(ws, cs);
  }

  lemma {:induction false} ConstantStacked(ws: seq<OverlayWindow>, cs: seq<Overlay>)
    requires AllConstant(ws, cs)
    ensures AllStacked(ws)
  {
    forall k | 0 <= k < |ws| ensures Orders.Sorted(Below, ws[k].overlays) {
      assert Constant(ws[k], cs) && Holds(ws[k], ws[k].startFrame);
      LayersSorted(cs, ws[k].startFrame);
    }
  }

  datatype WindowsResult = WindowList(windows: seq<OverlayWindow>) | InvalidOverlays

  ghost predicate AllCanonical(os: seq<Overlay>) {
    forall i :: 0 <= i < |os| ==> Canonical(os[i]) && InRange(os[i])
  }

  lemma {:induction false} NormalizeAllCanonical(os: seq<Overlay>)
    requires Normalizes(os) && forall i :: 0 <= i < |os| ==> InRange(os[i])
    ensures AllCanonical(NormalizeAll(os))
  {
    forall i | 0 <= i < |os| ensures Canonical(NormalizeAll(os)[i]) && InRange(NormalizeAll(os)[i]) {
      NormalizeCanonical(os[i]);
    }
  }

  lemma {:induction false} BoundariesLonger(points: set<int>, cs: seq<Overlay>, o: Overlay)
    requires HasBoundaries(points, cs)
    ensures HasBoundaries(points + {o.startFrame, o.endFrame}, cs + [o])
  {
    var all := cs + [o];
    assert forall x :: x in all <==> x in cs || x == o;
    forall p | p in points + {o.startFrame, o.endFrame} ensures p == 0 || IsBoundary(p, all) {
      if p in points && p != 0 {
        var x :| x in cs && (x.startFrame == p || x.endFrame == p);
        assert x in all;
      } else if p != 0 {
        assert o in all;
      }
    }
  }

  /** Collects the composite overlays and their boundary points. */
  method CollectComposites(os: seq<Overlay>) returns (cs: seq<Overlay>, boundaries: set<int>)
    ensures cs == Composites(os) && HasBoundaries(boundaries, cs)
  {
    cs, boundaries := [], {0};
    for i := 0 to |os|
      invariant cs == Composites(os[..i]) && HasBoundaries(boundaries, cs)
    {
      assert os[..i + 1][..i] == os[..i];
      if os[i].mode == COMPOSITE {
        BoundariesLonger(boundaries, cs, os[i]);
        cs := cs + [os[i]];
        boundaries := boundaries + {os[i].startFrame, os[i].endFrame};
      }
    }
    assert os[..|os|] == os;
  }

  lemma {:induction false} PointsOfBoundaries(points: seq<int>, boundaries: set<int>, cs: seq<Overlay>)
    requires Increasing(points) && (forall p :: p in points <==> p in boundaries)
    requires HasBoundaries(boundaries, cs) && (forall o :: o in cs ==> Canonical(o))
    ensures Points(points, cs)
  {
    assert 0 in points;
    var z :| 0 <= z < |points| && points[z] == 0;
    assert points[0] in boundaries;
    assert points[0] >= 0;
    assert points[0] <= points[z];
    forall i | 0 < i < |points| ensures IsBoundary(points[i], cs) {
      assert points[i] in boundaries;
      assert points[0] < points[i];
    }
  }

  /** Bottom to top: a lower z_index first, and on equal z_index the smaller id. */
  ghost predicate BottomToTop(w: OverlayWindow) {
    forall i, j :: 0 <= i < j < |w.overlays| ==>
      && w.overlays[i].zIndex <= w.overlays[j].zIndex
      && (w.overlays[i].zIndex == w.overlays[j].zIndex ==>
            || w.overlays[i].id <= w.overlays[j].id
            || exists k: nat :: Orders.SmallerAt(w.overlays[i].id, w.overlays[j].id, k))
  }

  lemma {:induction false} StackedBottomToTop(ws: seq<OverlayWindow>)
    requires AllStacked(ws)
    ensures forall n :: 0 <= n < |ws| ==> BottomToTop(ws[n])
  {
    forall n | 0 <= n < |ws| ensures BottomToTop(ws[n]) {
      var os := ws[n].overlays;
      forall i, j | 0 <= i < j < |os|
        ensures os[i].zIndex <= os[j].zIndex
        ensures os[i].zIndex == os[j].zIndex ==>
                  os[i].id <= os[j].id || exists k: nat :: Orders.SmallerAt(os[i].id, os[j].id, k)
      {
        assert Below(os[i], os[j]);
        Orders.LexExactly(os[i].id, os[j].id);
      }
    }
  }

  method ResolveOverlayWindows(os: seq<Overlay>, total: int) returns (r: WindowsResult)
    requires forall i :: 0 <= i < |os| ==> InRange(os[i])
    ensures r.WindowList? <==> Normalizes(os) && Valid(NormalizeAll(os), total)
    ensures r.WindowList? ==> Sweep(r.windows, Composites(NormalizeAll(os)))
    ensures r.WindowList? ==> forall n :: 0 <= n < |r.windows| ==> BottomToTop(r.windows[n])
  {
    var normalized := NormalizeOverlayWindows(os);
    if normalized.BadList? {
      return InvalidOverlays;
    }
    NormalizeAllCanonical(os);
    var ok := ValidateOverlays(normalized.overlays, total);
    if !ok {
      return InvalidOverlays;
    }
    var cs, boundaries := CollectComposites(normalized.overlays);
    if |cs| == 0 {
      return WindowList([]);
    }
    var points := SortedPoints(boundaries);
    assert forall o :: o in cs ==> Canonical(o);
    PointsOfBoundaries(points, boundaries, cs);
    var ws := SweepPoints(cs, points);
    StackedBottomToTop(ws);
    return WindowList(ws);
  }
}
