/**
  Overlays applied to a base track: replace overlays are cut in, composite windows are handed out for
  preparation and their finished fragments cut in afterwards.
 */
module OverlayTimeline {
  import opened FrameTime
  import opened VisualTimeline
  import opened VisualFrames
  import opened Cues
  import opened Overlays
  import opened OverlayWindows
  import Orders
  import Text
  import Decimal

  // ----- replace overlays

  function CueOf(o: Overlay): Cue {
    Cue(o.id, o.assetId, o.sha256, o.startFrame, Wrap64(o.startFrame + o.frameCount), "")
  }

  function CuesOf(os: seq<Overlay>): (cues: seq<Cue>)
    ensures |cues| == |os|
    ensures forall i :: 0 <= i < |os| ==> cues[i] == CueOf(os[i])
  {
    if os == [] then [] else [CueOf(os[0])] + CuesOf(os[1..])
  }

  /** The cues cut in for a list of normalized overlays. */
  function ReplaceCues(ns: seq<Overlay>): seq<Cue> {
    CuesOf(Replaces(ns))
  }

  function LastFrame(base: seq<Segment>, n: nat): int
    requires n <= |base|
  {
    if n == 0 then 0 else Max(LastFrame(base, n - 1), EndFrame(base[n - 1]))
  }

  lemma {:induction false} LastFrameOfTiles(base: seq<Segment>, a: int, e: int, n: nat)
    requires Tiles(base, a, e) && 0 <= a && e < TWO63 && n <= |base|
    ensures LastFrame(base, n) == if n == 0 then 0 else base[n - 1].start + base[n - 1].count
  {
    if n == 0 {
    } else {
      LastFrameOfTiles(base, a, e, n - 1);
      TilesInside(base, a, e, n - 1);
    }
  }

  lemma {:induction false} NormalizeAllIdempotent(os: seq<Overlay>)
    requires Normalizes(os) && forall i :: 0 <= i < |os| ==> InRange(os[i])
    ensures Normalizes(NormalizeAll(os)) && NormalizeAll(NormalizeAll(os)) == NormalizeAll(os)
  {
    forall i | 0 <= i < |os| ensures NormalizeWindow(NormalizeAll(os)[i]) == Window(NormalizeAll(os)[i]) {
      NormalizeCanonical(os[i]);
    }
  }

  /** Members of Replaces of a canonical list are the replace overlays themselves. */
  lemma {:induction false} ReplacesMembers(ns: seq<Overlay>)
    requires AllCanonical(ns)
    ensures forall o :: o in Replaces(ns) <==> o in ns && o.mode == REPLACE
  {
    if ns == [] {
    } else {
      var last := |ns| - 1;
      assert ns == ns[..last] + [ns[last]];
      ReplacesMembers(ns[..last]);
      NormalizeCanonical(ns[last]);
    }
  }

  /** Valid replace overlays make cues that fit the base. */
  lemma {:induction false} ReplaceCuesFit(ns: seq<Overlay>, e: int)
    requires AllCanonical(ns) && Valid(ns, e)
    ensures CuesFit(ReplaceCues(ns), e)
  {
    var rs := Replaces(ns);
    ReplacesMembers(ns);
    forall i | 0 <= i < |rs|
      ensures CueOf(rs[i]).endFrame == rs[i].endFrame
      ensures !Text.Blank(rs[i].assetId) && 0 <= rs[i].startFrame < rs[i].endFrame <= e
    {
      assert rs[i] in ns;
      var j :| 0 <= j < |ns| && ns[j] == rs[i];
      assert Admissible(ns[j], e);
      NormalizeCanonical(ns[j]);
    }
    forall i, j | 0 <= i < j < |rs| ensures Disjoint(CueOf(rs[i]), CueOf(rs[j])) {
      assert Apart(rs[i], rs[j]);
    }
  }

  /**
    Replace overlays over a gapless base are always accepted and frame-exact: the result plays the
    same frames, each showing the replace overlay that covers it or else what the base showed.
   */
  lemma {:induction false} ReplaceExact(base: seq<Segment>, ns: seq<Overlay>, a: int, e: nat, rate: Rate)
    requires Playable(base, a, e, rate) && rate.Roomy() && base != []
    requires AllCanonical(ns) && Valid(ns, e)
    ensures LastFrame(base, |base|) == e
    ensures Resolve(base, ToReplacements(ReplaceCues(ns), rate), rate).Ok?
    ensures var out := Resolve(base, ToReplacements(ReplaceCues(ns), rate), rate).segments;
            Playable(out, a, e, rate) && Exact(out, base, ReplaceCues(ns), rate)
  {
    FitsBelow(e, e, rate);
    LastFrameOfTiles(base, a, e, |base|);
    ReplaceCuesFit(ns, e);
    CuesExact(base, ReplaceCues(ns), a, e, rate);
  }

  datatype TimelineResult = Timeline(segments: seq<Segment>, windows: seq<OverlayWindow>) | TimelineError

  lemma {:induction false} ReplacementsStep(ns: seq<Overlay>, o: Overlay, rate: Rate)
    requires Canonical(o) && InRange(o)
    ensures ToReplacements(ReplaceCues(ns + [o]), rate) ==
            ToReplacements(ReplaceCues(ns), rate) + if o.mode == REPLACE then [ToReplacement(CueOf(o), rate)] else []
  {
    ReplacesStep(ns, o);
    NormalizeCanonical(o);
    if o.mode == REPLACE {
      var rs := Replaces(ns);
      assert CuesOf(rs + [o]) == CuesOf(rs) + [CueOf(o)];
      assert ToReplacements(CuesOf(rs) + [CueOf(o)], rate) ==
          ToReplacements(CuesOf(rs), rate) + [ToReplacement(CueOf(o), rate)];
    }
  }

  /** Converts the replace overlays of a normalized list to microsecond replacements. */
  method CollectReplacements(ns: seq<Overlay>, rate: Rate) returns (replacements: seq<Replacement>)
    requires AllCanonical(ns)
    ensures replacements == ToReplacements(ReplaceCues(ns), rate)
  {
    replacements := [];
    ghost var done: seq<Overlay> := [];
    for i := 0 to |ns|
      invariant done == ns[..i]
      invariant replacements == ToReplacements(ReplaceCues(done), rate)
    {
      var o := ns[i];
      ReplacementsStep(done, o, rate);
      done := done + [o];
      if o.mode == REPLACE {
        replacements := replacements + [Replacement(o.id, o.assetId, o.sha256,
          FrameToUS(o.startFrame, rate), FrameToUS(Wrap64(o.startFrame + o.frameCount), rate), "")];
      }
    }
    assert done == ns;
  }

  method ResolveOverlayTimeline(base: seq<Segment>, os: seq<Overlay>, rate: Rate) returns (r: TimelineResult)
    requires forall i :: 0 <= i < |os| ==> InRange(os[i])
    ensures r.Timeline? <==>
            && base != [] && rate.Positive()
            && Normalizes(os) && Valid(NormalizeAll(os), LastFrame(base, |base|))
            && Resolve(base, ToReplacements(ReplaceCues(NormalizeAll(os)), rate), rate).Ok?
    ensures r.Timeline? ==>
              && Ok(r.segments) == Resolve(base, ToReplacements(ReplaceCues(NormalizeAll(os)), rate), rate)
              && Sweep(r.windows, Composites(NormalizeAll(os)))
  {
    if |base| == 0 || rate.num <= 0 || rate.den <= 0 {
      return TimelineError;
    }
    var total := 0;
    for n := 0 to |base|
      invariant total == LastFrame(base, n)
    {
      if EndFrame(base[n]) > total {
        total := EndFrame(base[n]);
      }
    }
    var normalized := NormalizeOverlayWindows(os);
    if normalized.BadList? {
      return TimelineError;
    }
    NormalizeAllCanonical(os);
    NormalizeAllIdempotent(os);
    var ns := normalized.overlays;
    var ok := ValidateOverlays(ns, total);
    if !ok {
      return TimelineError;
    }
    var replacements := CollectReplacements(ns, rate);
    var resolved := ResolveVisualReplacements(base, replacements, rate);
    if resolved.Err? {
      return TimelineError;
    }
    var windows := ResolveOverlayWindows(ns, total);
    return Timeline(resolved.segments, windows.windows);
  }

  // ----- prepared fragments

  datatype Fragment = Fragment(windowId: string, assetId: string, sha256: string, profileId: string)

  predicate WellFormed(f: Fragment) {
    !Text.Blank(f.windowId) && !Text.Blank(f.assetId) && !Text.Blank(f.profileId)
  }

  predicate OtherWindow(f: Fragment, g: Fragment) {
    f.windowId != g.windowId
  }

  ghost predicate FragmentsOk(fs: seq<Fragment>) {
    && (forall i :: 0 <= i < |fs| ==> WellFormed(fs[i]))
    && Orders.Pairwise(OtherWindow, fs)
  }

  function FragmentMap(fs: seq<Fragment>): map<string, Fragment> {
    if fs == [] then map[]
    else FragmentMap(fs[..|fs| - 1])[fs[|fs| - 1].windowId := fs[|fs| - 1]]
  }

  ghost predicate AllPrepared(ws: seq<OverlayWindow>, m: map<string, Fragment>) {
    forall k :: 0 <= k < |ws| ==> ws[k].windowId in m
  }

  function FragmentCue(w: OverlayWindow, f: Fragment): Cue {
    Cue(w.windowId, f.assetId, f.sha256, w.startFrame, Wrap64(w.startFrame + w.frameCount), f.profileId)
  }

  function FragmentCues(ws: seq<OverlayWindow>, m: map<string, Fragment>): (cues: seq<Cue>)
    requires AllPrepared(ws, m)
    ensures |cues| == |ws|
    ensures forall k :: 0 <= k < |ws| ==> cues[k] == FragmentCue(ws[k], m[ws[k].windowId])
  {
    if ws == [] then [] else [FragmentCue(ws[0], m[ws[0].windowId])] + FragmentCues(ws[1..], m)
  }

  lemma {:induction false} FragmentMapKeys(fs: seq<Fragment>)
    ensures forall x :: x in FragmentMap(fs) <==> exists i :: 0 <= i < |fs| && fs[i].windowId == x
  {
    if fs == [] {
    } else {
      var last := |fs| - 1;
      FragmentMapKeys(fs[..last]);
      forall x ensures x in FragmentMap(fs) <==> exists i :: 0 <= i < |fs| && fs[i].windowId == x {
        if x in FragmentMap(fs[..last]) {
          var i :| 0 <= i < |fs[..last]| && fs[..last][i].windowId == x;
          assert fs[i].windowId == x;
        } else {
          assert forall i :: 0 <= i < last ==> fs[i] == fs[..last][i];
          assert fs[last].windowId == x ==> x in FragmentMap(fs);
        }
      }
    }
  }

  /** Every fragment is found under its window. */
  lemma {:induction false} FragmentMapFinds(fs: seq<Fragment>, i: nat)
    requires Orders.Pairwise(OtherWindow, fs) && i < |fs|
    ensures fs[i].windowId in FragmentMap(fs) && FragmentMap(fs)[fs[i].windowId] == fs[i]
    decreases |fs|
  {
    var last := |fs| - 1;
    if i == last {
    } else {
      FragmentMapFinds(fs[..last], i);
      assert OtherWindow(fs[i], fs[last]);
    }
  }

  datatype Applied = Applied(segments: seq<Segment>) | Rejected

  lemma {:induction false} FragmentsStep(fs: seq<Fragment>, f: Fragment)
    ensures FragmentMap(fs + [f]) == FragmentMap(fs)[f.windowId := f]
    ensures FragmentsOk(fs + [f]) <==> FragmentsOk(fs) && WellFormed(f) && f.windowId !in FragmentMap(fs)
  {
    var all := fs + [f];
    assert all[..|fs|] == fs;
    FragmentMapKeys(fs);
    Orders.PairwiseStep(OtherWindow, fs, f);
    assert all[|fs|] == f && forall i :: 0 <= i < |fs| ==> all[i] == fs[i];
    if forall i :: 0 <= i < |all| ==> WellFormed(all[i]) {
      assert WellFormed(all[|fs|]);
      assert forall i :: 0 <= i < |fs| ==> WellFormed(all[i]);
    }
  }

  lemma {:induction false} FragmentsPrefix(fs: seq<Fragment>, n: nat)
    requires n <= |fs|
    ensures FragmentsOk(fs) ==> FragmentsOk(fs[..n])
  {}

  /** A fragment that names its window, its asset and its profile. */
  predicate Complete(f: Fragment) {
    Text.Trim(f.windowId) != "" && Text.Trim(f.assetId) != "" && Text.Trim(f.profileId) != ""
  }

  /** Which fragments serve the windows: complete ones, no two for one window, and one for each. */
  lemma {:induction false} PreparedExactly(ws: seq<OverlayWindow>, fs: seq<Fragment>)
    ensures FragmentsOk(fs) && AllPrepared(ws, FragmentMap(fs)) <==>
            && (forall i :: 0 <= i < |fs| ==> Complete(fs[i]))
            && (forall i, j :: 0 <= i < j < |fs| ==> fs[i].windowId != fs[j].windowId)
            && (forall k :: 0 <= k < |ws| ==> exists i :: 0 <= i < |fs| && fs[i].windowId == ws[k].windowId)
  {
    FragmentMapKeys(fs);
    forall i | 0 <= i < |fs| ensures WellFormed(fs[i]) <==> Complete(fs[i]) {
      Text.BlankTrims(fs[i].windowId);
      Text.BlankTrims(fs[i].assetId);
      Text.BlankTrims(fs[i].profileId);
    }
    assert Orders.Pairwise(OtherWindow, fs) ==> forall i, j :: 0 <= i < j < |fs| ==> OtherWindow(fs[i], fs[j]);
  }

  /** Indexes the fragments by window, refusing incomplete and duplicate ones. */
  method IndexFragments(fs: seq<Fragment>) returns (ok: bool, byWindow: map<string, Fragment>)
    ensures ok <==> FragmentsOk(fs)
    ensures ok ==> byWindow == FragmentMap(fs)
  {
    byWindow := map[];
    for i := 0 to |fs|
      invariant FragmentsOk(fs[..i]) && byWindow == FragmentMap(fs[..i])
    {
      FragmentsStep(fs[..i], fs[i]);
      FragmentsPrefix(fs, i + 1);
      assert fs[..i + 1] == fs[..i] + [fs[i]];
      if !WellFormed(fs[i]) || fs[i].windowId in byWindow {
        return false, byWindow;
      }
      byWindow := byWindow[fs[i].windowId := fs[i]];
    }
    assert fs[..|fs|] == fs;
    return true, byWindow;
  }

  /** Places each window's fragment on the timeline. */
  method PlaceFragments(ws: seq<OverlayWindow>, byWindow: map<string, Fragment>, rate: Rate)
    returns (ok: bool, replacements: seq<Replacement>)
    ensures ok <==> AllPrepared(ws, byWindow)
    ensures ok ==> replacements == ToReplacements(FragmentCues(ws, byWindow), rate)
  {
    replacements := [];
    for k := 0 to |ws|
      invariant |replacements| == k
      invariant forall j :: 0 <= j < k ==> ws[j].windowId in byWindow
      invariant forall j :: 0 <= j < k ==>
            replacements[j] == ToReplacement(FragmentCue(ws[j], byWindow[ws[j].windowId]), rate)
    {
      if ws[k].windowId !in byWindow {
        return false, replacements;
      }
      var f := byWindow[ws[k].windowId];
      replacements := replacements + [Replacement(ws[k].windowId, f.assetId, f.sha256,
        FrameToUS(ws[k].startFrame, rate), FrameToUS(Wrap64(ws[k].startFrame + ws[k].frameCount), rate), f.profileId)];
    }
    return true, replacements;
  }

  method ApplyPreparedOverlayFragments(
    base: seq<Segment>, ws: seq<OverlayWindow>, fs: seq<Fragment>, rate: Rate)
    returns (r: Applied)
    ensures r.Applied? <==>
            && |ws| == |fs| && FragmentsOk(fs) && AllPrepared(ws, FragmentMap(fs))
            && Resolve(base, ToReplacements(FragmentCues(ws, FragmentMap(fs)), rate), rate).Ok?
    ensures r.Applied? ==> Ok(r.segments) == Resolve(base, ToReplacements(FragmentCues(ws, FragmentMap(fs)), rate),
        rate)
  {
    if |ws| != |fs| {
      return Rejected;
    }
    var ok, byWindow := IndexFragments(fs);
    if !ok {
      return Rejected;
    }
    var replacements;
    ok, replacements := PlaceFragments(ws, byWindow, rate);
    if !ok {
      return Rejected;
    }
    var resolved := ResolveVisualReplacements(base, replacements, rate);
    return if resolved.Ok? then Applied(resolved.segments) else Rejected;
  }

  // ----- the two stages together

  lemma {:induction false} WindowIdsDiffer(m: nat, n: nat)
    requires m != n
    ensures WindowId(m) != WindowId(n)
  {
    Decimal.ValueOfPadded(m, 6);
    Decimal.ValueOfPadded(n, 6);
    var prefix := "overlay-window-";
    assert WindowId(m)[|prefix|..] == Decimal.Padded(m, 6);
    assert WindowId(n)[|prefix|..] == Decimal.Padded(n, 6);
  }

  /** One well-formed fragment for each window, listed in window order. */
  ghost predicate Prepares(prepared: seq<Fragment>, ws: seq<OverlayWindow>) {
    |prepared| == |ws| && forall k :: 0 <= k < |ws| ==>
        WellFormed(prepared[k]) && prepared[k].windowId == ws[k].windowId
  }

  lemma {:induction false} PreparedApart(ws: seq<OverlayWindow>, prepared: seq<Fragment>)
    requires Numbered(ws) && Prepares(prepared, ws)
    ensures Orders.Pairwise(OtherWindow, prepared)
  {
    forall i, j | 0 <= i < j < |prepared| ensures OtherWindow(prepared[i], prepared[j]) {
      WindowIdsDiffer(i, j);
      assert prepared[i].windowId == WindowId(i) && prepared[j].windowId == WindowId(j);
    }
  }

  lemma {:induction false} ArrivedFragmentsOk(ws: seq<OverlayWindow>, prepared: seq<Fragment>, fs: seq<Fragment>)
    requires Numbered(ws) && Prepares(prepared, ws) && multiset(fs) == multiset(prepared)
    ensures |fs| == |ws| && FragmentsOk(fs)
  {
    assert |fs| == |multiset(fs)| == |multiset(prepared)| == |prepared|;
    PreparedApart(ws, prepared);
    Orders.PairwiseOfPermutation(OtherWindow, prepared, fs);
    Orders.MembersOfPermutation(fs, prepared);
    forall i | 0 <= i < |fs| ensures WellFormed(fs[i]) {
      assert fs[i] in prepared;
      var k :| 0 <= k < |prepared| && prepared[k] == fs[i];
    }
  }

  /** In whatever order the fragments arrive, each window finds its own. */
  lemma {:induction false} FragmentsFound(ws: seq<OverlayWindow>, prepared: seq<Fragment>, fs: seq<Fragment>)
    requires Numbered(ws) && Prepares(prepared, ws) && multiset(fs) == multiset(prepared)
    ensures AllPrepared(ws, FragmentMap(fs))
    ensures forall k :: 0 <= k < |ws| ==> FragmentMap(fs)[ws[k].windowId] == prepared[k]
  {
    ArrivedFragmentsOk(ws, prepared, fs);
    Orders.MembersOfPermutation(fs, prepared);
    forall k | 0 <= k < |ws| ensures ws[k].windowId in FragmentMap(fs) &&
        FragmentMap(fs)[ws[k].windowId] == prepared[k] {
      assert prepared[k] in fs;
      var i :| 0 <= i < |fs| && fs[i] == prepared[k];
      FragmentMapFinds(fs, i);
    }
  }

  /** Windows of valid overlays stay inside the base. */
  lemma {:induction false} WindowInside(w: OverlayWindow, ns: seq<Overlay>, e: int)
    requires AllCanonical(ns) && Valid(ns, e) && Constant(w, Composites(ns))
    ensures w.endFrame <= e
  {
    var f := w.endFrame - 1;
    assert Holds(w, f);
    var o := w.overlays[0];
    LayerMembers(Composites(ns), f, o);
    var i :| 0 <= i < |ns| && ns[i] == o;
    assert Admissible(ns[i], e);
    NormalizeCanonical(ns[i]);
  }

  lemma {:induction false} FragmentCuesFit(
    ws: seq<OverlayWindow>, ns: seq<Overlay>, prepared: seq<Fragment>, fs: seq<Fragment>, e: int)
    requires AllCanonical(ns) && Valid(ns, e) && e < TWO63 && Sweep(ws, Composites(ns))
    requires Prepares(prepared, ws) && multiset(fs) == multiset(prepared)
    ensures FragmentsOk(fs) && AllPrepared(ws, FragmentMap(fs))
    ensures CuesFit(FragmentCues(ws, FragmentMap(fs)), e)
  {
    ArrivedFragmentsOk(ws, prepared, fs);
    FragmentsFound(ws, prepared, fs);
    var cues := FragmentCues(ws, FragmentMap(fs));
    forall k | 0 <= k < |ws|
      ensures cues[k].startFrame == ws[k].startFrame && cues[k].endFrame == ws[k].endFrame
      ensures !Text.Blank(cues[k].assetId) && 0 <= cues[k].startFrame < cues[k].endFrame <= e
    {
      assert Constant(ws[k], Composites(ns));
      WindowInside(ws[k], ns, e);
      assert WellFormed(prepared[k]);
    }
    forall j, k | 0 <= j < k < |cues| ensures Disjoint(cues[j], cues[k]) {
      assert ws[j].endFrame <= ws[k].startFrame;
    }
  }

  /**
    Composition never fails: the windows of the sweep, with one well-formed fragment each in any
    order, are cut into any gapless base of the same length without error, and frame-exactly.
   */
  lemma {:induction false} FragmentsExact(
    base: seq<Segment>, ns: seq<Overlay>, ws: seq<OverlayWindow>, prepared: seq<Fragment>, fs: seq<Fragment>, a: int,
    e: nat, rate: Rate)
    requires Playable(base, a, e, rate) && rate.Roomy() && base != []
    requires AllCanonical(ns) && Valid(ns, e) && Sweep(ws, Composites(ns))
    requires Prepares(prepared, ws) && multiset(fs) == multiset(prepared)
    ensures |ws| == |fs| && FragmentsOk(fs) && AllPrepared(ws, FragmentMap(fs))
    ensures Resolve(base, ToReplacements(FragmentCues(ws, FragmentMap(fs)), rate), rate).Ok?
    ensures var out := Resolve(base, ToReplacements(FragmentCues(ws, FragmentMap(fs)), rate), rate).segments;
            Playable(out, a, e, rate) && Exact(out, base, FragmentCues(ws, FragmentMap(fs)), rate)
  {
    FitsBelow(e, e, rate);
    ArrivedFragmentsOk(ws, prepared, fs);
    FragmentCuesFit(ws, ns, prepared, fs, e);
    CuesExact(base, FragmentCues(ws, FragmentMap(fs)), a, e, rate);
  }

  function ReplaceStage(base: seq<Segment>, ns: seq<Overlay>, rate: Rate): Resolved {
    Resolve(base, ToReplacements(ReplaceCues(ns), rate), rate)
  }

  ghost function FragmentStage(base: seq<Segment>, ws: seq<OverlayWindow>, fs: seq<Fragment>, rate: Rate): Resolved
    requires AllPrepared(ws, FragmentMap(fs))
  {
    Resolve(base, ToReplacements(FragmentCues(ws, FragmentMap(fs)), rate), rate)
  }

  /** Everything both stages are given: a gapless base, valid overlays, their windows and fragments. */
  ghost predicate Scene(
    base: seq<Segment>, ns: seq<Overlay>, ws: seq<OverlayWindow>, prepared: seq<Fragment>, fs: seq<Fragment>, a: int,
    e: nat, rate: Rate)
  {
    && Playable(base, a, e, rate) && rate.Roomy() && base != []
    && AllCanonical(ns) && Valid(ns, e) && Sweep(ws, Composites(ns))
    && Prepares(prepared, ws) && multiset(fs) == multiset(prepared)
  }

  /** Replacing and then composing always succeeds and keeps the frame range. */
  lemma {:induction false} ScenePlays(
    base: seq<Segment>, ns: seq<Overlay>, ws: seq<OverlayWindow>, prepared: seq<Fragment>, fs: seq<Fragment>, a: int,
    e: nat, rate: Rate)
    requires Scene(base, ns, ws, prepared, fs, a, e, rate)
    ensures AllPrepared(ws, FragmentMap(fs))
    ensures ReplaceStage(base, ns, rate).Ok? && FragmentStage(ReplaceStage(base, ns, rate).segments, ws, fs, rate).Ok?
    ensures var out := ReplaceStage(base, ns, rate).segments;
            var final := FragmentStage(out, ws, fs, rate).segments;
            && Playable(out, a, e, rate) && Exact(out, base, ReplaceCues(ns), rate)
            && Playable(final, a, e, rate) && Exact(final, out, FragmentCues(ws, FragmentMap(fs)), rate)
  {
    ReplaceExact(base, ns, a, e, rate);
    var out := ReplaceStage(base, ns, rate).segments;
    TilesInside(base, a, e, 0);
    FragmentsExact(out, ns, ws, prepared, fs, a, e, rate);
  }

  /** A frame lies in no window exactly when no composite overlay covers it. */
  lemma {:induction false} HeldWhenComposite(ws: seq<OverlayWindow>, ns: seq<Overlay>, f: int)
    requires AllCanonical(ns) && Sweep(ws, Composites(ns))
    ensures Held(ws, f) <==> exists o :: o in ns && o.mode == COMPOSITE && ActiveAt(o, f)
  {
    var cs := Composites(ns);
    if Held(ws, f) {
      var k :| 0 <= k < |ws| && Holds(ws[k], f);
      assert Constant(ws[k], cs);
      LayerMembers(cs, f, ws[k].overlays[0]);
    }
    if exists o :: o in ns && o.mode == COMPOSITE && ActiveAt(o, f) {
      var o :| o in ns && o.mode == COMPOSITE && ActiveAt(o, f);
      LayerMembers(cs, f, o);
    }
  }

  /** The cue a replace overlay becomes plays on the overlay's own window. */
  lemma {:induction false} ReplaceOnCue(ns: seq<Overlay>, o: Overlay, f: int)
    requires AllCanonical(ns) && o in ns
    ensures OnCue(CueOf(o), f) <==> ActiveAt(o, f)
    ensures o.mode == REPLACE ==> CueOf(o) in ReplaceCues(ns)
  {
    var i :| 0 <= i < |ns| && ns[i] == o;
    ReplacesMembers(ns);
    if o.mode == REPLACE {
      var j :| 0 <= j < |Replaces(ns)| && Replaces(ns)[j] == o;
      assert ReplaceCues(ns)[j] == CueOf(o);
    }
  }

  lemma {:induction false} FragmentOnCue(
    ws: seq<OverlayWindow>, cs: seq<Overlay>, prepared: seq<Fragment>, fs: seq<Fragment>, e: int, n: nat, f: int)
    requires Sweep(ws, cs) && Prepares(prepared, ws) && multiset(fs) == multiset(prepared)
    requires n < |ws| && ws[n].endFrame <= e < TWO63
    ensures AllPrepared(ws, FragmentMap(fs))
    ensures FragmentCue(ws[n], prepared[n]) in FragmentCues(ws, FragmentMap(fs))
    ensures OnCue(FragmentCue(ws[n], prepared[n]), f) <==> Holds(ws[n], f)
  {
    FragmentsFound(ws, prepared, fs);
    assert Constant(ws[n], cs);
    assert FragmentCues(ws, FragmentMap(fs))[n] == FragmentCue(ws[n], prepared[n]);
  }

  /** Inside a composite window the final track shows that window's fragment. */
  lemma {:induction false} WindowFrame(
    base: seq<Segment>, ns: seq<Overlay>, ws: seq<OverlayWindow>, prepared: seq<Fragment>, fs: seq<Fragment>, a: int,
    e: nat, rate: Rate, out: seq<Segment>, final: seq<Segment>, j: nat, k: nat, n: nat, f: int)
    requires Scene(base, ns, ws, prepared, fs, a, e, rate)
    requires AllPrepared(ws, FragmentMap(fs)) && Exact(final, out, FragmentCues(ws, FragmentMap(fs)), rate)
    requires j < |out| && k < |final| && Covers(out[j], f) && Covers(final[k], f)
    requires n < |ws| && Holds(ws[n], f)
    ensures 0 <= final[k].start && 0 <= out[j].start && 0 <= f
    ensures Play(final[k], f, rate) == CueShot(FragmentCue(ws[n], prepared[n]), out[j], f, rate)
  {
    assert Constant(ws[n], Composites(ns));
    WindowInside(ws[n], ns, e);
    FitsBelow(e, e, rate);
    FragmentOnCue(ws, Composites(ns), prepared, fs, e, n, f);
    assert FrameExact(final[k], out[j], FragmentCues(ws, FragmentMap(fs)), f, rate);
  }

  /** Outside every composite window the final track shows what the replace stage left there. */
  lemma {:induction false} UnheldFrame(
    base: seq<Segment>, ns: seq<Overlay>, ws: seq<OverlayWindow>, prepared: seq<Fragment>, fs: seq<Fragment>, a: int,
    e: nat, rate: Rate, out: seq<Segment>, final: seq<Segment>, j: nat, k: nat, f: int)
    requires Scene(base, ns, ws, prepared, fs, a, e, rate)
    requires AllPrepared(ws, FragmentMap(fs)) && Exact(final, out, FragmentCues(ws, FragmentMap(fs)), rate)
    requires j < |out| && k < |final| && Covers(out[j], f) && Covers(final[k], f)
    requires !Held(ws, f)
    ensures 0 <= final[k].start && 0 <= out[j].start && 0 <= f
    ensures Play(final[k], f, rate) == Play(out[j], f, rate)
  {
    var cues := FragmentCues(ws, FragmentMap(fs));
    FitsBelow(e, e, rate);
    FragmentsFound(ws, prepared, fs);
    forall c | c in cues ensures !OnCue(c, f) {
      var n :| 0 <= n < |cues| && cues[n] == c;
      assert Constant(ws[n], Composites(ns));
      WindowInside(ws[n], ns, e);
      FragmentOnCue(ws, Composites(ns), prepared, fs, e, n, f);
      assert !Holds(ws[n], f);
    }
    assert FrameExact(final[k], out[j], cues, f, rate);
  }

  /**
    What each frame of the finished track shows: the fragment of the composite window holding it, or
    else the replace overlay covering it, or else the base at the base's own source position.
   */
  lemma {:induction false} SceneFrame(
    base: seq<Segment>, ns: seq<Overlay>, ws: seq<OverlayWindow>, prepared: seq<Fragment>, fs: seq<Fragment>, a: int,
    e: nat, rate: Rate, out: seq<Segment>, final: seq<Segment>, i: nat, j: nat, k: nat, f: int)
    requires Scene(base, ns, ws, prepared, fs, a, e, rate) && AllPrepared(ws, FragmentMap(fs))
    requires ReplaceStage(base, ns, rate) == Ok(out) && FragmentStage(out, ws, fs, rate) == Ok(final)
    requires i < |base| && j < |out| && k < |final| && Covers(base[i], f) && Covers(out[j], f) && Covers(final[k], f)
    ensures 0 <= final[k].start && 0 <= out[j].start && 0 <= base[i].start && 0 <= f
    ensures forall n :: 0 <= n < |ws| && Holds(ws[n], f) ==>
              Play(final[k], f, rate) == CueShot(FragmentCue(ws[n], prepared[n]), out[j], f, rate)
    ensures !Held(ws, f) ==> forall o :: o in ns && o.mode == REPLACE && ActiveAt(o, f) ==>
              Play(final[k], f, rate) == CueShot(CueOf(o), base[i], f, rate)
    ensures (forall o :: o in ns ==> !ActiveAt(o, f)) ==> Play(final[k], f, rate) == Play(base[i], f, rate)
  {
    ScenePlays(base, ns, ws, prepared, fs, a, e, rate);
    assert FrameExact(out[j], base[i], ReplaceCues(ns), f, rate);
    assert FrameExact(final[k], out[j], FragmentCues(ws, FragmentMap(fs)), f, rate);
    forall n | 0 <= n < |ws| && Holds(ws[n], f)
      ensures Play(final[k], f, rate) == CueShot(FragmentCue(ws[n], prepared[n]), out[j], f, rate)
    {
      WindowFrame(base, ns, ws, prepared, fs, a, e, rate, out, final, j, k, n, f);
    }
    HeldWhenComposite(ws, ns, f);
    if !Held(ws, f) {
      UnheldFrame(base, ns, ws, prepared, fs, a, e, rate, out, final, j, k, f);
      forall o | o in ns && o.mode == REPLACE && ActiveAt(o, f)
        ensures Play(final[k], f, rate) == CueShot(CueOf(o), base[i], f, rate)
      {
        ReplaceOnCue(ns, o, f);
      }
      if forall o :: o in ns ==> !ActiveAt(o, f) {
        NoCueActive(ns, f);
      }
    }
  }

  lemma {:induction false} NoCueActive(ns: seq<Overlay>, f: int)
    requires AllCanonical(ns) && forall o :: o in ns ==> !ActiveAt(o, f)
    ensures forall c :: c in ReplaceCues(ns) ==> !OnCue(c, f)
  {
    ReplacesMembers(ns);
    forall c | c in ReplaceCues(ns) ensures !OnCue(c, f) {
      var j :| 0 <= j < |ReplaceCues(ns)| && ReplaceCues(ns)[j] == c;
      var o := Replaces(ns)[j];
      assert o in Replaces(ns);
      ReplaceOnCue(ns, o, f);
    }
  }

  // ----- the finished track, field by field

  /**
    At frame `f` the segment plays the given asset from its beginning, counted from frame `from` or from
    frame `home`, whichever is later.
   */
  ghost predicate PlaysFrom(s: Segment, f: nat, rate: Rate, assetId: string, sha256: string, from: int, home: int)
    requires rate.Positive()
  {
    && s.assetId == assetId && s.sha256 == sha256
    && 0 <= s.start && 0 <= from && 0 <= home
    && s.sourceIn + FloorUS(f, rate) - FloorUS(s.start, rate)
       == FloorUS(f, rate) - FloorUS(if from < home then home else from, rate)
  }

  lemma {:induction false} ShotOfCue(s: Segment, c: Cue, home: Segment, f: nat, rate: Rate)
    requires rate.Positive() && 0 <= s.start && 0 <= home.start && 0 <= c.startFrame
    requires Play(s, f, rate) == CueShot(c, home, f, rate)
    ensures PlaysFrom(s, f, rate, c.assetId, c.sha256, c.startFrame, home.start)
  {}

  /** A frame inside a composite window plays that window's fragment, counted from where it was cut in. */
  lemma {:induction false} WindowShows(
    base: seq<Segment>, ns: seq<Overlay>, ws: seq<OverlayWindow>, prepared: seq<Fragment>, fs: seq<Fragment>, a: int,
    e: nat, rate: Rate, out: seq<Segment>, final: seq<Segment>, j: nat, k: nat, n: nat, f: nat)
    requires Scene(base, ns, ws, prepared, fs, a, e, rate) && AllPrepared(ws, FragmentMap(fs))
    requires ReplaceStage(base, ns, rate) == Ok(out) && FragmentStage(out, ws, fs, rate) == Ok(final)
    requires j < |out| && k < |final| && Covers(out[j], f) && Covers(final[k], f)
    requires n < |ws| && ws[n].startFrame <= f < ws[n].endFrame
    ensures PlaysFrom(final[k], f, rate, prepared[n].assetId, prepared[n].sha256, ws[n].startFrame, out[j].start)
  {
    ScenePlays(base, ns, ws, prepared, fs, a, e, rate);
    WindowFrame(base, ns, ws, prepared, fs, a, e, rate, out, final, j, k, n, f);
    assert Constant(ws[n], Composites(ns));
    ShotOfCue(final[k], FragmentCue(ws[n], prepared[n]), out[j], f, rate);
  }

  /** Outside all composite overlays a frame plays the replace overlay covering it, counted likewise. */
  lemma {:induction false} ReplaceShows(
    base: seq<Segment>, ns: seq<Overlay>, ws: seq<OverlayWindow>, prepared: seq<Fragment>, fs: seq<Fragment>, a: int,
    e: nat, rate: Rate, out: seq<Segment>, final: seq<Segment>, i: nat, j: nat, k: nat, o: Overlay, f: nat)
    requires Scene(base, ns, ws, prepared, fs, a, e, rate) && AllPrepared(ws, FragmentMap(fs))
    requires ReplaceStage(base, ns, rate) == Ok(out) && FragmentStage(out, ws, fs, rate) == Ok(final)
    requires i < |base| && j < |out| && k < |final| && Covers(base[i], f) && Covers(out[j], f) && Covers(final[k], f)
    requires forall c :: c in ns && c.mode == "composite" ==> f < c.startFrame || c.endFrame <= f
    requires o in ns && o.mode == "replace" && o.startFrame <= f < o.endFrame
    ensures PlaysFrom(final[k], f, rate, o.assetId, o.sha256, o.startFrame, base[i].start)
  {
    assert ActiveAt(o, f) && 0 <= o.startFrame by {
      ActiveInside(ns, o, f);
    }
    assert !Held(ws, f) by {
      NotHeld(ws, ns, f);
    }
    assert 0 <= final[k].start && 0 <= base[i].start &&
        Play(final[k], f, rate) == CueShot(CueOf(o), base[i], f, rate) by {
      ReplaceFrame(base, ns, ws, prepared, fs, a, e, rate, out, final, i, j, k, o, f);
    }
    assert CueOf(o).startFrame == o.startFrame && CueOf(o).assetId == o.assetId && CueOf(o).sha256 == o.sha256;
    ShotOfCue(final[k], CueOf(o), base[i], f, rate);
  }

  lemma {:induction false} ReplaceFrame(
    base: seq<Segment>, ns: seq<Overlay>, ws: seq<OverlayWindow>, prepared: seq<Fragment>, fs: seq<Fragment>, a: int,
    e: nat, rate: Rate, out: seq<Segment>, final: seq<Segment>, i: nat, j: nat, k: nat, o: Overlay, f: nat)
    requires Scene(base, ns, ws, prepared, fs, a, e, rate) && AllPrepared(ws, FragmentMap(fs))
    requires ReplaceStage(base, ns, rate) == Ok(out) && FragmentStage(out, ws, fs, rate) == Ok(final)
    requires i < |base| && j < |out| && k < |final| && Covers(base[i], f) && Covers(out[j], f) && Covers(final[k], f)
    requires !Held(ws, f) && o in ns && o.mode == REPLACE && ActiveAt(o, f)
    ensures 0 <= final[k].start && 0 <= base[i].start
    ensures Play(final[k], f, rate) == CueShot(CueOf(o), base[i], f, rate)
  {
    SceneFrame(base, ns, ws, prepared, fs, a, e, rate, out, final, i, j, k, f);
  }

  /** Outside all overlays a frame plays what the base played there. */
  lemma {:induction false} BaseShowsThrough(
    base: seq<Segment>, ns: seq<Overlay>, ws: seq<OverlayWindow>, prepared: seq<Fragment>, fs: seq<Fragment>, a: int,
    e: nat, rate: Rate, out: seq<Segment>, final: seq<Segment>, i: nat, j: nat, k: nat, f: nat)
    requires Scene(base, ns, ws, prepared, fs, a, e, rate) && AllPrepared(ws, FragmentMap(fs))
    requires ReplaceStage(base, ns, rate) == Ok(out) && FragmentStage(out, ws, fs, rate) == Ok(final)
    requires i < |base| && j < |out| && k < |final| && Covers(base[i], f) && Covers(out[j], f) && Covers(final[k], f)
    requires forall o :: o in ns ==> f < o.startFrame || o.endFrame <= f
    ensures final[k].start >= 0 && base[i].start >= 0
    ensures final[k].assetId == base[i].assetId && final[k].sha256 == base[i].sha256
    ensures final[k].sourceIn - FloorUS(final[k].start, rate) == base[i].sourceIn - FloorUS(base[i].start, rate)
  {
    SceneFrame(base, ns, ws, prepared, fs, a, e, rate, out, final, i, j, k, f);
    forall o | o in ns ensures !ActiveAt(o, f) {
      ActiveInside(ns, o, f);
    }
  }

  lemma {:induction false} NotHeld(ws: seq<OverlayWindow>, ns: seq<Overlay>, f: int)
    requires AllCanonical(ns) && Sweep(ws, Composites(ns))
    requires forall c :: c in ns && c.mode == "composite" ==> f < c.startFrame || c.endFrame <= f
    ensures !Held(ws, f)
  {
    HeldWhenComposite(ws, ns, f);
    forall o | o in ns && o.mode == COMPOSITE ensures !ActiveAt(o, f) {
      ActiveInside(ns, o, f);
    }
  }

  lemma {:induction false} ActiveInside(ns: seq<Overlay>, o: Overlay, f: int)
    requires AllCanonical(ns) && o in ns
    ensures ActiveAt(o, f) <==> o.startFrame <= f < o.endFrame
    ensures 0 <= o.startFrame
  {
    var n :| 0 <= n < |ns| && ns[n] == o;
    assert Canonical(ns[n]);
  }
}
