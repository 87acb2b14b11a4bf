/** Editorial overlays: normalization of their frame windows and validation of a list. */
module Overlays {
  import opened FrameTime
  import Orders
  import Text

  const REPLACE := "replace"
  const COMPOSITE := "composite"
  const PRESERVE_FINAL_AUDIO := "preserve_final_audio"

  datatype Overlay = Overlay(
    id: string,
    assetId: string,
    driveFileId: string,
    url: string,
    sha256: string,
    startFrame: int,
    endFrame: int,
    frameCount: int,
    mode: string,
    zIndex: int,
    audioMode: string)

  datatype Normalized = Window(overlay: Overlay) | BadWindow

  /** Makes start, end and count agree; a missing end or a missing count is derived from the other. */
  function NormalizeWindow(o: Overlay): Normalized {
    if o.startFrame < 0 then BadWindow
    else if o.endFrame > 0 then
      if o.endFrame <= o.startFrame then BadWindow
      else if o.frameCount > 0 && Wrap64(o.startFrame + o.frameCount) != o.endFrame then BadWindow
      else Window(o.(frameCount := o.endFrame - o.startFrame))
    else if o.frameCount <= 0 then BadWindow
    else
      var end := Wrap64(o.startFrame + o.frameCount);
      if end <= o.startFrame then BadWindow else Window(o.(endFrame := end))
  }

  /** The canonical form: a non-empty half-open window with both fields populated. */
  predicate Canonical(o: Overlay) {
    0 <= o.startFrame < o.endFrame && o.frameCount == o.endFrame - o.startFrame
  }

  predicate Int64(x: int) { -TWO63 <= x < TWO63 }

  predicate InRange(o: Overlay) {
    Int64(o.startFrame) && Int64(o.endFrame) && Int64(o.frameCount)
  }

  /**
    Normalization yields the canonical window, keeps everything but the derived field, leaves
    canonical overlays alone and therefore is idempotent.
   */
  lemma {:induction false} NormalizeCanonical(o: Overlay)
    requires InRange(o)
    ensures NormalizeWindow(o).Window? ==>
              var n := NormalizeWindow(o).overlay;
              && Canonical(n) && InRange(n)
              && n == o.(endFrame := n.endFrame, frameCount := n.frameCount)
              && (o.endFrame > 0 ==> n.endFrame == o.endFrame)
              && (o.frameCount > 0 ==> n.frameCount == o.frameCount)
              && NormalizeWindow(n) == Window(n)
    ensures Canonical(o) ==> NormalizeWindow(o) == Window(o)
  {
    if o.endFrame <= 0 && o.frameCount > 0 && o.startFrame >= 0 && o.startFrame + o.frameCount >= TWO63 {
      assert Wrap64(o.startFrame + o.frameCount) == o.startFrame + o.frameCount - TWO64;
    }
  }

  /** Exactly which windows are accepted. */
  lemma {:induction false} NormalizeAccepts(o: Overlay)
    requires InRange(o)
    ensures NormalizeWindow(o).Window? <==>
            && o.startFrame >= 0
            && (o.endFrame > 0 || o.frameCount > 0)
            && (o.endFrame > 0 ==> o.startFrame < o.endFrame)
            && (o.endFrame > 0 && o.frameCount > 0 ==> o.startFrame + o.frameCount == o.endFrame)
            && (o.endFrame <= 0 ==> o.startFrame + o.frameCount < TWO63)
  {
    if o.frameCount > 0 && o.startFrame >= 0 && o.startFrame + o.frameCount >= TWO63 {
      assert Wrap64(o.startFrame + o.frameCount) == o.startFrame + o.frameCount - TWO64;
    }
  }

  // ----- normalizing and validating a list

  ghost predicate Normalizes(os: seq<Overlay>) {
    forall i :: 0 <= i < |os| ==> NormalizeWindow(os[i]).Window?
  }

  function NormalizeAll(os: seq<Overlay>): (ns: seq<Overlay>)
    requires Normalizes(os)
    ensures |ns| == |os|
    ensures forall i :: 0 <= i < |os| ==> ns[i] == NormalizeWindow(os[i]).overlay
  {
    if os == [] then [] else [NormalizeWindow(os[0]).overlay] + NormalizeAll(os[1..])
  }

  datatype NormalizedList = Windows(overlays: seq<Overlay>) | BadList

  method NormalizeOverlayWindows(os: seq<Overlay>) returns (r: NormalizedList)
    ensures r.Windows? <==> Normalizes(os)
    ensures r.Windows? ==> r.overlays == NormalizeAll(os)
  {
    var canonical := [];
    for i := 0 to |os|
      invariant |canonical| == i
      invariant forall j :: 0 <= j < i ==> NormalizeWindow(os[j]) == Window(canonical[j])
    {
      var n := NormalizeWindow(os[i]);
      if n.BadWindow? {
        return BadList;
      }
      canonical := canonical + [n.overlay];
    }
    return Windows(canonical);
  }

  predicate Admissible(o: Overlay, total: int) {
    && !Text.Blank(o.id)
    && !Text.Blank(o.assetId)
    && NormalizeWindow(o).Window?
    && NormalizeWindow(o).overlay.endFrame <= total
    && (o.mode == REPLACE || o.mode == COMPOSITE)
    && (o.audioMode == "" || o.audioMode == PRESERVE_FINAL_AUDIO)
  }

  /** The normalized replace overlays of a list. */
  function Replaces(os: seq<Overlay>): (rs: seq<Overlay>) {
    if os == [] then []
    else
      var last := |os| - 1;
      var n := NormalizeWindow(os[last]);
      Replaces(os[..last]) + if os[last].mode == REPLACE && n.Window? then [n.overlay] else []
  }

  predicate Apart(a: Overlay, b: Overlay) {
    a.endFrame <= b.startFrame || b.endFrame <= a.startFrame
  }

  /** Valid editorial intent against a base of `total` frames. */
  ghost predicate Valid(os: seq<Overlay>, total: int) {
    && total > 0
    && EachValid(os, total)
    && Orders.Pairwise(Apart, Replaces(os))
  }

  predicate StartsBefore(a: Overlay, b: Overlay) {
    a.startFrame < b.startFrame || (a.startFrame == b.startFrame && Orders.LexLeq(a.id, b.id))
  }

  lemma {:induction false} StartsBeforeOrder()
    ensures Orders.Total(StartsBefore) && Orders.Transitive(StartsBefore)
  {
    Orders.LexIsOrder();
  }

  function StartOf(o: Overlay): int { o.startFrame }
  function EndOf(o: Overlay): int { o.endFrame }

  ghost predicate NeighboursClear(sorted: seq<Overlay>) {
    forall i :: 0 < i < |sorted| ==> sorted[i - 1].endFrame <= sorted[i].startFrame
  }

  lemma {:induction false} NeighboursThenPairs(sorted: seq<Overlay>)
    requires forall i :: 0 <= i < |sorted| ==> sorted[i].startFrame < sorted[i].endFrame
    requires NeighboursClear(sorted)
    ensures Orders.Pairwise(Apart, sorted)
  {
    forall j, k | 0 <= j < k < |sorted| ensures Apart(sorted[j], sorted[k]) {
      Orders.NeighboursSuffice(StartOf, EndOf, sorted, j, k);
    }
  }

  lemma {:induction false} PairsThenNeighbours(sorted: seq<Overlay>)
    requires forall i :: 0 <= i < |sorted| ==> sorted[i].startFrame < sorted[i].endFrame
    requires Orders.Sorted(StartsBefore, sorted) && Orders.Pairwise(Apart, sorted)
    ensures NeighboursClear(sorted)
  {
    forall i | 0 < i < |sorted| ensures sorted[i - 1].endFrame <= sorted[i].startFrame {
      assert Apart(sorted[i - 1], sorted[i]) && StartsBefore(sorted[i - 1], sorted[i]);
    }
  }

  /** Checking neighbours after sorting finds every overlap between replace overlays. */
  lemma {:induction false} SortedNeighboursDecide(rs: seq<Overlay>)
    requires forall i :: 0 <= i < |rs| ==> rs[i].startFrame < rs[i].endFrame
    ensures Orders.Pairwise(Apart, rs) <==> NeighboursClear(Orders.Sort(StartsBefore, rs))
  {
    var sorted := Orders.Sort(StartsBefore, rs);
    assert forall i :: 0 <= i < |sorted| ==> sorted[i].startFrame < sorted[i].endFrame by {
      Orders.MembersOfPermutation(sorted, rs);
      assert forall i :: 0 <= i < |sorted| ==> sorted[i] in rs;
    }
    if NeighboursClear(sorted) {
      NeighboursThenPairs(sorted);
      Orders.PairwiseOfPermutation(Apart, sorted, rs);
    }
    if Orders.Pairwise(Apart, rs) {
      Orders.PairwiseOfPermutation(Apart, rs, sorted);
      StartsBeforeOrder();
      Orders.SortSorted(StartsBefore, rs);
      PairsThenNeighbours(sorted);
    }
  }

  lemma {:induction false} ReplacesWindows(os: seq<Overlay>)
    requires forall i :: 0 <= i < |os| ==> InRange(os[i])
    ensures forall i :: 0 <= i < |Replaces(os)| ==> Canonical(Replaces(os)[i])
  {
    if os == [] {
    } else {
      ReplacesWindows(os[..|os| - 1]);
      NormalizeCanonical(os[|os| - 1]);
    }
  }

  ghost predicate EachValid(os: seq<Overlay>, total: int) {
    && (forall i :: 0 <= i < |os| ==> Admissible(os[i], total))
    && (forall i, j :: 0 <= i < j < |os| ==> Text.Trim(os[i].id) != Text.Trim(os[j].id))
  }

  ghost predicate TrimmedIds(seen: set<string>, os: seq<Overlay>) {
    forall x :: x in seen <==> exists j :: 0 <= j < |os| && Text.Trim(os[j].id) == x
  }

  lemma {:induction false} EachValidStep(os: seq<Overlay>, seen: set<string>, o: Overlay, total: int)
    requires TrimmedIds(seen, os)
    ensures EachValid(os + [o], total) <==> EachValid(os, total) && Text.Trim(o.id) !in seen && Admissible(o, total)
    ensures TrimmedIds(seen + {Text.Trim(o.id)}, os + [o])
  {
    var all := os + [o];
    assert forall i :: 0 <= i < |os| ==> all[i] == os[i];
    assert all[|os|] == o;
    if EachValid(all, total) {
      assert Admissible(all[|os|], total);
      forall i | 0 <= i < |os| ensures Text.Trim(os[i].id) != Text.Trim(o.id) {
        assert Text.Trim(all[i].id) != Text.Trim(all[|os|].id);
      }
      forall i | 0 <= i < |os| ensures Admissible(os[i], total) {
        assert Admissible(all[i], total);
      }
      forall i, j | 0 <= i < j < |os| ensures Text.Trim(os[i].id) != Text.Trim(os[j].id) {
        assert Text.Trim(all[i].id) != Text.Trim(all[j].id);
      }
    }
  }

  /** A violation by a prefix is a violation of the whole list. */
  lemma {:induction false} EachValidPrefix(os: seq<Overlay>, n: nat, total: int)
    requires n <= |os|
    ensures EachValid(os, total) ==> EachValid(os[..n], total)
  {}

  lemma {:induction false} ReplacesStep(os: seq<Overlay>, o: Overlay)
    ensures Replaces(os + [o]) == Replaces(os) + if o.mode == REPLACE &&
        NormalizeWindow(o).Window? then [NormalizeWindow(o).overlay] else []
  {
    assert (os + [o])[..|os|] == os;
  }

  lemma {:induction false} EachValidAt(os: seq<Overlay>, i: nat, seen: set<string>, total: int)
    requires i < |os| && EachValid(os[..i], total) && TrimmedIds(seen, os[..i])
    ensures EachValid(os[..i + 1], total) <==> Text.Trim(os[i].id) !in seen && Admissible(os[i], total)
    ensures TrimmedIds(seen + {Text.Trim(os[i].id)}, os[..i + 1])
    ensures EachValid(os, total) ==> EachValid(os[..i + 1], total)
    ensures Replaces(os[..i + 1]) ==
            Replaces(os[..i]) + if os[i].mode == REPLACE &&
                NormalizeWindow(os[i]).Window? then [NormalizeWindow(os[i]).overlay] else []
  {
    assert os[..i + 1] == os[..i] + [os[i]];
    EachValidStep(os[..i], seen, os[i], total);
    EachValidPrefix(os, i + 1, total);
    ReplacesStep(os[..i], os[i]);
  }

  /** The per-overlay checks; collects the normalized replace overlays on the way. */
  method CheckEach(os: seq<Overlay>, total: int) returns (ok: bool, replacements: seq<Overlay>)
    ensures ok <==> EachValid(os, total)
    ensures ok ==> replacements == Replaces(os)
  {
    var seen: set<string> := {};
    replacements := [];
    for i := 0 to |os|
      invariant EachValid(os[..i], total) && TrimmedIds(seen, os[..i])
      invariant replacements == Replaces(os[..i])
    {
      EachValidAt(os, i, seen, total);
      var id := Text.Trim(os[i].id);
      if id in seen || !Admissible(os[i], total) {
        return false, replacements;
      }
      seen := seen + {id};
      if os[i].mode == REPLACE {
        replacements := replacements + [NormalizeWindow(os[i]).overlay];
      }
    }
    assert os[..|os|] == os;
    return true, replacements;
  }

  method CheckNeighbours(sorted: seq<Overlay>) returns (clear: bool)
    ensures clear <==> NeighboursClear(sorted)
  {
    var i := 1;
    while i < |sorted|
      invariant 1 <= i
      invariant forall j :: 0 < j < i && j < |sorted| ==> sorted[j - 1].endFrame <= sorted[j].startFrame
    {
      if sorted[i].startFrame < sorted[i - 1].endFrame {
        return false;
      }
      i := i + 1;
    }
    return true;
  }

  method ValidateOverlays(os: seq<Overlay>, total: int) returns (ok: bool)
    requires forall i :: 0 <= i < |os| ==> InRange(os[i])
    ensures ok <==> Valid(os, total)
  {
    if total <= 0 {
      return false;
    }
    var replacements;
    ok, replacements := CheckEach(os, total);
    if !ok {
      return;
    }
    ReplacesWindows(os);
    SortedNeighboursDecide(replacements);
    ok := CheckNeighbours(Orders.Sort(StartsBefore, replacements));
  }

  // ----- validity on the overlays as given

  /** Where an overlay ends: at its end frame, or after its frame count when it has none. */
  function LastFrame(o: Overlay): int {
    if o.endFrame > 0 then o.endFrame else o.startFrame + o.frameCount
  }

  /** What an overlay must satisfy on its own, field by field. */
  predicate Fine(o: Overlay, total: int) {
    && Text.Trim(o.id) != "" && Text.Trim(o.assetId) != ""
    && 0 <= o.startFrame < LastFrame(o) <= total
    && (o.endFrame > 0 && o.frameCount > 0 ==> o.startFrame + o.frameCount == o.endFrame)
    && o.mode in {"replace", "composite"} && o.audioMode in {"", "preserve_final_audio"}
  }

  predicate Int64Total(total: int) { total < 0x8000_0000_0000_0000 }

  lemma {:induction false} AdmissibleExactly(o: Overlay, total: int)
    requires InRange(o) && Int64Total(total)
    ensures Admissible(o, total) <==> Fine(o, total)
    ensures Fine(o, total) ==>
              var n := NormalizeWindow(o).overlay;
              n.startFrame == o.startFrame && n.endFrame == LastFrame(o)
  {
    Text.BlankTrims(o.id);
    Text.BlankTrims(o.assetId);
    NormalizeAccepts(o);
    NormalizeCanonical(o);
  }

  /** Both are replace overlays and share a frame. */
  predicate Collide(a: Overlay, b: Overlay) {
    && a.mode == "replace" && b.mode == "replace"
    && a.startFrame < LastFrame(b) && b.startFrame < LastFrame(a)
  }

  /** Replace overlays among the two are apart once normalized. */
  ghost predicate Clear(a: Overlay, b: Overlay)
    requires NormalizeWindow(a).Window? && NormalizeWindow(b).Window?
  {
    a.mode == REPLACE && b.mode == REPLACE ==> Apart(NormalizeWindow(a).overlay, NormalizeWindow(b).overlay)
  }

  ghost predicate AllClear(os: seq<Overlay>, last: Overlay)
    requires Normalizes(os) && NormalizeWindow(last).Window?
  {
    forall i :: 0 <= i < |os| ==> Clear(os[i], last)
  }

  ghost predicate AllApart(os: seq<Overlay>, w: Overlay) {
    forall k :: 0 <= k < |os| ==> Apart(os[k], w)
  }

  lemma {:induction false} ApartStep(os: seq<Overlay>, o: Overlay, w: Overlay)
    ensures AllApart(os + [o], w) <==> AllApart(os, w) && Apart(o, w)
  {
    var all := os + [o];
    assert all[|os|] == o && forall k :: 0 <= k < |os| ==> all[k] == os[k];
    if AllApart(all, w) {
      assert Apart(all[|os|], w);
      assert forall k :: 0 <= k < |os| ==> Apart(all[k], w);
    }
  }

  lemma {:induction false} ClearStep(os: seq<Overlay>, last: Overlay)
    requires Normalizes(os) && NormalizeWindow(last).Window? && os != []
    ensures AllClear(os, last) <==> AllClear(os[..|os| - 1], last) && Clear(os[|os| - 1], last)
  {
    var n := |os| - 1;
    assert forall i :: 0 <= i < n ==> os[..n][i] == os[i];
    if AllClear(os[..n], last) && Clear(os[n], last) {
      forall i | 0 <= i < |os| ensures Clear(os[i], last) {
        assert i < n ==> Clear(os[..n][i], last);
      }
    }
  }

  lemma {:induction false} LastClear(init: seq<Overlay>, last: Overlay)
    requires Normalizes(init) && NormalizeWindow(last).Window? && last.mode == REPLACE
    ensures AllApart(Replaces(init), NormalizeWindow(last).overlay) <==> AllClear(init, last)
  {
    if init == [] {
    } else {
      var n, w := |init| - 1, NormalizeWindow(last).overlay;
      LastClear(init[..n], last);
      ClearStep(init, last);
      if init[n].mode == REPLACE {
        ApartStep(Replaces(init[..n]), NormalizeWindow(init[n]).overlay, w);
      } else {
        assert Replaces(init) == Replaces(init[..n]);
      }
    }
  }

  lemma {:induction false} ReplacesClear(os: seq<Overlay>)
    requires Normalizes(os)
    ensures Orders.Pairwise(Apart, Replaces(os)) <==> forall i, j :: 0 <= i < j < |os| ==> Clear(os[i], os[j])
  {
    if os == [] {
    } else {
      var n := |os| - 1;
      ReplacesClear(os[..n]);
      assert forall i :: 0 <= i < n ==> os[..n][i] == os[i];
      if os[n].mode == REPLACE {
        Orders.PairwiseStep(Apart, Replaces(os[..n]), NormalizeWindow(os[n]).overlay);
        LastClear(os[..n], os[n]);
        assert AllClear(os[..n], os[n]) <==> forall i :: 0 <= i < n ==> Clear(os[i], os[n]);
      } else {
        assert Replaces(os) == Replaces(os[..n]);
        assert forall i :: 0 <= i < n ==> Clear(os[i], os[n]);
      }
    }
  }

  lemma {:induction false} ClearExactly(a: Overlay, b: Overlay, total: int)
    requires InRange(a) && InRange(b) && Int64Total(total) && Fine(a, total) && Fine(b, total)
    ensures NormalizeWindow(a).Window? && NormalizeWindow(b).Window?
    ensures Clear(a, b) <==> !Collide(a, b)
  {
    AdmissibleExactly(a, total);
    AdmissibleExactly(b, total);
  }

  /** A list is valid exactly when every overlay is fine, no id repeats and no two replace overlays collide. */
  lemma {:induction false} ValidExactly(os: seq<Overlay>, total: int)
    requires (forall i :: 0 <= i < |os| ==> InRange(os[i])) && Int64Total(total)
    ensures Valid(os, total) <==>
            && 0 < total && (forall i :: 0 <= i < |os| ==> Fine(os[i], total))
            && (forall i, j :: 0 <= i < j < |os| ==> Text.Trim(os[i].id) != Text.Trim(os[j].id))
            && (forall i, j :: 0 <= i < j < |os| ==> !Collide(os[i], os[j]))
  {
    forall i | 0 <= i < |os| ensures Admissible(os[i], total) <==> Fine(os[i], total) {
      AdmissibleExactly(os[i], total);
    }
    if forall i :: 0 <= i < |os| ==> Fine(os[i], total) {
      forall i, j | 0 <= i < j < |os|
        ensures NormalizeWindow(os[i]).Window? && NormalizeWindow(os[j]).Window?
        ensures Clear(os[i], os[j]) <==> !Collide(os[i], os[j])
      {
        ClearExactly(os[i], os[j], total);
      }
      assert Normalizes(os);
      ReplacesClear(os);
    }
  }
}
