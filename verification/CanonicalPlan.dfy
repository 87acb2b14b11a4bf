/**
  The canonical document of a compiled plan and the strict decoder. JSON itself is a parameter: an
  encoder for plans, an encoder for single assets used as a sort key, and a strict parser.
 */
module CanonicalPlan {
  import opened Optional
  import opened CompiledPlan
  import opened FrameTime
  import opened VisualFrames
  import opened VisualTimeline
  import Orders

  /** Assets are listed by id; equal ids fall back to the asset's own encoding. */
  predicate Before(key: AssetRef -> string, a: AssetRef, b: AssetRef) {
    if a.assetId != b.assetId then Orders.LexLess(a.assetId, b.assetId) else Orders.LexLeq(key(a), key(b))
  }

  function CanonicalAssets(key: AssetRef -> string, assets: seq<AssetRef>): seq<AssetRef> {
    Orders.Sort((a, b) => Before(key, a, b), assets)
  }

  /** Only the set-like asset list is reordered; tracks and segments stay as the producer listed them. */
  function Canonical(key: AssetRef -> string, p: CompiledPlan.Plan): CompiledPlan.Plan {
    p.(assets := CanonicalAssets(key, p.assets))
  }

  ghost predicate Distinguishes(key: AssetRef -> string) {
    forall a, b :: key(a) == key(b) ==> a == b
  }

  lemma {:induction false} BeforeOrder(key: AssetRef -> string)
    ensures var leq := (a, b) => Before(key, a, b);
            && Orders.Total(leq) && Orders.Transitive(leq)
            && (Distinguishes(key) ==> Orders.Antisymmetric(leq))
  {
    Orders.LexIsOrder();
    var leq := (a, b) => Before(key, a, b);
    forall a, b, c | leq(a, b) && leq(b, c) ensures leq(a, c) {
      assert Orders.LexLeq(a.assetId, b.assetId) && Orders.LexLeq(b.assetId, c.assetId);
      assert Orders.LexLeq(a.assetId, c.assetId);
    }
    forall a, b | Distinguishes(key) && leq(a, b) && leq(b, a) ensures a == b {
      assert Orders.LexLeq(a.assetId, b.assetId) && Orders.LexLeq(b.assetId, a.assetId);
      assert key(a) == key(b);
    }
  }

  ghost predicate Ascends(s: string, t: string) {
    s <= t || exists k: nat :: Orders.SmallerAt(s, t, k)
  }

  /** The canonical order on the fields: ids ascend byte by byte, and under one id the encodings do. */
  lemma {:induction false} AssetsAscend(key: AssetRef -> string, p: CompiledPlan.Plan, i: nat, j: nat)
    requires i < j < |p.assets|
    ensures var assets := Canonical(key, p).assets;
            && multiset(assets) == multiset(p.assets)
            && if assets[i].assetId == assets[j].assetId then Ascends(key(assets[i]), key(assets[j]))
               else Ascends(assets[i].assetId, assets[j].assetId)
  {
    var leq := (a, b) => Before(key, a, b);
    BeforeOrder(key);
    Orders.SortSorted(leq, p.assets);
    var a, b := Canonical(key, p).assets[i], Canonical(key, p).assets[j];
    assert leq(a, b);
    Orders.LexExactly(a.assetId, b.assetId);
    Orders.LexExactly(key(a), key(b));
  }

  /** Plans that differ only in the order of their assets have the same canonical form. */
  lemma {:induction false} AssetOrderForgotten(key: AssetRef -> string, p: CompiledPlan.Plan, q: CompiledPlan.Plan)
    requires Distinguishes(key) && q == p.(assets := q.assets) && multiset(p.assets) == multiset(q.assets)
    ensures Canonical(key, p) == Canonical(key, q)
  {
    BeforeOrder(key);
    Orders.SortOfPermutation((a, b) => Before(key, a, b), p.assets, q.assets);
  }

  /** Canonicalizing again changes nothing, and the tracks are never touched. */
  lemma {:induction false} CanonicalIdempotent(key: AssetRef -> string, p: CompiledPlan.Plan)
    requires Distinguishes(key)
    ensures Canonical(key, Canonical(key, p)) == Canonical(key, p)
    ensures Canonical(key, p).tracks == p.tracks
    ensures multiset(Canonical(key, p).assets) == multiset(p.assets)
  {
    BeforeOrder(key);
    var leq := (a, b) => Before(key, a, b);
    Orders.SortSorted(leq, p.assets);
    Orders.SortOfSorted(leq, Orders.Sort(leq, p.assets));
  }

  /** Validity does not depend on the order of the assets. */
  lemma {:induction false} ValidityIgnoresOrder(p: CompiledPlan.Plan, q: CompiledPlan.Plan)
    requires q == p.(assets := q.assets) && multiset(p.assets) == multiset(q.assets)
    requires WellFormed(p)
    ensures WellFormed(q)
  {
    Orders.MembersOfPermutation(p.assets, q.assets);
    Orders.PairwiseOfPermutation(OtherAsset, p.assets, q.assets);
    assert |p.assets| == |multiset(p.assets)| == |multiset(q.assets)| == |q.assets|;
    assert AssetsOk(q.assets);
    var total := OutputFrameCount(p.durationUS, p.output.fpsNum, p.output.fpsDen);
    forall s | s in AllSegments(p.tracks) ensures SegmentOk(s, q.assets, total) {
      assert SegmentOk(s, p.assets, total);
    }
  }

  // ----- the strict decoder

  type Bytes = seq<bv8>

  /** JSON for plans: an encoder, a strict parser, and which plans hold only text that JSON carries. */
  datatype Codec = Codec(
    encode: CompiledPlan.Plan -> Bytes,
    parse: Bytes -> Option<CompiledPlan.Plan>,
    textual: CompiledPlan.Plan -> bool)

  /** What the decoder needs from JSON: textual plans parse back, and nothing else is ever parsed. */
  ghost predicate Faithful(key: AssetRef -> string, json: Codec) {
    && (forall p :: json.textual(p) ==> json.parse(json.encode(p)) == Some(p))
    && (forall data :: json.parse(data).Some? ==> json.textual(json.parse(data).value))
    && (forall p :: json.textual(p) ==> json.textual(Canonical(key, p)))
  }

  method Decode(key: AssetRef -> string, json: Codec, data: Bytes) returns (r: Option<CompiledPlan.Plan>)
    ensures r == if StrictlyAccepted(key, json, data) then json.parse(data) else None
  {
    var parsed := json.parse(data);
    if parsed.None? {
      return None;
    }
    var violations := CompiledPlan.Validate(parsed.value);
    if |violations| > 0 {
      return None;
    }
    if data != json.encode(Canonical(key, parsed.value)) {
      return None;
    }
    return parsed;
  }

  ghost predicate StrictlyAccepted(key: AssetRef -> string, json: Codec, data: Bytes) {
    && json.parse(data).Some? && WellFormed(json.parse(data).value)
    && data == json.encode(Canonical(key, json.parse(data).value))
  }

  ghost predicate DocumentOf(key: AssetRef -> string, json: Codec, data: Bytes, p: CompiledPlan.Plan) {
    json.textual(p) && WellFormed(p) && data == json.encode(Canonical(key, p))
  }

  /**
    The decoder accepts exactly the canonical documents of well-formed textual plans, and what it
    returns is that plan in canonical form.
   */
  lemma {:induction false} DecodesCanonicalDocuments(key: AssetRef -> string, json: Codec, data: Bytes)
    requires Distinguishes(key) && Faithful(key, json)
    ensures StrictlyAccepted(key, json, data) <==> exists p :: DocumentOf(key, json, data, p)
    ensures StrictlyAccepted(key, json, data) ==> Canonical(key, json.parse(data).value) == json.parse(data).value
  {
    if StrictlyAccepted(key, json, data) {
      var q := json.parse(data).value;
      assert DocumentOf(key, json, data, q);
      assert json.parse(json.encode(Canonical(key, q))) == Some(Canonical(key, q));
    }
    if exists p :: DocumentOf(key, json, data, p) {
      var p :| DocumentOf(key, json, data, p);
      CanonicalIdempotent(key, p);
      ValidityIgnoresOrder(p, Canonical(key, p));
      assert json.parse(data) == Some(Canonical(key, p));
    }
  }

  // ----- what the validator does and does not tie together

  /** A digest of zeros. */
  function Zeros(): (s: string)
    ensures CompiledPlan.LowerSha256(s)
  {
    seq(64, _ => '0')
  }

  function SlotAudio(): FinalAudio {
    FinalAudio("FINAL_AUDIO_COPY", "audio", Zeros(), 1, "aac", 48_000, 2, 1_000_000, 1, Zeros())
  }

  function SlotAsset(): AssetRef {
    AssetRef("audio", "", "", "", Zeros(), 1, "final_audio", "", 1_000_000, 0, 0, "", 0, 0, "", 0, false, false)
  }

  /** One second at 25 frames a second: the final audio and a single stock-pool slot. */
  function SlotPlan(): CompiledPlan.Plan {
    CompiledPlan.Plan(
      PLAN_VERSION, 1, Zeros(), 1_000_000,
      Output("mp4", "h264", 2, 2, 25, 1, "", "", "", "", 0, 0, false, 0, 0), SlotAudio(),
      [Track("t", [VisualTimeline.Segment("s", true, "", "", 0, 25, 0, 0)])], None, [SlotAsset()])
  }

  lemma {:induction false} SlotHeader()
    ensures HeaderOk(SlotPlan()) && OutputOk(SlotPlan().output) && AudioOk(SlotPlan())
  {
    assert SlotAudio().assetId[0] == 'a' && SlotPlan().output.videoCodec[0] == 'h';
  }

  lemma {:induction false} SlotAssets()
    ensures AssetsOk(SlotPlan().assets) && AudioReferenced(SlotAudio(), SlotPlan().assets)
  {
    var a := SlotAsset();
    assert a.assetId[0] == 'a' && a.kind[0] == 'f';
    assert SlotPlan().assets == [a] && a in [a];
    assert Names(a, SlotAudio().assetId) && AudioMatches(SlotAudio(), a);
  }

  lemma {:induction false} SlotBudget()
    ensures OutputFrameCount(SlotPlan().durationUS, SlotPlan().output.fpsNum, SlotPlan().output.fpsDen) == Some(25)
    ensures SlotPlan().finalAudio == SlotAudio() && SlotPlan().stockPool.None?
  {}

  lemma {:induction false} SlotTracks()
    ensures TracksOk(SlotPlan().tracks, SlotPlan().assets, Some(25)) && HasSlot(SlotPlan().tracks)
  {
    var tracks := SlotPlan().tracks;
    var slot := tracks[0].segments[0];
    assert tracks[0].trackId[0] == 't' && slot.segmentId[0] == 's';
    assert tracks[..0] == [];
    assert AllSegments(tracks[..0]) == [];
    assert AllSegments(tracks) == [slot];
    assert slot in AllSegments(tracks);
    assert SegmentOk(slot, SlotPlan().assets, Some(25));
  }

  /** A well-formed plan with a slot and no pool. */
  lemma {:induction false} SlotWithoutPool() returns (p: CompiledPlan.Plan)
    ensures WellFormed(p) && HasSlot(p.tracks) && p.stockPool.None?
  {
    SlotHeader();
    SlotAssets();
    SlotTracks();
    SlotBudget();
    p := SlotPlan();
  }

  /**
    Stock-pool slots do not need a declared pool: dropping the pool keeps a plan valid, and a pool may
    be declared exactly when it is complete and some slot uses it.
   */
  lemma {:induction false} SlotsNeedNoPool(p: CompiledPlan.Plan, pool: StockPool)
    ensures WellFormed(p.(stockPool := Some(pool))) <==>
            WellFormed(p.(stockPool := None)) && PoolOk(pool) && HasSlot(p.tracks)
  {}

  /** A track that tiles [a, e) passes the frame-range checks exactly when e fits the frame budget. */
  lemma {:induction false} TilingFitsBudget(segs: seq<Segment>, a: int, e: int, total: int)
    requires Tiles(segs, a, e) && 0 <= a && e < TWO63 && segs != []
    ensures (forall s :: s in segs ==> PlacementOk(s, Some(total))) <==> e <= total
  {
    forall k | 0 <= k < |segs| ensures a <= segs[k].start && segs[k].start + segs[k].count <= e {
      TilesInside(segs, a, e, k);
    }
    if e <= total {
      forall s | s in segs ensures PlacementOk(s, Some(total)) {
        var k :| 0 <= k < |segs| && segs[k] == s;
      }
    }
    if forall s :: s in segs ==> PlacementOk(s, Some(total)) {
      assert segs[|segs| - 1] in segs;
    }
  }
}
