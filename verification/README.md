# Velox shared contracts: a verified model

This project models the parts of the Velox control plane that decide *what is rendered, prefetched and
published*, and proves what they promise. The master and its workers agree on these decisions through
shared Go packages; each module below follows one of them.

- **Timeline compiler** (`FrameTime`, `VisualTimeline`, `VisualSemantics`, `VisualFrames`, `Cues`,
  `Overlays`, `OverlayWindows`, `OverlayTimeline`, `Manifest`, `ManifestOverlays`). Editorial replacements and overlays are
  cut into a base video track. Positions travel between frames and microseconds: one direction floors,
  the other rounds to the nearest frame, and products wrap in 64 bits. The model keeps both roundings
  and the wrap-around. The main results say which asset and which source position every output frame
  shows.
- **Compiled plans** (`CompiledPlan`, `PlanRules`, `CanonicalPlan`, `PlanSources`, `ManifestPlans`). A validator that
  collects all violations, a canonical document with a strict decoder, and when compiled and resolved
  tracks pass the validator.
- **Future assets** (`FutureAssets`, `FutureQueues`, `FuturePlans`, `FutureRules`). Queued jobs become a prefetch plan with reference
  counts and next-use distances, which is re-validated and sent over the wire.
- **CI shards** (`Sharding`, `ShardingBound`). Longest-first balancing of test packages, up to Graham's
  4/3 bound.
- **Phase taxonomy** (`Taxonomy`). The parent walk of every phase, when it ends, and what an accepted
  taxonomy looks like.
- **Renderer payload** (`RenderPayload`), **asset references** (`AssetRef`), **executor registry**
  (`ExecutorRegistry`), **publications** (`Languages`, `Publication`, `PublicationRules`,
  `PublicationResolver`, `PublicationDelivery`, `PublicationTags`).
- `Orders`, `Text`, `Decimal`, `KeySets` and `Optional` hold the sorting, string, number and key-set facts the rest
  relies on.

`dafny verify dfyconfig.toml` checks the whole project.

The loops of the source are methods with the source's own branches. Each is proved equal to a function
or to a declarative predicate, and the theorems are lemmas about those. Lemmas named `…Exactly`, and those of
`PlanRules`, `FutureQueues`, `FutureRules`, `PublicationRules` and `PublicationDelivery`, state the outcome a
second time on plain fields and literals, without the functions the loops are specified by. `Roomy` is the frame-rate range
`2 * (num - 1) <= den * 10^6` in which a frame survives the trip through microseconds; `Playable` is a
track without gaps whose last frame and source positions stay inside 64 bits.

## Where the code and its stated intent part

- A replacement that crosses into a later base segment starts its source over at zero there
  (`CueRestarts` gives the exact condition, `CrossingCueJumpsBack` an instance; `FrameShows` and
  `CuesExact` describe what is shown).
- A replacement inside a gap of the base disappears without an error (`AppearsWhenItMeets` gives the exact
  condition, `GapDrops` an instance).
- The manifest path validates normalized copies of the overlays and then converts the originals, so it
  compiles the tracks exactly when every overlay carries a frame count (`ManifestPathNeedsCounts`,
  `EndFrameOnlyRefused`; `OverlayPlanValid` adds the validation of the resulting plan).
- Back-to-back manifest events can overlap by a frame or leave a gap of one (`EventsMeet` gives the
  exact condition, `EventsOverlap` and `EventsGap` instances; `CompiledTrackTiles` lifts it to tracks).
- An event that ends a plan can exceed the plan's frame budget by one (`OverrunsByAtMostOne` gives the
  exact condition, `OverrunSeen` an instance).
- Resolving a track rounds the source length of segments it does not cut, so a valid plan can become
  invalid (`UncutSourceMatches` gives the exact condition, `ResolvingBreaksSource` an instance).
- `Build` can emit a deferred job that `Validate` refuses (`QueuePlansValidly` gives the exact
  condition on the queue, `RefusedQueue` a family that fails).
- The cycle guard of the phase taxonomy runs forever on a chain that leads into a cycle not containing
  its start (`ValidatePhaseTaxonomy` with `NeverEndsExactly` gives the exact condition,
  `GuardCanHang` an instance).
- A stock-pool slot is accepted without a declared pool (`SlotsNeedNoPool`, `SlotWithoutPool`).
- Copying metadata turns an explicitly empty tag list into an absent one, so it never clears inherited
  tags, although applying metadata documents that it does (`EmptyOverrideInherits` gives the exact
  outcome, `TagsNotCleared` an instance); the older entry point does clear them (`EntryPointsDiffer`).
- A bare local asset path keeps its raw spelling as wire form, so the wire form is not always
  self-sufficient (`WireIsSelfSufficient` gives the exact condition, `BarePathNotSelfSufficient` an
  instance), and a remote reference made from a Drive URL reads back as deferred (`RemoteReadsBack`,
  `DriveUrlReadsBackDeferred`).
- Normalizing a language tag is not idempotent when lowering a letter shortens its encoding
  (`TwiceExactly` and `SteadyExactly` give the exact condition, `DottedTwice` an instance), and neither is
  normalizing a spec whose default language is of that kind and that has no localizations
  (`NormalizeIdempotent`, `DefaultLanguageDrifts`).
- The rule that executor ids contain no `@` is not needed for key strings to be unambiguous
  (`KeysIdentify`).

## Model

| member | source | states |
|---|---|---|
| `FrameTime.FrameToUSExact` | shared/contract/visual_timeline_resolver.go:316-321 | the wrapping conversion is the exact floor on every frame whose product fits in 64 bits |
| `FrameTime.WrapExactly` | shared/contract/visual_timeline_resolver.go:316-321 | 64-bit arithmetic: the wrapped value is the one number in the signed range that agrees modulo 2^64 |
| `FrameTime.TruncExactly` | shared/contract/visual_timeline_resolver.go:316-321 | division of a wrapped, possibly negative product rounds towards zero |
| `FrameTime.NoPosition` | shared/contract/visual_timeline_resolver.go:316-321 | the position is zero unless frame and rate are positive |
| `FrameTime.FloorBounds` | shared/contract/visual_timeline_resolver.go:316-321 | flooring characterized without division: at most the frame's start, by less than a microsecond |
| `FrameTime.NearestBounds` | shared/contract/compiled_render_plan_v2_compiler.go:343-358 | rounding characterized without division: within half a frame, ties upwards |
| `FrameTime.NearestUnique` | shared/contract/compiled_render_plan_v2_compiler.go:343-358 | only one frame satisfies the rounding bounds |
| `FrameTime.RoundTripExactly` | shared/contract/visual_timeline_resolver.go:297-321 | a frame converted to microseconds and back returns to itself if and only if the floored remainder is at most half a frame |
| `FrameTime.RoundTrip` | shared/contract/visual_timeline_resolver.go:297-321 | in the working range every frame survives the trip |
| `FrameTime.RoundTripFailsAtHighRate` | shared/contract/visual_timeline_resolver.go:316-321 | the working range ends at 500001 frames a second; at 500003 frame 166668 comes back as frame 166667 |
| `FrameTime.NearestMonotone` | shared/contract/compiled_render_plan_v2_compiler.go:343-358 | later times never round to earlier frames |
| `FrameTime.FloorMonotone` | shared/contract/visual_timeline_resolver.go:316-321 | later frames never start earlier |
| `FrameTime.FloorStrict` | shared/contract/visual_timeline_resolver.go:316-321 | in the working range frames and their start times are ordered alike, in both directions |
| `VisualTimeline.CheckReplacements` | shared/contract/visual_timeline_resolver.go:186-210 | the first range, overlap, bounds or identity violation in timeline order is reported |
| `VisualTimeline.RefusedExactly` | shared/contract/visual_timeline_resolver.go:173-210 | which error a request is refused with before anything is cut, on plain fields: a bad rate, or the first entry by start that is blank, not a proper range, in conflict with its predecessor or beyond the end, in this order |
| `VisualTimeline.TotalExactly` | shared/contract/visual_timeline_resolver.go:186-191 | the end that bounds check uses: zero, or the last of the base segments' ends |
| `VisualTimeline.CheckedByStart` | shared/contract/visual_timeline_resolver.go:181-184 | entries are checked by ascending start, none lost and none added |
| `VisualTimeline.StableByStart` | shared/contract/visual_timeline_resolver.go:181-184 | entries with the same start keep their listed order |
| `VisualTimeline.CutRange` | shared/contract/visual_timeline_resolver.go:221-251 | the inner loop emits the pieces of one segment range and leaves both cursors where the pieces end |
| `VisualTimeline.ResolveSegment` | shared/contract/visual_timeline_resolver.go:214-259 | one base segment is replaced by its pieces, the replacement cursor carried in and out |
| `VisualTimeline.ResolveVisualReplacements` | shared/contract/visual_timeline_resolver.go:173-261 | the whole resolver, errors included, equals check, cut into pieces with provenance, quantize left to right |
| `VisualTimeline.ResolvedAnonymous` | shared/contract/visual_timeline_resolver.go:265-294 | emitted segments carry no id and no pool flag, whatever the base was |
| `VisualSemantics.ChecksDecidePlacement` | shared/contract/visual_timeline_resolver.go:193-210 | comparing sorted neighbours only finds an overlap if and only if any two replacements overlap |
| `VisualSemantics.CutInnerSound` | shared/contract/visual_timeline_resolver.go:221-251 | pieces of a segment form an unbroken chain; each is exactly a replacement's share of the segment or base time no replacement wants |
| `VisualSemantics.SegmentSound` | shared/contract/visual_timeline_resolver.go:214-259 | a segment's pieces cover its whole range faithfully, whatever replacement is carried into it |
| `VisualSemantics.TrackFaithful` | shared/contract/visual_timeline_resolver.go:212-261 | over any ordered base, gaps included, the carried cursor loses nothing: every piece is faithful |
| `VisualSemantics.TrackChain` | shared/contract/visual_timeline_resolver.go:212-261 | over a gapless base all pieces form one unbroken chain from start to end |
| `VisualSemantics.CutWhereItMeets` | shared/contract/visual_timeline_resolver.go:214-222 | on any ordered base a replacement takes part of a base segment if and only if it meets that segment |
| `VisualSemantics.TrackKeeps` | shared/contract/visual_timeline_resolver.go:214-259 | a base segment no replacement meets stays in one piece |
| `VisualFrames.TilesTotal` | shared/contract/visual_timeline_resolver.go:212-261 | a gapless track accounts for each frame once |
| `VisualFrames.TilesCover` | shared/contract/visual_timeline_resolver.go:212-261 | every frame of a gapless track is played |
| `VisualFrames.TilesUnique` | shared/contract/visual_timeline_resolver.go:212-261 | no frame is played twice |
| `VisualFrames.EmittedRange` | shared/contract/visual_timeline_resolver.go:297-311 | an emitted segment runs from the frame nearest its start to the frame nearest its end and is never empty |
| `VisualFrames.AcceptedTiles` | shared/contract/visual_timeline_resolver.go:212-261 | any accepted microsecond replacements over a gapless base leave a gapless track with positive counts; its ends are the base's ends if and only if those survive the trip |
| `VisualFrames.AcceptedConserves` | shared/contract/visual_timeline_resolver.go:212-261 | in the working range frame range and frame count are conserved |
| `VisualFrames.FrameShows` | shared/contract/visual_timeline_resolver.go:212-294 | at any frame rate each output frame is played by a base segment and shows the replacement that claims it, started where the cut or that segment begins, or else that segment entered at its start or at a replacement's end |
| `VisualFrames.PlaysItsFrames` | shared/contract/visual_timeline_resolver.go:297-321 | in the working range the frames a base segment plays after the trip are its own |
| `VisualFrames.PlaysUnique` | shared/contract/visual_timeline_resolver.go:214-217 | at any rate a frame is played by at most one base segment |
| `VisualFrames.ClaimUnique` | shared/contract/visual_timeline_resolver.go:193-210 | after rounding still at most one replacement claims a frame |
| `VisualFrames.SourceRangesIncrease` | shared/contract/visual_timeline_resolver.go:265-278 | at any rate the pieces left of one base segment read its source in order, without overlap, inside the part it played |
| `VisualFrames.UnclaimedSegment` | shared/contract/visual_timeline_resolver.go:265-278 | the output segment playing an unclaimed frame keeps the asset and reads inside the source range of the base segment |
| `VisualFrames.AppearsWhereItMeets` | shared/contract/visual_timeline_resolver.go:212-261 | gaps or not, an accepted replacement takes its share of exactly the base segments it meets, and every output segment is a part of a base segment or such a share |
| `VisualFrames.AppearsWhenItMeets` | shared/contract/visual_timeline_resolver.go:212-261 | an asset used by nothing else reaches the resolved track if and only if its replacement meets a base segment |
| `VisualFrames.GapDrops` | shared/contract/visual_timeline_resolver.go:214-222 | a concrete replacement inside a gap: resolution succeeds and the asset is nowhere in the track |
| `VisualFrames.UncutReemitted` | shared/contract/visual_timeline_resolver.go:252-258 | a base segment no replacement meets is re-emitted whole |
| `Cues.CuesAccepted` | shared/contract/visual_timeline_resolver.go:173-261 | frame-aligned, non-overlapping replacements inside the base are always accepted |
| `Cues.CuesExact` | shared/contract/visual_timeline_resolver.go:212-294 | they are frame-exact: same frames as the base, each showing the covering replacement or exactly the base's own asset and source position |
| `Cues.CueRestarts` | shared/contract/visual_timeline_resolver.go:244-294 | the resolved track shows a replacement at its own running position if and only if the base segment playing the frame begins no later than the replacement |
| `Cues.CrossingCueJumpsBack` | shared/contract/visual_timeline_resolver.go:244-249 | a concrete replacement whose source position jumps back to zero where the base is cut |
| `Overlays.NormalizeCanonical` | shared/contract/overlay_timeline_resolver.go:359-384 | normalizing derives the missing field only, yields end = start + count, and is idempotent |
| `Overlays.NormalizeAccepts` | shared/contract/overlay_timeline_resolver.go:359-384 | exactly which windows normalize, the 64-bit limit included |
| `Overlays.NormalizeOverlayWindows` | shared/contract/overlay_timeline_resolver.go:257-268 | the list normalizes if and only if each overlay does |
| `Overlays.SortedNeighboursDecide` | shared/contract/overlay_timeline_resolver.go:101-148 | checking sorted neighbours is checking all pairs of replace overlays |
| `Overlays.ValidateOverlays` | shared/contract/overlay_timeline_resolver.go:101-148 | accepted if and only if ids are distinct after trimming, every overlay is admissible and replace overlays are pairwise apart |
| `Overlays.ValidExactly` | shared/contract/overlay_timeline_resolver.go:101-148 | the same acceptance on the overlays as given: named, windowed inside the base by end frame or frame count, a known mode and audio mode, distinct trimmed ids, and no two replace overlays sharing a frame |
| `OverlayWindows.SameBetween` | shared/contract/overlay_timeline_resolver.go:153-206 | between neighbouring boundary points no overlay starts or ends |
| `OverlayWindows.LayersChange` | shared/contract/overlay_timeline_resolver.go:153-206 | neighbouring boundary points see different layers |
| `OverlayWindows.LayerMembers` | shared/contract/overlay_timeline_resolver.go:153-206 | the layers of a frame are exactly the composite overlays active there |
| `OverlayWindows.LayersSorted` | shared/contract/overlay_timeline_resolver.go:153-206 | the layers of a frame are ordered by (z-index, id) |
| `OverlayWindows.SweepPoints` | shared/contract/overlay_timeline_resolver.go:175-206 | the sweep over boundary points yields the coarsest exact windows, each stacked by (z-index, id) |
| `OverlayWindows.ResolveOverlayWindows` | shared/contract/overlay_timeline_resolver.go:153-206 | for valid overlays only: numbered, ordered, disjoint windows holding a frame if and only if a composite overlay covers it, each listing exactly the active layers by (z-index, id), never splitting a run of equal layers |
| `OverlayWindows.StackedBottomToTop` | shared/contract/overlay_timeline_resolver.go:194-199 | on the fields: every window lists its layers by ascending z-index, and on equal z-index by ids in byte order |
| `Text.SpaceExactly` | shared/contract/overlay_timeline_resolver.go:109 | the white space that trimming removes, by code point |
| `Orders.LexExactly` | shared/contract/overlay_timeline_resolver.go:198 | string order by position: a prefix comes first, otherwise the first differing character decides |
| `OverlayTimeline.ReplaceExact` | shared/contract/overlay_timeline_resolver.go:211-252 | over a gapless base valid replace overlays always resolve and are frame-exact |
| `OverlayTimeline.ResolveOverlayTimeline` | shared/contract/overlay_timeline_resolver.go:211-252 | succeeds if and only if base, rate, windows, validity and replacement allow it; returns the replaced track and the sweep of the composite overlays |
| `OverlayTimeline.IndexFragments` | shared/contract/overlay_timeline_resolver.go:69-82 | incomplete and duplicate fragments are refused, the rest found by window |
| `OverlayTimeline.PreparedExactly` | shared/contract/overlay_timeline_resolver.go:73-89 | which fragments serve the windows, on their fields: each names window, asset and profile, no two name one window, and every window has one |
| `OverlayTimeline.ApplyPreparedOverlayFragments` | shared/contract/overlay_timeline_resolver.go:69-96 | succeeds if and only if counts match, fragments are sound, each window has one and the cut succeeds |
| `OverlayTimeline.FragmentsFound` | shared/contract/overlay_timeline_resolver.go:69-96 | in whatever order fragments arrive, each window gets its own |
| `OverlayTimeline.FragmentsExact` | shared/contract/overlay_timeline_resolver.go:69-96 | composition never fails: windows of the sweep with one sound fragment each cut into any matching gapless base without error, frame-exactly |
| `OverlayTimeline.ScenePlays` | shared/contract/overlay_timeline_resolver.go:69-252 | replacing and then composing always succeeds and keeps the frame range |
| `OverlayTimeline.HeldWhenComposite` | shared/contract/overlay_timeline_resolver.go:153-206 | a frame lies in a window if and only if a composite overlay covers it |
| `OverlayTimeline.SceneFrame` | shared/contract/overlay_timeline_resolver.go:69-252 | each frame of the finished track shows its window's fragment, else the replace overlay covering it, else the base at the base's own source position |
| `OverlayTimeline.WindowShows` | shared/contract/overlay_timeline_resolver.go:84-96 | in the finished track a frame held by a window is played by the asset and hash of the fragment prepared for it, at the time since the later of the window's start and the underlying segment's start |
| `OverlayTimeline.ReplaceShows` | shared/contract/overlay_timeline_resolver.go:211-252 | a frame held by no window and covered by a replace overlay is played by that overlay's own asset and hash, likewise |
| `OverlayTimeline.BaseShowsThrough` | shared/contract/overlay_timeline_resolver.go:211-252 | any other frame is played by the base's own asset, hash and source position |
| `Manifest.CompileTrack` | shared/contract/compiled_render_plan_v2_compiler.go:212-247 | a track compiles if and only if every event does, one segment per event in order |
| `Manifest.CompiledExactly` | shared/contract/compiled_render_plan_v2_compiler.go:217-247 | an event compiles if and only if it names a declared video, starts no earlier than zero and lasts at least a frame; its segment starts and lasts the frames nearest to the given times, said without division, and reads the given source range |
| `Manifest.MicrosExactly` | shared/contract/compiled_render_plan_v2_compiler.go:333-341 | milliseconds count a thousandfold, and a time too long for 64 bits counts as zero |
| `Manifest.SegmentIdExactly` | shared/contract/compiled_render_plan_v2_compiler.go:238 | ids are spelled as the track, "-segment-" and the index in at least six digits |
| `Manifest.SegmentIdsDiffer` | shared/contract/compiled_render_plan_v2_compiler.go:237-247 | generated segment ids never repeat, within a track or across tracks, whatever the tracks are called |
| `Manifest.RoundedSum` | shared/contract/compiled_render_plan_v2_compiler.go:226-236 | rounding start and duration apart lands within one frame of rounding the end |
| `Manifest.RoundedSumExactly` | shared/contract/compiled_render_plan_v2_compiler.go:226-236 | which of the three it is, one frame more, equal or one less, is decided by the two rounding remainders |
| `Manifest.OnFrameMeets` | shared/contract/compiled_render_plan_v2_compiler.go:226-236 | an event that starts on a frame always meets its successor |
| `Manifest.EventsMeet` | shared/contract/compiled_render_plan_v2_compiler.go:217-247 | the compiled segments of back-to-back events meet, overlap by one frame or leave a gap of one frame, each if and only if the sum of the first event's two rounding remainders lies in its range |
| `Manifest.EventsOverlap` | shared/contract/compiled_render_plan_v2_compiler.go:217-247 | two compiled 17 ms events at 30 frames a second that overlap by one frame |
| `Manifest.EventsGap` | shared/contract/compiled_render_plan_v2_compiler.go:217-247 | two compiled events that leave a gap of one frame |
| `Manifest.CompiledTrackTiles` | shared/contract/compiled_render_plan_v2_compiler.go:212-247 | a compiled track of consecutive events is gapless if and only if every event but the last keeps its remainders within the meeting range |
| `Manifest.OverrunsByAtMostOne` | shared/contract/compiled_render_plan_v2_validation.go:467-481 | a compiled segment exceeds the ceiling frame count of a plan ending with it by at most one frame, and does so if and only if both its start and its length fall on the middle of a frame |
| `Manifest.OverrunSeen` | shared/contract/compiled_render_plan_v2_validation.go:467-481 | a concrete compiled event one frame beyond the budget |
| `Manifest.ReemittedLength` | shared/contract/visual_timeline_resolver.go:265-278 | re-emitting a compiled segment uncut gives it the exact length of its frames as source length, which differs from the compiled one by less than half a frame plus a microsecond |
| `ManifestOverlays.CountBaseFrames` | shared/contract/compiled_render_plan_v2_compiler.go:49-63 | the largest event end over all video tracks, or failure if and only if an event does not quantize |
| `ManifestOverlays.LengthExactly` | shared/contract/compiled_render_plan_v2_compiler.go:49-63 | the counted length is zero or the latest event end, bounds all of them, and is unknown if and only if some event has no end |
| `ManifestOverlays.EndExactly` | shared/contract/compiled_render_plan_v2_compiler.go:49-63 | an event ends where the frames nearest to its start and to its length add up, and has no end without a frame |
| `ManifestOverlays.CompileVideoTracks` | shared/contract/compiled_render_plan_v2_compiler.go:132-282 | identity gate, every track compiled and cut, renumbered segment ids, the empty-plan error and the duration gate, as one function of the replacements |
| `ManifestOverlays.CompileWithOverlays` | shared/contract/compiled_render_plan_v2_compiler.go:31-83 | the whole overlay path: base length, validation, refusal of composite overlays, conversion of the overlays as given, compilation |
| `ManifestOverlays.FullTracksCount` | shared/contract/compiled_render_plan_v2_compiler.go:49-63 | for gapless tracks that end together the base length is their common end |
| `ManifestOverlays.ManifestPathNeedsCounts` | shared/contract/compiled_render_plan_v2_compiler.go:65-83 | over such tracks valid, declared overlays compile if and only if none is composite and every one carries a frame count |
| `ManifestOverlays.ManifestPathExactly` | shared/contract/compiled_render_plan_v2_compiler.go:31-282 | without any assumption on the assets: over such tracks valid overlays compile if and only if each is a replace overlay with a frame count whose declared asset is a video, has its hash if it names one, and differs from the window by at most 50000 microseconds |
| `ManifestOverlays.TracksNeedDeclared` | shared/contract/compiled_render_plan_v2_compiler.go:132-281 | the identity and duration gates for any replacements, in plain integers: those that can be cut in are if and only if such an asset is declared for each |
| `ManifestOverlays.CountsAgree` | shared/contract/compiled_render_plan_v2_compiler.go:72-80 | with frame counts the path cuts in exactly what the normalizing path would |
| `ManifestOverlays.EndFrameOnlyRefused` | shared/contract/compiled_render_plan_v2_compiler.go:65-83 | a concrete overlay that compiles with its frame count and is refused with only its end frame |
| `PlanSources.UncutSourceMatches` | shared/contract/compiled_render_plan_v2_validation.go:354-400 | a base segment no replacement meets passes the validator's source checks after resolution if and only if its asset lasts as long as its frames |
| `PlanSources.CutSourcesMatch` | shared/contract/compiled_render_plan_v2_validation.go:354-400 | whatever is cut, the parts left of a base segment pass if its asset lasts as long as its frames |
| `PlanSources.SlackSuffices` | shared/contract/compiled_render_plan_v2_validation.go:354-400 | half a frame and a microsecond of spare media are enough |
| `PlanSources.ResolvingBreaksSource` | shared/contract/compiled_render_plan_v2_validation.go:377-379 | a 17 ms event over a 17 ms asset is valid as compiled and refused once any replacement is cut in elsewhere |
| `ManifestPlans.IdsUnique` | shared/contract/compiled_render_plan_v2_validation.go:354-361 | segment ids of compiled tracks are unique across the whole plan |
| `ManifestPlans.PlanValidExactly` | shared/contract/compiled_render_plan_v2_compiler.go:280-284 | a plan assembled from compiled video tracks passes validation if and only if its frames fit the budget and every segment's source is sound; ids, order and placement hold by construction |
| `ManifestPlans.ResolvedSourcesOk` | shared/contract/compiled_render_plan_v2_validation.go:366-379 | resolving keeps every source sound if assets last as long as the frames of base segments and the windows of replacements |
| `ManifestPlans.BackedPlanValid` | shared/contract/compiled_render_plan_v2_compiler.go:280-284 | with such assets the compiled plan passes validation if and only if the end of its tracks fits the frame budget |
| `ManifestPlans.OverlayPlanValid` | shared/contract/compiled_render_plan_v2_compiler.go:31-83 | the overlay path to its end: the plan is produced and valid if and only if no overlay is composite, every one carries a frame count and the tracks fit the budget |
| `ManifestPlans.BudgetSeen` | shared/contract/compiled_render_plan_v2_validation.go:467-481 | a concrete compiled plan that is valid at its own length and refused when the plan is a frame shorter |
| `CompiledPlan.ValidateHeader` | shared/contract/compiled_render_plan_v2_validation.go:69-80 | violations if and only if version, revision, timeline hash or duration are out of contract |
| `CompiledPlan.ValidateOutput` | shared/contract/compiled_render_plan_v2_validation.go:264-283 | no new violation if and only if the output contract holds |
| `CompiledPlan.ValidateAudio` | shared/contract/compiled_render_plan_v2_validation.go:285-319 | no new violation if and only if the final audio is complete and within tolerance |
| `CompiledPlan.ValidateAsset` | shared/contract/compiled_render_plan_v2_validation.go:321-352 | no new violation if and only if the asset is complete for its kind, deferred Drive videos excepted |
| `CompiledPlan.ValidatePool` | shared/contract/compiled_render_plan_v2_validation.go:84-95 | no new violation if and only if the pool is a shuffled Drive folder |
| `CompiledPlan.ValidateAssets` | shared/contract/compiled_render_plan_v2_validation.go:97-112 | no new violation if and only if all assets are sound with distinct ids; the lookup table then holds exactly the listed assets |
| `CompiledPlan.ValidateAudioReference` | shared/contract/compiled_render_plan_v2_validation.go:114-132 | no new violation if and only if the final audio is unnamed or matches a listed asset in kind, hash, size and duration |
| `CompiledPlan.ValidateSegment` | shared/contract/compiled_render_plan_v2_validation.go:354-427 | no new violation if and only if the id is new and source and placement are sound, for slots and media segments |
| `CompiledPlan.ValidateTracks` | shared/contract/compiled_render_plan_v2_validation.go:134-162 | no new violation if and only if tracks are named, non-empty and distinct, and segment ids are distinct across all tracks |
| `CompiledPlan.LookupAgrees` | shared/contract/compiled_render_plan_v2_validation.go:354-400 | looking an asset up in the table is finding it in the plan |
| `CompiledPlan.Validate` | shared/contract/compiled_render_plan_v2_validation.go:58-171 | the list of violations is empty if and only if the declarative predicate `WellFormed` holds of the whole plan |
| `PlanRules.RulesExactly` | shared/contract/compiled_render_plan_v2_validation.go:58-171 | a plan of 64-bit numbers is well-formed if and only if it keeps a second, literal set of rules: durations within 1000 microseconds of each other in plain integers, digests by position, the frame budget by inequalities, ids compared pair by pair, references by index |
| `PlanRules.CloseExactly` | shared/contract/compiled_render_plan_v2_validation.go:453-458 | two 64-bit durations are close enough if and only if their difference lies between -1000 and 1000 |
| `PlanRules.DigestExactly` | shared/contract/compiled_render_plan_v2_validation.go:445-451 | a digest is 64 characters, each a decimal digit or a letter from a to f |
| `PlanRules.OnDriveExactly` | shared/contract/compiled_render_plan_v2_validation.go:429-437 | which video assets count as deferred Drive files, on their ids and kinds |
| `PlanRules.BudgetExactly` | shared/contract/compiled_render_plan_v2_validation.go:467-481 | the frame budget is the least number of frames that cover the duration, or none |
| `PlanRules.SegmentExactly` | shared/contract/compiled_render_plan_v2_validation.go:354-427 | the rules for one segment or pool slot, on the listed assets instead of the lookup table |
| `PlanRules.IdsExactly` | shared/contract/compiled_render_plan_v2_validation.go:354-361 | segment ids differ within each track and across any two tracks |
| `CanonicalPlan.AssetOrderForgotten` | shared/contract/compiled_render_plan_v2.go:166-195 | plans that differ in asset order only have the same canonical form |
| `CanonicalPlan.AssetsAscend` | shared/contract/compiled_render_plan_v2.go:174-182 | the canonical asset order on the fields: ids in ascending byte order, equal ids by their encodings, none lost and none added |
| `CanonicalPlan.CanonicalIdempotent` | shared/contract/compiled_render_plan_v2.go:166-195 | canonicalizing twice is once; tracks are untouched and no asset is lost |
| `CanonicalPlan.ValidityIgnoresOrder` | shared/contract/compiled_render_plan_v2_validation.go:58-171 | reordering assets keeps a plan valid |
| `CanonicalPlan.Decode` | shared/contract/compiled_render_plan_v2_validation.go:176-206 | bytes are returned as a plan only if they parse, validate and re-encode to themselves |
| `CanonicalPlan.DecodesCanonicalDocuments` | shared/contract/compiled_render_plan_v2_validation.go:176-206 | the decoder accepts bytes if and only if they are the canonical document of a valid plan whose text JSON carries |
| `CanonicalPlan.SlotsNeedNoPool` | shared/contract/compiled_render_plan_v2_validation.go:155-165 | a pool may be declared if and only if it is complete and used; slots are valid without one |
| `CanonicalPlan.SlotWithoutPool` | shared/contract/compiled_render_plan_v2_validation.go:155-165 | a concrete well-formed plan with a slot and no pool |
| `CanonicalPlan.TilingFitsBudget` | shared/contract/compiled_render_plan_v2_validation.go:354-400 | a gapless track passes the frame-range checks if and only if its end fits the frame budget |
| `FutureAssets.CanonicalAssets` | shared/futureasset/plan.go:205-226 | succeeds if and only if no key is empty and entries of one key agree; then lists the last entry of each key in key order |
| `FutureAssets.ManifestUnique` | shared/futureasset/plan.go:205-226 | only one list is the manifest of a job's assets |
| `FutureAssets.CanonKeepsIntegrity` | shared/futureasset/plan.go:156-189 | whether a job is reserved or waits for a hash can be read off the queue entry |
| `FutureAssets.CountAssets` | shared/futureasset/plan.go:160-173 | after one more job every key's reference count is the number of jobs using it and its distance that of the first |
| `FutureAssets.Classify` | shared/futureasset/plan.go:174-194 | refused if and only if the reservation, an asset size, or both hash and source of an asset are missing; deferred if and only if an asset has no hash |
| `FutureAssets.Build` | shared/futureasset/plan.go:113-203 | succeeds if and only if the input is plannable; the plan splits the hard horizon and protects exactly the keys of the lookahead, sorted, with exact counts and least distances |
| `FutureQueues.AcceptedExactly` | shared/futureasset/plan.go:113-203 | the planner accepts if and only if, on the given queue and limits alone, header and limits are sound, each of the first ten jobs (or as many as a positive lookahead says) is sound and no two of them share an id |
| `FutureQueues.HeaderCopied` | shared/futureasset/plan.go:130-139 | the header of the plan is the request's, with identifiers trimmed and limits filled in |
| `FutureQueues.ProtectedExactly` | shared/futureasset/plan.go:143-176 | a key is protected if and only if one of these jobs lists it, white space aside |
| `FutureQueues.ProtectedCounts` | shared/futureasset/plan.go:160-176 | its count is the number of these jobs and its distance the position of the first of them |
| `FutureQueues.ProtectedAscend` | shared/futureasset/plan.go:198-201 | protected keys are listed in ascending byte order, each once |
| `FutureQueues.FetchedExactly` | shared/futureasset/plan.go:177-196 | each of the first three jobs (or as many as a positive horizon says) is in the deferred list if an asset of it lacks a hash and in the prefetch list otherwise, with its own identity and its position as distance |
| `FutureQueues.NothingElseFetched` | shared/futureasset/plan.go:177-196 | the two lists hold nothing else |
| `FuturePlans.CheckJobs` | shared/futureasset/plan.go:240-280 | a list passes if and only if each job is sound and no id repeats within or before it |
| `FuturePlans.CheckProtected` | shared/futureasset/plan.go:281-291 | entries pass if and only if each is sound and keys are distinct |
| `FuturePlans.Validate` | shared/futureasset/plan.go:228-292 | a plan passes if and only if the declarative predicate holds |
| `FutureRules.ValidExactly` | shared/futureasset/plan.go:228-292 | a snapshot is valid if and only if it keeps literal rules on its fields, the default limits 3 and 10 included |
| `FuturePlans.SplitConserves` | shared/futureasset/plan.go:174-195 | the two lists together hold each job of the horizon once |
| `FuturePlans.HorizonCovered` | shared/futureasset/plan.go:139-202 | every job of the hard horizon is in exactly one list, at the distance of its queue position |
| `FuturePlans.BuiltPlanValid` | shared/futureasset/plan.go:113-292 | a built plan passes validation if and only if every asset of a deferred job names an asset id and a source |
| `FuturePlans.QueuePlansValidly` | shared/futureasset/plan.go:113-292 | the same decided beforehand: validation passes if and only if every waiting job of the hard horizon names, in the last entry of each key, an asset id and a source |
| `FuturePlans.RefusedQueue` | shared/futureasset/plan.go:178-191 | a family of queues that the planner accepts and whose plan fails validation: a hashed asset without source beside an unhashed one |
| `FuturePlans.FromProto` | shared/futureasset/plan.go:327-372 | a message is accepted if and only if nothing in it is nil and the decoded plan is valid |
| `FuturePlans.RoundTrip` | shared/futureasset/plan.go:295-372 | what is sent is received unchanged if and only if its numbers fit 32 bits, and is then accepted if and only if it was valid |
| `FutureRules.SentExactly` | shared/futureasset/plan.go:295-324 | every field of the message by name; numbers in 32-bit fields are the same modulo 2^32 |
| `Sharding.ChooseShard` | scripts/ci/shard-go-packages.py:39 | the chosen shard is the first of the least loaded |
| `Sharding.Balance` | scripts/ci/shard-go-packages.py:36-41 | buckets and loads are those of the greedy assignment of the packages by falling weight, then name |
| `Sharding.HeaviestFirst` | scripts/ci/shard-go-packages.py:38 | the placement order on weights and names: falling weight, then names in byte order, none lost and none added |
| `Sharding.Partition` | scripts/ci/shard-go-packages.py:36-41 | the buckets together hold every name exactly as often as it is listed, and with distinct names no two buckets share one |
| `Sharding.OrderIndependent` | scripts/ci/shard-go-packages.py:38-41 | the order of the listing makes no difference |
| `Sharding.GapBound` | scripts/ci/shard-go-packages.py:38-41 | two loads differ by at most the largest weight |
| `Sharding.LoadsConserve` | scripts/ci/shard-go-packages.py:38-41 | loads add up to the total weight |
| `Sharding.PlacementBound` | scripts/ci/shard-go-packages.py:38-41 | a shard's last package found it at or below the average |
| `Sharding.MakespanBound` | scripts/ci/shard-go-packages.py:38-41 | m times any load is at most total plus (m - 1) times the largest weight |
| `ShardingBound.BigJobsFit` | scripts/ci/shard-go-packages.py:38-41 | packages above a third of a feasible bound are kept within it |
| `ShardingBound.Graham` | scripts/ci/shard-go-packages.py:38-41 | if any assignment keeps all shards within T, the greedy one keeps them within (4/3 - 1/(3m)) T |
| `ShardingBound.BalanceNearOptimal` | scripts/ci/shard-go-packages.py:36-43 | the same for the balancer as it runs, against every other distribution |
| `Taxonomy.SameSetIsPermutation` | shared/telemetry/catalog_source.go:315-325 | against a list without duplicates the set test means permutation, both ways |
| `Taxonomy.SameSetMissesDuplicates` | shared/telemetry/catalog_source.go:315-325 | against a list with duplicates it does not |
| `Taxonomy.UndecidedIsEndless` | shared/telemetry/catalog_source.go:269-273 | a walk undecided after as many steps as there are phases never ends |
| `Taxonomy.WalkParents` | shared/telemetry/catalog_source.go:269-273 | exactly when the parent walk ends at a root, finds a cycle, or never ends |
| `Taxonomy.AcyclicWalkEnds` | shared/telemetry/catalog_source.go:269-273 | in an acyclic taxonomy every parent walk ends at a root within as many steps as there are phases |
| `Taxonomy.WalksEndExactly` | shared/telemetry/catalog_source.go:269-273 | the walks of all phases end at roots if and only if the taxonomy is acyclic |
| `Taxonomy.NeverEndsExactly` | shared/telemetry/catalog_source.go:269-273 | a walk never ends if and only if the chain repeats a phase within as many steps as there are phases without returning to its start |
| `Taxonomy.CheckPhases` | shared/telemetry/catalog_source.go:250-277 | passes if and only if every phase has a sound role and a walk that ends at a root; hangs if and only if, in map order, a sound span phase with an endless walk comes before any failing phase |
| `Taxonomy.CheckEvents` | shared/telemetry/catalog_source.go:282-293 | passes if and only if every event fits its phase |
| `Taxonomy.ValidatePhaseTaxonomy` | shared/telemetry/catalog_source.go:239-295 | passes if and only if the taxonomy is acceptable, and the exact inputs and map orders on which it never returns |
| `Taxonomy.AcceptedExactly` | shared/telemetry/catalog_source.go:239-295 | acceptance on the taxonomy itself: as many phases as listed and each listed one present, exclusive phases without a parent, span_parent and span_child phases under another listed phase, no phase above itself, exclusive events in exclusive phases |
| `Taxonomy.AcceptedPhases` | shared/telemetry/catalog_source.go:240-249 | an accepted taxonomy has exactly the listed phases |
| `Taxonomy.AcceptedIsForest` | shared/telemetry/catalog_source.go:239-295 | an accepted taxonomy over distinct phases is a forest: acyclic, roots are exactly the exclusive phases, every chain reaches one in fewer steps than there are phases, and exclusive events name roots |
| `Taxonomy.GuardCanHang` | shared/telemetry/catalog_source.go:269-273 | a concrete taxonomy, phase list and map order on which validation never returns |
| `RenderPayload.RenderOnlyCleans` | shared/contract/render_payload.go:82-114 | nothing forbidden is left at any depth, and video metadata holds only technical keys |
| `RenderPayload.RenderOnlyWithin` | shared/contract/render_payload.go:82-114 | the projection only leaves fields out |
| `RenderPayload.RenderOnlyGreatest` | shared/contract/render_payload.go:82-114 | and no more than it must: every clean part of a value survives |
| `RenderPayload.WithheldKeysGone` | shared/contract/render_payload.go:50-80 | none of the 29 control-plane keys, listed by name, occurs at any depth of the result, and at the top no other field is lost |
| `RenderPayload.StreamKeysKept` | shared/contract/render_payload.go:192-205 | a metadata object keeps exactly its fields among the ten stream parameters, listed by name; metadata of another shape is dropped |
| `RenderPayload.CleanIsFixed` | shared/contract/render_payload.go:82-114 | the values left alone are exactly the clean ones |
| `RenderPayload.CanonicalScenesFixed` | shared/contract/render_payload.go:116-155 | rewritten scenes are clean, and clean scenes are not rewritten |
| `RenderPayload.ClipLinkRewritten` | shared/contract/render_payload.go:135-182 | a clip link becomes a clip object with its duration unless one exists; the link is gone |
| `RenderPayload.ImageLinkRewritten` | shared/contract/render_payload.go:135-182 | likewise for images, without duration |
| `RenderPayload.SceneShowsLinks` | shared/contract/render_payload.go:135-182 | on the scene's fields: a link that is text and not blank becomes an object with exactly the wire form, the id if there is one and the duration if there is one |
| `RenderPayload.SceneFieldsKept` | shared/contract/render_payload.go:135-155 | every other field of a scene is projected as usual |
| `RenderPayload.RenderOnlyPayload` | shared/contract/render_payload.go:14-45 | the step-by-step projection, its JSON error included, equals the composed one |
| `RenderPayload.ProjectKeeps` | shared/contract/render_payload.go:14-45 | top-level fields other than scenes and metadata are projected on their own |
| `RenderPayload.ProjectedScenes` | shared/contract/render_payload.go:23-37 | scenes come from the payload or, only without any, from its JSON text |
| `RenderPayload.ProjectCleans` | shared/contract/render_payload.go:14-45 | a projected payload is clean, has no empty metadata and carries the text of canonical scenes |
| `RenderPayload.ProjectIdempotent` | shared/contract/render_payload.go:14-45 | projecting twice equals projecting once, scene rewriting included, if rewritten scenes print and parse back |
| `AssetRef.CanonicalIds` | shared/assetref/ref.go:226-240 | accepted ids have no empty, "." or ".." segment and no forbidden character, and are exactly the strings that stand for themselves |
| `AssetRef.SafeExactly` | shared/assetref/ref.go:226-240 | ids by position: no backslash, NUL or line break, and no stretch between slashes that is empty, "." or ".." |
| `AssetRef.ParsedExactly` | shared/assetref/ref.go:110-137 | what each string is taken for, with literal schemes in any ASCII case: local and deferred wire forms, Drive URLs, web addresses, plain paths, and refusal of everything else |
| `AssetRef.ParseTrims` | shared/assetref/ref.go:110-114 | surrounding white space is ignored |
| `AssetRef.AnnotationRead` | shared/assetref/ref.go:143-168 | without a scheme the annotated kind decides what a wire string is taken for |
| `AssetRef.ReferenceShown` | shared/assetref/ref.go:172-199 | the id and the wire form of a reference by its kind |
| `AssetRef.CanonicalWireReadsBack` | shared/assetref/ref.go:73-87 | kind and id of local and deferred references are recovered from the wire form |
| `AssetRef.LocalReadsBack` | shared/assetref/ref.go:44-50 | a constructed local reference parses back to itself |
| `AssetRef.DeferredReadsBack` | shared/assetref/ref.go:55-61 | a constructed deferred reference parses back to itself |
| `AssetRef.RemoteReadsBack` | shared/assetref/ref.go:64-71 | a constructed remote reference parses back to itself if and only if it is not a Drive file URL |
| `AssetRef.DriveUrlReadsBackDeferred` | shared/assetref/ref.go:110-137 | a remote reference made from the URL of a Drive file reads back as a deferred one |
| `AssetRef.DriveUrlSeen` | shared/assetref/ref.go:126-131 | the same at a concrete URL |
| `AssetRef.ParsePrintParse` | shared/assetref/ref.go:110-137 | parsing what was printed gives the same reference, for every accepted string |
| `AssetRef.WireIsSelfSufficient` | shared/assetref/ref.go:106-199 | the wire form yields the id if and only if the input had a scheme or was a Drive URL; bare paths and remote URLs do not |
| `AssetRef.BarePathNotSelfSufficient` | shared/assetref/ref.go:132-137 | a concrete bare path that parses as local and whose wire form names no asset |
| `ExecutorRegistry.KeysIdentify` | shared/controltransport/executor_capability.go:25-39 | key strings collide if and only if id and version do |
| `ExecutorRegistry.NewExecutorRegistry` | shared/controltransport/executor_capability.go:50-72 | accepted if and only if every trimmed capability is valid and no identity repeats; stored sorted |
| `ExecutorRegistry.AcceptedExactly` | shared/controltransport/executor_capability.go:28-72 | acceptance on the advertised fields: trimmed ids not empty and without "@", versions from 1, no id and version twice |
| `ExecutorRegistry.StoredAscending` | shared/controltransport/executor_capability.go:65-70 | the stored order on the fields: ids ascend byte by byte, and under one id versions ascend |
| `ExecutorRegistry.KeySpelled` | shared/controltransport/executor_capability.go:25 | a key is spelled as id, "@" and the version |
| `ExecutorRegistry.VersionSpelled` | shared/controltransport/executor_capability.go:25 | the version is spelled in decimal digits, a negative one with a sign |
| `ExecutorRegistry.ConstructedIsRegistry` | shared/controltransport/executor_capability.go:50-72 | what is stored is strictly ordered by identity and holds exactly the trimmed capabilities |
| `ExecutorRegistry.AdvertisingOrderForgotten` | shared/controltransport/executor_capability.go:48-72 | the order of advertising makes no difference, for acceptance or result |
| `ExecutorRegistry.RegistryRebuilds` | shared/controltransport/executor_capability.go:153-172 | a registry rebuilt from its own contents, as after persistence, is the same |
| `ExecutorRegistry.Search` | shared/controltransport/executor_capability.go:103-121 | binary search finds the first position of a monotone test |
| `ExecutorRegistry.Has` | shared/controltransport/executor_capability.go:103-112 | true if and only if some entry has the id and version |
| `ExecutorRegistry.HasId` | shared/controltransport/executor_capability.go:116-121 | true if and only if some entry has the id |
| `ExecutorRegistry.Without` | shared/controltransport/executor_capability.go:125-142 | removes exactly one identity, stays a registry, and never takes the fallback |
| `ExecutorRegistry.RemovalChain` | shared/controltransport/executor_capability.go:125-142 | any chain of removals leaves a registry of exactly the identities not removed |
| `ExecutorRegistry.RemovalOrderForgotten` | shared/controltransport/executor_capability.go:125-142 | only the set of removed identities matters |
| `Languages.NormalizeLanguage` | shared/publication/validation.go:181-204 | for any case tables the loop over subtags computes the stored form, empty for a tag with an empty part; lengths count bytes, and a script starting with a multi-byte letter is torn apart as in the code |
| `Languages.StoredSubtags` | shared/publication/validation.go:181-204 | the subtags of a stored tag are the cased subtags of the original, and it is accepted again |
| `Languages.TwiceExactly` | shared/publication/validation.go:181-204 | normalizing a tag twice equals normalizing it once if and only if it is refused or every later subtag is steady |
| `Languages.SteadyExactly` | shared/publication/validation.go:187-201 | casing settles a subtag if and only if it is torn apart, keeps its kind (as a script with a one-byte head), or has nothing left to change as its new kind; the first subtag always settles |
| `Languages.LoweredFails` | shared/publication/validation.go:199-200 | a lowered subtag fails to settle if and only if its letters now have the length of a region or a script and still have capitals to take |
| `Languages.SteadyWhenWidthsKept` | shared/publication/validation.go:181-204 | a subtag is steady if case changes none of its characters' encoded lengths |
| `Languages.NormalizedInTwice` | shared/publication/validation.go:181-204 | normalizing is idempotent on every tag whose characters keep their lengths when their case changes |
| `Languages.NormalizedTwice` | shared/publication/validation.go:181-204 | in particular on every ASCII tag |
| `Languages.DottedTwice` | shared/publication/validation.go:181-204 | under tables like Unicode's, en-İa is stored as en-ia and normalizes to en-IA the next time |
| `Languages.DottedTables` | shared/publication/validation.go:181-204 | there are case tables of that kind |
| `Languages.AsciiCased` | shared/publication/validation.go:181-204 | ASCII casing by code point: small letters, except capitals in a later subtag of two letters and at the head of one of four |
| `Languages.FixedExactly` | shared/publication/validation.go:181-204 | the tags left alone are the empty one and those made of cased subtags |
| `Languages.StoredAlike` | shared/publication/validation.go:181-204 | two accepted tags of one-byte letters are stored alike if and only if they differ in case, separators and spacing only |
| `Publication.CheckDestinations` | shared/publication/validation.go:92-115 | no violation if and only if every destination is sound and trimmed ids differ |
| `Publication.Validate` | shared/publication/validation.go:59-144 | no violation if and only if the declarative predicate `Valid` holds of the spec |
| `PublicationRules.ValidExactly` | shared/publication/validation.go:59-179 | a spec is valid if and only if it keeps literal rules on its fields: version 1, identifiers without ".", "/" and "\\", exactly one selector, sound and distinct destinations, stored language tags, UTF-8 texts |
| `KeySets.Rekey` | shared/publication/validation.go:33-46 | locale keys are renamed if and only if none becomes empty or equal to another, whatever the map order |
| `Publication.Normalize` | shared/publication/validation.go:19-54 | the step-by-step rewriting equals the canonical copy, refused under the same conditions |
| `PublicationRules.AcceptedExactly` | shared/publication/validation.go:19-54 | a spec as written normalizes if and only if it keeps those rules up to trimming and tag casing: version 0 or 1, no selector that is only white space, locale keys that stay distinct and not empty, tags that settle at once |
| `Publication.NormalizedIsCanonical` | shared/publication/validation.go:19-54 | an accepted spec comes out valid, trimmed and without empty tag lists |
| `Publication.NormalizedAgain` | shared/publication/validation.go:19-54 | of a canonical spec normalizing touches the default language at most, and nothing if there are localizations |
| `Publication.NormalizeIdempotent` | shared/publication/validation.go:19-54 | for any case tables normalizing twice equals normalizing once if and only if the default language is stable, which localizations enforce |
| `PublicationResolver.ResolvedMetadata.Apply` | shared/publication/metadata_merge.go:11-42 | fields the source sets are overwritten, all others and the language are kept |
| `PublicationResolver.ResolveCanonicalMetadata` | shared/publication/metadata_merge.go:68-82 | the layers applied in place equal the layered record, or the missing-title error |
| `PublicationResolver.LayersByPrecedence` | shared/publication/metadata_merge.go:44-82 | every field is the first one set among override, localization, publication metadata and video name |
| `PublicationResolver.MergeProviderOptions` | shared/publication/resolver.go:171-183 | all options of both sides, the destination's winning |
| `PublicationResolver.ResolvePublication` | shared/publication/resolver.go:16-65 | the whole resolution, each error included, equals its specification |
| `PublicationResolver.ResolvePublicationForDestinationId` | shared/publication/resolver.go:70-91 | likewise for the lookup by id |
| `PublicationResolver.OnlyTheIdMatters` | shared/publication/resolver.go:27-41 | of the destination handed in only the trimmed id matters |
| `PublicationResolver.ByIdAgrees` | shared/publication/resolver.go:16-91 | both entry points agree, errors included, although one normalizes twice |
| `PublicationResolver.DeclaredOnce` | shared/publication/resolver.go:140-148 | a normalized spec declares an id at most once, and the lookup finds that declaration |
| `PublicationResolver.Delivers` | shared/publication/resolver.go:16-65 | for a spec that normalizes: succeeds if and only if the id is declared and the chosen title is not blank, delivers what that declaration says, and otherwise which error it is |
| `PublicationDelivery.DeliveredSomewhere` | shared/publication/resolver.go:16-65 | every delivery comes from a declaration in the spec as written |
| `PublicationDelivery.DeliveredLanguage` | shared/publication/resolver.go:129-138 | the delivered language: the requested locale if it is a tag, else the spec's language, else its default language if there are localizations, else none |
| `PublicationDelivery.DeliveredTitle` | shared/publication/metadata_merge.go:68-82 | the delivered title on the spec's fields: the override's, else that of the localization of the delivered language, else the publication's, else the job's name |
| `PublicationDelivery.DeliveredDescription` | shared/publication/metadata_merge.go:68-82 | likewise for the description, without a name to fall back on |
| `PublicationDelivery.DeliveredUnlocalized` | shared/publication/metadata_merge.go:68-82 | both when no localization is of the delivered language |
| `PublicationDelivery.DeliveredRest` | shared/publication/metadata_merge.go:11-42 | category, privacy, date and flags: the override's where it sets them, the publication's elsewhere |
| `PublicationDelivery.DeliveredRouting` | shared/publication/resolver.go:42-64 | trimmed identifiers, all localizations under their stored tags, and the destination's options over the publication's |
| `PublicationDelivery.DeliveredHash` | shared/publication/resolver.go:98-126 | the hash covers exactly title, description, tags, language, localizations and options as delivered |
| `PublicationDelivery.TitleDecides` | shared/publication/metadata_merge.go:76-80 | when a declared destination resolves, read off the override, the publication and the job's name; the only error left is a missing title |
| `PublicationResolver.EmptyTagsAreAbsent` | shared/publication/types.go:187-214 | specs differing in empty against absent tag lists resolve alike, errors included |
| `PublicationTags.ResolvedTags` | shared/publication/metadata_merge.go:68-82 | resolved tags read off the spec as written: the first non-empty list of override and publication |
| `PublicationTags.EmptyOverrideInherits` | shared/publication/types.go:201-214 | an override with an explicitly empty tag list resolves to the publication's tags, and to none if and only if the publication names none |
| `PublicationTags.EntryPointsDiffer` | shared/publication/metadata_merge.go:52-66 | handed the same declaration the older entry point clears the tags, so the two never agree on it |
| `PublicationTags.TagsNotCleared` | shared/publication/types.go:201-214 | a concrete spec whose override asks for no tags and is delivered with one |
| `PublicationTags.DefaultLanguageDrifts` | shared/publication/validation.go:122-127 | a concrete spec whose default language is stored as en-ia and then as en-IA |
| `PublicationTags.LegacyAgrees` | shared/publication/metadata_merge.go:52-66 | the older entry point agrees if and only if the override handed in and the declared one change the inherited metadata alike, or both leave no title |

## Left out

- NormalizeWindow: the receiver is modelled as a value that is returned, so in-place update and aliasing of list elements are not captured.
- Sorting: `sort.Slice` and `sort.SliceStable` are one stable sort on sequences; the order of equal elements after an unstable sort is not captured beyond that, nor is sorting in place.
- ResolveVisualReplacements: the frame-exact theorems assume that frame products and source positions stay inside 64 bits; the model itself wraps as the code does.
- WalkParents: the endless walk is detected by a step bound that is proved exact, since a Dafny method must end.
- Wire schemes: case folding is ASCII; the one other letter that folds into a scheme name leads to the same refusal because it leaves an empty path segment.
- ProjectIdempotent: JSON is a parameter; rewritten scenes are assumed to print and parse back to themselves.
- DecodesCanonicalDocuments: JSON is a parameter; plans whose text JSON carries are assumed to parse back, and asset sort keys to tell assets apart.
- CompileWithOverlays: the final-audio, output-profile and timeline-hash steps of the manifest compiler are not part of it, only video tracks are listed, and the final plan validation is linked by `ManifestPlans` instead of called.
- CompileVideoTracks: likewise without the final-audio gates between the identity gate and the tracks.
- RenderOnlyPayload: JSON numbers are opaque codes and both Go list types are one list; the duration in milliseconds is a parameter, and values that are not JSON-shaped are outside the type.
- ValidateHeader, ValidateAudio and the other validators: violation paths, texts and their order are reduced to issue codes.
- SHA-256, JSON bytes, clocks, UTF-8 validity, Unicode tables and Drive URL parsing are parameters.
- Maps: a nil map and an empty map are the same value; iteration orders are parameters or arbitrary choices.
- The stock-pool flag of a base segment that is cut is lost, as in the code.
- The manifest parser and its own validation, output profiles, media probing, `ParseOverlays` and `ParseVisualReplacements` are not part of this model.
- The shard script's argument parsing, its call of `go list` and its printing.
- Provider registries, error formatting, deep copies as heap objects, servers, command-line tools, telemetry snapshots, dispatch SQL and the remaining scripts: they would only add easy members.
