/**
  Publication specifications: cloning, structural validation and the canonical form. A nil map and an
  empty map are the same here; a nil and an empty tag list are not. UTF-8 validity is a parameter.
 */
module Publication {
  import opened Optional
  import KeySets
  import Languages
  import Orders
  import RenderPayload
  import Text

  type Options = map<string, RenderPayload.Value>

  const VERSION := 1

  datatype OutputRef = OutputRef(variantId: string, artifactRole: string)

  datatype Localization = Localization(title: string, description: string)

  datatype Metadata = Metadata(
    title: string, description: string, tags: Option<seq<string>>, categoryId: string, privacy: string,
    publishAt: string, madeForKids: Option<bool>, synthetic: Option<bool>)

  datatype Destination = Destination(
    id: string, credentialRef: string, priority: int, retryBudget: Option<int>,
    override: Option<Metadata>, options: Options)

  datatype Spec = Spec(
    version: int, publicationId: string, outputRef: OutputRef, language: string, defaultLanguage: string,
    metadata: Metadata, localizations: map<string, Localization>, destinations: seq<Destination>, options: Options)

  // ----- copies

  /** Copying by appending to a nil slice: an explicitly empty list becomes nil. */
  function CloneTags(tags: Option<seq<string>>): Option<seq<string>> {
    if tags == Some([]) then None else tags
  }

  function CloneMetadata(m: Metadata): Metadata {
    m.(tags := CloneTags(m.tags))
  }

  function CloneDestination(d: Destination): Destination {
    d.(override := if d.override.None? then None else Some(CloneMetadata(d.override.value)))
  }

  function CloneSpec(s: Spec): Spec {
    s.(metadata := CloneMetadata(s.metadata), destinations := Orders.Map(CloneDestination, s.destinations))
  }

  // ----- validity

  /** Valid UTF-8 and the Unicode case tables. */
  datatype Tables = Tables(utf8: string -> bool, casing: Languages.Casing)

  /** A language tag in stored form. */
  function Tag(tables: Tables, value: string): string {
    Languages.NormalizedIn(tables.casing, value)
  }

  function Tagger(tables: Tables): string -> string {
    value => Tag(tables, value)
  }

  predicate HasSeparator(id: string) {
    exists c :: c in id && (c == '.' || c == '/' || c == '\\')
  }

  predicate ValidMetadata(tables: Tables, m: Metadata) {
    && tables.utf8(m.title) && tables.utf8(m.description) && tables.utf8(m.categoryId)
    && tables.utf8(m.privacy) && tables.utf8(m.publishAt)
    && (m.tags.Some? ==> forall i :: 0 <= i < |m.tags.value| ==> tables.utf8(m.tags.value[i]))
  }

  predicate ValidOutput(o: OutputRef) {
    var variant, role := Text.Trim(o.variantId), Text.Trim(o.artifactRole);
    && (o.variantId != "" ==> variant != "") && (o.artifactRole != "" ==> role != "")
    && (variant == "" <==> role != "")
    && !HasSeparator(variant) && !HasSeparator(role)
  }

  predicate ValidDestination(tables: Tables, d: Destination) {
    && Text.Trim(d.id) != "" && !HasSeparator(Text.Trim(d.id))
    && d.priority >= 0
    && (d.retryBudget.Some? ==> d.retryBudget.value >= 0)
    && (d.override.Some? ==> ValidMetadata(tables, d.override.value))
  }

  predicate Apart(d: Destination, e: Destination) {
    Text.Trim(d.id) != Text.Trim(e.id)
  }

  predicate ValidLocalization(tables: Tables, locale: string, l: Localization) {
    Tag(tables, locale) == locale && tables.utf8(l.title) && tables.utf8(l.description)
  }

  ghost predicate ValidDestinations(tables: Tables, ds: seq<Destination>) {
    && (forall i :: 0 <= i < |ds| ==> ValidDestination(tables, ds[i]))
    && Orders.Pairwise(Apart, ds)
  }

  ghost predicate ValidLocalizations(tables: Tables, locs: map<string, Localization>) {
    forall k :: k in locs ==> ValidLocalization(tables, k, locs[k])
  }

  ghost predicate Valid(tables: Tables, s: Spec) {
    && s.version == VERSION
    && Text.Trim(s.publicationId) != "" && !HasSeparator(Text.Trim(s.publicationId))
    && ValidOutput(s.outputRef)
    && s.destinations != [] && ValidDestinations(tables, s.destinations)
    && Tag(tables, s.language) == s.language
    && (s.localizations != map[] ==>
          && s.defaultLanguage != "" && Tag(tables, s.defaultLanguage) == s.defaultLanguage
          && ValidLocalizations(tables, s.localizations))
    && ValidMetadata(tables, s.metadata)
  }

  /** The number of violations found in the destinations. */
  method CheckDestinations(tables: Tables, ds: seq<Destination>) returns (violations: nat)
    ensures violations == 0 <==> ValidDestinations(tables, ds)
  {
    violations := 0;
    var seen: set<string> := {};
    for i := 0 to |ds|
      invariant violations == 0 <==> ValidDestinations(tables, ds[..i])
      invariant violations == 0 ==> seen == SeenIds(ds, i)
    {
      DestinationStep(tables, ds, i);
      var id := Text.Trim(ds[i].id);
      if id == "" || id in seen {
        violations := violations + 1;
      } else {
        seen := seen + {id};
      }
      if ds[i].priority < 0 {
        violations := violations + 1;
      }
      if ds[i].retryBudget.Some? && ds[i].retryBudget.value < 0 {
        violations := violations + 1;
      }
      if HasSeparator(id) {
        violations := violations + 1;
      }
      if ds[i].override.Some? && !ValidMetadata(tables, ds[i].override.value) {
        violations := violations + 1;
      }
    }
    assert ds[..|ds|] == ds;
  }

  ghost function SeenIds(ds: seq<Destination>, n: nat): set<string>
    requires n <= |ds|
  {
    set k | 0 <= k < n :: Text.Trim(ds[k].id)
  }

  lemma {:induction false} FreshId(ds: seq<Destination>, i: nat)
    requires i < |ds|
    ensures SeenIds(ds, i + 1) == SeenIds(ds, i) + {Text.Trim(ds[i].id)}
    ensures Text.Trim(ds[i].id) !in SeenIds(ds, i) <==> forall k :: 0 <= k < i ==> Apart(ds[..i][k], ds[i])
  {
    forall k | 0 <= k < i ensures Text.Trim(ds[..i][k].id) in SeenIds(ds, i) {
      assert Text.Trim(ds[k].id) in SeenIds(ds, i);
    }
    if Text.Trim(ds[i].id) in SeenIds(ds, i) {
      var k :| 0 <= k < i && Text.Trim(ds[k].id) == Text.Trim(ds[i].id);
      assert !Apart(ds[..i][k], ds[i]);
    }
  }

  lemma {:induction false} DestinationStep(tables: Tables, ds: seq<Destination>, i: nat)
    requires i < |ds|
    ensures SeenIds(ds, i + 1) == SeenIds(ds, i) + {Text.Trim(ds[i].id)}
    ensures ValidDestinations(tables, ds[..i + 1]) <==>
              && ValidDestinations(tables, ds[..i])
              && ValidDestination(tables, ds[i])
              && Text.Trim(ds[i].id) !in SeenIds(ds, i)
  {
    var init := ds[..i];
    var more := ds[..i + 1];
    assert more == init + [ds[i]];
    Orders.PairwiseStep(Apart, init, ds[i]);
    FreshId(ds, i);
    assert more[i] == ds[i] && forall k :: 0 <= k < i ==> more[k] == init[k];
  }

  method CheckLocalizations(tables: Tables, locs: map<string, Localization>) returns (violations: nat)
    ensures violations == 0 <==> ValidLocalizations(tables, locs)
  {
    violations := 0;
    var rest := locs.Keys;
    while rest != {}
      invariant rest <= locs.Keys
      invariant violations == 0 <==> forall k :: k in locs && k !in rest ==> ValidLocalization(tables, k, locs[k])
    {
      var k :| k in rest;
      if Tag(tables, k) != k {
        violations := violations + 1;
      }
      if !(tables.utf8(locs[k].title) && tables.utf8(locs[k].description)) {
        violations := violations + 1;
      }
      rest := rest - {k};
    }
  }

  /** Collects violations instead of stopping at the first; none are found exactly for a valid spec. */
  method Validate(tables: Tables, s: Spec) returns (violations: nat)
    ensures violations == 0 <==> Valid(tables, s)
  {
    violations := 0;
    if s.version != VERSION {
      violations := violations + 1;
    }
    var id := Text.Trim(s.publicationId);
    if id == "" || HasSeparator(id) {
      violations := violations + 1;
    }
    var output := CheckOutput(s.outputRef);
    var destinations := CheckDestinations(tables, s.destinations);
    violations := violations + output + destinations;
    if s.destinations == [] {
      violations := violations + 1;
    }
    if s.language != "" && Tag(tables, s.language) != s.language {
      violations := violations + 1;
    }
    NoTag(tables);
    if s.localizations != map[] {
      if s.defaultLanguage == "" || Tag(tables, s.defaultLanguage) != s.defaultLanguage {
        violations := violations + 1;
      }
      var localizations := CheckLocalizations(tables, s.localizations);
      violations := violations + localizations;
    }
    if !ValidMetadata(tables, s.metadata) {
      violations := violations + 1;
    }
  }

  lemma {:induction false} NoTag(tables: Tables)
    ensures Tag(tables, "") == ""
  {
    assert Languages.Dashed("") == "";
  }

  method CheckOutput(o: OutputRef) returns (violations: nat)
    ensures violations == 0 <==> ValidOutput(o)
  {
    violations := 0;
    var variant, role := Text.Trim(o.variantId), Text.Trim(o.artifactRole);
    if o.variantId != "" && variant == "" {
      violations := violations + 1;
    }
    if o.artifactRole != "" && role == "" {
      violations := violations + 1;
    }
    if variant == "" && role == "" {
      violations := violations + 1;
    }
    if variant != "" && role != "" {
      violations := violations + 1;
    }
    if HasSeparator(variant) {
      violations := violations + 1;
    }
    if HasSeparator(role) {
      violations := violations + 1;
    }
  }

  // ----- the canonical form

  /** Locale keys stay usable: none becomes empty and no two become equal. */
  ghost predicate KeysSurvive(tables: Tables, locs: map<string, Localization>) {
    KeySets.Survive(Tagger(tables), locs)
  }

  ghost function Rekeyed(tables: Tables, locs: map<string, Localization>): map<string, Localization>
    requires KeysSurvive(tables, locs)
  {
    KeySets.Rekeyed(Tagger(tables), locs)
  }

  function TrimDestination(d: Destination): Destination {
    d.(id := Text.Trim(d.id))
  }

  function TrimOutput(o: OutputRef): OutputRef {
    OutputRef(Text.Trim(o.variantId), Text.Trim(o.artifactRole))
  }

  predicate SelectorsBlank(o: OutputRef) {
    (o.variantId != "" && Text.Blank(o.variantId)) || (o.artifactRole != "" && Text.Blank(o.artifactRole))
  }

  /** The rewritten copy, before it is validated. */
  ghost function Tidied(tables: Tables, s: Spec): Spec
    requires KeysSurvive(tables, s.localizations)
  {
    var c := CloneSpec(s);
    c.(version := if s.version == 0 then VERSION else s.version,
       publicationId := Text.Trim(s.publicationId),
       language := Tag(tables, s.language),
       defaultLanguage := Tag(tables, s.defaultLanguage),
       outputRef := TrimOutput(s.outputRef),
       localizations := Rekeyed(tables, s.localizations),
       destinations := Orders.Map(TrimDestination, c.destinations))
  }

  ghost function Normalized(tables: Tables, s: Spec): Option<Spec> {
    if SelectorsBlank(s.outputRef) || !KeysSurvive(tables, s.localizations) then None
    else if !Valid(tables, Tidied(tables, s)) then None
    else Some(Tidied(tables, s))
  }

  method Normalize(tables: Tables, s: Spec) returns (r: Option<Spec>)
    ensures r == Normalized(tables, s)
  {
    var out := CloneSpec(s);
    if out.version == 0 {
      out := out.(version := VERSION);
    }
    out := out.(publicationId := Text.Trim(out.publicationId));
    out := out.(language := Tag(tables, out.language));
    out := out.(defaultLanguage := Tag(tables, out.defaultLanguage));
    if SelectorsBlank(out.outputRef) {
      return None;
    }
    out := out.(outputRef := TrimOutput(out.outputRef));
    if out.localizations != map[] {
      var ok, rekeyed := KeySets.Rekey(Tagger(tables), out.localizations);
      if !ok {
        return None;
      }
      out := out.(localizations := rekeyed);
    } else {
      assert Rekeyed(tables, s.localizations) == map[];
    }
    var destinations := TrimDestinations(out.destinations);
    out := out.(destinations := destinations);
    assert out == Tidied(tables, s);
    var violations := Validate(tables, out);
    r := if violations > 0 then None else Some(out);
  }

  method TrimDestinations(ds: seq<Destination>) returns (r: seq<Destination>)
    ensures r == Orders.Map(TrimDestination, ds)
  {
    r := ds;
    for i := 0 to |ds|
      invariant |r| == |ds|
      invariant forall k :: 0 <= k < i ==> r[k] == TrimDestination(ds[k])
      invariant forall k :: i <= k < |ds| ==> r[k] == ds[k]
    {
      r := r[i := r[i].(id := Text.Trim(r[i].id))];
    }
    assert r == Orders.Map(TrimDestination, ds);
  }

  /** A spec in canonical form. */
  ghost predicate Canonical(tables: Tables, s: Spec) {
    && Valid(tables, s)
    && CloneSpec(s) == s
    && Text.Trimmed(s.publicationId)
    && Text.Trimmed(s.outputRef.variantId) && Text.Trimmed(s.outputRef.artifactRole)
    && (forall i :: 0 <= i < |s.destinations| ==> Text.Trimmed(s.destinations[i].id))
    && forall k :: k in s.localizations ==> k != ""
  }

  lemma {:induction false} TidiedCloned(tables: Tables, s: Spec)
    requires KeysSurvive(tables, s.localizations)
    ensures CloneSpec(Tidied(tables, s)) == Tidied(tables, s)
  {
    var t := Tidied(tables, s);
    assert Orders.Map(CloneDestination, t.destinations) == t.destinations;
  }

  /** Normalizing yields a canonical spec. */
  lemma {:induction false} NormalizedIsCanonical(tables: Tables, s: Spec)
    requires Normalized(tables, s).Some?
    ensures Canonical(tables, Normalized(tables, s).value)
  {
    var t := Tidied(tables, s);
    TidiedCloned(tables, s);
    Text.TrimOfTrimmed(s.publicationId);
    Text.TrimOfTrimmed(s.outputRef.variantId);
    Text.TrimOfTrimmed(s.outputRef.artifactRole);
    forall i | 0 <= i < |t.destinations| ensures Text.Trimmed(t.destinations[i].id) {
      Text.TrimOfTrimmed(s.destinations[i].id);
    }
  }

  /** Of a canonical spec, normalizing touches the default language at most. */
  lemma {:induction false} NormalizedAgain(tables: Tables, s: Spec)
    requires Canonical(tables, s)
    ensures Normalized(tables, s) == Some(s.(defaultLanguage := Tag(tables, s.defaultLanguage)))
    ensures s.localizations != map[] ==> Normalized(tables, s) == Some(s)
  {
    TidiedAgain(tables, s);
    DefaultUnchecked(tables, s, Tag(tables, s.defaultLanguage));
    assert s.localizations != map[] ==> s.(defaultLanguage := Tag(tables, s.defaultLanguage)) == s;
  }

  /** Without localizations the default language is not validated. */
  lemma {:induction false} DefaultUnchecked(tables: Tables, s: Spec, language: string)
    requires Valid(tables, s) && (s.localizations != map[] ==> language == s.defaultLanguage)
    ensures Valid(tables, s.(defaultLanguage := language))
  {}

  lemma {:induction false} TidiedAgain(tables: Tables, s: Spec)
    requires Canonical(tables, s)
    ensures !SelectorsBlank(s.outputRef) && KeysSurvive(tables, s.localizations)
    ensures Tidied(tables, s) == s.(defaultLanguage := Tag(tables, s.defaultLanguage))
  {
    KeysFixed(tables, s.localizations);
    TextFixed(s.publicationId);
    TextFixed(s.outputRef.variantId);
    TextFixed(s.outputRef.artifactRole);
    DestinationsStay(s.destinations);
    TidiedStays(tables, s);
  }

  lemma {:induction false} TidiedStays(tables: Tables, s: Spec)
    requires KeysSurvive(tables, s.localizations) && Rekeyed(tables, s.localizations) == s.localizations
    requires CloneSpec(s) == s && s.version == VERSION
    requires Text.Trim(s.publicationId) == s.publicationId && TrimOutput(s.outputRef) == s.outputRef
    requires Tag(tables, s.language) == s.language
    requires Orders.Map(TrimDestination, s.destinations) == s.destinations
    ensures Tidied(tables, s) == s.(defaultLanguage := Tag(tables, s.defaultLanguage))
  {}

  lemma {:induction false} TextFixed(t: string)
    requires Text.Trimmed(t)
    ensures Text.Trim(t) == t && (Text.Blank(t) <==> t == "")
  {
    Text.TrimOfTrimmed(t);
    Text.BlankTrims(t);
  }

  lemma {:induction false} KeysFixed(tables: Tables, locs: map<string, Localization>)
    requires forall k :: k in locs ==> k != ""
    requires locs != map[] ==> ValidLocalizations(tables, locs)
    ensures KeysSurvive(tables, locs) && Rekeyed(tables, locs) == locs
  {
    forall k | k in locs ensures Tag(tables, k) == k {
      assert ValidLocalization(tables, k, locs[k]);
    }
    KeySets.FixedKeys(Tagger(tables), locs);
  }

  lemma {:induction false} DestinationsStay(ds: seq<Destination>)
    requires forall i :: 0 <= i < |ds| ==> Text.Trimmed(ds[i].id)
    ensures Orders.Map(TrimDestination, ds) == ds
  {
    forall i | 0 <= i < |ds| ensures TrimDestination(ds[i]) == ds[i] {
      Text.TrimOfTrimmed(ds[i].id);
    }
  }

  /**
    Normalizing a normalized spec changes nothing exactly when its default language is stable; only
    then does a default language without localizations, which is not validated, stay as stored.
   */
  lemma {:induction false} NormalizeIdempotent(tables: Tables, s: Spec)
    requires Languages.Lawful(tables.casing) && Normalized(tables, s).Some?
    ensures Normalized(tables, Normalized(tables, s).value) == Normalized(tables, s) <==>
            Languages.Stable(tables.casing, s.defaultLanguage)
    ensures s.localizations != map[] ==> Languages.Stable(tables.casing, s.defaultLanguage)
  {
    var c := Normalized(tables, s).value;
    NormalizedIsCanonical(tables, s);
    NormalizedAgain(tables, c);
    assert c.defaultLanguage == Tag(tables, s.defaultLanguage);
    Languages.TwiceExactly(tables.casing, s.defaultLanguage);
    if s.localizations != map[] {
      KeysRemain(tables, s.localizations);
    }
  }

  lemma {:induction false} KeysRemain(tables: Tables, locs: map<string, Localization>)
    requires KeysSurvive(tables, locs) && locs != map[]
    ensures Rekeyed(tables, locs) != map[]
  {
    Orders.SomeMember(locs.Keys);
    var k :| k in locs;
    assert Tagger(tables)(k) in Rekeyed(tables, locs);
  }
}
