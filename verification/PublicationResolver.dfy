/**
  Resolving a publication for one destination: which metadata, localizations and provider options a
  delivery gets. The metadata hash is a parameter.
 */
module PublicationResolver {
  import opened Optional
  import opened Publication
  import Text

  datatype Failure = InvalidSpec | DestinationNotFound | InvalidDestination | MissingTitle

  datatype Result<T> = Ok(value: T) | Err(error: Failure)

  datatype Resolved = Resolved(fields: Metadata, language: string)

  /** What the delivery hash covers. */
  datatype Envelope = Envelope(
    title: string, description: string, tags: Option<seq<string>>, language: string,
    localizations: map<string, Localization>, options: Options)

  datatype Snapshot = Snapshot(
    publicationId: string, destinationId: string, outputRef: OutputRef, metadata: Resolved,
    localizations: map<string, Localization>, options: Options, hash: string)

  datatype Context = Context(tables: Tables, hash: Envelope -> string)

  // ----- layers of metadata

  const NOTHING := Metadata("", "", None, "", "", "", None, None)

  function Either(low: string, high: string): string {
    if high != "" then high else low
  }

  function EitherOption<T>(low: Option<T>, high: Option<T>): Option<T> {
    if high.Some? then high else low
  }

  /** Fields present in `source` win, the rest is inherited. */
  function Applied(m: Metadata, source: Metadata): Metadata {
    Metadata(
      Either(m.title, source.title), Either(m.description, source.description), EitherOption(m.tags, source.tags),
      Either(m.categoryId, source.categoryId), Either(m.privacy, source.privacy),
      Either(m.publishAt, source.publishAt), EitherOption(m.madeForKids, source.madeForKids),
      EitherOption(m.synthetic, source.synthetic))
  }

  class ResolvedMetadata {
    var title: string
    var description: string
    var tags: Option<seq<string>>
    var categoryId: string
    var privacy: string
    var publishAt: string
    var madeForKids: Option<bool>
    var synthetic: Option<bool>
    var language: string

    constructor (title: string, language: string)
      ensures Fields() == NOTHING.(title := title) && this.language == language
    {
      this.title, this.language := title, language;
      description, tags, categoryId, privacy, publishAt := "", None, "", "", "";
      madeForKids, synthetic := None, None;
    }

    function Fields(): Metadata
      reads this
    {
      Metadata(title, description, tags, categoryId, privacy, publishAt, madeForKids, synthetic)
    }

    /** Overwrites the fields the source sets and no others. */
    method Apply(source: Metadata)
      modifies this
      ensures Fields() == Applied(old(Fields()), source)
      ensures language == old(language)
    {
      ApplyTexts(source);
      ApplyRest(source);
    }

    method ApplyTexts(source: Metadata)
      modifies this`title, this`description, this`categoryId, this`privacy, this`publishAt
      ensures title == Either(old(title), source.title)
      ensures description == Either(old(description), source.description)
      ensures categoryId == Either(old(categoryId), source.categoryId)
      ensures privacy == Either(old(privacy), source.privacy)
      ensures publishAt == Either(old(publishAt), source.publishAt)
    {
      if source.title != "" {
        title := source.title;
      }
      if source.description != "" {
        description := source.description;
      }
      if source.categoryId != "" {
        categoryId := source.categoryId;
      }
      if source.privacy != "" {
        privacy := source.privacy;
      }
      if source.publishAt != "" {
        publishAt := source.publishAt;
      }
    }

    method ApplyRest(source: Metadata)
      modifies this`tags, this`madeForKids, this`synthetic
      ensures tags == EitherOption(old(tags), source.tags)
      ensures madeForKids == EitherOption(old(madeForKids), source.madeForKids)
      ensures synthetic == EitherOption(old(synthetic), source.synthetic)
    {
      if source.tags.Some? {
        tags := source.tags;
      }
      if source.madeForKids.Some? {
        madeForKids := source.madeForKids;
      }
      if source.synthetic.Some? {
        synthetic := source.synthetic;
      }
    }
  }

  function EffectiveLocale(tables: Tables, spec: Spec, requested: string): string {
    var wanted := Tag(tables, requested);
    if wanted != "" then wanted
    else if spec.language != "" then spec.language
    else if spec.localizations != map[] then spec.defaultLanguage
    else ""
  }

  function Localized(spec: Spec, locale: string): Metadata {
    if locale in spec.localizations
    then NOTHING.(title := spec.localizations[locale].title, description := spec.localizations[locale].description)
    else NOTHING
  }

  function Overriding(override: Option<Metadata>): Metadata {
    if override.Some? then override.value else NOTHING
  }

  /** The layers from lowest to highest precedence, over the job's video name. */
  function Layered(job: string, spec: Spec, override: Option<Metadata>, locale: string): Metadata {
    Applied(Applied(Applied(NOTHING.(title := Text.Trim(job)), spec.metadata), Localized(spec, locale)),
            Overriding(override))
  }

  function CanonicalMetadata(
    tables: Tables, job: string, spec: Spec, override: Option<Metadata>, requested: string): Result<Resolved>
  {
    var locale := EffectiveLocale(tables, spec, requested);
    var m := Layered(job, spec, override, locale);
    if Text.Blank(m.title) then Err(MissingTitle) else Ok(Resolved(m, locale))
  }

  method ResolveCanonicalMetadata(tables: Tables, job: string, spec: Spec, destination: Destination, requested: string)
    returns (r: Result<Resolved>)
    ensures r == CanonicalMetadata(tables, job, spec, destination.override, requested)
  {
    var locale := EffectiveLocale(tables, spec, requested);
    var resolved := new ResolvedMetadata(Text.Trim(job), locale);
    resolved.Apply(spec.metadata);
    if locale in spec.localizations {
      var localized := spec.localizations[locale];
      resolved.Apply(Metadata(localized.title, localized.description, None, "", "", "", None, None));
    }
    if destination.override.Some? {
      resolved.Apply(destination.override.value);
    }
    if Text.Blank(resolved.title) {
      return Err(MissingTitle);
    }
    r := Ok(Resolved(resolved.Fields(), resolved.language));
  }

  // ----- destinations and options

  /** The first declared destination with a trimmed id. */
  function Declared(ds: seq<Destination>, id: string): Option<Destination> {
    if ds == [] then None
    else if Text.Trim(ds[0].id) == id then Some(ds[0].(id := id))
    else Declared(ds[1..], id)
  }

  method DeclaredDestinationById(spec: Spec, id: string) returns (r: Option<Destination>)
    ensures r == Declared(spec.destinations, id)
  {
    for i := 0 to |spec.destinations|
      invariant Declared(spec.destinations, id) == Declared(spec.destinations[i..], id)
    {
      if Text.Trim(spec.destinations[i].id) == id {
        return Some(spec.destinations[i].(id := id));
      }
    }
    r := None;
  }

  method MergeProviderOptions(base: Options, override: Options) returns (merged: Options)
    ensures merged.Keys == base.Keys + override.Keys
    ensures forall k :: k in merged ==> merged[k] == if k in override then override[k] else base[k]
  {
    merged := base;
    var rest := override.Keys;
    while rest != {}
      invariant rest <= override.Keys
      invariant merged.Keys == base.Keys + (override.Keys - rest)
      invariant forall k :: k in merged ==> merged[k] == if k in override && k !in rest then override[k] else base[k]
      decreases rest
    {
      var k :| k in rest;
      merged := merged[k := override[k]];
      rest := rest - {k};
    }
  }

  predicate ValidForResolution(tables: Tables, d: Destination) {
    && d.id != "" && !HasSeparator(d.id)
    && d.priority >= 0
    && (d.retryBudget.Some? ==> d.retryBudget.value >= 0)
    && (d.override.Some? ==> ValidMetadata(tables, d.override.value))
  }

  // ----- resolution

  function Delivery(ctx: Context, spec: Spec, d: Destination, metadata: Resolved): Snapshot {
    var options := spec.options + d.options;
    var envelope := Envelope(
      metadata.fields.title, metadata.fields.description, CloneTags(metadata.fields.tags), metadata.language,
      spec.localizations, options);
    Snapshot(spec.publicationId, d.id, spec.outputRef, metadata, spec.localizations, options, ctx.hash(envelope))
  }

  /** Resolution once the spec is canonical. */
  function ResolvedFrom(ctx: Context, job: string, c: Spec, id: string, requested: string): Result<Snapshot> {
    match Declared(c.destinations, id)
    case None => Err(DestinationNotFound)
    case Some(d) =>
      if !ValidForResolution(ctx.tables, d) then Err(InvalidDestination)
      else
        match CanonicalMetadata(ctx.tables, job, c, d.override, requested)
        case Err(e) => Err(e)
        case Ok(metadata) => Ok(Delivery(ctx, c, d, metadata))
  }

  ghost function Resolve(
    ctx: Context, job: string, spec: Spec, destination: Destination, requested: string): Result<Snapshot>
  {
    match Normalized(ctx.tables, spec)
    case None => Err(InvalidSpec)
    case Some(canonical) => ResolvedFrom(ctx, job, canonical, Text.Trim(destination.id), requested)
  }

  method ResolveFrom(ctx: Context, job: string, canonical: Spec, id: string, requested: string)
    returns (r: Result<Snapshot>)
    ensures r == ResolvedFrom(ctx, job, canonical, id, requested)
  {
    var declared := DeclaredDestinationById(canonical, id);
    if declared.None? {
      return Err(DestinationNotFound);
    }
    var d := declared.value;
    if !ValidForResolution(ctx.tables, d) {
      return Err(InvalidDestination);
    }
    var metadata := ResolveCanonicalMetadata(ctx.tables, job, canonical, d, requested);
    if metadata.Err? {
      return Err(metadata.error);
    }
    var snapshot := BuildSnapshot(ctx, canonical, d, metadata.value);
    r := Ok(snapshot);
  }

  method BuildSnapshot(ctx: Context, spec: Spec, d: Destination, m: Resolved) returns (s: Snapshot)
    ensures s == Delivery(ctx, spec, d, m)
  {
    var options := MergeProviderOptions(spec.options, d.options);
    assert options == spec.options + d.options;
    var envelope := Envelope(
      m.fields.title, m.fields.description, CloneTags(m.fields.tags), m.language, spec.localizations, options);
    s := Snapshot(spec.publicationId, d.id, spec.outputRef, m, spec.localizations, options, ctx.hash(envelope));
  }

  method ResolvePublication(ctx: Context, job: string, spec: Spec, destination: Destination, requested: string)
    returns (r: Result<Snapshot>)
    ensures r == Resolve(ctx, job, spec, destination, requested)
  {
    var canonical := Normalize(ctx.tables, spec);
    if canonical.None? {
      return Err(InvalidSpec);
    }
    r := ResolveFrom(ctx, job, canonical.value, Text.Trim(destination.id), requested);
  }

  /** The first destination whose stored id is the wanted one. */
  ghost function StoredAs(ds: seq<Destination>, id: string): Option<Destination> {
    if ds == [] then None else if ds[0].id == id then Some(ds[0]) else StoredAs(ds[1..], id)
  }

  ghost function ResolveById(ctx: Context, job: string, spec: Spec, id: string, requested: string): Result<Snapshot> {
    match Normalized(ctx.tables, spec)
    case None => Err(InvalidSpec)
    case Some(canonical) =>
      match StoredAs(canonical.destinations, Text.Trim(id))
      case None => Err(DestinationNotFound)
      case Some(d) => Resolve(ctx, job, canonical, d, requested)
  }

  method ResolvePublicationForDestinationId(ctx: Context, job: string, spec: Spec, id: string, requested: string)
    returns (r: Result<Snapshot>)
    ensures r == ResolveById(ctx, job, spec, id, requested)
  {
    var canonical := Normalize(ctx.tables, spec);
    if canonical.None? {
      return Err(InvalidSpec);
    }
    var wanted := Text.Trim(id);
    var ds := canonical.value.destinations;
    for i := 0 to |ds|
      invariant StoredAs(ds, wanted) == StoredAs(ds[i..], wanted)
    {
      if ds[i].id == wanted {
        r := ResolvePublication(ctx, job, canonical.value, ds[i], requested);
        return;
      }
    }
    r := Err(DestinationNotFound);
  }

  /** The older entry point: it applies the override its caller hands in. */
  ghost function LegacyMetadata(
    ctx: Context, job: string, spec: Spec, destination: Destination, requested: string): Result<Resolved>
  {
    match Normalized(ctx.tables, spec)
    case None => Err(InvalidSpec)
    case Some(canonical) =>
      if Declared(canonical.destinations, Text.Trim(destination.id)).None? then Err(DestinationNotFound)
      else CanonicalMetadata(ctx.tables, job, canonical, destination.override, requested)
  }

  // ----- what resolution depends on

  /** Of the destination a caller hands in, only the trimmed id matters. */
  lemma {:induction false} OnlyTheIdMatters(
    ctx: Context, job: string, spec: Spec, d: Destination, e: Destination, requested: string)
    requires Text.Trim(d.id) == Text.Trim(e.id)
    ensures Resolve(ctx, job, spec, d, requested) == Resolve(ctx, job, spec, e, requested)
  {}

  lemma {:induction false} DeclaredIsStored(ds: seq<Destination>, id: string)
    requires forall i :: 0 <= i < |ds| ==> Text.Trimmed(ds[i].id)
    ensures Declared(ds, id) == StoredAs(ds, id)
    ensures StoredAs(ds, id).Some? ==> StoredAs(ds, id).value in ds && StoredAs(ds, id).value.id == id
    ensures StoredAs(ds, id).Some? <==> exists i :: 0 <= i < |ds| && ds[i].id == id
  {
    if ds == [] {
    } else {
      Text.TrimOfTrimmed(ds[0].id);
      DeclaredIsStored(ds[1..], id);
      assert forall i :: 0 < i < |ds| ==> ds[i] == ds[1..][i - 1];
    }
  }

  /** Resolving by id agrees with resolving for any destination of that id, errors included. */
  lemma {:induction false} ByIdAgrees(
    ctx: Context, job: string, spec: Spec, d: Destination, id: string, requested: string)
    requires Text.Trim(d.id) == Text.Trim(id)
    ensures ResolveById(ctx, job, spec, id, requested) == Resolve(ctx, job, spec, d, requested)
  {
    if Normalized(ctx.tables, spec).Some? {
      var c := Normalized(ctx.tables, spec).value;
      NormalizedIsCanonical(ctx.tables, spec);
      NormalizedAgain(ctx.tables, c);
      StoredIdResolves(c.destinations, id);
      if c.localizations == map[] {
        DefaultUnread(ctx, job, c, Tag(ctx.tables, c.defaultLanguage), Text.Trim(id), requested);
      }
    }
  }

  /** Without localizations nobody reads the default language. */
  lemma {:induction false} DefaultUnread(
    ctx: Context, job: string, c: Spec, language: string, id: string, requested: string)
    requires c.localizations == map[]
    ensures ResolvedFrom(ctx, job, c.(defaultLanguage := language), id, requested) ==
            ResolvedFrom(ctx, job, c, id, requested)
  {
    var d := c.(defaultLanguage := language);
    assert EffectiveLocale(ctx.tables, d, requested) == EffectiveLocale(ctx.tables, c, requested);
  }

  lemma {:induction false} StoredIdResolves(ds: seq<Destination>, id: string)
    requires forall i :: 0 <= i < |ds| ==> Text.Trimmed(ds[i].id)
    ensures var wanted := Text.Trim(id);
            && (StoredAs(ds, wanted).None? ==> Declared(ds, wanted).None?)
            && (StoredAs(ds, wanted).Some? ==> Text.Trim(StoredAs(ds, wanted).value.id) == wanted)
  {
    DeclaredIsStored(ds, Text.Trim(id));
    Text.TrimOfTrimmed(id);
  }

  /** Specs that differ only in explicitly empty against absent tag lists resolve alike. */
  lemma {:induction false} EmptyTagsAreAbsent(
    ctx: Context, job: string, s: Spec, t: Spec, d: Destination, requested: string)
    requires CloneSpec(s) == CloneSpec(t)
    ensures Resolve(ctx, job, s, d, requested) == Resolve(ctx, job, t, d, requested)
  {
    NormalizedOfClone(ctx.tables, s, t);
  }

  lemma {:induction false} NormalizedOfClone(tables: Tables, s: Spec, t: Spec)
    requires CloneSpec(s) == CloneSpec(t)
    ensures Normalized(tables, s) == Normalized(tables, t)
  {
    assert CloneSpec(s).localizations == s.localizations && CloneSpec(t).localizations == t.localizations;
    assert CloneSpec(s).outputRef == s.outputRef && CloneSpec(t).outputRef == t.outputRef;
    if KeysSurvive(tables, s.localizations) {
      TidiedOfClone(tables, s, t);
    }
  }

  lemma {:induction false} TidiedOfClone(tables: Tables, s: Spec, t: Spec)
    requires CloneSpec(s) == CloneSpec(t)
    requires KeysSurvive(tables, s.localizations) && KeysSurvive(tables, t.localizations)
    ensures Tidied(tables, s) == Tidied(tables, t)
  {
    var c, d := CloneSpec(s), CloneSpec(t);
    assert c.version == s.version && d.version == t.version;
    assert c.publicationId == s.publicationId && d.publicationId == t.publicationId;
    assert c.language == s.language && d.language == t.language;
    assert c.defaultLanguage == s.defaultLanguage && d.defaultLanguage == t.defaultLanguage;
    assert c.outputRef == s.outputRef && d.outputRef == t.outputRef;
    assert c.localizations == s.localizations && d.localizations == t.localizations;
  }

  // ----- what it yields

  /** The first non-empty string of a list, highest precedence first. */
  function FirstSet(layers: seq<string>): string {
    if layers == [] then "" else if layers[0] != "" then layers[0] else FirstSet(layers[1..])
  }

  function FirstPresent<T>(layers: seq<Option<T>>): Option<T> {
    if layers == [] then None else if layers[0].Some? then layers[0] else FirstPresent(layers[1..])
  }

  /** The title a publication would get from a canonical spec. */
  function ChosenTitle(tables: Tables, job: string, c: Spec, override: Option<Metadata>, requested: string): string {
    var locale := EffectiveLocale(tables, c, requested);
    FirstSet([Overriding(override).title, Localized(c, locale).title, c.metadata.title, Text.Trim(job)])
  }

  lemma {:induction false} FirstOfFour(a: string, b: string, c: string, d: string)
    ensures FirstSet([a, b, c, d]) == if a != "" then a else if b != "" then b else if c != "" then c else d
    ensures FirstSet([a, b, c]) == if a != "" then a else if b != "" then b else c
    ensures FirstSet([a, b]) == if a != "" then a else b
  {
    assert [a, b, c, d][1..] == [b, c, d] && [b, c, d][1..] == [c, d] && [c, d][1..] == [d] && [d][1..] == [];
    assert [a, b, c][1..] == [b, c] && [b, c][1..] == [c] && [c][1..] == [] && [a, b][1..] == [b] && [b][1..] == [];
    assert FirstSet([]) == "";
    assert FirstSet([d]) == d && FirstSet([c]) == c && FirstSet([b]) == b;
    assert FirstSet([c, d]) == if c != "" then c else d;
    assert FirstSet([b, c, d]) == if b != "" then b else FirstSet([c, d]);
    assert FirstSet([b, c]) == if b != "" then b else c;
  }

  lemma {:induction false} FirstOfTwo<T>(a: Option<T>, b: Option<T>)
    ensures FirstPresent([a, b]) == if a.Some? then a else b
  {
    assert [a, b][1..] == [b] && [b][1..] == [];
    assert FirstPresent<T>([]) == None;
    assert FirstPresent([b]) == b;
  }

  /** Destination override, then localization, then publication metadata, then the job's video name. */
  lemma {:induction false} LayersByPrecedence(
    tables: Tables, job: string, c: Spec, override: Option<Metadata>, requested: string)
    ensures var locale := EffectiveLocale(tables, c, requested);
            var m, o, l, p := Layered(job, c, override, locale), Overriding(override), Localized(c, locale), c.metadata;
            && m.title == ChosenTitle(tables, job, c, override, requested)
            && m.description == FirstSet([o.description, l.description, p.description])
            && m.tags == FirstPresent([o.tags, p.tags])
            && m.categoryId == FirstSet([o.categoryId, p.categoryId])
            && m.privacy == FirstSet([o.privacy, p.privacy])
            && m.publishAt == FirstSet([o.publishAt, p.publishAt])
            && m.madeForKids == FirstPresent([o.madeForKids, p.madeForKids])
            && m.synthetic == FirstPresent([o.synthetic, p.synthetic])
  {
    var locale := EffectiveLocale(tables, c, requested);
    var o, l, p := Overriding(override), Localized(c, locale), c.metadata;
    FirstOfFour(o.title, l.title, p.title, Text.Trim(job));
    FirstOfFour(o.description, l.description, p.description, "");
    FirstOfFour(o.categoryId, p.categoryId, "", "");
    FirstOfFour(o.privacy, p.privacy, "", "");
    FirstOfFour(o.publishAt, p.publishAt, "", "");
    FirstOfTwo(o.tags, p.tags);
    FirstOfTwo(o.madeForKids, p.madeForKids);
    FirstOfTwo(o.synthetic, p.synthetic);
  }

  ghost predicate DeclaredAt(c: Spec, id: string, i: nat) {
    i < |c.destinations| && c.destinations[i].id == id
  }

  /** What resolution relies on in a canonical spec. */
  ghost predicate Sound(tables: Tables, c: Spec) {
    && (forall i :: 0 <= i < |c.destinations| ==>
          && Text.Trimmed(c.destinations[i].id)
          && ValidForResolution(tables, c.destinations[i])
          && Overriding(c.destinations[i].override).tags != Some([]))
    && (forall i, j :: 0 <= i < j < |c.destinations| ==> c.destinations[i].id != c.destinations[j].id)
    && c.metadata.tags != Some([])
  }

  lemma {:induction false} CanonicalIsSound(tables: Tables, c: Spec)
    requires Canonical(tables, c)
    ensures Sound(tables, c)
  {
    var ds := c.destinations;
    assert CloneSpec(c).metadata == c.metadata;
    forall i | 0 <= i < |ds|
      ensures Text.Trimmed(ds[i].id) && ValidForResolution(tables, ds[i]) && Overriding(ds[i].override).tags != Some([])
    {
      assert ValidDestination(tables, ds[i]);
      Text.TrimOfTrimmed(ds[i].id);
      assert CloneSpec(c).destinations[i] == CloneDestination(ds[i]);
    }
    forall i, j | 0 <= i < j < |ds| ensures ds[i].id != ds[j].id {
      assert Apart(ds[i], ds[j]);
    }
  }

  /** A sound spec declares an id at most once. */
  lemma {:induction false} DeclaredOnce(tables: Tables, c: Spec, id: string, i: nat)
    requires Sound(tables, c) && DeclaredAt(c, id, i)
    ensures Declared(c.destinations, id) == Some(c.destinations[i])
    ensures forall k: nat :: DeclaredAt(c, id, k) ==> k == i
  {
    OneDeclaration(c.destinations, id, i);
    forall k: nat | DeclaredAt(c, id, k) ensures k == i {
      assert c.destinations[k].id == c.destinations[i].id;
    }
  }

  lemma {:induction false} OneDeclaration(ds: seq<Destination>, id: string, i: nat)
    requires i < |ds| && ds[i].id == id
    requires forall k :: 0 <= k < |ds| ==> Text.Trimmed(ds[k].id)
    requires forall k, l :: 0 <= k < l < |ds| ==> ds[k].id != ds[l].id
    ensures Declared(ds, id) == Some(ds[i])
  {
    DeclaredIsStored(ds, id);
    var d := StoredAs(ds, id).value;
    var k :| 0 <= k < |ds| && ds[k] == d;
  }

  /** Which declaration of a sound spec resolves, and to what. */
  ghost predicate DeliveredFrom(
    ctx: Context, job: string, c: Spec, id: string, requested: string, r: Result<Snapshot>)
  {
    && (r.Ok? <==> exists i: nat :: DeclaredAt(c, id, i) && Titled(ctx.tables, job, c, i, requested))
    && (forall i: nat ::
          r.Ok? && DeclaredAt(c, id, i) ==> Built(ctx.tables, job, c, c.destinations[i], requested, r.value))
    && (r.Err? ==> r.error == if exists i: nat :: DeclaredAt(c, id, i) then MissingTitle else DestinationNotFound)
  }

  ghost predicate Titled(tables: Tables, job: string, c: Spec, i: nat, requested: string)
    requires i < |c.destinations|
  {
    !Text.Blank(ChosenTitle(tables, job, c, c.destinations[i].override, requested))
  }

  lemma {:induction false} ResolvedFromSound(ctx: Context, job: string, c: Spec, id: string, requested: string)
    requires Sound(ctx.tables, c)
    ensures DeliveredFrom(ctx, job, c, id, requested, ResolvedFrom(ctx, job, c, id, requested))
  {
    DeclaredIsStored(c.destinations, id);
    if i: nat :| DeclaredAt(c, id, i) {
      DeclaredOnce(ctx.tables, c, id, i);
      LayersByPrecedence(ctx.tables, job, c, c.destinations[i].override, requested);
      if Titled(ctx.tables, job, c, i, requested) {
        BuiltDelivery(ctx, job, c, c.destinations[i], requested);
      }
    } else {
      assert forall k :: 0 <= k < |c.destinations| && c.destinations[k].id == id ==> DeclaredAt(c, id, k);
    }
  }

  /**
    When resolution succeeds and what it then delivers: the spec normalizes, the id is declared in it,
    and the chosen title is not blank. The delivery is built from the declaration in the spec.
   */
  lemma {:induction false} Delivers(ctx: Context, job: string, spec: Spec, destination: Destination, requested: string)
    requires Normalized(ctx.tables, spec).Some?
    ensures DeliveredFrom(ctx, job, Normalized(ctx.tables, spec).value, Text.Trim(destination.id), requested,
                          Resolve(ctx, job, spec, destination, requested))
  {
    NormalizedIsCanonical(ctx.tables, spec);
    CanonicalIsSound(ctx.tables, Normalized(ctx.tables, spec).value);
    ResolvedFromSound(ctx, job, Normalized(ctx.tables, spec).value, Text.Trim(destination.id), requested);
  }

  /** A snapshot holds what the canonical spec and one of its destinations say. */
  ghost predicate Built(tables: Tables, job: string, c: Spec, d: Destination, requested: string, s: Snapshot) {
    && s.publicationId == c.publicationId && s.destinationId == d.id && s.outputRef == c.outputRef
    && s.localizations == c.localizations
    && s.metadata.language == EffectiveLocale(tables, c, requested)
    && s.metadata.fields == Layered(job, c, d.override, EffectiveLocale(tables, c, requested))
    && s.metadata.fields.tags != Some([])
    && s.options.Keys == c.options.Keys + d.options.Keys
    && forall k :: k in s.options ==> s.options[k] == if k in d.options then d.options[k] else c.options[k]
  }

  lemma {:induction false} BuiltDelivery(ctx: Context, job: string, c: Spec, d: Destination, requested: string)
    requires c.metadata.tags != Some([]) && Overriding(d.override).tags != Some([])
    requires CanonicalMetadata(ctx.tables, job, c, d.override, requested).Ok?
    ensures Built(ctx.tables, job, c, d, requested,
                  Delivery(ctx, c, d, CanonicalMetadata(ctx.tables, job, c, d.override, requested).value))
  {
    var locale := EffectiveLocale(ctx.tables, c, requested);
    assert Layered(job, c, d.override, locale).tags ==
           EitherOption(EitherOption(c.metadata.tags, None), Overriding(d.override).tags);
  }
}
