/**
  What an explicitly empty tag list does, and when the older metadata entry point agrees with
  resolution.
 */
module PublicationTags {
  import opened Optional
  import opened Publication
  import opened PublicationResolver
  import Languages
  import Orders
  import Text

  // ----- tags

  ghost predicate SpecDeclares(spec: Spec, id: string, i: nat) {
    i < |spec.destinations| && Text.Trim(spec.destinations[i].id) == id
  }

  /** What normalizing does to the parts metadata is resolved from. */
  lemma {:induction false} CanonicalParts(tables: Tables, spec: Spec, i: nat)
    requires Normalized(tables, spec).Some? && i < |spec.destinations|
    ensures var c := Normalized(tables, spec).value;
            && c.metadata == CloneMetadata(spec.metadata)
            && i < |c.destinations|
            && c.destinations[i] == TrimDestination(CloneDestination(spec.destinations[i]))
  {
    var c := Tidied(tables, spec);
    assert c.destinations[i] == TrimDestination(CloneSpec(spec).destinations[i]);
  }

  /** Resolved tags, read off the spec as written: empty lists are passed over at both levels. */
  lemma {:induction false} ResolvedTags(
    ctx: Context, job: string, spec: Spec, destination: Destination, requested: string, i: nat)
    requires Normalized(ctx.tables, spec).Some? && SpecDeclares(spec, Text.Trim(destination.id), i)
    requires Resolve(ctx, job, spec, destination, requested).Ok?
    ensures Resolve(ctx, job, spec, destination, requested).value.metadata.fields.tags ==
            FirstPresent([CloneTags(Overriding(spec.destinations[i].override).tags), CloneTags(spec.metadata.tags)])
  {
    var c := Normalized(ctx.tables, spec).value;
    CanonicalParts(ctx.tables, spec, i);
    assert DeclaredAt(c, Text.Trim(destination.id), i);
    Delivers(ctx, job, spec, destination, requested);
    LayersByPrecedence(ctx.tables, job, c, c.destinations[i].override, requested);
  }

  /**
    An override with an explicitly empty tag list inherits the publication's tags; the resolved list is
    absent exactly when the publication itself names none.
   */
  lemma {:induction false} EmptyOverrideInherits(
    ctx: Context, job: string, spec: Spec, destination: Destination, requested: string, i: nat)
    requires Normalized(ctx.tables, spec).Some? && SpecDeclares(spec, Text.Trim(destination.id), i)
    requires spec.destinations[i].override.Some? && spec.destinations[i].override.value.tags == Some([])
    requires Resolve(ctx, job, spec, destination, requested).Ok?
    ensures var tags := Resolve(ctx, job, spec, destination, requested).value.metadata.fields.tags;
            && tags == CloneTags(spec.metadata.tags)
            && (tags.None? <==> spec.metadata.tags in {None, Some([])})
  {
    ResolvedTags(ctx, job, spec, destination, requested, i);
    FirstOfTwo(CloneTags(Some([])), CloneTags(spec.metadata.tags));
  }

  /** Handed to the older entry point, the same declaration does clear the tags, so the two never agree on it. */
  lemma {:induction false} EntryPointsDiffer(
    ctx: Context, job: string, spec: Spec, destination: Destination, requested: string, i: nat)
    requires Normalized(ctx.tables, spec).Some? && SpecDeclares(spec, Text.Trim(destination.id), i)
    requires destination == spec.destinations[i]
    requires destination.override.Some? && destination.override.value.tags == Some([])
    requires Resolve(ctx, job, spec, destination, requested).Ok?
    ensures var legacy := LegacyMetadata(ctx, job, spec, destination, requested);
            legacy.Ok? ==>
              && legacy.value.fields.tags == Some([])
              && legacy.value != Resolve(ctx, job, spec, destination, requested).value.metadata
  {
    EmptyOverrideInherits(ctx, job, spec, destination, requested, i);
    assert CloneTags(spec.metadata.tags) != Some([]);
    LegacyTags(ctx.tables, job, Normalized(ctx.tables, spec).value, destination.override, requested);
  }

  lemma {:induction false} LegacyTags(
    tables: Tables, job: string, c: Spec, override: Option<Metadata>, requested: string)
    requires override.Some? && override.value.tags.Some?
    ensures var r := CanonicalMetadata(tables, job, c, override, requested);
            r.Ok? ==> r.value.fields.tags == override.value.tags
  {}

  // ----- an instance

  const TAGGED := NOTHING.(title := "t", tags := Some(["a"]))
  const CLEARING := Destination("d", "", 0, None, Some(NOTHING.(tags := Some([]))), map[])
  const EXAMPLE_SPEC := Spec(VERSION, "p", OutputRef("v", ""), "", "", TAGGED, map[], [CLEARING], map[])

  lemma {:induction false} OneLetter(s: string)
    requires |s| == 1 && 'a' <= s[0] <= 'z'
    ensures Text.Trim(s) == s && !Text.Blank(s) && !HasSeparator(s)
  {
    Text.TrimOfTrimmed(s);
  }

  lemma {:induction false} ExampleNormalizes(tables: Tables, language: string)
    requires forall s :: tables.utf8(s)
    ensures var r := Normalized(tables, EXAMPLE_SPEC.(defaultLanguage := language));
            r.Some? && r.value.metadata == TAGGED && r.value.defaultLanguage == Tag(tables, language)
  {
    OneLetter("p");
    OneLetter("v");
    OneLetter("d");
    NoTag(tables);
    assert Text.Trim("") == "";
    var none: map<string, Localization> := map[];
    assert KeysSurvive(tables, none) && Rekeyed(tables, none) == map[];
    var t := Tidied(tables, EXAMPLE_SPEC.(defaultLanguage := language));
    assert t.destinations == [CLEARING.(override := Some(NOTHING))] by {
      assert Orders.Map(CloneDestination, [CLEARING]) == [CLEARING.(override := Some(NOTHING))];
    }
    assert ValidDestination(tables, t.destinations[0]);
    assert ValidDestinations(tables, t.destinations);
    assert ValidOutput(t.outputRef);
  }

  /** A default language without localizations that is stored as en-ia and then as en-IA. */
  lemma {:induction false} DefaultLanguageDrifts(tables: Tables)
    requires (forall s :: tables.utf8(s)) && Languages.Dotted(tables.casing)
    ensures var once := Normalized(tables, EXAMPLE_SPEC.(defaultLanguage := "en-\U{130}a"));
            && once.Some? && once.value.defaultLanguage == "en-ia"
            && Normalized(tables, once.value).Some? && Normalized(tables, once.value).value.defaultLanguage == "en-IA"
  {
    var spec := EXAMPLE_SPEC.(defaultLanguage := "en-\U{130}a");
    ExampleNormalizes(tables, "en-\U{130}a");
    Languages.DottedTwice(tables.casing);
    NormalizedIsCanonical(tables, spec);
    NormalizedAgain(tables, Normalized(tables, spec).value);
  }

  lemma {:induction false} ExampleCanonical(tables: Tables)
    requires forall s :: tables.utf8(s)
    ensures Normalized(tables, EXAMPLE_SPEC).Some? && Normalized(tables, EXAMPLE_SPEC).value.metadata == TAGGED
  {
    ExampleNormalizes(tables, EXAMPLE_SPEC.defaultLanguage);
    assert EXAMPLE_SPEC.(defaultLanguage := EXAMPLE_SPEC.defaultLanguage) == EXAMPLE_SPEC;
  }

  /** A declared override that asks for no tags, delivered with the publication's tag. */
  lemma {:induction false} TagsNotCleared(ctx: Context)
    requires forall s :: ctx.tables.utf8(s)
    ensures var r := Resolve(ctx, "", EXAMPLE_SPEC, CLEARING, "");
            r.Ok? && r.value.metadata.fields.tags == Some(["a"])
  {
    ExampleCanonical(ctx.tables);
    OneLetter("d");
    var c := Normalized(ctx.tables, EXAMPLE_SPEC).value;
    assert SpecDeclares(EXAMPLE_SPEC, "d", 0);
    CanonicalParts(ctx.tables, EXAMPLE_SPEC, 0);
    Delivers(ctx, "", EXAMPLE_SPEC, CLEARING, "");
    ExampleTitle(ctx.tables, c);
    OneLetter("t");
    assert DeclaredAt(c, "d", 0) && Titled(ctx.tables, "", c, 0, "");
    EmptyOverrideInherits(ctx, "", EXAMPLE_SPEC, CLEARING, "", 0);
  }

  lemma {:induction false} ExampleTitle(tables: Tables, c: Spec)
    requires c.metadata == TAGGED && |c.destinations| > 0
    requires c.destinations[0].override == Some(NOTHING) && c.localizations == map[]
    ensures ChosenTitle(tables, "", c, c.destinations[0].override, "") == "t"
  {
    FirstOfFour("", "", "t", Text.Trim(""));
  }

  // ----- the older entry point

  /** Overriding `low` with either string gives the same: they are equal, or neither changes it. */
  predicate SameText(low: string, a: string, b: string) {
    a == b || ((a == "" || a == low) && (b == "" || b == low))
  }

  predicate SameOption<T(==)>(low: Option<T>, a: Option<T>, b: Option<T>) {
    a == b || ((a.None? || a == low) && (b.None? || b == low))
  }

  predicate SameEffect(low: Metadata, a: Metadata, b: Metadata) {
    && SameText(low.title, a.title, b.title) && SameText(low.description, a.description, b.description)
    && SameOption(low.tags, a.tags, b.tags) && SameText(low.categoryId, a.categoryId, b.categoryId)
    && SameText(low.privacy, a.privacy, b.privacy) && SameText(low.publishAt, a.publishAt, b.publishAt)
    && SameOption(low.madeForKids, a.madeForKids, b.madeForKids) && SameOption(low.synthetic, a.synthetic, b.synthetic)
  }

  lemma {:induction false} SameEffectExactly(low: Metadata, a: Metadata, b: Metadata)
    ensures Applied(low, a) == Applied(low, b) <==> SameEffect(low, a, b)
  {
    var x, y := Applied(low, a), Applied(low, b);
    assert x.title == y.title <==> SameText(low.title, a.title, b.title);
    assert x.description == y.description <==> SameText(low.description, a.description, b.description);
    assert x.categoryId == y.categoryId <==> SameText(low.categoryId, a.categoryId, b.categoryId);
    assert x.privacy == y.privacy <==> SameText(low.privacy, a.privacy, b.privacy);
    assert x.publishAt == y.publishAt <==> SameText(low.publishAt, a.publishAt, b.publishAt);
    assert x.tags == y.tags <==> SameOption(low.tags, a.tags, b.tags);
    assert x.madeForKids == y.madeForKids <==> SameOption(low.madeForKids, a.madeForKids, b.madeForKids);
    assert x.synthetic == y.synthetic <==> SameOption(low.synthetic, a.synthetic, b.synthetic);
  }

  /** What a destination inherits before its override is applied. */
  function Inherited(job: string, spec: Spec, locale: string): Metadata {
    Applied(Applied(NOTHING.(title := Text.Trim(job)), spec.metadata), Localized(spec, locale))
  }

  /** No title with either override: both entry points then report it missing. */
  predicate Untitled(
    tables: Tables, job: string, c: Spec, a: Option<Metadata>, b: Option<Metadata>, requested: string)
  {
    Text.Blank(ChosenTitle(tables, job, c, a, requested)) && Text.Blank(ChosenTitle(tables, job, c, b, requested))
  }

  /**
    The older entry point applies the override its caller hands in. It agrees with resolution exactly
    when that override and the declared one change the inherited metadata alike, or both leave no title.
   */
  lemma {:induction false} LegacyAgrees(
    ctx: Context, job: string, spec: Spec, destination: Destination, requested: string, i: nat)
    requires Normalized(ctx.tables, spec).Some?
    requires DeclaredAt(Normalized(ctx.tables, spec).value, Text.Trim(destination.id), i)
    ensures var c := Normalized(ctx.tables, spec).value;
            var r := Resolve(ctx, job, spec, destination, requested);
            var declared, given := c.destinations[i].override, destination.override;
            LegacyMetadata(ctx, job, spec, destination, requested) ==
                (if r.Ok? then Ok(r.value.metadata) else Err(r.error)) <==>
            || SameEffect(Inherited(job, c, EffectiveLocale(ctx.tables, c, requested)),
                          Overriding(declared), Overriding(given))
            || Untitled(ctx.tables, job, c, declared, given, requested)
  {
    var c := Normalized(ctx.tables, spec).value;
    BothEntryPoints(ctx, job, spec, destination, requested, i);
    SameMetadata(ctx.tables, job, c, c.destinations[i].override, destination.override, requested);
  }

  /** Each entry point reports the metadata of one override: the declared one, or the one handed in. */
  lemma {:induction false} BothEntryPoints(
    ctx: Context, job: string, spec: Spec, destination: Destination, requested: string, i: nat)
    requires Normalized(ctx.tables, spec).Some?
    requires DeclaredAt(Normalized(ctx.tables, spec).value, Text.Trim(destination.id), i)
    ensures var c := Normalized(ctx.tables, spec).value;
            var r := Resolve(ctx, job, spec, destination, requested);
            && (if r.Ok? then Ok(r.value.metadata) else Err(r.error)) ==
               CanonicalMetadata(ctx.tables, job, c, c.destinations[i].override, requested)
            && LegacyMetadata(ctx, job, spec, destination, requested) ==
               CanonicalMetadata(ctx.tables, job, c, destination.override, requested)
  {
    var c := Normalized(ctx.tables, spec).value;
    NormalizedIsCanonical(ctx.tables, spec);
    CanonicalIsSound(ctx.tables, c);
    FoundDeclaration(ctx, job, c, Text.Trim(destination.id), requested, i);
  }

  lemma {:induction false} FoundDeclaration(
    ctx: Context, job: string, c: Spec, id: string, requested: string, i: nat)
    requires Sound(ctx.tables, c) && DeclaredAt(c, id, i)
    ensures Declared(c.destinations, id) == Some(c.destinations[i])
    ensures var r := ResolvedFrom(ctx, job, c, id, requested);
            (if r.Ok? then Ok(r.value.metadata) else Err(r.error)) ==
            CanonicalMetadata(ctx.tables, job, c, c.destinations[i].override, requested)
  {
    DeclaredOnce(ctx.tables, c, id, i);
  }

  lemma {:induction false} SameMetadata(tables: Tables, 
    job: string, c: Spec, a: Option<Metadata>, b: Option<Metadata>, requested: string)
    ensures CanonicalMetadata(tables, job, c, a, requested) == CanonicalMetadata(tables, job, c, b, requested) <==>
            || SameEffect(Inherited(job, c, EffectiveLocale(tables, c, requested)), Overriding(a), Overriding(b))
            || Untitled(tables, job, c, a, b, requested)
  {
    var locale := EffectiveLocale(tables, c, requested);
    LayersByPrecedence(tables, job, c, a, requested);
    LayersByPrecedence(tables, job, c, b, requested);
    SameEffectExactly(Inherited(job, c, locale), Overriding(a), Overriding(b));
  }
}
