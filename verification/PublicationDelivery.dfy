/** What a delivery holds, field by field, read off the spec, the job and the request. */
module PublicationDelivery {
  import opened Optional
  import opened Publication
  import opened PublicationResolver
  import KeySets
  import PublicationTags
  import Text

  /** Everything the lemmas below speak about: a resolution that succeeded, and where it was declared. */
  ghost predicate Delivered(
    ctx: Context, job: string, spec: Spec, destination: Destination, requested: string, i: nat, s: Snapshot)
  {
    && Normalized(ctx.tables, spec).Some?
    && PublicationTags.SpecDeclares(spec, Text.Trim(destination.id), i)
    && Resolve(ctx, job, spec, destination, requested) == Ok(s)
  }

  lemma {:induction false} DeliveredIsBuilt(
    ctx: Context, job: string, spec: Spec, destination: Destination, requested: string, i: nat, s: Snapshot)
    requires Delivered(ctx, job, spec, destination, requested, i, s)
    ensures var c := Normalized(ctx.tables, spec).value;
            i < |c.destinations| && Built(ctx.tables, job, c, c.destinations[i], requested, s)
  {
    var c := Normalized(ctx.tables, spec).value;
    PublicationTags.CanonicalParts(ctx.tables, spec, i);
    assert DeclaredAt(c, Text.Trim(destination.id), i);
    Delivers(ctx, job, spec, destination, requested);
  }

  /** Every resolution that succeeds comes from a declaration in the spec as written. */
  lemma {:induction false} DeliveredSomewhere(
    ctx: Context, job: string, spec: Spec, destination: Destination, requested: string, s: Snapshot)
    requires Resolve(ctx, job, spec, destination, requested) == Ok(s)
    ensures exists i: nat :: Delivered(ctx, job, spec, destination, requested, i, s)
  {
    var c := Normalized(ctx.tables, spec).value;
    var id := Text.Trim(destination.id);
    Delivers(ctx, job, spec, destination, requested);
    var i: nat :| DeclaredAt(c, id, i);
    PublicationTags.CanonicalParts(ctx.tables, spec, i);
    assert Delivered(ctx, job, spec, destination, requested, i, s);
  }

  /** The parts of a normalized spec in terms of the spec as written. */
  lemma {:induction false} NormalizedParts(tables: Tables, spec: Spec)
    requires Normalized(tables, spec).Some?
    ensures var c := Normalized(tables, spec).value;
            && c.publicationId == Text.Trim(spec.publicationId)
            && c.outputRef.variantId == Text.Trim(spec.outputRef.variantId)
            && c.outputRef.artifactRole == Text.Trim(spec.outputRef.artifactRole)
            && c.language == Tag(tables, spec.language) && c.defaultLanguage == Tag(tables, spec.defaultLanguage)
            && c.options == spec.options && |c.destinations| == |spec.destinations|
            && c.metadata == spec.metadata.(tags := c.metadata.tags)
            && (c.localizations == map[] <==> spec.localizations == map[])
  {
    if spec.localizations != map[] {
      KeysRemain(tables, spec.localizations);
    } else {
      assert KeySets.Renames(Tagger(tables), spec.localizations, Rekeyed(tables, spec.localizations));
    }
  }

  /** Renamed locales carry their own texts, and there are no others. */
  lemma {:induction false} NormalizedLocales(tables: Tables, spec: Spec)
    requires Normalized(tables, spec).Some?
    ensures var locs := Normalized(tables, spec).value.localizations;
            && (forall k :: k in spec.localizations ==>
                  Tag(tables, k) in locs && locs[Tag(tables, k)] == spec.localizations[k])
            && (forall l :: l in locs ==> exists k :: k in spec.localizations && Tag(tables, k) == l)
  {
    var locs := Rekeyed(tables, spec.localizations);
    assert KeySets.Renames(Tagger(tables), spec.localizations, locs);
    forall k | k in spec.localizations
      ensures Tag(tables, k) in locs && locs[Tag(tables, k)] == spec.localizations[k]
    {
      assert Tagger(tables)(k) in locs;
    }
    forall l | l in locs ensures exists k :: k in spec.localizations && Tag(tables, k) == l {
      var k :| k in spec.localizations && Tagger(tables)(k) == l;
      assert Tag(tables, k) == l;
    }
  }

  /** The requested locale decides, then the publication's language, then its default language. */
  lemma {:induction false} DeliveredLanguage(
    ctx: Context, job: string, spec: Spec, destination: Destination, requested: string, i: nat, s: Snapshot)
    requires Delivered(ctx, job, spec, destination, requested, i, s)
    ensures var wanted, language := Tag(ctx.tables, requested), Tag(ctx.tables, spec.language);
            && (wanted != "" ==> s.metadata.language == wanted)
            && (wanted == "" && language != "" ==> s.metadata.language == language)
            && (wanted == "" && language == "" && spec.localizations != map[] ==>
                  s.metadata.language == Tag(ctx.tables, spec.defaultLanguage))
            && (wanted == "" && language == "" && spec.localizations == map[] ==> s.metadata.language == "")
  {
    DeliveredIsBuilt(ctx, job, spec, destination, requested, i, s);
    NormalizedParts(ctx.tables, spec);
  }

  /** Title: the declared override, then the delivered language's text, then the publication, then the job's name. */
  lemma {:induction false} DeliveredTitle(
    ctx: Context, job: string, spec: Spec, destination: Destination, requested: string, i: nat, s: Snapshot, k: string)
    requires Delivered(ctx, job, spec, destination, requested, i, s)
    requires k in spec.localizations && Tag(ctx.tables, k) == s.metadata.language
    ensures var title, d, l := s.metadata.fields.title, spec.destinations[i].override, spec.localizations[k];
            && (d.Some? && d.value.title != "" ==> title == d.value.title)
            && ((d.None? || d.value.title == "") && l.title != "" ==> title == l.title)
            && ((d.None? || d.value.title == "") && l.title == "" && spec.metadata.title != "" ==>
                  title == spec.metadata.title)
            && ((d.None? || d.value.title == "") && l.title == "" && spec.metadata.title == "" ==>
                  title == Text.Trim(job))
  {
    DeliveredIsBuilt(ctx, job, spec, destination, requested, i, s);
    PublicationTags.CanonicalParts(ctx.tables, spec, i);
    NormalizedLocales(ctx.tables, spec);
  }

  /** Description: likewise, without a name to fall back on. */
  lemma {:induction false} DeliveredDescription(
    ctx: Context, job: string, spec: Spec, destination: Destination, requested: string, i: nat, s: Snapshot, k: string)
    requires Delivered(ctx, job, spec, destination, requested, i, s)
    requires k in spec.localizations && Tag(ctx.tables, k) == s.metadata.language
    ensures var text, d, l := s.metadata.fields.description, spec.destinations[i].override, spec.localizations[k];
            && (d.Some? && d.value.description != "" ==> text == d.value.description)
            && ((d.None? || d.value.description == "") && l.description != "" ==> text == l.description)
            && ((d.None? || d.value.description == "") && l.description == "" ==> text == spec.metadata.description)
  {
    DeliveredIsBuilt(ctx, job, spec, destination, requested, i, s);
    PublicationTags.CanonicalParts(ctx.tables, spec, i);
    NormalizedLocales(ctx.tables, spec);
  }

  /** The same when no localization is of the delivered language. */
  lemma {:induction false} DeliveredUnlocalized(
    ctx: Context, job: string, spec: Spec, destination: Destination, requested: string, i: nat, s: Snapshot)
    requires Delivered(ctx, job, spec, destination, requested, i, s)
    requires forall k :: k in spec.localizations ==> Tag(ctx.tables, k) != s.metadata.language
    ensures var title, d := s.metadata.fields.title, spec.destinations[i].override;
            && (d.Some? && d.value.title != "" ==> title == d.value.title)
            && ((d.None? || d.value.title == "") && spec.metadata.title != "" ==> title == spec.metadata.title)
            && ((d.None? || d.value.title == "") && spec.metadata.title == "" ==> title == Text.Trim(job))
    ensures var text, d := s.metadata.fields.description, spec.destinations[i].override;
            && (d.Some? && d.value.description != "" ==> text == d.value.description)
            && ((d.None? || d.value.description == "") ==> text == spec.metadata.description)
  {
    DeliveredIsBuilt(ctx, job, spec, destination, requested, i, s);
    PublicationTags.CanonicalParts(ctx.tables, spec, i);
    NormalizedLocales(ctx.tables, spec);
  }

  /** Everything else: the override's value where it sets one, the publication's where it does not. */
  lemma {:induction false} DeliveredRest(
    ctx: Context, job: string, spec: Spec, destination: Destination, requested: string, i: nat, s: Snapshot)
    requires Delivered(ctx, job, spec, destination, requested, i, s)
    ensures var m, d, p := s.metadata.fields, spec.destinations[i].override, spec.metadata;
            && m.categoryId == (if d.Some? && d.value.categoryId != "" then d.value.categoryId else p.categoryId)
            && m.privacy == (if d.Some? && d.value.privacy != "" then d.value.privacy else p.privacy)
            && m.publishAt == (if d.Some? && d.value.publishAt != "" then d.value.publishAt else p.publishAt)
            && m.madeForKids == (if d.Some? && d.value.madeForKids.Some? then d.value.madeForKids else p.madeForKids)
            && m.synthetic == (if d.Some? && d.value.synthetic.Some? then d.value.synthetic else p.synthetic)
  {
    DeliveredIsBuilt(ctx, job, spec, destination, requested, i, s);
    PublicationTags.CanonicalParts(ctx.tables, spec, i);
  }

  /** Routing: trimmed identifiers, all localizations, the destination's options over the publication's. */
  lemma {:induction false} DeliveredRouting(
    ctx: Context, job: string, spec: Spec, destination: Destination, requested: string, i: nat, s: Snapshot)
    requires Delivered(ctx, job, spec, destination, requested, i, s)
    ensures s.publicationId == Text.Trim(spec.publicationId) && s.destinationId == Text.Trim(destination.id)
    ensures s.outputRef == OutputRef(Text.Trim(spec.outputRef.variantId), Text.Trim(spec.outputRef.artifactRole))
    ensures forall k :: k in spec.localizations ==>
              Tag(ctx.tables, k) in s.localizations && s.localizations[Tag(ctx.tables, k)] == spec.localizations[k]
    ensures forall l :: l in s.localizations ==> exists k :: k in spec.localizations && Tag(ctx.tables, k) == l
    ensures var own := spec.destinations[i].options;
            && s.options.Keys == spec.options.Keys + own.Keys
            && forall k :: k in s.options ==> s.options[k] == if k in own then own[k] else spec.options[k]
  {
    DeliveredIsBuilt(ctx, job, spec, destination, requested, i, s);
    NormalizedParts(ctx.tables, spec);
    NormalizedLocales(ctx.tables, spec);
    PublicationTags.CanonicalParts(ctx.tables, spec, i);
  }

  /** The hash covers title, description, tags, language, localizations and options, as delivered. */
  lemma {:induction false} DeliveredHash(
    ctx: Context, job: string, spec: Spec, destination: Destination, requested: string, s: Snapshot)
    requires Resolve(ctx, job, spec, destination, requested) == Ok(s)
    ensures var m := s.metadata;
            s.hash == ctx.hash(Envelope(
              m.fields.title, m.fields.description, if m.fields.tags == Some([]) then None else m.fields.tags,
              m.language, s.localizations, s.options))
  {}

  /** When only the title can fail: a set override decides it; with nothing set the job's name does. */
  lemma {:induction false} TitleDecides(
    ctx: Context, job: string, spec: Spec, destination: Destination, requested: string, i: nat)
    requires Normalized(ctx.tables, spec).Some? && PublicationTags.SpecDeclares(spec, Text.Trim(destination.id), i)
    ensures var r, d := Resolve(ctx, job, spec, destination, requested), spec.destinations[i].override;
            && (d.Some? && d.value.title != "" ==> (r.Ok? <==> !Text.Blank(d.value.title)))
            && ((d.None? || d.value.title == "") && spec.localizations == map[] && spec.metadata.title != "" ==>
                  (r.Ok? <==> !Text.Blank(spec.metadata.title)))
            && ((d.None? || d.value.title == "") && spec.localizations == map[] && spec.metadata.title == "" ==>
                  (r.Ok? <==> !Text.Blank(job)))
            && (r.Err? ==> r.error == MissingTitle)
  {
    var c := Normalized(ctx.tables, spec).value;
    var o := c.destinations[i].override;
    PublicationTags.CanonicalParts(ctx.tables, spec, i);
    NormalizedParts(ctx.tables, spec);
    assert DeclaredAt(c, Text.Trim(destination.id), i);
    Delivers(ctx, job, spec, destination, requested);
    OneTitle(ctx, job, spec, destination, requested, i);
    LayersByPrecedence(ctx.tables, job, c, o, requested);
    Text.BlankTrims(job);
    Text.TrimOfTrimmed(job);
    Text.BlankTrims(Text.Trim(job));
  }

  lemma {:induction false} OneTitle(
    ctx: Context, job: string, spec: Spec, destination: Destination, requested: string, i: nat)
    requires Normalized(ctx.tables, spec).Some? && PublicationTags.SpecDeclares(spec, Text.Trim(destination.id), i)
    ensures var c := Normalized(ctx.tables, spec).value;
            && DeclaredAt(c, Text.Trim(destination.id), i)
            && (Resolve(ctx, job, spec, destination, requested).Ok? <==> Titled(ctx.tables, job, c, i, requested))
  {
    var c := Normalized(ctx.tables, spec).value;
    PublicationTags.CanonicalParts(ctx.tables, spec, i);
    assert DeclaredAt(c, Text.Trim(destination.id), i);
    Delivers(ctx, job, spec, destination, requested);
    NormalizedIsCanonical(ctx.tables, spec);
    CanonicalIsSound(ctx.tables, c);
    DeclaredOnce(ctx.tables, c, Text.Trim(destination.id), i);
  }
}
