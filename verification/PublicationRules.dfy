/** What validation and normalization accept, spelled out on the fields of the spec. */
module PublicationRules {
  import opened Optional
  import opened Publication
  import KeySets
  import Orders
  import Text

  /** Not empty, and free of '.', '/' and '\'. */
  predicate Identifier(id: string) {
    id != "" && forall k :: 0 <= k < |id| ==> id[k] as int !in {46, 47, 92}
  }

  /** Every text of the record is valid UTF-8. */
  predicate Encoded(tables: Tables, m: Metadata) {
    forall text :: text in Texts(m) ==> tables.utf8(text)
  }

  function Texts(m: Metadata): seq<string> {
    [m.title, m.description, m.categoryId, m.privacy, m.publishAt] + if m.tags.Some? then m.tags.value else []
  }

  predicate DestinationRules(tables: Tables, d: Destination) {
    && Identifier(Text.Trim(d.id)) && -1 < d.priority
    && (d.retryBudget.None? || -1 < d.retryBudget.value)
    && (d.override.None? || Encoded(tables, d.override.value))
  }

  ghost predicate DestinationListRules(tables: Tables, ds: seq<Destination>) {
    && 0 < |ds| && (forall i :: 0 <= i < |ds| ==> DestinationRules(tables, ds[i]))
    && forall i, j :: 0 <= i < j < |ds| ==> Text.Trim(ds[i].id) != Text.Trim(ds[j].id)
  }

  /** Exactly one selector is given, and it is an identifier; the other is empty, not just blank. */
  predicate OneSelector(o: OutputRef) {
    || (o.artifactRole == "" && Identifier(Text.Trim(o.variantId)))
    || (o.variantId == "" && Identifier(Text.Trim(o.artifactRole)))
  }

  /** The language tag is in stored form. */
  predicate Stored(tables: Tables, tag: string) {
    Tag(tables, tag) == tag
  }

  ghost predicate SpecRules(tables: Tables, s: Spec) {
    && s.version == 1 && Identifier(Text.Trim(s.publicationId)) && OneSelector(s.outputRef)
    && DestinationListRules(tables, s.destinations) && Encoded(tables, s.metadata) && Stored(tables, s.language)
    && (0 < |s.localizations| ==> s.defaultLanguage != "" && Stored(tables, s.defaultLanguage))
    && forall k :: k in s.localizations ==>
         Stored(tables, k) && tables.utf8(s.localizations[k].title) && tables.utf8(s.localizations[k].description)
  }

  // ----- validation

  lemma {:induction false} IdentifierExactly(id: string)
    ensures Identifier(id) <==> id != "" && !HasSeparator(id)
  {
    if Identifier(id) {
      forall c | c in id ensures c != '.' && c != '/' && c != '\\' {
        var k :| 0 <= k < |id| && id[k] == c;
      }
    } else if id != "" {
      var k :| 0 <= k < |id| && id[k] as int in {46, 47, 92};
      assert id[k] in id;
    }
  }

  lemma {:induction false} EncodedExactly(tables: Tables, m: Metadata)
    ensures Encoded(tables, m) <==> ValidMetadata(tables, m)
  {
    var five := [m.title, m.description, m.categoryId, m.privacy, m.publishAt];
    var all := Texts(m);
    assert all[..5] == five;
    assert all[0] == m.title && all[1] == m.description && all[2] == m.categoryId;
    assert all[3] == m.privacy && all[4] == m.publishAt;
    if m.tags.Some? {
      assert forall i :: 0 <= i < |m.tags.value| ==> all[5 + i] == m.tags.value[i];
    }
  }

  lemma {:induction false} OutputExactly(o: OutputRef)
    ensures OneSelector(o) <==> ValidOutput(o)
  {
    IdentifierExactly(Text.Trim(o.variantId));
    IdentifierExactly(Text.Trim(o.artifactRole));
    Text.BlankTrims("");
  }

  lemma {:induction false} DestinationExactly(tables: Tables, d: Destination)
    ensures DestinationRules(tables, d) <==> ValidDestination(tables, d)
  {
    IdentifierExactly(Text.Trim(d.id));
    if d.override.Some? {
      EncodedExactly(tables, d.override.value);
    }
  }

  lemma {:induction false} DestinationsExactly(tables: Tables, ds: seq<Destination>)
    ensures DestinationListRules(tables, ds) <==> ds != [] && ValidDestinations(tables, ds)
  {
    forall i | 0 <= i < |ds| ensures DestinationRules(tables, ds[i]) <==> ValidDestination(tables, ds[i]) {
      DestinationExactly(tables, ds[i]);
    }
    assert Orders.Pairwise(Apart, ds) ==> forall i, j :: 0 <= i < j < |ds| ==> Apart(ds[i], ds[j]);
  }

  /** The validator finds no violation exactly in specs that keep these rules. */
  lemma {:induction false} ValidExactly(tables: Tables, s: Spec)
    ensures Valid(tables, s) <==> SpecRules(tables, s)
  {
    IdentifierExactly(Text.Trim(s.publicationId));
    OutputExactly(s.outputRef);
    DestinationsExactly(tables, s.destinations);
    EncodedExactly(tables, s.metadata);
    assert s.localizations == map[] <==> |s.localizations| == 0;
  }

  // ----- normalization

  /** Tags that normalization settles at once. */
  predicate Settles(tables: Tables, tag: string) {
    Stored(tables, Tag(tables, tag))
  }

  ghost predicate LocaleRules(tables: Tables, locs: map<string, Localization>) {
    && (forall k :: k in locs ==>
          && Tag(tables, k) != "" && Settles(tables, k)
          && tables.utf8(locs[k].title) && tables.utf8(locs[k].description))
    && forall k, l :: k in locs && l in locs && k != l ==> Tag(tables, k) != Tag(tables, l)
  }

  /** What a spec as written must satisfy. */
  ghost predicate Acceptable(tables: Tables, s: Spec) {
    && s.version in {0, 1} && Identifier(Text.Trim(s.publicationId)) && OneSelector(s.outputRef)
    && DestinationListRules(tables, s.destinations) && Encoded(tables, s.metadata) && Settles(tables, s.language)
    && (s.localizations == map[] || (Tag(tables, s.defaultLanguage) != "" && Settles(tables, s.defaultLanguage)))
    && LocaleRules(tables, s.localizations)
  }

  lemma {:induction false} ClonedTexts(tables: Tables, m: Metadata)
    ensures Encoded(tables, CloneMetadata(m)) <==> Encoded(tables, m)
  {
    assert Texts(CloneMetadata(m)) == Texts(m);
  }

  lemma {:induction false} TidiedDestination(tables: Tables, d: Destination)
    ensures DestinationRules(tables, TrimDestination(CloneDestination(d))) <==> DestinationRules(tables, d)
  {
    Text.TrimOfTrimmed(d.id);
    if d.override.Some? {
      ClonedTexts(tables, d.override.value);
    }
  }

  lemma {:induction false} TidiedDestinations(tables: Tables, ds: seq<Destination>)
    ensures var ts := Orders.Map(TrimDestination, Orders.Map(CloneDestination, ds));
            DestinationListRules(tables, ts) <==> DestinationListRules(tables, ds)
  {
    var ts := Orders.Map(TrimDestination, Orders.Map(CloneDestination, ds));
    forall i | 0 <= i < |ds|
      ensures DestinationRules(tables, ts[i]) <==> DestinationRules(tables, ds[i])
      ensures Text.Trim(ts[i].id) == Text.Trim(ds[i].id)
    {
      TidiedDestination(tables, ds[i]);
      Text.TrimOfTrimmed(ds[i].id);
    }
  }

  lemma {:induction false} TidiedOutput(o: OutputRef)
    ensures OneSelector(o) <==> !SelectorsBlank(o) && OneSelector(TrimOutput(o))
  {
    Text.TrimOfTrimmed(o.variantId);
    Text.TrimOfTrimmed(o.artifactRole);
    Text.BlankTrims(o.variantId);
    Text.BlankTrims(o.artifactRole);
  }

  lemma {:induction false} TidiedLocales(tables: Tables, locs: map<string, Localization>)
    ensures LocaleRules(tables, locs) <==>
            KeysSurvive(tables, locs) && forall k :: k in Rekeyed(tables, locs) ==>
              && Stored(tables, k) && tables.utf8(Rekeyed(tables, locs)[k].title)
              && tables.utf8(Rekeyed(tables, locs)[k].description)
  {
    assert forall k :: Tagger(tables)(k) == Tag(tables, k);
    if KeysSurvive(tables, locs) {
      var r := Rekeyed(tables, locs);
      assert KeySets.Renames(Tagger(tables), locs, r);
      forall k | k in locs ensures Tag(tables, k) in r && r[Tag(tables, k)] == locs[k] {
        assert Tagger(tables)(k) in r;
      }
      forall l | l in r ensures exists k :: k in locs && Tag(tables, k) == l {
        var k :| k in locs && Tagger(tables)(k) == l;
      }
    }
  }

  /** Normalization accepts a spec exactly when, as written, it keeps the rules. */
  lemma {:induction false} AcceptedExactly(tables: Tables, s: Spec)
    ensures Normalized(tables, s).Some? <==> Acceptable(tables, s)
  {
    TidiedLocales(tables, s.localizations);
    TidiedOutput(s.outputRef);
    if KeysSurvive(tables, s.localizations) {
      var t := Tidied(tables, s);
      ValidExactly(tables, t);
      Text.TrimOfTrimmed(s.publicationId);
      ClonedTexts(tables, s.metadata);
      TidiedDestinations(tables, s.destinations);
      if s.localizations != map[] {
        KeysRemain(tables, s.localizations);
      }
    }
  }
}
