/**
  The renderer-facing projection of a task payload: control-plane keys are removed at every depth and
  legacy scene aliases are rewritten. JSON parsing and printing and the Drive URL parser are
  parameters.
 */
module RenderPayload {
  import opened Optional
  import AssetRef
  import Text

  /** JSON-shaped values; a number is known only by its code. */
  datatype Value =
    | Null
    | Bool(b: bool)
    | Num(code: nat)
    | Str(s: string)
    | List(items: seq<Value>)
    | Obj(fields: map<string, Value>)

  const VIDEO_METADATA := "video_metadata"

  predicate Forbidden(key: string) {
    key in {"voiceover_paths", "subtitle_tracks", "clip_link", "image_link", "local_path", "bindings", "project_id",
            "render_spec", "delivery_plan", "delivery_metadata", "destinations", "delivery_destinations",
            "destination_id", "destination_ids", "publications", "publication_specs", "publication_metadata",
            "publication", "metadata", "metadata_override", "title", "description", "tags", "privacy",
            "privacy_status", "publish_at", "schedule", "scheduling", "localizations"}
  }

  predicate Technical(key: string) {
    key in {"width", "height", "fps_num", "fps_den", "pixel_format", "sample_rate", "audio_sample_rate",
            "audio_channels", "video_codec", "audio_codec"}
  }

  /** Whether a field survives the projection of its object. */
  predicate Kept(key: string, item: Value) {
    !Forbidden(key) && (key == VIDEO_METADATA ==> item.Obj?)
  }

  function RenderOnly(v: Value): Value
    decreases v
  {
    match v
    case Obj(fields) =>
      Obj(map k | k in fields && Kept(k, fields[k]) ::
            if k == VIDEO_METADATA then TechnicalOnly(fields[k]) else RenderOnly(fields[k]))
    case List(items) => List(seq(|items|, i requires 0 <= i < |items| => RenderOnly(items[i])))
    case _ => v
  }

  /** Metadata objects keep only stream parameters. */
  function TechnicalOnly(meta: Value): Value
    requires meta.Obj?
    decreases meta, 0
  {
    Obj(map k | k in meta.fields && Technical(k) :: RenderOnly(meta.fields[k]))
  }

  /** Nothing the renderer must not see, at any depth. */
  ghost predicate Clean(v: Value)
    decreases v
  {
    match v
    case Obj(fields) =>
      forall k :: k in fields ==>
        && Kept(k, fields[k])
        && if k == VIDEO_METADATA then CleanMetadata(fields[k]) else Clean(fields[k])
    case List(items) => forall i :: 0 <= i < |items| ==> Clean(items[i])
    case _ => true
  }

  ghost predicate CleanMetadata(meta: Value)
    requires meta.Obj?
    decreases meta, 0
  {
    forall k :: k in meta.fields ==> Technical(k) && Clean(meta.fields[k])
  }

  /** The projection leaves nothing forbidden. */
  lemma {:induction false} RenderOnlyCleans(v: Value)
    ensures Clean(RenderOnly(v))
    decreases v
  {
    match v
    case Obj(fields) =>
      var out := RenderOnly(v).fields;
      forall k | k in out
        ensures Kept(k, out[k]) && if k == VIDEO_METADATA then CleanMetadata(out[k]) else Clean(out[k])
      {
        if k == VIDEO_METADATA {
          TechnicalOnlyCleans(fields[k]);
        } else {
          RenderOnlyCleans(fields[k]);
        }
      }
    case List(items) =>
      forall i | 0 <= i < |items| ensures Clean(RenderOnly(items[i])) {
        RenderOnlyCleans(items[i]);
      }
    case _ =>
  }

  lemma {:induction false} TechnicalOnlyCleans(meta: Value)
    requires meta.Obj?
    ensures CleanMetadata(TechnicalOnly(meta))
    decreases meta, 0
  {
    var out := TechnicalOnly(meta).fields;
    forall k | k in out ensures Technical(k) && Clean(out[k]) {
      RenderOnlyCleans(meta.fields[k]);
    }
  }

  /** Clean values are exactly the fixed points. */
  lemma {:induction false} CleanIsFixed(v: Value)
    ensures RenderOnly(v) == v <==> Clean(v)
  {
    RenderOnlyCleans(v);
    if Clean(v) {
      CleanStays(v);
    }
  }

  lemma {:induction false} CleanStays(v: Value)
    requires Clean(v)
    ensures RenderOnly(v) == v
    decreases v
  {
    match v
    case Obj(fields) =>
      var out := RenderOnly(v).fields;
      forall k | k in fields ensures k in out && out[k] == fields[k] {
        if k == VIDEO_METADATA {
          CleanMetadataStays(fields[k]);
        } else {
          CleanStays(fields[k]);
        }
      }
      assert out == fields;
    case List(items) =>
      forall i | 0 <= i < |items| ensures RenderOnly(items[i]) == items[i] {
        CleanStays(items[i]);
      }
      assert RenderOnly(v).items == items;
    case _ =>
  }

  lemma {:induction false} CleanMetadataStays(meta: Value)
    requires meta.Obj? && CleanMetadata(meta)
    ensures TechnicalOnly(meta) == meta
    decreases meta, 0
  {
    var out := TechnicalOnly(meta).fields;
    forall k | k in meta.fields ensures k in out && out[k] == meta.fields[k] {
      CleanStays(meta.fields[k]);
    }
    assert out == meta.fields;
  }

  /** `a` is `b` with some object fields left out, at any depth. */
  ghost predicate Within(a: Value, b: Value)
    decreases a
  {
    match a
    case Obj(fields) =>
      b.Obj? && forall k :: k in fields ==> k in b.fields && Within(fields[k], b.fields[k])
    case List(items) =>
      b.List? && |items| == |b.items| && forall i :: 0 <= i < |items| ==> Within(items[i], b.items[i])
    case _ => a == b
  }

  /** The projection only leaves fields out. */
  lemma {:induction false} RenderOnlyWithin(v: Value)
    ensures Within(RenderOnly(v), v)
    decreases v
  {
    match v
    case Obj(fields) =>
      var out := RenderOnly(v).fields;
      forall k | k in out ensures k in fields && Within(out[k], fields[k]) {
        if k == VIDEO_METADATA {
          TechnicalOnlyWithin(fields[k]);
        } else {
          RenderOnlyWithin(fields[k]);
        }
      }
    case List(items) =>
      forall i | 0 <= i < |items| ensures Within(RenderOnly(items[i]), items[i]) {
        RenderOnlyWithin(items[i]);
      }
    case _ =>
  }

  lemma {:induction false} TechnicalOnlyWithin(meta: Value)
    requires meta.Obj?
    ensures Within(TechnicalOnly(meta), meta)
    decreases meta, 0
  {
    var out := TechnicalOnly(meta).fields;
    forall k | k in out ensures k in meta.fields && Within(out[k], meta.fields[k]) {
      RenderOnlyWithin(meta.fields[k]);
    }
  }

  /** It leaves out no more than it must: every clean part of a value survives. */
  lemma {:induction false} RenderOnlyGreatest(a: Value, v: Value)
    requires Clean(a) && Within(a, v)
    ensures Within(a, RenderOnly(v))
    decreases a
  {
    match a
    case Obj(fields) =>
      var out := RenderOnly(v).fields;
      forall k | k in fields ensures k in out && Within(fields[k], out[k]) {
        assert Kept(k, fields[k]) && Within(fields[k], v.fields[k]);
        if k == VIDEO_METADATA {
          TechnicalOnlyGreatest(fields[k], v.fields[k]);
        } else {
          RenderOnlyGreatest(fields[k], v.fields[k]);
        }
      }
    case List(items) =>
      forall i | 0 <= i < |items| ensures Within(items[i], RenderOnly(v.items[i])) {
        RenderOnlyGreatest(items[i], v.items[i]);
      }
    case _ =>
  }

  lemma {:induction false} TechnicalOnlyGreatest(a: Value, meta: Value)
    requires a.Obj? && meta.Obj? && CleanMetadata(a) && Within(a, meta)
    ensures Within(a, TechnicalOnly(meta))
    decreases a, 0
  {
    forall k | k in a.fields ensures Within(a.fields[k], RenderOnly(meta.fields[k])) {
      RenderOnlyGreatest(a.fields[k], meta.fields[k]);
    }
  }

  // ----- the keys by name

  const SOURCE_KEYS := [
    "voiceover_paths", "subtitle_tracks", "clip_link", "image_link", "local_path", "bindings", "project_id",
    "render_spec"]

  const DELIVERY_KEYS := [
    "delivery_plan", "delivery_metadata", "destinations", "delivery_destinations", "destination_id",
    "destination_ids"]

  const PUBLICATION_KEYS := [
    "publications", "publication_specs", "publication_metadata", "publication", "metadata", "metadata_override",
    "title", "description", "tags", "privacy", "privacy_status", "publish_at", "schedule", "scheduling",
    "localizations"]

  const STREAM_KEYS := [
    "width", "height", "fps_num", "fps_den", "pixel_format", "sample_rate", "audio_sample_rate", "audio_channels",
    "video_codec", "audio_codec"]

  /** Sources, delivery and publication are the control plane's. */
  predicate Withheld(key: string) {
    key in SOURCE_KEYS || key in DELIVERY_KEYS || key in PUBLICATION_KEYS
  }

  lemma {:induction false} KeysExactly(key: string)
    ensures Forbidden(key) <==> Withheld(key)
    ensures Technical(key) <==> key in STREAM_KEYS
  {}

  /** The key occurs in some object of the value, at any depth. */
  ghost predicate Occurs(key: string, v: Value)
    decreases v
  {
    match v
    case Obj(fields) => key in fields || exists k :: k in fields && Occurs(key, fields[k])
    case List(items) => exists i :: 0 <= i < |items| && Occurs(key, items[i])
    case _ => false
  }

  lemma {:induction false} CleanLacks(key: string, v: Value)
    requires Clean(v) && Forbidden(key)
    ensures !Occurs(key, v)
    decreases v
  {
    match v
    case Obj(fields) =>
      forall k | k in fields ensures !Occurs(key, fields[k]) {
        if k == VIDEO_METADATA {
          MetadataLacks(key, fields[k]);
        } else {
          CleanLacks(key, fields[k]);
        }
      }
    case List(items) =>
      forall i | 0 <= i < |items| ensures !Occurs(key, items[i]) {
        CleanLacks(key, items[i]);
      }
    case _ =>
  }

  lemma {:induction false} MetadataLacks(key: string, meta: Value)
    requires meta.Obj? && CleanMetadata(meta) && Forbidden(key)
    ensures !Occurs(key, meta)
    decreases meta, 0
  {
    assert !Technical(key);
    forall k | k in meta.fields ensures !Occurs(key, meta.fields[k]) {
      CleanLacks(key, meta.fields[k]);
    }
  }

  /** No key of the control plane is left at any depth; at the top every other field is still there. */
  lemma {:induction false} WithheldKeysGone(v: Value, key: string)
    ensures Withheld(key) ==> !Occurs(key, RenderOnly(v))
    ensures v.Obj? && !Withheld(key) && key != "video_metadata" ==>
              (key in RenderOnly(v).fields <==> key in v.fields)
  {
    KeysExactly(key);
    RenderOnlyCleans(v);
    if Withheld(key) {
      CleanLacks(key, RenderOnly(v));
    }
  }

  /** Metadata objects keep exactly their stream parameters; other metadata is dropped whole. */
  lemma {:induction false} StreamKeysKept(fields: map<string, Value>, key: string)
    requires "video_metadata" in fields
    ensures var out := RenderOnly(Obj(fields)).fields;
            && ("video_metadata" in out <==> fields["video_metadata"].Obj?)
            && ("video_metadata" in out ==>
                  && out["video_metadata"].Obj?
                  && (key in out["video_metadata"].fields <==>
                        key in fields["video_metadata"].fields && key in STREAM_KEYS))
  {
    KeysExactly(key);
    assert !Forbidden("video_metadata");
  }

  // ----- scene aliases

  datatype Environment = Environment(
    drive: AssetRef.DriveParser,
    parseJson: string -> Option<Value>,
    printJson: Value -> string,
    /** The code of a positive number of seconds in whole milliseconds. */
    millis: nat -> Option<nat>)

  function DurationMs(env: Environment, duration: Option<Value>): map<string, Value> {
    if duration.Some? && duration.value.Num? && env.millis(duration.value.code).Some?
    then map["duration_ms" := Num(env.millis(duration.value.code).value)]
    else map[]
  }

  /** The object a legacy link is replaced with. */
  function CanonicalAsset(env: Environment, url: string, duration: Option<Value>): Value {
    match AssetRef.Parse(env.drive, Text.Trim(url))
    case None => Obj(map["url" := Str(Text.Trim(url))])
    case Some(r) =>
      var id := AssetRef.Id(r);
      Obj(map["url" := Str(AssetRef.Wire(r))]
          + (if id != "" then map["asset_id" := Str(id)] else map[])
          + DurationMs(env, duration))
  }

  function Field(fields: map<string, Value>, key: string): Option<Value> {
    if key in fields then Some(fields[key]) else None
  }

  /** A link is only followed when it is a non-blank string. */
  predicate HasLink(fields: map<string, Value>, key: string) {
    key in fields && fields[key].Str? && !Text.Blank(fields[key].s)
  }

  function WithClip(env: Environment, fields: map<string, Value>): map<string, Value> {
    if "clip" !in fields && HasLink(fields, "clip_link")
    then fields["clip" := CanonicalAsset(env, fields["clip_link"].s, Field(fields, "duration_seconds"))]
    else fields
  }

  function WithImage(env: Environment, fields: map<string, Value>): map<string, Value> {
    if "image" !in fields && HasLink(fields, "image_link")
    then fields["image" := CanonicalAsset(env, fields["image_link"].s, None)]
    else fields
  }

  function CanonicalScene(env: Environment, scene: Value): Value {
    if scene.Obj? then RenderOnly(Obj(WithImage(env, WithClip(env, scene.fields)))) else RenderOnly(scene)
  }

  function CanonicalScenes(env: Environment, scenes: Value): Value {
    if scenes.List?
    then List(seq(|scenes.items|, i requires 0 <= i < |scenes.items| => CanonicalScene(env, scenes.items[i])))
    else RenderOnly(scenes)
  }

  lemma {:induction false} CanonicalSceneFixed(env: Environment, scene: Value)
    ensures Clean(CanonicalScene(env, scene))
    ensures Clean(scene) ==> CanonicalScene(env, scene) == scene
  {
    if scene.Obj? {
      RenderOnlyCleans(Obj(WithImage(env, WithClip(env, scene.fields))));
      if Clean(scene) {
        assert "clip_link" !in scene.fields && "image_link" !in scene.fields by {
          assert Forbidden("clip_link") && Forbidden("image_link");
        }
        CleanStays(scene);
      }
    } else {
      RenderOnlyCleans(scene);
      if Clean(scene) {
        CleanStays(scene);
      }
    }
  }

  lemma {:induction false} CanonicalScenesFixed(env: Environment, scenes: Value)
    ensures Clean(CanonicalScenes(env, scenes))
    ensures Clean(scenes) ==> CanonicalScenes(env, scenes) == scenes
  {
    if scenes.List? {
      forall i | 0 <= i < |scenes.items|
        ensures Clean(CanonicalScene(env, scenes.items[i]))
        ensures Clean(scenes) ==> CanonicalScene(env, scenes.items[i]) == scenes.items[i]
      {
        CanonicalSceneFixed(env, scenes.items[i]);
      }
      if Clean(scenes) {
        assert CanonicalScenes(env, scenes).items == scenes.items;
      }
    } else {
      CleanIsFixed(scenes);
      RenderOnlyCleans(scenes);
    }
  }

  /** A legacy clip link becomes a clip object unless there is one already; the link itself is gone. */
  lemma {:induction false} ClipLinkRewritten(env: Environment, fields: map<string, Value>)
    ensures var out := CanonicalScene(env, Obj(fields)).fields;
            && "clip_link" !in out
            && Field(out, "clip") ==
                 (if "clip" in fields then Some(RenderOnly(fields["clip"]))
                  else if HasLink(fields, "clip_link")
                  then Some(CanonicalAsset(env, fields["clip_link"].s, Field(fields, "duration_seconds")))
                  else None)
  {
    SceneLinkKeys();
    if HasLink(fields, "clip_link") {
      AssetClean(env, fields["clip_link"].s, Field(fields, "duration_seconds"));
      CleanStays(CanonicalAsset(env, fields["clip_link"].s, Field(fields, "duration_seconds")));
    }
  }

  /** Likewise for images, which carry no duration. */
  lemma {:induction false} ImageLinkRewritten(env: Environment, fields: map<string, Value>)
    ensures var out := CanonicalScene(env, Obj(fields)).fields;
            && "image_link" !in out
            && Field(out, "image") ==
                 (if "image" in fields then Some(RenderOnly(fields["image"]))
                  else if HasLink(fields, "image_link")
                  then Some(CanonicalAsset(env, fields["image_link"].s, None))
                  else None)
  {
    SceneLinkKeys();
    if HasLink(fields, "image_link") {
      AssetClean(env, fields["image_link"].s, None);
      CleanStays(CanonicalAsset(env, fields["image_link"].s, None));
    }
  }

  /** What a link is replaced with, field by field. */
  ghost predicate ShowsLink(env: Environment, asset: Value, link: string, seconds: Option<Value>) {
    && asset.Obj?
    && match AssetRef.Parse(env.drive, Text.Trim(link))
       case None => asset.fields == map["url" := Str(Text.Trim(link))]
       case Some(r) =>
         && asset.fields.Keys <= {"url", "asset_id", "duration_ms"}
         && Field(asset.fields, "url") == Some(Str(AssetRef.Wire(r)))
         && Field(asset.fields, "asset_id") == (if AssetRef.Id(r) == "" then None else Some(Str(AssetRef.Id(r))))
         && Field(asset.fields, "duration_ms") ==
              if seconds.Some? && seconds.value.Num? && env.millis(seconds.value.code).Some?
              then Some(Num(env.millis(seconds.value.code).value)) else None
  }

  lemma {:induction false} AssetShowsLink(env: Environment, link: string, seconds: Option<Value>)
    ensures ShowsLink(env, CanonicalAsset(env, link, seconds), link, seconds)
  {}

  /** A scene's link is followed exactly when it is text that is not blank and nothing else is given. */
  lemma {:induction false} SceneShowsLinks(env: Environment, fields: map<string, Value>)
    ensures var out := CanonicalScene(env, Obj(fields)).fields;
            && ("clip" !in fields && "clip_link" in fields && fields["clip_link"].Str? ==>
                  if Text.Trim(fields["clip_link"].s) == "" then "clip" !in out
                  else
                    "clip" in out &&
                    ShowsLink(env, out["clip"], fields["clip_link"].s, Field(fields, "duration_seconds")))
            && ("image" !in fields && "image_link" in fields && fields["image_link"].Str? ==>
                  if Text.Trim(fields["image_link"].s) == "" then "image" !in out
                  else "image" in out && ShowsLink(env, out["image"], fields["image_link"].s, None))
  {
    ClipLinkRewritten(env, fields);
    ImageLinkRewritten(env, fields);
    if "clip_link" in fields && fields["clip_link"].Str? {
      Text.BlankTrims(fields["clip_link"].s);
      AssetShowsLink(env, fields["clip_link"].s, Field(fields, "duration_seconds"));
    }
    if "image_link" in fields && fields["image_link"].Str? {
      Text.BlankTrims(fields["image_link"].s);
      AssetShowsLink(env, fields["image_link"].s, None);
    }
  }

  /** Every other field of a scene is projected as usual. */
  lemma {:induction false} SceneFieldsKept(env: Environment, fields: map<string, Value>, key: string)
    requires key != "clip" && key != "image"
    ensures Field(CanonicalScene(env, Obj(fields)).fields, key) == Field(RenderOnly(Obj(fields)).fields, key)
  {}

  lemma {:induction false} SceneLinkKeys()
    ensures Forbidden("clip_link") && Forbidden("image_link") && !Forbidden("clip") && !Forbidden("image")
  {}

  lemma {:induction false} AssetKeyKept(key: string)
    requires key in {"url", "asset_id", "duration_ms"}
    ensures !Forbidden(key) && key != VIDEO_METADATA
  {}

  lemma {:induction false} AssetClean(env: Environment, url: string, duration: Option<Value>)
    ensures Clean(CanonicalAsset(env, url, duration))
  {
    var fields := CanonicalAsset(env, url, duration).fields;
    forall k | k in fields ensures Kept(k, fields[k]) && k != VIDEO_METADATA && Clean(fields[k]) {
      assert k in {"url", "asset_id", "duration_ms"};
      AssetKeyKept(k);
    }
  }

  // ----- the whole payload

  type Payload = map<string, Value>

  function WithScenes(env: Environment, payload: Payload, projected: Payload): Payload {
    if "scenes" in payload then projected["scenes" := CanonicalScenes(env, payload["scenes"])] else projected
  }

  /** Scenes handed in as JSON text replace the text and, if no scenes were given, fill them in. */
  function WithSceneText(env: Environment, payload: Payload, projected: Payload): Option<Payload> {
    if !HasLink(payload, "scenes_json") then Some(projected)
    else
      match env.parseJson(payload["scenes_json"].s)
      case None => None
      case Some(parsed) =>
        var scenes := CanonicalScenes(env, parsed);
        var p := projected["scenes_json" := Str(env.printJson(RenderOnly(scenes)))];
        Some(if "scenes" !in p then p["scenes" := scenes] else p)
  }

  function WithoutEmptyMetadata(projected: Payload): Payload {
    if VIDEO_METADATA in projected && projected[VIDEO_METADATA].Obj? then
      var t := TechnicalOnly(projected[VIDEO_METADATA]);
      if t.fields == map[] then projected - {VIDEO_METADATA} else projected[VIDEO_METADATA := t]
    else projected
  }

  function Project(env: Environment, payload: Payload): Option<Payload> {
    match WithSceneText(env, payload, WithScenes(env, payload, RenderOnly(Obj(payload)).fields))
    case None => None
    case Some(p) => Some(WithoutEmptyMetadata(p))
  }

  method RenderOnlyPayload(env: Environment, payload: Option<Payload>) returns (r: Option<Payload>)
    ensures r == if payload.None? then Some(map[]) else Project(env, payload.value)
  {
    if payload.None? {
      return Some(map[]);
    }
    var projected := RenderOnly(Obj(payload.value)).fields;
    if "scenes" in payload.value {
      projected := projected["scenes" := CanonicalScenes(env, payload.value["scenes"])];
    }
    if HasLink(payload.value, "scenes_json") {
      var parsed := env.parseJson(payload.value["scenes_json"].s);
      if parsed.None? {
        return None;
      }
      var scenes := CanonicalScenes(env, parsed.value);
      projected := projected["scenes_json" := Str(env.printJson(RenderOnly(scenes)))];
      if "scenes" !in projected {
        projected := projected["scenes" := scenes];
      }
    }
    if VIDEO_METADATA in projected && projected[VIDEO_METADATA].Obj? {
      ghost var before := projected;
      projected := projected[VIDEO_METADATA := TechnicalOnly(projected[VIDEO_METADATA])];
      if projected[VIDEO_METADATA].fields == map[] {
        projected := projected - {VIDEO_METADATA};
        assert projected == before - {VIDEO_METADATA};
      }
    }
    return Some(projected);
  }

  ghost predicate CleanPayload(p: Payload) {
    Clean(Obj(p))
  }

  lemma {:induction false} CleanUpdate(p: Payload, key: string, v: Value)
    requires CleanPayload(p) && Clean(v) && !Forbidden(key) && key != VIDEO_METADATA
    ensures CleanPayload(p[key := v])
  {
    var q := p[key := v];
    forall k | k in q ensures Kept(k, q[k]) && if k == VIDEO_METADATA then CleanMetadata(q[k]) else Clean(q[k]) {
      if k != key {
        assert k in Obj(p).fields;
      }
    }
  }

  lemma {:induction false} MetadataClean(p: Payload)
    requires CleanPayload(p)
    ensures CleanPayload(WithoutEmptyMetadata(p))
    ensures VIDEO_METADATA in WithoutEmptyMetadata(p) ==>
              VIDEO_METADATA in p && WithoutEmptyMetadata(p) == p && p[VIDEO_METADATA].Obj? &&
                  p[VIDEO_METADATA].fields != map[]
    ensures VIDEO_METADATA !in WithoutEmptyMetadata(p) ==> WithoutEmptyMetadata(p) == p - {VIDEO_METADATA}
  {
    if VIDEO_METADATA in p {
      assert VIDEO_METADATA in Obj(p).fields;
      CleanMetadataStays(p[VIDEO_METADATA]);
      assert p[VIDEO_METADATA := p[VIDEO_METADATA]] == p;
      var q := p - {VIDEO_METADATA};
      forall k | k in q ensures Kept(k, q[k]) && if k == VIDEO_METADATA then CleanMetadata(q[k]) else Clean(q[k]) {
        assert k in Obj(p).fields;
      }
    } else {
      assert p - {VIDEO_METADATA} == p;
    }
  }

  lemma {:induction false} SceneKeysAllowed()
    ensures !Forbidden("scenes") && !Forbidden("scenes_json") && "scenes" != VIDEO_METADATA &&
        "scenes_json" != VIDEO_METADATA
  {}

  /** What the projection needs from JSON: rewritten scenes of any text that parses print and parse back. */
  ghost predicate PrintsBack(env: Environment) {
    forall text :: env.parseJson(text).Some? ==> Readable(env, CanonicalScenes(env, env.parseJson(text).value))
  }

  ghost predicate Readable(env: Environment, v: Value) {
    env.parseJson(env.printJson(v)) == Some(v)
  }

  /** Clean scenes as the text field carries them. */
  ghost predicate SceneText(env: Environment, v: Value, text: string) {
    && Clean(v) && CanonicalScenes(env, v) == v && text == env.printJson(v)
    && (PrintsBack(env) ==> Readable(env, v))
  }

  /** A payload that is already projected. */
  ghost predicate Projected(env: Environment, q: Payload) {
    && CleanPayload(q)
    && (VIDEO_METADATA in q ==> q[VIDEO_METADATA].fields != map[])
    && (HasLink(q, "scenes_json") ==> "scenes" in q && exists v :: SceneText(env, v, q["scenes_json"].s))
  }

  lemma {:induction false} ProjectedIsFixed(env: Environment, q: Payload)
    requires PrintsBack(env) && Projected(env, q)
    ensures Project(env, q) == Some(q)
  {
    SceneKeysAllowed();
    CleanStays(Obj(q));
    if "scenes" in q {
      assert Clean(q["scenes"]) by {
        assert "scenes" in Obj(q).fields;
      }
      CanonicalScenesFixed(env, q["scenes"]);
      assert q["scenes" := q["scenes"]] == q;
    }
    assert WithScenes(env, q, q) == q;
    if HasLink(q, "scenes_json") {
      var v :| SceneText(env, v, q["scenes_json"].s);
      CleanStays(v);
      assert env.parseJson(q["scenes_json"].s) == Some(v);
      assert q["scenes_json" := q["scenes_json"]] == q;
    }
    assert WithSceneText(env, q, q) == Some(q);
    MetadataClean(q);
  }

  /** The payload just before its metadata is tidied. */
  lemma {:induction false} SceneTextKept(env: Environment, payload: Payload)
    requires Project(env, payload).Some?
    ensures var p := WithSceneText(env, payload, WithScenes(env, payload, RenderOnly(Obj(payload)).fields)).value;
            && CleanPayload(p)
            && (HasLink(p, "scenes_json") ==> "scenes" in p && exists v :: SceneText(env, v, p["scenes_json"].s))
  {
    SceneKeysAllowed();
    ScenesClean(env, payload);
    var p1 := WithScenes(env, payload, RenderOnly(Obj(payload)).fields);
    if HasLink(payload, "scenes_json") {
      var parsed := env.parseJson(payload["scenes_json"].s).value;
      var scenes := CanonicalScenes(env, parsed);
      CanonicalScenesFixed(env, parsed);
      CanonicalScenesFixed(env, scenes);
      CleanStays(scenes);
      var text := Str(env.printJson(scenes));
      assert SceneText(env, scenes, text.s);
      CleanUpdate(p1, "scenes_json", text);
      CleanUpdate(p1["scenes_json" := text], "scenes", scenes);
    }
  }

  lemma {:induction false} ScenesClean(env: Environment, payload: Payload)
    ensures var p := WithScenes(env, payload, RenderOnly(Obj(payload)).fields);
            CleanPayload(p) && (HasLink(p, "scenes_json") ==> HasLink(payload, "scenes_json"))
  {
    SceneKeysAllowed();
    RenderOnlyCleans(Obj(payload));
    if "scenes" in payload {
      CanonicalScenesFixed(env, payload["scenes"]);
      CleanUpdate(RenderOnly(Obj(payload)).fields, "scenes", CanonicalScenes(env, payload["scenes"]));
    }
    if "scenes_json" in payload {
      TextOnlyFromText(payload["scenes_json"]);
    }
  }

  lemma {:induction false} TextOnlyFromText(v: Value)
    ensures RenderOnly(v).Str? ==> v == RenderOnly(v)
  {}

  /** Nothing forbidden is left anywhere in a projected payload, and no empty metadata. */
  lemma {:induction false} ProjectCleans(env: Environment, payload: Payload)
    requires Project(env, payload).Some?
    ensures Projected(env, Project(env, payload).value)
  {
    SceneKeysAllowed();
    SceneTextKept(env, payload);
    MetadataClean(WithSceneText(env, payload, WithScenes(env, payload, RenderOnly(Obj(payload)).fields)).value);
  }

  /** Only the scene keys and the metadata are handled apart. */
  lemma {:induction false} OtherKeys(env: Environment, payload: Payload, projected: Payload, key: string)
    requires key != "scenes" && key != "scenes_json" && key != VIDEO_METADATA
    ensures Field(WithScenes(env, payload, projected), key) == Field(projected, key)
    ensures WithSceneText(env, payload, projected).Some? ==>
              Field(WithSceneText(env, payload, projected).value, key) == Field(projected, key)
    ensures Field(WithoutEmptyMetadata(projected), key) == Field(projected, key)
  {}

  /** Fields other than scenes and video metadata are projected on their own. */
  lemma {:induction false} ProjectKeeps(env: Environment, payload: Payload, key: string)
    requires Project(env, payload).Some? && key != "scenes" && key != "scenes_json" && key != VIDEO_METADATA
    ensures Field(Project(env, payload).value, key) ==
              if key in payload && !Forbidden(key) then Some(RenderOnly(payload[key])) else None
  {
    var p0 := RenderOnly(Obj(payload)).fields;
    var p1 := WithScenes(env, payload, p0);
    OtherKeys(env, payload, p0, key);
    OtherKeys(env, payload, p1, key);
    OtherKeys(env, payload, WithSceneText(env, payload, p1).value, key);
  }

  /** Scenes come from the payload itself, or from its JSON text when it has none. */
  lemma {:induction false} ProjectedScenes(env: Environment, payload: Payload)
    requires Project(env, payload).Some?
    ensures Field(Project(env, payload).value, "scenes") ==
              if "scenes" in payload then Some(CanonicalScenes(env, payload["scenes"]))
              else if HasLink(payload, "scenes_json")
              then Some(CanonicalScenes(env, env.parseJson(payload["scenes_json"].s).value))
              else None
  {
    SceneKeysAllowed();
    var p := WithSceneText(env, payload, WithScenes(env, payload, RenderOnly(Obj(payload)).fields)).value;
    assert Field(Project(env, payload).value, "scenes") == Field(p, "scenes");
  }

  /** Projecting a projected payload changes nothing. */
  lemma {:induction false} ProjectIdempotent(env: Environment, payload: Payload)
    requires PrintsBack(env)
    requires Project(env, payload).Some?
    ensures Project(env, Project(env, payload).value) == Project(env, payload)
  {
    ProjectCleans(env, payload);
    ProjectedIsFixed(env, Project(env, payload).value);
  }
}
