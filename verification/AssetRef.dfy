/**
  Asset references: classifying raw strings and printing them in wire form. Extracting a file id from
  a Google Drive URL is a parameter.
 */
module AssetRef {
  import opened Optional
  import Text

  datatype Kind = Local | Remote | DeferredDrive

  datatype Ref = Ref(kind: Kind, value: string, wire: string)

  /** A parser for Drive URLs: the file id, or nothing for any other string. */
  type DriveParser = string -> Option<string>

  const ASSET := "velox-asset://"
  const DRIVE := "velox-drive://"

  predicate HasScheme(s: string, prefix: string) {
    |prefix| <= |s| && Text.Lower(s)[..|prefix|] == prefix
  }

  predicate Http(s: string) {
    HasScheme(s, "http://") || HasScheme(s, "https://")
  }

  /** The id behind one of the two wire schemes. */
  function WireAssetId(reference: string): Option<string> {
    var trimmed := Text.Trim(reference);
    if HasScheme(trimmed, ASSET) then NonEmpty(Text.Trim(trimmed[|ASSET|..]))
    else if HasScheme(trimmed, DRIVE) then NonEmpty(Text.Trim(trimmed[|DRIVE|..]))
    else None
  }

  function NonEmpty(id: string): Option<string> {
    if id == "" then None else Some(id)
  }

  predicate SafeSegment(segment: string) {
    segment != "" && segment != "." && segment != ".."
  }

  predicate SafeId(id: string) {
    && id != ""
    && (forall c :: c in id ==> c != '\\' && c != '\0' && c != '\r' && c != '\n')
    && forall k :: 0 <= k < |Text.Split(id, '/')| ==> SafeSegment(Text.Split(id, '/')[k])
  }

  function CanonicalId(raw: string): Option<string> {
    var trimmed := Text.Trim(raw);
    var id := match WireAssetId(trimmed) case Some(wired) => wired case None => trimmed;
    if SafeId(id) then Some(id) else None
  }

  function NewLocal(value: string): Option<Ref> {
    match CanonicalId(value)
    case None => None
    case Some(id) => Some(Ref(Local, id, ASSET + id))
  }

  function NewDeferredDrive(fileId: string): Option<Ref> {
    match CanonicalId(fileId)
    case None => None
    case Some(id) => Some(Ref(DeferredDrive, id, DRIVE + id))
  }

  function NewRemote(url: string): Option<Ref> {
    var trimmed := Text.Trim(url);
    if Http(trimmed) then Some(Ref(Remote, trimmed, trimmed)) else None
  }

  function Parse(drive: DriveParser, raw: string): Option<Ref> {
    var trimmed := Text.Trim(raw);
    if trimmed == "" then None
    else if HasScheme(trimmed, DRIVE) then
      match CanonicalId(trimmed[|DRIVE|..])
      case None => None
      case Some(id) => NewDeferredDrive(id)
    else if HasScheme(trimmed, ASSET) then NewLocal(trimmed)
    else if drive(trimmed).Some? then NewDeferredDrive(drive(trimmed).value)
    else if Http(trimmed) then NewRemote(trimmed)
    else
      match CanonicalId(trimmed)
      case None => None
      case Some(id) => Some(Ref(Local, id, trimmed))
  }

  function ParseWire(raw: string, kind: Option<Kind>): Option<Ref> {
    var trimmed := Text.Trim(raw);
    if HasScheme(trimmed, DRIVE) then
      match CanonicalId(trimmed[|DRIVE|..])
      case None => None
      case Some(id) => NewDeferredDrive(id)
    else
      match kind
      case Some(DeferredDrive) =>
        (match CanonicalId(trimmed)
         case None => None
         case Some(id) => NewDeferredDrive(id))
      case Some(Remote) => NewRemote(trimmed)
      case _ => NewLocal(trimmed)
  }

  function Id(r: Ref): string {
    if r.kind == Remote then "" else r.value
  }

  function Wire(r: Ref): string {
    if r.wire != "" then r.wire
    else match r.kind
      case Remote => r.value
      case DeferredDrive => DRIVE + r.value
      case Local => ASSET + r.value
  }

  // ----- canonical ids

  lemma {:induction false} SafeHasNoScheme(id: string, prefix: string)
    requires SafeId(id) && prefix in {ASSET, DRIVE}
    ensures !HasScheme(id, prefix)
  {
    if HasScheme(id, prefix) {
      assert Text.Lower(id)[..14][12] == '/' && Text.Lower(id)[..14][13] == '/';
      assert Text.LowerChar(id[12]) == '/' && Text.LowerChar(id[13]) == '/';
      var k := Text.DoubledSeparator(id, '/', 12);
    }
  }

  /** Accepted ids are safe and trimmed, and they are exactly the strings that stand for themselves. */
  lemma {:induction false} CanonicalIds(raw: string)
    ensures CanonicalId(raw).Some? ==> SafeId(CanonicalId(raw).value) && Text.Trimmed(CanonicalId(raw).value)
    ensures CanonicalId(raw) == Some(raw) <==> SafeId(raw) && Text.Trimmed(raw)
  {
    var trimmed := Text.Trim(raw);
    Text.TrimOfTrimmed(raw);
    Text.TrimOfTrimmed(trimmed);
    if HasScheme(trimmed, ASSET) {
      Text.TrimOfTrimmed(trimmed[|ASSET|..]);
    }
    if HasScheme(trimmed, DRIVE) {
      Text.TrimOfTrimmed(trimmed[|DRIVE|..]);
    }
    if SafeId(raw) && Text.Trimmed(raw) {
      SafeHasNoScheme(raw, ASSET);
      SafeHasNoScheme(raw, DRIVE);
    }
  }

  /** A safe id has no backslash, NUL or line break, and no part between slashes is empty, "." or "..". */
  ghost predicate PlainId(id: string) {
    && (forall k :: 0 <= k < |id| ==> id[k] as int !in {92, 0, 13, 10})
    && forall i: nat, j: nat :: Text.Part(id, '/', i, j) ==> id[i..j] !in {"", ".", ".."}
  }

  lemma {:induction false} SafeExactly(id: string)
    ensures SafeId(id) <==> PlainId(id)
  {
    if SafeId(id) {
      forall k | 0 <= k < |id| ensures id[k] as int !in {92, 0, 13, 10} {
        assert id[k] in id;
      }
      forall i: nat, j: nat | Text.Part(id, '/', i, j) ensures id[i..j] !in {"", ".", ".."} {
        Text.PartOfSplit(id, '/', i, j);
        assert SafeSegment(id[i..j]);
      }
    }
    if PlainId(id) {
      PlainIsSafe(id);
    }
  }

  lemma {:induction false} PlainIsSafe(id: string)
    requires PlainId(id)
    ensures SafeId(id)
  {
    assert id != "" by {
      assert Text.Part(id, '/', 0, 0) ==> id[0..0] != "";
    }
    forall c | c in id ensures c != '\\' && c != '\0' && c != '\r' && c != '\n' {
      var k :| 0 <= k < |id| && id[k] == c;
      assert id[k] as int != 92;
    }
    forall k | 0 <= k < |Text.Split(id, '/')| ensures SafeSegment(Text.Split(id, '/')[k]) {
      var i, j := Text.SplitIsPart(id, '/', k);
      assert id[i..j] !in {"", ".", ".."};
    }
  }

  /** The string starts with the prefix, ASCII capitals counting as small letters. */
  predicate Starts(s: string, prefix: string) {
    && |prefix| <= |s|
    && forall k :: 0 <= k < |prefix| ==>
         s[k] == prefix[k] || (65 <= s[k] as int <= 90 && s[k] as int + 32 == prefix[k] as int)
  }

  lemma {:induction false} SchemeExactly(s: string, prefix: string)
    requires forall k :: 0 <= k < |prefix| ==> !(65 <= prefix[k] as int <= 90)
    ensures HasScheme(s, prefix) <==> Starts(s, prefix)
  {
    if |prefix| <= |s| {
      var lower := Text.Lower(s)[..|prefix|];
      assert forall k :: 0 <= k < |prefix| ==> lower[k] == Text.LowerChar(s[k]);
      assert lower == prefix <==> forall k :: 0 <= k < |prefix| ==> lower[k] == prefix[k];
    }
  }

  predicate Schemed(s: string) {
    Starts(s, "velox-asset://") || Starts(s, "velox-drive://")
  }

  /** A plain id is taken as it is, any other refused. */
  ghost predicate Reads(r: Option<Ref>, kind: Kind, scheme: string, id: string) {
    r == if PlainId(id) then Some(Ref(kind, id, scheme + id)) else None
  }

  lemma {:induction false} Unschemed(raw: string)
    requires !Schemed(Text.Trim(raw))
    ensures CanonicalId(raw) == if SafeId(Text.Trim(raw)) then Some(Text.Trim(raw)) else None
    ensures Reads(NewDeferredDrive(raw), DeferredDrive, "velox-drive://", Text.Trim(raw))
  {
    var t := Text.Trim(raw);
    Text.TrimOfTrimmed(raw);
    SchemeExactly(t, "velox-drive://");
    SchemeExactly(t, "velox-asset://");
    SafeExactly(t);
  }

  lemma {:induction false} BareScheme(t: string)
    requires Starts(t, "velox-asset://")
    ensures !SafeId(t) && !PlainId("")
  {
    assert t[12] == '/' && t[13] == '/';
    var k := Text.DoubledSeparator(t, '/', 12);
    assert Text.Part("", '/', 0, 0) && ""[0..0] == "";
  }

  /** Behind the asset scheme stands the id; a scheme with nothing behind it is refused. */
  lemma {:induction false} AssetSchemeRead(drive: DriveParser, t: string)
    requires Text.Trimmed(t) && Starts(t, "velox-asset://")
    ensures Reads(Parse(drive, t), Local, "velox-asset://", Text.Trim(t[14..]))
  {
    Text.TrimOfTrimmed(t);
    SchemeExactly(t, "velox-asset://");
    SchemeExactly(t, "velox-drive://");
    assert t[6] in {'a', 'A'};
    SafeExactly(Text.Trim(t[14..]));
    BareScheme(t);
  }

  lemma {:induction false} DriveSchemeRead(drive: DriveParser, t: string)
    requires Text.Trimmed(t) && Starts(t, "velox-drive://") && !Schemed(Text.Trim(t[14..]))
    ensures Reads(Parse(drive, t), DeferredDrive, "velox-drive://", Text.Trim(t[14..]))
  {
    Text.TrimOfTrimmed(t);
    SchemeExactly(t, "velox-drive://");
    Unschemed(t[14..]);
    CanonicalIds(t[14..]);
    SafeExactly(Text.Trim(t[14..]));
    CanonicalIds(Text.Trim(t[14..]));
  }

  lemma {:induction false} OtherRead(drive: DriveParser, t: string)
    requires Text.Trimmed(t) && !Schemed(t)
    ensures t != "" && drive(t).Some? ==> Parse(drive, t) == NewDeferredDrive(drive(t).value)
    ensures !(t != "" && drive(t).Some?) && (Starts(t, "http://") || Starts(t, "https://")) ==>
              Parse(drive, t) == Some(Ref(Remote, t, t))
    ensures !(t != "" && drive(t).Some?) && !(Starts(t, "http://") || Starts(t, "https://")) ==>
              Reads(Parse(drive, t), Local, "", t)
  {
    Text.TrimOfTrimmed(t);
    SchemeExactly(t, "velox-drive://");
    SchemeExactly(t, "velox-asset://");
    SchemeExactly(t, "http://");
    SchemeExactly(t, "https://");
    Unschemed(t);
    SafeExactly(t);
    assert "" + t == t;
  }

  /** What a string is taken for: by its scheme, as a Drive URL, as a web address, or as a local path. */
  lemma {:induction false} ParsedExactly(drive: DriveParser, t: string)
    requires Text.Trimmed(t)
    ensures var r := Parse(drive, t);
            if Starts(t, "velox-asset://") then Reads(r, Local, "velox-asset://", Text.Trim(t[14..]))
            else if Starts(t, "velox-drive://") then
              !Schemed(Text.Trim(t[14..])) ==> Reads(r, DeferredDrive, "velox-drive://", Text.Trim(t[14..]))
            else if t != "" && drive(t).Some? then
              !Schemed(Text.Trim(drive(t).value)) ==>
                Reads(r, DeferredDrive, "velox-drive://", Text.Trim(drive(t).value))
            else if Starts(t, "http://") || Starts(t, "https://") then r == Some(Ref(Remote, t, t))
            else Reads(r, Local, "", t)
  {
    if Starts(t, "velox-asset://") {
      AssetSchemeRead(drive, t);
    } else if Starts(t, "velox-drive://") {
      if !Schemed(Text.Trim(t[14..])) {
        DriveSchemeRead(drive, t);
      }
    } else {
      OtherRead(drive, t);
      if drive(t).Some? && !Schemed(Text.Trim(drive(t).value)) {
        Unschemed(drive(t).value);
      }
    }
  }

  /** Without a scheme the annotation decides what a wire string is taken for; none means local. */
  lemma {:induction false} AnnotationRead(t: string)
    requires Text.Trimmed(t) && !Schemed(t)
    ensures Reads(ParseWire(t, None), Local, "velox-asset://", t)
    ensures Reads(ParseWire(t, Some(Local)), Local, "velox-asset://", t)
    ensures Reads(ParseWire(t, Some(DeferredDrive)), DeferredDrive, "velox-drive://", t)
    ensures ParseWire(t, Some(Remote)) ==
            if Starts(t, "http://") || Starts(t, "https://") then Some(Ref(Remote, t, t)) else None
  {
    Text.TrimOfTrimmed(t);
    SchemeExactly(t, "velox-drive://");
    SchemeExactly(t, "velox-asset://");
    SchemeExactly(t, "http://");
    SchemeExactly(t, "https://");
    Unschemed(t);
    SafeExactly(t);
    CanonicalIds(t);
  }

  /** A remote reference has no id; a reference without a stored wire form is printed from its kind. */
  lemma {:induction false} ReferenceShown(r: Ref)
    ensures Id(r) == (if r.kind.Remote? then "" else r.value)
    ensures r.wire != "" ==> Wire(r) == r.wire
    ensures r.wire == "" && r.kind.Local? ==> Wire(r) == "velox-asset://" + r.value
    ensures r.wire == "" && r.kind.DeferredDrive? ==> Wire(r) == "velox-drive://" + r.value
    ensures r.wire == "" && r.kind.Remote? ==> Wire(r) == r.value
  {}

  /** Surrounding white space is ignored. */
  lemma {:induction false} ParseTrims(drive: DriveParser, raw: string)
    ensures Parse(drive, raw) == Parse(drive, Text.Trim(raw))
  {
    Text.TrimOfTrimmed(raw);
  }

  // ----- reading wire forms back

  lemma {:induction false} PrefixedScheme(prefix: string, id: string)
    requires prefix in {ASSET, DRIVE}
    ensures (prefix + id)[|prefix|..] == id
    ensures HasScheme(prefix + id, ASSET) <==> prefix == ASSET
    ensures HasScheme(prefix + id, DRIVE) <==> prefix == DRIVE
  {
    var lower := Text.Lower(prefix + id);
    assert lower[..14] == prefix;
    assert ASSET[6] == 'a' && DRIVE[6] == 'd';
  }

  lemma {:induction false} PrefixedId(prefix: string, id: string)
    requires prefix in {ASSET, DRIVE} && SafeId(id) && Text.Trimmed(id)
    ensures Text.Trim(prefix + id) == prefix + id
    ensures CanonicalId(id) == CanonicalId(prefix + id) == Some(id)
    ensures WireAssetId(prefix + id) == Some(id)
  {
    var s := prefix + id;
    assert s[0] == 'v' && s[|s| - 1] == id[|id| - 1];
    Text.TrimOfTrimmed(s);
    Text.TrimOfTrimmed(id);
    PrefixedScheme(prefix, id);
    CanonicalIds(id);
  }

  /** A printed local or deferred reference parses back to itself. */
  lemma {:induction false} CanonicalWireReadsBack(drive: DriveParser, r: Ref)
    requires SafeId(r.value) && Text.Trimmed(r.value)
    requires r.kind != Remote && r.wire == (if r.kind == Local then ASSET else DRIVE) + r.value
    ensures Parse(drive, Wire(r)) == Some(r)
    ensures WireAssetId(Wire(r)) == Some(Id(r))
    ensures ParseWire(Wire(r), None) == Some(r)
  {
    PrefixedScheme(if r.kind == Local then ASSET else DRIVE, r.value);
    PrefixedId(if r.kind == Local then ASSET else DRIVE, r.value);
  }

  lemma {:induction false} LocalReadsBack(drive: DriveParser, value: string)
    requires NewLocal(value).Some?
    ensures Parse(drive, Wire(NewLocal(value).value)) == NewLocal(value)
  {
    CanonicalIds(value);
    CanonicalWireReadsBack(drive, NewLocal(value).value);
  }

  lemma {:induction false} DeferredReadsBack(drive: DriveParser, value: string)
    requires NewDeferredDrive(value).Some?
    ensures Parse(drive, Wire(NewDeferredDrive(value).value)) == NewDeferredDrive(value)
  {
    CanonicalIds(value);
    CanonicalWireReadsBack(drive, NewDeferredDrive(value).value);
  }

  lemma {:induction false} SchemeStart(s: string, prefix: string)
    ensures HasScheme(s, prefix) && prefix != "" ==> s != "" && Text.LowerChar(s[0]) == prefix[0]
  {
    if HasScheme(s, prefix) && prefix != "" {
      assert Text.Lower(s)[..|prefix|][0] == prefix[0];
    }
  }

  /** A remote reference reads back as remote exactly when its URL is not that of a Drive file. */
  lemma {:induction false} RemoteReadsBack(drive: DriveParser, value: string)
    requires NewRemote(value).Some?
    ensures Parse(drive, Wire(NewRemote(value).value)) == NewRemote(value) <==> drive(Text.Trim(value)).None?
  {
    var url := Text.Trim(value);
    Text.TrimOfTrimmed(value);
    SchemeStart(url, "http://");
    SchemeStart(url, "https://");
    SchemeStart(url, DRIVE);
    SchemeStart(url, ASSET);
  }

  /** Parsing what was printed gives the same reference, for every accepted string and every kind. */
  lemma {:induction false} ParsePrintParse(drive: DriveParser, raw: string)
    requires Parse(drive, raw).Some?
    ensures Parse(drive, Wire(Parse(drive, raw).value)) == Parse(drive, raw)
  {
    var trimmed := Text.Trim(raw);
    Text.TrimOfTrimmed(raw);
    if HasScheme(trimmed, DRIVE) {
      var id := CanonicalId(trimmed[|DRIVE|..]).value;
      CanonicalIds(trimmed[|DRIVE|..]);
      DeferredReadsBack(drive, id);
    } else if HasScheme(trimmed, ASSET) {
      LocalReadsBack(drive, trimmed);
    } else if drive(trimmed).Some? {
      DeferredReadsBack(drive, drive(trimmed).value);
    }
  }

  /** The wire form alone names the asset, except for remote references and bare paths. */
  lemma {:induction false} WireIsSelfSufficient(drive: DriveParser, raw: string)
    requires Parse(drive, raw).Some?
    ensures var r := Parse(drive, raw).value;
            var trimmed := Text.Trim(raw);
            && (r.kind == Remote ==> r.value == trimmed && Http(trimmed))
            && (r.kind != Remote ==> SafeId(r.value) && Text.Trimmed(r.value))
            && (WireAssetId(Wire(r)).Some? <==>
                  HasScheme(trimmed, DRIVE) || HasScheme(trimmed, ASSET) || drive(trimmed).Some?)
            && (WireAssetId(Wire(r)).Some? ==> WireAssetId(Wire(r)) == Some(Id(r)))
  {
    var trimmed := Text.Trim(raw);
    Text.TrimOfTrimmed(raw);
    if HasScheme(trimmed, DRIVE) {
      var id := CanonicalId(trimmed[|DRIVE|..]).value;
      CanonicalIds(trimmed[|DRIVE|..]);
      CanonicalIds(id);
      CanonicalWireReadsBack(drive, NewDeferredDrive(id).value);
    } else if HasScheme(trimmed, ASSET) {
      CanonicalIds(trimmed);
      CanonicalWireReadsBack(drive, NewLocal(trimmed).value);
    } else if drive(trimmed).Some? {
      CanonicalIds(drive(trimmed).value);
      CanonicalWireReadsBack(drive, NewDeferredDrive(drive(trimmed).value).value);
    } else if !Http(trimmed) {
      CanonicalIds(trimmed);
    }
  }

  /** A bare path is accepted as a local reference, but its wire form names no asset. */
  lemma {:induction false} BarePathNotSelfSufficient(drive: DriveParser)
    requires drive("a").None?
    ensures Parse(drive, "a") == Some(Ref(Local, "a", "a")) && WireAssetId(Wire(Ref(Local, "a", "a"))).None?
  {
    Text.TrimOfTrimmed("a");
    Text.SplitOfPart("a", '/');
  }

  /** A remote reference made from the URL of a Drive file reads back as a deferred one. */
  lemma {:induction false} DriveUrlReadsBackDeferred(drive: DriveParser, url: string, id: string)
    requires Text.Trimmed(url) && Http(url) && drive(url) == Some(id) && SafeId(id) && Text.Trimmed(id)
    ensures NewRemote(url) == Some(Ref(Remote, url, url))
    ensures Parse(drive, Wire(Ref(Remote, url, url))) == Some(Ref(DeferredDrive, id, DRIVE + id))
  {
    Text.TrimOfTrimmed(url);
    SchemeStart(url, "http://");
    SchemeStart(url, "https://");
    SchemeStart(url, DRIVE);
    SchemeStart(url, ASSET);
    CanonicalIds(id);
  }

  lemma {:induction false} DriveUrlSeen(drive: DriveParser)
    requires drive("http://d") == Some("x")
    ensures NewRemote("http://d").Some? && Parse(drive, "http://d") == Some(Ref(DeferredDrive, "x", DRIVE + "x"))
  {
    Text.SplitOfPart("x", '/');
    assert Text.Lower("http://d")[..7] == "http://";
    DriveUrlReadsBackDeferred(drive, "http://d", "x");
  }
}
