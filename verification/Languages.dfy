/**
  Language tags in the stable casing publications are stored with. Case mappings, letters and encoded
  lengths of characters are parameters, as the source takes them from Unicode tables.
 */
module Languages {
  import Orders
  import Text

  /** Simple case mappings, the letters, and how many bytes a character is encoded in. */
  datatype Casing = Casing(lower: char -> char, upper: char -> char, letter: char -> bool, width: char -> nat)

  /** What a byte that is no character of its own is decoded as. */
  const REPLACEMENT := '\U{FFFD}'

  function Dashed(value: string): (r: string)
    ensures |r| == |value|
  {
    seq(|value|, i requires 0 <= i < |value| => if value[i] == '_' then '-' else value[i])
  }

  function Bytes(u: Casing, s: string): nat {
    if s == "" then 0 else u.width(s[0]) + Bytes(u, s[1..])
  }

  predicate AllLetters(u: Casing, part: string) {
    part != "" && forall i :: 0 <= i < |part| ==> u.letter(part[i])
  }

  datatype Kind = Region | Script | Other

  /** Two letters are a region, four a script; lengths are counted in bytes. */
  function KindOf(u: Casing, part: string): Kind {
    if Bytes(u, part) == 2 && AllLetters(u, part) then Region
    else if Bytes(u, part) == 4 && AllLetters(u, part) then Script
    else Other
  }

  function Replacements(n: nat): string {
    seq(n, _ => REPLACEMENT)
  }

  /** The first byte upper, the rest lower; a first character of several bytes is torn apart. */
  function Titled(u: Casing, part: string): string
    requires part != ""
  {
    (if u.width(part[0]) == 1 then [u.upper(part[0])] else Replacements(u.width(part[0])))
    + Orders.Map(u.lower, part[1..])
  }

  function CasedAs(u: Casing, kind: Kind, part: string): string {
    match kind
    case Region => Orders.Map(u.upper, part)
    case Script => if part == "" then "" else Titled(u, part)
    case Other => Orders.Map(u.lower, part)
  }

  /** The casing of one subtag: the language lower, a region upper, a script in title case. */
  function Cased(u: Casing, first: bool, part: string): string {
    CasedAs(u, if first then Other else KindOf(u, part), part)
  }

  function CasedParts(u: Casing, parts: seq<string>): (r: seq<string>)
    ensures |r| == |parts|
    ensures forall i :: 0 <= i < |parts| ==> r[i] == Cased(u, i == 0, parts[i])
  {
    seq(|parts|, i requires 0 <= i < |parts| => Cased(u, i == 0, parts[i]))
  }

  /** The subtags of a tag, each without surrounding white space. */
  function Subtags(value: string): (parts: seq<string>)
    ensures parts != []
  {
    Orders.Map(Text.Trim, Text.Split(Text.Trim(Dashed(value)), '-'))
  }

  predicate Accepted(value: string) {
    Text.Trim(Dashed(value)) != "" && "" !in Subtags(value)
  }

  /** The stored form of a tag; the empty string for a tag with an empty part. */
  function NormalizedIn(u: Casing, value: string): string {
    if Accepted(value) then Text.Join(CasedParts(u, Subtags(value)), '-') else ""
  }

  method NormalizeLanguage(u: Casing, value: string) returns (r: string)
    ensures r == NormalizedIn(u, value)
  {
    var trimmed := Text.Trim(Dashed(value));
    if trimmed == "" {
      return "";
    }
    var ok, parts := CaseEach(u, Text.Split(trimmed, '-'));
    r := if ok then Text.Join(parts, '-') else "";
  }

  /** Trims and cases each part in place; fails on an empty one. */
  method CaseEach(u: Casing, raw: seq<string>) returns (ok: bool, parts: seq<string>)
    ensures ok <==> "" !in Orders.Map(Text.Trim, raw)
    ensures ok ==> parts == CasedParts(u, Orders.Map(Text.Trim, raw))
  {
    ghost var wanted := Orders.Map(Text.Trim, raw);
    parts := raw;
    for i := 0 to |parts|
      invariant |parts| == |raw|
      invariant forall k :: 0 <= k < i ==> wanted[k] != "" && parts[k] == CasedParts(u, wanted)[k]
      invariant forall k :: i <= k < |parts| ==> parts[k] == raw[k]
    {
      var part := Text.Trim(parts[i]);
      assert part == wanted[i];
      if part == "" {
        return false, parts;
      }
      parts := parts[i := Cased(u, i == 0, part)];
    }
    ok := true;
  }

  // ----- what case tables satisfy

  /** White space and the separators of tags. */
  predicate Mark(c: char) {
    Text.IsSpace(c) || c == '-' || c == '_'
  }

  /** Case mappings settle at once, keep letters letters, and neither make nor change marks. */
  ghost predicate Lawful(u: Casing) {
    && (forall c :: u.lower(u.lower(c)) == u.lower(c))
    && (forall c :: u.upper(u.upper(c)) == u.upper(c))
    && KeepsMarks(u.lower) && KeepsMarks(u.upper)
    && (forall c :: u.letter(u.lower(c)) == u.letter(c))
    && (forall c :: u.letter(c) ==> u.letter(u.upper(c)))
    && (forall c :: u.width(c) >= 1)
    && u.lower(REPLACEMENT) == REPLACEMENT && !u.letter(REPLACEMENT)
  }

  ghost predicate KeepsMarks(f: char -> char) {
    forall c :: if Mark(c) then f(c) == c else !Mark(f(c))
  }

  lemma {:induction false} MapTwice(f: char -> char, s: string)
    requires forall c :: f(f(c)) == f(c)
    ensures Orders.Map(f, Orders.Map(f, s)) == Orders.Map(f, s)
  {}

  // ----- subtags

  /** A subtag: not empty, without separators and without white space at its ends. */
  predicate Subtag(s: string) {
    s != "" && Text.Trimmed(s) && '-' !in s && '_' !in s
  }

  lemma {:induction false} MappedSubtag(f: char -> char, s: string)
    requires KeepsMarks(f) && Subtag(s)
    ensures Subtag(Orders.Map(f, s))
  {
    var r := Orders.Map(f, s);
    forall i | 0 <= i < |r| ensures r[i] != '-' && r[i] != '_' && (Mark(s[i]) <==> Mark(r[i])) {
      assert s[i] in s && r[i] == f(s[i]);
    }
    assert !Mark(s[0]) && !Mark(s[|s| - 1]) by {
      assert s[0] in s && s[|s| - 1] in s;
    }
  }

  lemma {:induction false} MappedMarks(f: char -> char, s: string)
    requires KeepsMarks(f) && '-' !in s && '_' !in s
    ensures '-' !in Orders.Map(f, s) && '_' !in Orders.Map(f, s)
    ensures s != "" && !Text.IsSpace(s[|s| - 1]) ==> !Text.IsSpace(Orders.Map(f, s)[|s| - 1])
  {
    var r := Orders.Map(f, s);
    forall i | 0 <= i < |r| ensures r[i] != '-' && r[i] != '_' && (Mark(s[i]) <==> Mark(r[i])) {
      assert s[i] in s && r[i] == f(s[i]);
    }
    if s != "" {
      assert s[|s| - 1] in s;
    }
  }

  lemma {:induction false} JoinedSubtag(head: string, tail: string)
    requires head != "" && forall i :: 0 <= i < |head| ==> !Mark(head[i])
    requires '-' !in tail && '_' !in tail && (tail != "" ==> !Text.IsSpace(tail[|tail| - 1]))
    ensures Subtag(head + tail)
  {
    var s := head + tail;
    assert s[0] == head[0];
    assert s[|s| - 1] == if tail == "" then head[|head| - 1] else tail[|tail| - 1];
  }

  lemma {:induction false} TitledHead(u: Casing, s: string)
    requires Lawful(u) && Subtag(s)
    ensures var head := if u.width(s[0]) == 1 then [u.upper(s[0])] else Replacements(u.width(s[0]));
            head != "" && forall i :: 0 <= i < |head| ==> !Mark(head[i])
  {
    assert s[0] in s && !Mark(s[0]) && !Mark(REPLACEMENT);
  }

  lemma {:induction false} TitledSubtag(u: Casing, s: string)
    requires Lawful(u) && Subtag(s)
    ensures Subtag(Titled(u, s))
  {
    TitledHead(u, s);
    assert forall c :: c in s[1..] ==> c in s;
    MappedMarks(u.lower, s[1..]);
    assert s[1..] != "" ==> s[1..][|s| - 2] == s[|s| - 1];
    JoinedSubtag(if u.width(s[0]) == 1 then [u.upper(s[0])] else Replacements(u.width(s[0])),
                 Orders.Map(u.lower, s[1..]));
  }

  /** Casing keeps a subtag a subtag. */
  lemma {:induction false} CasedSubtag(u: Casing, first: bool, s: string)
    requires Lawful(u) && Subtag(s)
    ensures Subtag(Cased(u, first, s))
  {
    MappedSubtag(u.lower, s);
    MappedSubtag(u.upper, s);
    TitledSubtag(u, s);
  }

  lemma {:induction false} SubtagsAreSubtags(value: string, i: nat)
    requires i < |Subtags(value)| && Subtags(value)[i] != ""
    ensures Subtag(Subtags(value)[i])
  {
    var trimmed := Text.Trim(Dashed(value));
    var raw := Text.Split(trimmed, '-');
    Text.PartsLackSeparator(trimmed, '-');
    TrimKeeps(Dashed(value), '_');
    SplitKeeps(trimmed, '_', '-', i);
    TrimKeeps(raw[i], '_');
    TrimKeeps(raw[i], '-');
    Text.TrimOfTrimmed(raw[i]);
  }

  lemma {:induction false} TrimKeeps(s: string, c: char)
    requires c !in s
    ensures c !in Text.Trim(s)
  {
    Text.TrimLeftIsSuffix(s);
    Text.TrimRightIsPrefix(Text.TrimLeft(s));
  }

  lemma {:induction false} SplitKeeps(s: string, c: char, sep: char, i: nat)
    requires c !in s && i < |Text.Split(s, sep)|
    ensures c !in Text.Split(s, sep)[i]
  {
    if s == "" {
    } else {
      var rest := Text.Split(s[1..], sep);
      if s[0] == sep {
        if i > 0 {
          SplitKeeps(s[1..], c, sep, i - 1);
        }
      } else {
        SplitKeeps(s[1..], c, sep, i);
      }
    }
  }

  // ----- stored tags

  ghost predicate AllSubtags(parts: seq<string>) {
    parts != [] && forall i :: 0 <= i < |parts| ==> Subtag(parts[i])
  }

  lemma {:induction false} JoinEnds(parts: seq<string>)
    requires parts != [] && forall i :: 0 <= i < |parts| ==> parts[i] != "" && '_' !in parts[i]
    ensures var t := Text.Join(parts, '-');
            && t != "" && '_' !in t
            && t[0] == parts[0][0] && t[|t| - 1] == parts[|parts| - 1][|parts[|parts| - 1]| - 1]
  {
    if |parts| == 1 {
    } else {
      JoinEnds(parts[1..]);
    }
  }

  lemma {:induction false} DashedNoop(tag: string)
    requires '_' !in tag
    ensures Dashed(tag) == tag
  {}

  /** Joined subtags are taken apart again. */
  lemma {:induction false} SubtagsOfJoin(parts: seq<string>)
    requires AllSubtags(parts)
    ensures Subtags(Text.Join(parts, '-')) == parts && Accepted(Text.Join(parts, '-'))
  {
    var tag := Text.Join(parts, '-');
    JoinEnds(parts);
    DashedNoop(tag);
    Text.TrimOfTrimmed(tag);
    Text.SplitOfJoin(parts, '-');
    forall i | 0 <= i < |parts| ensures Text.Trim(parts[i]) == parts[i] {
      Text.TrimOfTrimmed(parts[i]);
    }
    assert Orders.Map(Text.Trim, parts) == parts;
  }

  /** The subtags of a stored tag are the cased subtags of the original. */
  lemma {:induction false} StoredSubtags(u: Casing, value: string)
    requires Lawful(u) && Accepted(value)
    ensures AllSubtags(Subtags(value)) && AllSubtags(CasedParts(u, Subtags(value)))
    ensures Subtags(NormalizedIn(u, value)) == CasedParts(u, Subtags(value)) && Accepted(NormalizedIn(u, value))
  {
    var parts := Subtags(value);
    forall i | 0 <= i < |parts| ensures Subtag(parts[i]) && Subtag(Cased(u, i == 0, parts[i])) {
      assert parts[i] in parts;
      SubtagsAreSubtags(value, i);
      CasedSubtag(u, i == 0, parts[i]);
    }
    SubtagsOfJoin(CasedParts(u, parts));
  }

  lemma {:induction false} JoinInjective(p: seq<string>, q: seq<string>)
    requires AllSubtags(p) && AllSubtags(q)
    ensures Text.Join(p, '-') == Text.Join(q, '-') <==> p == q
  {
    Text.SplitOfJoin(p, '-');
    Text.SplitOfJoin(q, '-');
  }

  /** Casing a subtag that is already cased changes nothing. */
  predicate Settled(u: Casing, first: bool, part: string) {
    Cased(u, first, Cased(u, first, part)) == Cased(u, first, part)
  }

  lemma {:induction false} TwiceBySubtags(u: Casing, value: string)
    requires Lawful(u) && Accepted(value)
    ensures NormalizedIn(u, NormalizedIn(u, value)) == NormalizedIn(u, value) <==>
            forall i :: 0 <= i < |Subtags(value)| ==> Settled(u, i == 0, Subtags(value)[i])
  {
    var parts := Subtags(value);
    var once := CasedParts(u, parts);
    var twice := CasedParts(u, once);
    StoredSubtags(u, value);
    StoredSubtags(u, NormalizedIn(u, value));
    JoinInjective(once, twice);
    forall i | 0 <= i < |parts| ensures twice[i] == once[i] <==> Settled(u, i == 0, parts[i]) {
      assert once[i] == Cased(u, i == 0, parts[i]);
    }
  }

  /** The tags left alone: the empty one, and those made of cased subtags. */
  ghost predicate Canonical(u: Casing, tag: string) {
    var parts := Text.Split(tag, '-');
    AllSubtags(parts) && CasedParts(u, parts) == parts
  }

  lemma {:induction false} FixedExactly(u: Casing, tag: string)
    requires Lawful(u)
    ensures NormalizedIn(u, tag) == tag <==> tag == "" || Canonical(u, tag)
  {
    Text.JoinOfSplit(tag, '-');
    if Canonical(u, tag) {
      SubtagsOfJoin(Text.Split(tag, '-'));
    }
    if tag != "" && NormalizedIn(u, tag) == tag {
      StoredSubtags(u, tag);
      Text.SplitOfJoin(CasedParts(u, Subtags(tag)), '-');
    }
    if tag == "" {
      assert Dashed(tag) == "";
    }
  }

  // ----- when subtags settle

  predicate KeepsWidth(u: Casing, c: char) {
    u.width(u.lower(c)) == u.width(c) == u.width(u.upper(c))
  }

  ghost predicate WidthsKept(u: Casing, s: string) {
    forall c :: c in s ==> KeepsWidth(u, c)
  }

  lemma {:induction false} MappedBytes(u: Casing, f: char -> char, s: string)
    requires forall c :: c in s ==> u.width(f(c)) == u.width(c)
    ensures Bytes(u, Orders.Map(f, s)) == Bytes(u, s)
  {
    if s == "" {
    } else {
      MappedBytes(u, f, s[1..]);
      assert Orders.Map(f, s)[1..] == Orders.Map(f, s[1..]);
    }
  }

  lemma {:induction false} LoweredSettles(u: Casing, s: string)
    requires Lawful(u) && WidthsKept(u, s)
    ensures KindOf(u, Orders.Map(u.lower, s)) == KindOf(u, s)
  {
    var r := Orders.Map(u.lower, s);
    MappedBytes(u, u.lower, s);
    assert forall i :: 0 <= i < |s| ==> u.letter(r[i]) == u.letter(s[i]);
    assert AllLetters(u, r) == AllLetters(u, s);
  }

  lemma {:induction false} UpperedSettles(u: Casing, s: string)
    requires Lawful(u) && WidthsKept(u, s) && KindOf(u, s) == Region
    ensures KindOf(u, Orders.Map(u.upper, s)) == Region
  {
    var r := Orders.Map(u.upper, s);
    MappedBytes(u, u.upper, s);
    assert forall i :: 0 <= i < |s| ==> u.letter(r[i]);
  }

  lemma {:induction false} TitledSettles(u: Casing, s: string)
    requires Lawful(u) && WidthsKept(u, s) && KindOf(u, s) == Script && u.width(s[0]) == 1
    ensures KindOf(u, Titled(u, s)) == Script && Titled(u, Titled(u, s)) == Titled(u, s)
  {
    var r, tail := Titled(u, s), Orders.Map(u.lower, s[1..]);
    assert KeepsWidth(u, s[0]);
    assert forall c :: c in s[1..] ==> c in s;
    MappedBytes(u, u.lower, s[1..]);
    assert r[0] == u.upper(s[0]) && r[1..] == tail;
    forall i | 0 <= i < |r| ensures u.letter(r[i]) {
      assert i > 0 ==> r[i] == u.lower(s[i]);
    }
    MapTwice(u.lower, s[1..]);
  }

  lemma {:induction false} TornSettles(u: Casing, s: string)
    requires Lawful(u) && s != "" && u.width(s[0]) > 1
    ensures KindOf(u, Titled(u, s)) == Other && Orders.Map(u.lower, Titled(u, s)) == Titled(u, s)
  {
    var r := Titled(u, s);
    assert r[0] == REPLACEMENT;
    forall i | 0 <= i < |r| ensures u.lower(r[i]) == r[i] {
      if i >= u.width(s[0]) {
        assert r[i] == u.lower(s[1..][i - u.width(s[0])]);
      }
    }
  }

  /** A script that starts with a character of several bytes. */
  predicate Torn(u: Casing, s: string) {
    s != "" && KindOf(u, s) == Script && u.width(s[0]) > 1
  }

  /** Nothing is left to change when `r` is written as `kind`. */
  predicate CaseFree(u: Casing, kind: Kind, r: string) {
    match kind
    case Region => forall i :: 0 <= i < |r| ==> u.upper(r[i]) == r[i]
    case Other => forall i :: 0 <= i < |r| ==> u.lower(r[i]) == r[i]
    case Script =>
      r != "" ==>
        && u.width(r[0]) == 1 && u.upper(r[0]) == r[0]
        && forall i :: 0 < i < |r| ==> u.lower(r[i]) == r[i]
  }

  lemma {:induction false} CaseFreeExactly(u: Casing, kind: Kind, r: string)
    requires Lawful(u)
    ensures CasedAs(u, kind, r) == r <==> CaseFree(u, kind, r)
  {
    var c := CasedAs(u, kind, r);
    match kind
    case Region =>
      assert c == r ==> forall i :: 0 <= i < |r| ==> c[i] == r[i];
    case Other =>
      assert c == r ==> forall i :: 0 <= i < |r| ==> c[i] == r[i];
    case Script =>
      if r != "" {
        TitledFreeExactly(u, r);
      }
  }

  lemma {:induction false} TitledFreeExactly(u: Casing, r: string)
    requires Lawful(u) && r != ""
    ensures Titled(u, r) == r <==> CaseFree(u, Script, r)
  {
    var c := Titled(u, r);
    if u.width(r[0]) == 1 {
      assert c[0] == u.upper(r[0]) && |c| == |r|;
      forall i | 0 < i < |r| ensures c[i] == u.lower(r[i]) {
        assert r[1..][i - 1] == r[i];
      }
    } else {
      assert |c| > |r|;
    }
  }

  /**
    Casing settles a subtag at once in exactly three cases: it is torn apart, it keeps its kind (and as
    a script a one-byte head), or it changes its kind but has nothing left to change as the new one.
   */
  predicate Steady(u: Casing, s: string) {
    var r := Cased(u, false, s);
    || Torn(u, s)
    || (KindOf(u, r) == KindOf(u, s) && (s != "" && KindOf(u, s) == Script ==> u.width(u.upper(s[0])) == 1))
    || CaseFree(u, KindOf(u, r), r)
  }

  lemma {:induction false} SteadyExactly(u: Casing, s: string)
    requires Lawful(u) && s != ""
    ensures Settled(u, false, s) <==> Steady(u, s)
    ensures Settled(u, true, s)
  {
    var r := Cased(u, false, s);
    CaseFreeExactly(u, KindOf(u, r), r);
    MapTwice(u.lower, s);
    MapTwice(u.upper, s);
    if Torn(u, s) {
      TornSettles(u, s);
    } else if KindOf(u, r) == KindOf(u, s) == Script && u.width(u.upper(s[0])) == 1 {
      TitledAgain(u, s);
    }
  }

  lemma {:induction false} TitledAgain(u: Casing, s: string)
    requires Lawful(u) && s != "" && u.width(s[0]) == 1 && u.width(u.upper(s[0])) == 1
    ensures Titled(u, Titled(u, s)) == Titled(u, s)
  {
    var r := Titled(u, s);
    assert r[0] == u.upper(s[0]) && r[1..] == Orders.Map(u.lower, s[1..]);
    MapTwice(u.lower, s[1..]);
  }

  /**
    When lowering fails to settle: letters that shrink or grow to the length of a region or a script and
    still have capitals to take.
   */
  lemma {:induction false} LoweredFails(u: Casing, s: string)
    requires Lawful(u) && s != "" && KindOf(u, s) == Other
    ensures var r := Orders.Map(u.lower, s);
            !Steady(u, s) <==>
            && AllLetters(u, s)
            && ((Bytes(u, r) == 2 && exists i :: 0 <= i < |r| && u.upper(r[i]) != r[i]) ||
                (Bytes(u, r) == 4 && (u.width(r[0]) != 1 || u.upper(r[0]) != r[0])))
  {
    var r := Orders.Map(u.lower, s);
    assert forall i :: 0 <= i < |s| ==> r[i] == u.lower(s[i]) && u.letter(r[i]) == u.letter(s[i]);
    assert AllLetters(u, r) <==> AllLetters(u, s);
  }

  /** Tags that are stored for good: refused ones, and those whose subtags after the first are steady. */
  ghost predicate Stable(u: Casing, value: string) {
    Accepted(value) ==> forall i :: 0 < i < |Subtags(value)| ==> Steady(u, Subtags(value)[i])
  }

  /** Normalizing a tag twice equals normalizing it once exactly when it is stable. */
  lemma {:induction false} TwiceExactly(u: Casing, value: string)
    requires Lawful(u)
    ensures NormalizedIn(u, NormalizedIn(u, value)) == NormalizedIn(u, value) <==> Stable(u, value)
  {
    if Accepted(value) {
      var parts := Subtags(value);
      TwiceBySubtags(u, value);
      forall i | 0 <= i < |parts| ensures Settled(u, i == 0, parts[i]) <==> i == 0 || Steady(u, parts[i]) {
        assert parts[i] in parts;
        SteadyExactly(u, parts[i]);
      }
    } else {
      assert Dashed("") == "";
    }
  }

  /** A subtag is steady if case changes none of its characters' lengths. */
  lemma {:induction false} SteadyWhenWidthsKept(u: Casing, s: string)
    requires Lawful(u) && s != "" && WidthsKept(u, s)
    ensures Steady(u, s)
  {
    match KindOf(u, s)
    case Region =>
      UpperedSettles(u, s);
    case Script =>
      if u.width(s[0]) == 1 {
        TitledSettles(u, s);
        assert KeepsWidth(u, s[0]);
      }
    case Other =>
      LoweredSettles(u, s);
  }

  /** Normalizing is idempotent on every tag whose characters keep their lengths when their case changes. */
  lemma {:induction false} NormalizedInTwice(u: Casing, value: string)
    requires Lawful(u)
    requires forall i :: 0 < i < |Subtags(value)| ==> WidthsKept(u, Subtags(value)[i])
    ensures NormalizedIn(u, NormalizedIn(u, value)) == NormalizedIn(u, value)
  {
    var parts := Subtags(value);
    forall i | Accepted(value) && 0 < i < |parts| ensures Steady(u, parts[i]) {
      assert parts[i] in parts;
      SteadyWhenWidthsKept(u, parts[i]);
    }
    TwiceExactly(u, value);
  }

  // ----- a letter that gets shorter

  const DOTTED := '\U{130}'

  /** Tables in which the two-byte dotted capital I lowers to the one-byte i, as in Unicode. */
  ghost predicate Dotted(u: Casing) {
    && Lawful(u) && u.width(DOTTED) == 2 && u.letter(DOTTED) && u.lower(DOTTED) == 'i'
    && u.width('i') == 1 && u.upper('i') == 'I'
    && u.width('a') == 1 && u.letter('a') && u.lower('a') == 'a' && u.upper('a') == 'A'
    && u.lower('e') == 'e' && u.lower('n') == 'n'
  }

  /** ASCII with the dotted capital I added. */
  const ASCII_DOTTED := Casing(DottedLower, Text.UpperChar, DottedLetter, DottedWidth)

  function DottedLower(c: char): char { if c == DOTTED then 'i' else Text.LowerChar(c) }
  predicate DottedLetter(c: char) { c == DOTTED || Letter(c) }
  function DottedWidth(c: char): nat { if c < '\U{80}' then 1 else if c < '\U{800}' then 2 else 3 }

  lemma {:induction false} DottedCase(c: char)
    ensures if Mark(c) then DottedLower(c) == c else !Mark(DottedLower(c))
    ensures DottedLetter(DottedLower(c)) == DottedLetter(c) && (DottedLetter(c) ==> DottedLetter(Text.UpperChar(c)))
    ensures DottedLower(DottedLower(c)) == DottedLower(c)
  {
    AsciiMarks(c);
    AsciiCase(c);
  }

  /** There are such tables. */
  lemma {:induction false} DottedTables()
    ensures Dotted(ASCII_DOTTED)
  {
    var u := ASCII_DOTTED;
    forall c: char
      ensures if Mark(c) then DottedLower(c) == c else !Mark(DottedLower(c))
      ensures u.letter(u.lower(c)) == u.letter(c) && (u.letter(c) ==> u.letter(u.upper(c)))
      ensures u.lower(u.lower(c)) == u.lower(c)
    {
      DottedCase(c);
    }
    AsciiLawful();
  }

  lemma {:induction false} DottedKinds(u: Casing)
    requires Dotted(u)
    ensures KindOf(u, [DOTTED, 'a']) == Other && KindOf(u, "ia") == Region
  {
    var s, t := [DOTTED, 'a'], "ia";
    assert s[1..] == "a" && "a"[1..] == "" && t[1..] == "a";
    assert Bytes(u, "") == 0;
    assert Bytes(u, "a") == 1;
    assert Bytes(u, s) == 3;
    assert Bytes(u, t) == 2;
    assert u.letter('i') by {
      assert u.letter(u.lower(DOTTED));
    }
    assert AllLetters(u, t);
  }

  lemma {:induction false} JoinTwo(first: string, second: string)
    ensures Text.Join([first, second], '-') == first + "-" + second
  {
    assert [first, second][1..] == [second];
  }

  lemma {:induction false} TwoParts(u: Casing, first: string, second: string)
    requires Lawful(u) && Subtag(first) && Subtag(second)
    ensures NormalizedIn(u, first + "-" + second) == Cased(u, true, first) + "-" + Cased(u, false, second)
  {
    var parts := [first, second];
    JoinTwo(first, second);
    SubtagsOfJoin(parts);
    assert CasedParts(u, parts) == [Cased(u, true, first), Cased(u, false, second)];
    JoinTwo(Cased(u, true, first), Cased(u, false, second));
  }

  /** Lowered from three bytes to two, a subtag becomes a region and is written in capitals the next time. */
  lemma {:induction false} DottedTwice(u: Casing)
    requires Dotted(u)
    ensures NormalizedIn(u, "en-\U{130}a") == "en-ia"
    ensures NormalizedIn(u, "en-ia") == "en-IA"
  {
    DottedKinds(u);
    var s := [DOTTED, 'a'];
    assert "en-\U{130}a" == "en" + "-" + s && "en-ia" == "en" + "-" + "ia" && "en-IA" == "en" + "-" + "IA";
    assert Orders.Map(u.lower, s) == "ia" && Orders.Map(u.upper, "ia") == "IA" && Orders.Map(u.lower, "en") == "en";
    TwoParts(u, "en", s);
    TwoParts(u, "en", "ia");
  }

  // ----- tags alike

  /** One byte in either case, and case changes undo each other. */
  predicate Simple(u: Casing, c: char) {
    && u.width(c) == 1 && u.width(u.lower(c)) == 1 && u.width(u.upper(c)) == 1
    && u.lower(u.upper(c)) == u.lower(c) && u.upper(u.lower(c)) == u.upper(c)
  }

  ghost predicate SimplePart(u: Casing, s: string) {
    forall i :: 0 <= i < |s| ==> Simple(u, s[i])
  }

  /** What a tag says: its subtags without case. */
  function Folded(u: Casing, value: string): seq<string> {
    Orders.Map((s: string) => Orders.Map(u.lower, s), Subtags(value))
  }

  lemma {:induction false} LowerOfCased(u: Casing, first: bool, s: string)
    requires Lawful(u) && SimplePart(u, s)
    ensures Orders.Map(u.lower, Cased(u, first, s)) == Orders.Map(u.lower, s)
  {
    var r := Cased(u, first, s);
    assert |r| == |s|;
    forall i | 0 <= i < |s| ensures u.lower(r[i]) == u.lower(s[i]) {
      assert Simple(u, s[i]);
      assert r[i] == u.lower(s[i]) || r[i] == u.upper(s[i]) by {
        if s != "" && KindOf(u, s) == Script && !first && i > 0 {
          assert r[i] == u.lower(s[1..][i - 1]);
        }
      }
    }
  }

  lemma {:induction false} CasedOfLower(u: Casing, first: bool, s: string)
    requires Lawful(u) && SimplePart(u, s)
    ensures Cased(u, first, Orders.Map(u.lower, s)) == Cased(u, first, s)
  {
    var low := Orders.Map(u.lower, s);
    assert WidthsKept(u, s) by {
      forall c | c in s ensures KeepsWidth(u, c) {
        var i :| 0 <= i < |s| && s[i] == c;
        assert Simple(u, s[i]);
      }
    }
    LoweredSettles(u, s);
    MapTwice(u.lower, s);
    assert Orders.Map(u.upper, low) == Orders.Map(u.upper, s) by {
      assert forall i :: 0 <= i < |s| ==> Simple(u, s[i]);
    }
    if s != "" {
      assert Simple(u, s[0]);
      assert Orders.Map(u.lower, low[1..]) == Orders.Map(u.lower, s[1..]);
    }
  }

  /** Two accepted simple tags are stored alike exactly when they differ in case, separators and spacing only. */
  lemma {:induction false} StoredAlike(u: Casing, v: string, w: string)
    requires Lawful(u) && Accepted(v) && Accepted(w)
    requires forall i :: 0 <= i < |Subtags(v)| ==> SimplePart(u, Subtags(v)[i])
    requires forall i :: 0 <= i < |Subtags(w)| ==> SimplePart(u, Subtags(w)[i])
    ensures NormalizedIn(u, v) == NormalizedIn(u, w) <==> Folded(u, v) == Folded(u, w)
  {
    var p, q := Subtags(v), Subtags(w);
    StoredSubtags(u, v);
    StoredSubtags(u, w);
    JoinInjective(CasedParts(u, p), CasedParts(u, q));
    if CasedParts(u, p) == CasedParts(u, q) {
      forall i | 0 <= i < |p| ensures |p| == |q| && Folded(u, v)[i] == Folded(u, w)[i] {
        assert CasedParts(u, p)[i] == CasedParts(u, q)[i];
        LowerOfCased(u, i == 0, p[i]);
        LowerOfCased(u, i == 0, q[i]);
      }
      assert |p| == |q|;
      assert Folded(u, v) == Folded(u, w);
    }
    if Folded(u, v) == Folded(u, w) {
      assert |p| == |Folded(u, v)| == |Folded(u, w)| == |q|;
      forall i | 0 <= i < |p| ensures CasedParts(u, p)[i] == CasedParts(u, q)[i] {
        assert Folded(u, v)[i] == Folded(u, w)[i];
        CasedOfLower(u, i == 0, p[i]);
        CasedOfLower(u, i == 0, q[i]);
      }
    }
  }

  // ----- ASCII

  predicate Letter(c: char) {
    'a' <= c <= 'z' || 'A' <= c <= 'Z'
  }

  function OneByte(c: char): nat { 1 }

  /** ASCII letters; every character counts as one byte. */
  const ASCII := Casing(Text.LowerChar, Text.UpperChar, Letter, OneByte)

  lemma {:induction false} AsciiCase(c: char)
    ensures Text.LowerChar(Text.LowerChar(c)) == Text.LowerChar(c)
    ensures Text.UpperChar(Text.UpperChar(c)) == Text.UpperChar(c)
    ensures !Letter(c) ==> Text.LowerChar(c) == c == Text.UpperChar(c)
    ensures Letter(c) ==> Letter(Text.LowerChar(c)) && Letter(Text.UpperChar(c))
    ensures Letter(c) ==> !Mark(c)
  {}

  lemma {:induction false} AsciiMarks(c: char)
    ensures if Mark(c) then Text.LowerChar(c) == c == Text.UpperChar(c)
            else !Mark(Text.LowerChar(c)) && !Mark(Text.UpperChar(c))
    ensures Letter(Text.LowerChar(c)) == Letter(c) && (Letter(c) ==> Letter(Text.UpperChar(c)))
  {
    AsciiCase(c);
    AsciiCase(Text.LowerChar(c));
    AsciiCase(Text.UpperChar(c));
  }

  lemma {:induction false} AsciiLawful()
    ensures Lawful(ASCII)
  {
    forall c: char
      ensures if Mark(c) then Text.LowerChar(c) == c else !Mark(Text.LowerChar(c))
      ensures if Mark(c) then Text.UpperChar(c) == c else !Mark(Text.UpperChar(c))
      ensures ASCII.letter(ASCII.lower(c)) == ASCII.letter(c) && (ASCII.letter(c) ==> ASCII.letter(ASCII.upper(c)))
      ensures ASCII.lower(ASCII.lower(c)) == ASCII.lower(c) && ASCII.upper(ASCII.upper(c)) == ASCII.upper(c)
    {
      AsciiMarks(c);
      AsciiCase(c);
    }
  }

  function Normalized(value: string): string {
    NormalizedIn(ASCII, value)
  }

  function Small(c: int): int { if 65 <= c <= 90 then c + 32 else c }
  function Capital(c: int): int { if 97 <= c <= 122 then c - 32 else c }

  predicate OnlyLetters(s: string) {
    forall i :: 0 <= i < |s| ==> 65 <= s[i] as int <= 90 || 97 <= s[i] as int <= 122
  }

  lemma {:induction false} CountsCharacters(s: string)
    ensures Bytes(ASCII, s) == |s|
  {
    if s == "" {
    } else {
      CountsCharacters(s[1..]);
    }
  }

  lemma {:induction false} AsciiSubtag(first: bool, s: string, k: nat)
    requires k < |s|
    ensures var r := Cased(ASCII, first, s);
            && |r| == |s|
            && r[k] as int == if !first && OnlyLetters(s) && (|s| == 2 || (|s| == 4 && k == 0))
                              then Capital(s[k] as int) else Small(s[k] as int)
  {
    CountsCharacters(s);
    assert OnlyLetters(s) <==> forall i :: 0 <= i < |s| ==> Letter(s[i]);
    if k > 0 {
      assert s[1..][k - 1] == s[k];
    }
  }

  /** ASCII casing by code point: small letters, but a region in capitals and a script headed by one. */
  lemma {:induction false} AsciiCased(value: string, i: nat, k: nat)
    requires Accepted(value) && i < |Subtags(value)| && k < |Subtags(value)[i]|
    ensures var s, out := Subtags(value)[i], Subtags(Normalized(value));
            && |out| == |Subtags(value)| && |out[i]| == |s|
            && out[i][k] as int == if i > 0 && OnlyLetters(s) && (|s| == 2 || (|s| == 4 && k == 0))
                                   then Capital(s[k] as int) else Small(s[k] as int)
  {
    AsciiLawful();
    StoredSubtags(ASCII, value);
    AsciiSubtag(i == 0, Subtags(value)[i], k);
  }

  /** On ASCII tags normalizing is idempotent. */
  lemma {:induction false} NormalizedTwice(value: string)
    ensures Normalized(Normalized(value)) == Normalized(value)
  {
    AsciiLawful();
    NormalizedInTwice(ASCII, value);
  }
}
