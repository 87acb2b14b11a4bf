/** The parts of Go's strings package the models rely on. */
module Text {

  /** Unicode White_Space, the set strings.TrimSpace removes. */
  predicate IsSpace(c: char) {
    || '\t' <= c <= '\r' || c == ' ' || c == '\U{85}' || c == '\U{A0}' || c == '\U{1680}'
    || '\U{2000}' <= c <= '\U{200A}' || c == '\U{2028}' || c == '\U{2029}' || c == '\U{202F}'
    || c == '\U{205F}' || c == '\U{3000}'
  }

  /** The same set by code point. */
  lemma {:induction false} SpaceExactly(c: char)
    ensures IsSpace(c) <==>
            || 9 <= c as int <= 13 || c as int in {0x20, 0x85, 0xA0, 0x1680, 0x2028, 0x2029, 0x202F, 0x205F, 0x3000}
            || 0x2000 <= c as int < 0x200B
  {}

  function TrimLeft(s: string): string {
    if s != [] && IsSpace(s[0]) then TrimLeft(s[1..]) else s
  }

  function TrimRight(s: string): string {
    if s != [] && IsSpace(s[|s| - 1]) then TrimRight(s[..|s| - 1]) else s
  }

  /** strings.TrimSpace */
  function Trim(s: string): string {
    TrimRight(TrimLeft(s))
  }

  lemma {:induction false} TrimLeftIsSuffix(s: string)
    ensures var r := TrimLeft(s);
            && (r != [] ==> !IsSpace(r[0]))
            && |r| <= |s| && r == s[|s| - |r|..]
            && (forall i :: 0 <= i < |s| - |r| ==> IsSpace(s[i]))
  {
    if s == [] || !IsSpace(s[0]) {
    } else {
      TrimLeftIsSuffix(s[1..]);
      assert forall i :: 0 < i < |s| ==> s[i] == s[1..][i - 1];
    }
  }

  lemma {:induction false} TrimRightIsPrefix(s: string)
    ensures var r := TrimRight(s);
            && (r != [] ==> !IsSpace(r[|r| - 1]))
            && |r| <= |s| && r == s[..|r|]
            && (forall i :: |r| <= i < |s| ==> IsSpace(s[i]))
  {
    if s == [] || !IsSpace(s[|s| - 1]) {
    } else {
      TrimRightIsPrefix(s[..|s| - 1]);
    }
  }

  predicate Blank(s: string) {
    forall i :: 0 <= i < |s| ==> IsSpace(s[i])
  }

  /** The test strings.TrimSpace(s) == "" asks whether everything is white space. */
  lemma {:induction false} BlankTrims(s: string)
    ensures Trim(s) == "" <==> Blank(s)
  {
    var l := TrimLeft(s);
    TrimLeftIsSuffix(s);
    TrimRightIsPrefix(l);
    assert l != [] ==> s[|s| - |l|] == l[0];
  }

  predicate Trimmed(s: string) {
    s == [] || (!IsSpace(s[0]) && !IsSpace(s[|s| - 1]))
  }

  lemma {:induction false} TrimOfTrimmed(s: string)
    ensures Trimmed(Trim(s))
    ensures Trimmed(s) ==> Trim(s) == s
    ensures Trim(Trim(s)) == Trim(s)
  {
    var l := TrimLeft(s);
    TrimLeftIsSuffix(s);
    TrimRightIsPrefix(l);
    var r := TrimRight(l);
    assert r != [] ==> r[0] == l[0];
    assert TrimLeft(r) == r;
  }

  // ----- separators

  /** strings.Split on a one-character separator. */
  function Split(s: string, sep: char): (parts: seq<string>)
    ensures parts != []
  {
    if s == "" then [""]
    else
      var rest := Split(s[1..], sep);
      if s[0] == sep then [""] + rest else [[s[0]] + rest[0]] + rest[1..]
  }

  /** strings.Join on a one-character separator. */
  function Join(parts: seq<string>, sep: char): string
    requires parts != []
  {
    if |parts| == 1 then parts[0] else parts[0] + [sep] + Join(parts[1..], sep)
  }

  lemma {:induction false} PartsLackSeparator(s: string, sep: char)
    ensures forall k :: 0 <= k < |Split(s, sep)| ==> sep !in Split(s, sep)[k]
  {
    if s == "" {
    } else {
      PartsLackSeparator(s[1..], sep);
    }
  }

  lemma {:induction false} JoinOfSplit(s: string, sep: char)
    ensures Join(Split(s, sep), sep) == s
  {
    if s == "" {
    } else {
      JoinOfSplit(s[1..], sep);
      var rest := Split(s[1..], sep);
      var parts := Split(s, sep);
      if s[0] == sep {
        assert parts[1..] == rest;
      } else if |rest| > 1 {
        assert parts[1..] == rest[1..];
      }
      assert s == [s[0]] + s[1..];
    }
  }

  /** Cutting at the first separator splits off one part. */
  lemma {:induction false} SplitFirst(first: string, tail: string, sep: char)
    requires sep !in first
    ensures Split(first + [sep] + tail, sep) == [first] + Split(tail, sep)
  {
    var s := first + [sep] + tail;
    if first == "" {
      assert s[1..] == tail;
    } else {
      assert s[1..] == first[1..] + [sep] + tail;
      SplitFirst(first[1..], tail, sep);
      assert [first[0]] + first[1..] == first;
    }
  }

  lemma {:induction false} SplitOfPart(part: string, sep: char)
    requires sep !in part
    ensures Split(part, sep) == [part]
  {
    if part == "" {
    } else {
      SplitOfPart(part[1..], sep);
      assert [part[0]] + part[1..] == part;
    }
  }

  lemma {:induction false} SplitOfJoin(parts: seq<string>, sep: char)
    requires parts != [] && forall k :: 0 <= k < |parts| ==> sep !in parts[k]
    ensures Split(Join(parts, sep), sep) == parts
  {
    if |parts| == 1 {
      SplitOfPart(parts[0], sep);
    } else {
      SplitOfJoin(parts[1..], sep);
      SplitFirst(parts[0], Join(parts[1..], sep), sep);
    }
  }

  /** A stretch of the string between neighbouring separators or its ends. */
  predicate Part(s: string, sep: char, i: nat, j: nat) {
    && i <= j <= |s| && sep !in s[i..j]
    && (i == 0 || s[i - 1] == sep) && (j == |s| || s[j] == sep)
  }

  lemma {:induction false} PartOfSplit(s: string, sep: char, i: nat, j: nat)
    requires Part(s, sep, i, j)
    ensures i == 0 ==> s[i..j] == Split(s, sep)[0]
    ensures i > 0 ==> s[i..j] in Split(s, sep)[1..]
  {
    if s == "" {
    } else if i > 0 {
      assert s[1..][i - 1..j - 1] == s[i..j];
      PartOfSplit(s[1..], sep, i - 1, j - 1);
    } else if j == 0 {
      assert s[0] == sep;
    } else {
      assert s[..j][0] == s[0];
      assert s[1..][..j - 1] == s[1..j];
      PartOfSplit(s[1..], sep, 0, j - 1);
      assert s[..j] == [s[0]] + s[1..j];
    }
  }

  lemma {:induction false} SplitIsPart(s: string, sep: char, k: nat) returns (i: nat, j: nat)
    requires k < |Split(s, sep)|
    ensures Part(s, sep, i, j) && s[i..j] == Split(s, sep)[k]
    ensures i == 0 <==> k == 0
  {
    if s == "" || (s[0] == sep && k == 0) {
      i, j := 0, 0;
    } else {
      i, j := SplitIsPart(s[1..], sep, if s[0] == sep then k - 1 else k);
      assert s[1..][i..j] == s[i + 1..j + 1];
      if s[0] != sep && k == 0 {
        assert s[..j + 1] == [s[0]] + s[1..j + 1];
        j := j + 1;
      } else {
        i, j := i + 1, j + 1;
      }
    }
  }

  /** Two separators in a row enclose an empty part. */
  lemma {:induction false} DoubledSeparator(s: string, sep: char, i: nat) returns (k: nat)
    requires i + 1 < |s| && s[i] == s[i + 1] == sep
    ensures 0 < k < |Split(s, sep)| && Split(s, sep)[k] == ""
  {
    var rest := Split(s[1..], sep);
    if i == 0 {
      k := 1;
    } else {
      k := DoubledSeparator(s[1..], sep, i - 1);
      if s[0] == sep {
        k := k + 1;
      }
    }
  }

  // ----- ASCII case

  function LowerChar(c: char): char {
    if 'A' <= c <= 'Z' then c + 32 as char else c
  }

  function UpperChar(c: char): char {
    if 'a' <= c <= 'z' then c - 32 as char else c
  }

  function Lower(s: string): (r: string)
    ensures |r| == |s|
  {
    seq(|s|, i requires 0 <= i < |s| => LowerChar(s[i]))
  }
}
