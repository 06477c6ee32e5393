/** Character classes and string helpers the event projection relies on. */
module Text {
  /** The Unicode `White_Space` characters. */
  predicate IsSpace(c: char) {
    || '\t' <= c <= '\r' || c == ' ' || c == '\U{85}' || c == '\U{A0}' || c == '\U{1680}'
    || '\U{2000}' <= c <= '\U{200A}' || c == '\U{2028}' || c == '\U{2029}' || c == '\U{202F}'
    || c == '\U{205F}' || c == '\U{3000}'
  }

  /** The Unicode control characters. */
  predicate IsControl(c: char) {
    c <= '\U{1F}' || '\U{7F}' <= c <= '\U{9F}'
  }

  /** These 25 characters and no others. */
  lemma SpacesAre(c: char)
    ensures IsSpace(c) <==>
              c in {'\t', '\n', '\U{0B}', '\U{0C}', '\r', ' ', '\U{85}', '\U{A0}', '\U{1680}', '\U{2000}', '\U{2001}',
                    '\U{2002}', '\U{2003}', '\U{2004}', '\U{2005}', '\U{2006}', '\U{2007}', '\U{2008}', '\U{2009}',
                    '\U{200A}', '\U{2028}', '\U{2029}', '\U{202F}', '\U{205F}', '\U{3000}'}
  {
  }

  function TrimStart(s: string): string {
    if s != "" && IsSpace(s[0]) then TrimStart(s[1..]) else s
  }

  function TrimEnd(s: string): string {
    if s != "" && IsSpace(s[|s| - 1]) then TrimEnd(s[..|s| - 1]) else s
  }

  function Trim(s: string): string { TrimEnd(TrimStart(s)) }

  ghost predicate Trimmed(s: string) {
    s == "" || (!IsSpace(s[0]) && !IsSpace(s[|s| - 1]))
  }

  lemma {:induction false} TrimStartEnds(s: string)
    ensures TrimStart(s) == "" || !IsSpace(TrimStart(s)[0])
  {
    if s != "" && IsSpace(s[0]) { TrimStartEnds(s[1..]); }
  }

  lemma {:induction false} TrimEndEnds(s: string)
    ensures TrimEnd(s) == "" || !IsSpace(TrimEnd(s)[|TrimEnd(s)| - 1])
    ensures TrimEnd(s) <= s
  {
    if s != "" && IsSpace(s[|s| - 1]) { TrimEndEnds(s[..|s| - 1]); }
  }

  /** Trimming leaves no outer white space, and text without any is left alone. */
  lemma TrimIsTrimmed(s: string)
    ensures Trimmed(Trim(s)) && (Trimmed(s) ==> Trim(s) == s)
  {
    TrimStartEnds(s);
    TrimEndEnds(TrimStart(s));
  }

  /** White space, and nothing else, stands around `s[i..j]`, which has none at its ends. */
  ghost predicate TrimsTo(s: string, i: nat, j: nat) {
    && i <= j <= |s| && (forall k :: 0 <= k < i ==> IsSpace(s[k])) && (forall k :: j <= k < |s| ==> IsSpace(s[k]))
    && (i < j ==> !IsSpace(s[i]) && !IsSpace(s[j - 1]))
  }

  lemma {:induction false} TrimStartDrops(s: string) returns (i: nat)
    ensures i <= |s| && TrimStart(s) == s[i..] && forall k :: 0 <= k < i ==> IsSpace(s[k])
  {
    i := 0;
    if s != "" && IsSpace(s[0]) {
      var t := s[1..];
      var k := TrimStartDrops(t);
      i := k + 1;
      assert forall m :: 0 < m < i ==> s[m] == t[m - 1];
    }
  }

  lemma {:induction false} TrimEndDrops(s: string) returns (j: nat)
    ensures j <= |s| && TrimEnd(s) == s[..j] && forall k :: j <= k < |s| ==> IsSpace(s[k])
  {
    j := |s|;
    if s != "" && IsSpace(s[|s| - 1]) {
      var t := s[..|s| - 1];
      j := TrimEndDrops(t);
      assert forall m :: 0 <= m < |t| ==> s[m] == t[m];
    }
  }

  lemma TrimFound(s: string) returns (i: nat, j: nat)
    ensures TrimsTo(s, i, j) && Trim(s) == s[i..j]
  {
    i := TrimStartDrops(s);
    var t := s[i..];
    var k := TrimEndDrops(t);
    j := i + k;
    assert forall m :: j <= m < |s| ==> s[m] == t[m - i];
    TrimIsTrimmed(s);
  }

  ghost predicate IsTrim(s: string, t: string) {
    exists i: nat, j: nat :: TrimsTo(s, i, j) && t == s[i..j]
  }

  /** Trimming drops the white space around the text, all of it and nothing else. */
  lemma TrimIff(s: string, t: string)
    ensures t == Trim(s) <==> IsTrim(s, t)
  {
    var k, m := TrimFound(s);
    if i: nat, j: nat :| TrimsTo(s, i, j) && t == s[i..j] {
      assert i < j ==> k <= i < m && j <= m;
      assert k < m ==> i <= k < j && m <= j;
    }
  }

  /** Some character is not white space. */
  ghost predicate HasInk(s: string) { exists i :: 0 <= i < |s| && !IsSpace(s[i]) }

  lemma TrimIsEmptyIffBlank(s: string)
    ensures Trim(s) != "" <==> HasInk(s)
  {
    var i, j := TrimFound(s);
  }

  predicate StartsWith(s: string, prefix: string) { prefix <= s }

  predicate EndsWith(s: string, suffix: string) {
    |suffix| <= |s| && s[|s| - |suffix|..] == suffix
  }

  predicate Contains(s: string, part: string) {
    part <= s || (s != "" && Contains(s[1..], part))
  }

  ghost predicate FoundAt(s: string, part: string, i: nat) { i + |part| <= |s| && s[i..i + |part|] == part }

  lemma {:induction false} ContainsIff(s: string, part: string)
    ensures Contains(s, part) <==> exists i: nat :: FoundAt(s, part, i)
  {
    if part <= s {
      assert FoundAt(s, part, 0);
    } else if s != "" {
      var t := s[1..];
      ContainsIff(t, part);
      if i: nat :| FoundAt(s, part, i) { FoundLater(s, part, i); }
      if i: nat :| FoundAt(t, part, i) {
        assert t[i..i + |part|] == s[i + 1..i + 1 + |part|];
        assert FoundAt(s, part, i + 1);
      }
    }
  }

  lemma FoundLater(s: string, part: string, i: nat)
    requires FoundAt(s, part, i) && !(part <= s)
    ensures i > 0 && FoundAt(s[1..], part, i - 1)
  {
    assert s[0..|part|] == s[..|part|];
    if i > 0 { assert s[1..][i - 1..i - 1 + |part|] == s[i..i + |part|]; }
  }

  /** A part brings its characters with it. */
  lemma {:induction false} PartOf(s: string, part: string, c: char)
    requires Contains(s, part) && c in part
    ensures c in s
  {
    if !(part <= s) { PartOf(s[1..], part, c); }
  }

  predicate IsAlphanumeric(c: char) {
    '0' <= c <= '9' || 'A' <= c <= 'Z' || 'a' <= c <= 'z'
  }

  /** The number of bytes of a string in UTF-8. */
  function Utf8Length(s: string): nat {
    if s == "" then 0
    else Utf8Length(s[..|s| - 1])
         + (var c := s[|s| - 1];
            if c < '\U{80}' then 1 else if c < '\U{800}' then 2 else if c < '\U{10000}' then 3 else 4)
  }

  /** How many characters are at or above `c`. */
  ghost function CountFrom(s: string, c: char): nat {
    if s == "" then 0 else (if s[0] >= c then 1 else 0) + CountFrom(s[1..], c)
  }

  lemma {:induction false} CountSnoc(s: string, c: char)
    requires s != ""
    ensures CountFrom(s, c) == CountFrom(s[..|s| - 1], c) + if s[|s| - 1] >= c then 1 else 0
  {
    if |s| > 1 {
      CountSnoc(s[1..], c);
      assert s[1..][..|s| - 2] == s[..|s| - 1][1..];
    }
  }

  /** One byte per character, and one more from each of U+0080, U+0800 and U+10000 on. */
  lemma {:induction false} Utf8Bytes(s: string)
    ensures Utf8Length(s) == |s| + CountFrom(s, '\U{80}') + CountFrom(s, '\U{800}') + CountFrom(s, '\U{10000}')
  {
    if s == "" {
    } else {
      Utf8Bytes(s[..|s| - 1]);
      CountSnoc(s, '\U{80}');
      CountSnoc(s, '\U{800}');
      CountSnoc(s, '\U{10000}');
    }
  }

  /** Identifiers of artifacts and servers. */
  predicate IsCardIdentifier(s: string) {
    && 0 < |s| <= 128
    && forall i :: 0 <= i < |s| ==> IsAlphanumeric(s[i]) || s[i] == '-' || s[i] == '_' || s[i] == '.'
  }

  predicate IsMapboxIdentifier(s: string) {
    Trim(s) != "" && forall i :: 0 <= i < |s| ==> !IsControl(s[i])
  }
}
