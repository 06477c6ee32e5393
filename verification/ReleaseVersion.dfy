/** Release tags and normalised versions, and the way from one to the other and back. */
module ReleaseVersion {
  import opened Basics
  import opened Text

  predicate IsDigit(c: char) { '0' <= c <= '9' }

  predicate IsNumber(s: string) { s != "" && forall i :: 0 <= i < |s| ==> IsDigit(s[i]) }

  predicate FollowsWell(s: string, i: nat)
    requires 0 < i < |s|
  {
    IsDigit(s[i]) || (s[i] == '.' && IsDigit(s[i - 1]))
  }

  /** Numbers joined by single dots. */
  predicate IsBase(s: string) {
    s != "" && IsDigit(s[0]) && IsDigit(s[|s| - 1]) && forall i :: 0 < i < |s| ==> FollowsWell(s, i)
  }

  /** The digits a string ends with. */
  function Digits(s: string): (d: string)
    ensures |d| <= |s|
  {
    if s != "" && IsDigit(s[|s| - 1]) then Digits(s[..|s| - 1]) + [s[|s| - 1]] else ""
  }

  /** The string without the digits it ends with. */
  function Head(s: string): string { s[..|s| - |Digits(s)|] }

  function Without(s: string, suffix: string): string
    requires EndsWith(s, suffix)
  {
    s[..|s| - |suffix|]
  }

  // ----- Normalised versions --------------------------------------------------

  datatype Kind = Alpha | Beta | Candidate

  datatype Version = Version(base: string, pre: Option<(Kind, string)>, post: Option<string>)

  function Mark(kind: Kind): string {
    match kind case Alpha => "a" case Beta => "b" case Candidate => "rc"
  }

  function Name(kind: Kind): string {
    match kind case Alpha => "alpha" case Beta => "beta" case Candidate => "rc"
  }

  function PreText(pre: Option<(Kind, string)>): string { if pre.Some? then Mark(pre.value.0) + pre.value.1 else "" }

  function PostText(post: Option<string>): string { if post.Some? then ".post" + post.value else "" }

  function Print(v: Version): string { v.base + PreText(v.pre) + PostText(v.post) }

  ghost predicate Valid(v: Version) {
    IsBase(v.base) && (v.pre.Some? ==> IsNumber(v.pre.value.1)) && (v.post.Some? ==> IsNumber(v.post.value))
  }

  function BaseVersion(base: string, pre: Option<(Kind, string)>, post: Option<string>): Option<Version> {
    if IsBase(base) then Some(Version(base, pre, post)) else None
  }

  function ParsePre(s: string, post: Option<string>): Option<Version> {
    var d, h := Digits(s), Head(s);
    if d == "" then None
    else if EndsWith(h, "rc") then BaseVersion(Without(h, "rc"), Some((Candidate, d)), post)
    else if EndsWith(h, "a") then BaseVersion(Without(h, "a"), Some((Alpha, d)), post)
    else if EndsWith(h, "b") then BaseVersion(Without(h, "b"), Some((Beta, d)), post)
    else BaseVersion(s, None, post)
  }

  /** The parts of a normalised version. */
  function Parse(s: string): Option<Version> {
    var d, h := Digits(s), Head(s);
    if d != "" && EndsWith(h, ".post") then ParsePre(Without(h, ".post"), Some(d)) else ParsePre(s, None)
  }

  // ----- Normalising ----------------------------------------------------------

  predicate IsPythonSpace(c: char) { IsSpace(c) || '\U{1C}' <= c <= '\U{1F}' }

  function Strip(s: string): string {
    if s != "" && IsPythonSpace(s[0]) then Strip(s[1..])
    else if s != "" && IsPythonSpace(s[|s| - 1]) then Strip(s[..|s| - 1])
    else s
  }

  function DropTag(s: string): string {
    if StartsWith(s, "rust-v") then s[6..] else if StartsWith(s, "v") then s[1..] else s
  }

  /** The text before a dash, a word and an optional dot at the end. */
  function BeforeWord(s: string, word: string): Option<string> {
    if EndsWith(s, "-" + word) then Some(Without(s, "-" + word))
    else if EndsWith(s, "-" + word + ".") then Some(Without(s, "-" + word + "."))
    else None
  }

  /** Rewrites a trailing `-word.N` to `markN`. */
  function Rewrite(s: string, word: string, mark: string): string {
    var d := Digits(s);
    var base := BeforeWord(Head(s), word);
    if d != "" && base.Some? then base.value + (mark + d) else s
  }

  /** Rewrites a trailing `-alpha.N.M` to `aN.postM`. */
  function RewriteHotfix(s: string): string {
    var d, h := Digits(s), Head(s);
    if d == "" || !EndsWith(h, ".") then s
    else
      var t := Without(h, ".");
      var base := BeforeWord(Head(t), "alpha");
      if Digits(t) != "" && base.Some? then base.value + ("a" + Digits(t)) + (".post" + d) else s
  }

  function Rewritten(s: string): string {
    Rewrite(Rewrite(Rewrite(RewriteHotfix(s), "alpha", "a"), "beta", "b"), "rc", "rc")
  }

  /** The normalised version, unless the text is not a version. */
  function Normalize(version: string): Option<string> {
    var s := Rewritten(DropTag(Strip(version)));
    if Parse(s).Some? then Some(s) else None
  }

  // ----- Releases -------------------------------------------------------------

  /** What stands before the number of a release. */
  function Stem(base: string, word: string): string { base + ("-" + word + ".") }

  function ReleaseText(v: Version): string {
    if v.pre.None? then Print(v)
    else if v.post.None? then Stem(v.base, Name(v.pre.value.0)) + v.pre.value.1
    else if v.pre.value.0.Alpha? then Stem(v.base, "alpha") + v.pre.value.1 + "." + v.post.value
    else Print(v)
  }

  function Release(version: string): Option<string> {
    var s :- Normalize(version);
    Some(ReleaseText(Parse(s).value))
  }

  function Tag(version: string): Option<string> {
    var release :- Release(version);
    Some("rust-v" + release)
  }

  // ----- Parsing and printing -------------------------------------------------

  lemma Joined(h: string, suffix: string)
    requires EndsWith(h, suffix)
    ensures h == Without(h, suffix) + suffix
  {
  }

  lemma {:induction false} DigitsSplit(s: string)
    ensures s == Head(s) + Digits(s) && (Digits(s) != "" ==> IsNumber(Digits(s)))
  {
    if s != "" && IsDigit(s[|s| - 1]) { DigitsSplit(s[..|s| - 1]); }
  }

  lemma Regrouped(a: string, b: string, c: string)
    ensures (a + b) + c == a + (b + c)
  {
  }

  lemma Rejoined(s: string, mark: string)
    requires EndsWith(Head(s), mark)
    ensures s == Without(Head(s), mark) + (mark + Digits(s))
  {
    DigitsSplit(s);
    Joined(Head(s), mark);
    Regrouped(Without(Head(s), mark), mark, Digits(s));
  }

  lemma ParsePrePrints(s: string, post: Option<string>)
    requires ParsePre(s, post).Some?
    ensures var v := ParsePre(s, post).value;
            v.post == post && s == v.base + PreText(v.pre) && IsBase(v.base) && (v.pre.Some? ==>
              IsNumber(v.pre.value.1))
  {
    var h := Head(s);
    DigitsSplit(s);
    if EndsWith(h, "rc") { Rejoined(s, "rc"); }
    else if EndsWith(h, "a") { Rejoined(s, "a"); }
    else if EndsWith(h, "b") { Rejoined(s, "b"); }
  }

  /** Printing a parsed version gives the text back. */
  lemma ParsePrints(s: string)
    requires Parse(s).Some?
    ensures Valid(Parse(s).value) && Print(Parse(s).value) == s
  {
    DigitsSplit(s);
    if Digits(s) != "" && EndsWith(Head(s), ".post") {
      Rejoined(s, ".post");
      ParsePrePrints(Without(Head(s), ".post"), Some(Digits(s)));
    } else {
      ParsePrePrints(s, None);
    }
  }

  // ----- Rewriting ------------------------------------------------------------

  lemma {:induction false} DigitsOf(h: string, d: string)
    requires IsNumber(d) && h != "" && !IsDigit(h[|h| - 1])
    ensures Digits(h + d) == d && Head(h + d) == h
  {
    var d' := d[..|d| - 1];
    assert (h + d)[..|h + d| - 1] == h + d';
    if d' != "" { DigitsOf(h, d'); } else { assert h + d' == h; }
  }

  lemma EndOf(a: string, b: string)
    ensures EndsWith(a + b, b) && Without(a + b, b) == a
  {
  }

  /** Text without a dash is not rewritten. */
  lemma NoDash(s: string, word: string, mark: string)
    requires '-' !in s
    ensures Rewrite(s, word, mark) == s && RewriteHotfix(s) == s
  {
    NoWord(s, Head(s), word);
    if EndsWith(Head(s), ".") { NoWord(s, Head(Without(Head(s), ".")), "alpha"); }
  }

  lemma SuffixBringsItsCharacters(h: string, suffix: string, c: char)
    ensures EndsWith(h, suffix) && c in suffix ==> c in h
  {
    if EndsWith(h, suffix) { Joined(h, suffix); }
  }

  lemma NoWord(s: string, h: string, word: string)
    requires '-' !in s && h <= s
    ensures BeforeWord(h, word).None?
  {
    SuffixBringsItsCharacters(h, "-" + word, '-');
    SuffixBringsItsCharacters(h, "-" + word + ".", '-');
  }

  lemma NoDashAtAll(s: string)
    requires '-' !in s
    ensures Rewritten(s) == s
  {
    NoDash(s, "alpha", "a");
    NoDash(s, "beta", "b");
    NoDash(s, "rc", "rc");
  }

  lemma OtherEnd(h: string, suffix: string)
    requires h != "" && suffix != "" && h[|h| - 1] != suffix[|suffix| - 1]
    ensures !EndsWith(h, suffix)
  {
  }

  lemma StemEnds(base: string, word: string, other: string)
    requires word != "" && word[|word| - 1] != '.'
    ensures Stem(base, other) != "" && Stem(base, other)[|Stem(base, other)| - 1] == '.'
    ensures !EndsWith(Stem(base, other), "-" + word)
  {
    OtherEnd(Stem(base, other), "-" + word);
  }

  lemma RewriteHits(base: string, word: string, mark: string, n: string)
    requires IsNumber(n) && word != "" && word[|word| - 1] != '.'
    ensures Rewrite(Stem(base, word) + n, word, mark) == base + (mark + n)
  {
    StemEnds(base, word, word);
    DigitsOf(Stem(base, word), n);
    EndOf(base, "-" + word + ".");
  }

  lemma RewriteMisses(base: string, other: string, word: string, mark: string, n: string)
    requires IsNumber(n) && word != "" && word[|word| - 1] != '.' && !EndsWith(Stem(base, other), "-" + word + ".")
    ensures Rewrite(Stem(base, other) + n, word, mark) == Stem(base, other) + n
  {
    StemEnds(base, word, other);
    DigitsOf(Stem(base, other), n);
  }

  lemma NoDigits(h: string)
    requires h != "" && !IsDigit(h[|h| - 1])
    ensures Digits(h) == ""
  {
  }

  /** A single number is no hotfix. */
  lemma NoHotfix(base: string, word: string, n: string)
    requires IsNumber(n) && word != "" && !IsDigit(word[|word| - 1])
    ensures RewriteHotfix(Stem(base, word) + n) == Stem(base, word) + n
  {
    var t := base + ("-" + word);
    Regrouped(base, "-" + word, ".");
    NoDigits(t);
    EndOf(t, ".");
    DigitsOf(t + ".", n);
  }

  lemma HotfixHits(base: string, n: string, p: string)
    requires IsNumber(n) && IsNumber(p)
    ensures RewriteHotfix(Stem(base, "alpha") + n + "." + p) == base + ("a" + n) + (".post" + p)
  {
    var t := Stem(base, "alpha") + n;
    DigitsOf(t + ".", p);
    EndOf(t, ".");
    DigitsOf(Stem(base, "alpha"), n);
    EndOf(base, "-alpha.");
  }

  // ----- There and back -------------------------------------------------------

  /** Text between two digits, or a letter and a digit, has nothing to strip. */
  lemma StripsNothing(s: string)
    requires s != "" && IsDigit(s[|s| - 1]) && (IsDigit(s[0]) || s[0] == 'r')
    ensures Strip(s) == s
  {
  }

  ghost predicate Plain(s: string) { s != "" && IsDigit(s[0]) && IsDigit(s[|s| - 1]) }

  lemma PlainIsBare(s: string)
    requires Plain(s)
    ensures DropTag(Strip(s)) == s && DropTag(Strip("rust-v" + s)) == s
  {
    StripsNothing(s);
    StripsNothing("rust-v" + s);
    assert ("rust-v" + s)[6..] == s;
  }

  lemma PlainEnds(a: string, n: string)
    requires a != "" && IsDigit(a[0]) && IsNumber(n)
    ensures Plain(a + n)
  {
  }

  lemma NoDashIn(s: string)
    requires IsBase(s) || IsNumber(s)
    ensures '-' !in s
  {
    forall i | 0 <= i < |s| ensures s[i] != '-' { assert IsBase(s) && i > 0 ==> FollowsWell(s, i); }
  }

  lemma VersionText(v: Version)
    requires Valid(v)
    ensures '-' !in Print(v) && Plain(Print(v))
  {
    NoDashIn(v.base);
    if v.pre.Some? { NoDashIn(v.pre.value.1); }
    if v.post.Some? { NoDashIn(v.post.value); }
    var s := Print(v);
    assert s[0] == v.base[0];
    if v.post.Some? {
      assert s[|s| - 1] == v.post.value[|v.post.value| - 1];
    } else if v.pre.Some? {
      assert s[|s| - 1] == v.pre.value.1[|v.pre.value.1| - 1];
    } else {
      assert s == v.base;
    }
  }

  lemma SameEnd(s: string, t: string, k: nat)
    requires 0 < k <= |t| && k <= |s|
    ensures EndsWith(s, t) ==> s[|s| - k] == t[|t| - k]
  {
  }

  lemma OtherStem(base: string, word: string, other: string)
    requires word in {"alpha", "beta", "rc"} && other in {"alpha", "beta", "rc"} && word != other
    ensures !EndsWith(Stem(base, other), "-" + word + ".")
  {
    var s, t := Stem(base, other), "-" + word + ".";
    SameEnd(s, t, 2);
    SameEnd(s, t, 3);
    assert s[|s| - 2] == other[|other| - 1] && s[|s| - 3] == other[|other| - 2];
    assert t[|t| - 2] == word[|word| - 1] && t[|t| - 3] == word[|word| - 2];
  }

  lemma PrintsPre(base: string, kind: Kind, n: string)
    requires IsBase(base) && IsNumber(n)
    ensures Print(Version(base, Some((kind, n)), None)) == base + (Mark(kind) + n) && '-' !in base + (Mark(kind) + n)
  {
    VersionText(Version(base, Some((kind, n)), None));
  }

  /** Without its last number a base is empty or ends in a dot. */
  lemma BaseHead(base: string)
    requires IsBase(base)
    ensures Digits(base) != "" && (Head(base) == "" || Head(base)[|Head(base)| - 1] == '.')
  {
    DigitsSplit(base);
    DigitsAreAll(base);
    var k := |Head(base)|;
    assert 1 < k ==> FollowsWell(base, k - 1);
  }

  lemma {:induction false} DigitsAreAll(s: string)
    ensures Head(s) == "" || !IsDigit(Head(s)[|Head(s)| - 1])
    ensures s != "" && IsDigit(s[|s| - 1]) ==> Digits(s) != ""
  {
    if s != "" && IsDigit(s[|s| - 1]) { DigitsAreAll(s[..|s| - 1]); }
  }

  lemma ParsesBase(base: string, post: Option<string>)
    requires IsBase(base)
    ensures ParsePre(base, post) == Some(Version(base, None, post)) && !EndsWith(Head(base), ".post")
  {
    BaseHead(base);
    if Head(base) != "" {
      OtherEnd(Head(base), "rc");
      OtherEnd(Head(base), "a");
      OtherEnd(Head(base), "b");
      OtherEnd(Head(base), ".post");
    }
  }

  lemma ParsesPre(base: string, kind: Kind, n: string, post: Option<string>)
    requires IsBase(base) && IsNumber(n)
    ensures var core := base + (Mark(kind) + n);
            ParsePre(core, post) == Some(Version(base, Some((kind, n)), post)) && !EndsWith(Head(core), ".post")
  {
    var h := base + Mark(kind);
    Regrouped(base, Mark(kind), n);
    DigitsOf(h, n);
    EndOf(base, Mark(kind));
    OtherEnd(h, ".post");
    if !kind.Candidate? { OtherEnd(h, "rc"); }
    if kind.Beta? { OtherEnd(h, "a"); }
  }

  /** Every version that is printed is read back: the pattern accepts nothing else. */
  lemma PrintParses(v: Version)
    requires Valid(v)
    ensures Parse(Print(v)) == Some(v)
  {
    var core := v.base + PreText(v.pre);
    if v.pre.Some? {
      ParsesPre(v.base, v.pre.value.0, v.pre.value.1, v.post);
    } else {
      assert core == v.base;
      ParsesBase(v.base, v.post);
    }
    if v.post.Some? {
      Regrouped(core, ".post", v.post.value);
      DigitsOf(core + ".post", v.post.value);
      EndOf(core, ".post");
    } else {
      assert Print(v) == core;
    }
  }

  /** The rewrites that do not concern a kind of release pass it by. */
  lemma OtherRewrites(base: string, kind: Kind, other: Kind, n: string)
    requires IsBase(base) && IsNumber(n) && kind != other
    ensures Rewrite(Stem(base, Name(kind)) + n, Name(other), Mark(other)) == Stem(base, Name(kind)) + n
    ensures Rewrite(base + (Mark(kind) + n), Name(other), Mark(other)) == base + (Mark(kind) + n)
  {
    OtherStem(base, Name(other), Name(kind));
    RewriteMisses(base, Name(kind), Name(other), Mark(other), n);
    PrintsPre(base, kind, n);
    NoDash(base + (Mark(kind) + n), Name(other), Mark(other));
  }

  /** A release with one number is rewritten to its normalised version. */
  lemma PrereleaseReturns(base: string, kind: Kind, n: string)
    requires IsBase(base) && IsNumber(n)
    ensures Rewritten(Stem(base, Name(kind)) + n) == base + (Mark(kind) + n)
  {
    NoHotfix(base, Name(kind), n);
    RewriteHits(base, Name(kind), Mark(kind), n);
    if kind != Alpha { OtherRewrites(base, kind, Alpha, n); }
    if kind != Beta { OtherRewrites(base, kind, Beta, n); }
    if kind != Candidate { OtherRewrites(base, kind, Candidate, n); }
  }

  lemma HotfixReturns(base: string, n: string, p: string)
    requires IsBase(base) && IsNumber(n) && IsNumber(p)
    ensures Rewritten(Stem(base, "alpha") + n + "." + p) == Print(Version(base, Some((Alpha, n)), Some(p)))
  {
    var v := Version(base, Some((Alpha, n)), Some(p));
    HotfixHits(base, n, p);
    VersionText(v);
    NoDash(Print(v), "alpha", "a");
    NoDash(Print(v), "beta", "b");
    NoDash(Print(v), "rc", "rc");
  }

  lemma PrereleasePart(v: Version)
    requires Valid(v) && v.pre.Some? && v.post.None?
    ensures Rewritten(ReleaseText(v)) == Print(v) && Plain(ReleaseText(v))
  {
    var kind, n := v.pre.value.0, v.pre.value.1;
    PrereleaseReturns(v.base, kind, n);
    PrintsPre(v.base, kind, n);
    PlainEnds(Stem(v.base, Name(kind)), n);
  }

  lemma HotfixPart(v: Version)
    requires Valid(v) && v.pre.Some? && v.pre.value.0.Alpha? && v.post.Some?
    ensures Rewritten(ReleaseText(v)) == Print(v) && Plain(ReleaseText(v))
  {
    var n, p := v.pre.value.1, v.post.value;
    HotfixReturns(v.base, n, p);
    PlainEnds(Stem(v.base, "alpha") + n + ".", p);
  }

  /** The release text of a version is rewritten to the version. */
  lemma ReleaseReturns(v: Version)
    requires Valid(v)
    ensures Rewritten(ReleaseText(v)) == Print(v) && Plain(ReleaseText(v))
  {
    if v.pre.Some? && v.post.None? {
      PrereleasePart(v);
    } else if v.pre.Some? && v.pre.value.0.Alpha? {
      HotfixPart(v);
    } else {
      VersionText(v);
      NoDashAtAll(Print(v));
    }
  }

  /** Normalising twice is normalising once. */
  lemma NormalizeTwice(version: string)
    requires Normalize(version).Some?
    ensures Normalize(Normalize(version).value) == Normalize(version)
  {
    var s := Normalize(version).value;
    ParsePrints(s);
    VersionText(Parse(s).value);
    PlainIsBare(s);
    NoDashAtAll(s);
  }

  /** Normalising the release, or the tag, of any version gives its normalised form back. */
  lemma ReleaseRoundTrip(version: string)
    requires Normalize(version).Some?
    ensures Release(version).Some? && Normalize(Release(version).value) == Normalize(version)
    ensures Tag(version).Some? && Normalize(Tag(version).value) == Normalize(version)
  {
    var s := Normalize(version).value;
    ParsePrints(s);
    ReleaseReturns(Parse(s).value);
    PlainIsBare(ReleaseText(Parse(s).value));
  }

  /** Two versions have the same release tag if and only if they normalise to the same version. */
  lemma TagsAreDistinct(a: string, b: string)
    requires Normalize(a).Some? && Normalize(b).Some?
    ensures Tag(a) == Tag(b) <==> Normalize(a) == Normalize(b)
  {
    ReleaseRoundTrip(a);
    ReleaseRoundTrip(b);
  }
}
