/** Which texts normalise, and to which version, said without the rewriting steps. */
module ReleaseSpelling {
  import opened Basics
  import opened Text
  import opened ReleaseVersion

  // ----- Outer white space and tags -------------------------------------------

  /** White space, and nothing else, stands around `s[i..j]`, which has none at its ends. */
  ghost predicate StripsTo(s: string, i: nat, j: nat) {
    && i <= j <= |s| && (forall k :: 0 <= k < i ==> IsPythonSpace(s[k]))
    && (forall k :: j <= k < |s| ==> IsPythonSpace(s[k]))
    && (i < j ==> !IsPythonSpace(s[i]) && !IsPythonSpace(s[j - 1]))
  }

  ghost predicate IsStripped(s: string, t: string) {
    exists i: nat, j: nat :: StripsTo(s, i, j) && t == s[i..j]
  }

  lemma StripFront(s: string, i: nat, j: nat)
    requires s != "" && IsPythonSpace(s[0]) && StripsTo(s[1..], i, j)
    ensures StripsTo(s, i + 1, j + 1) && s[1..][i..j] == s[i + 1..j + 1]
  {
    var t := s[1..];
    assert forall r :: 0 < r < |s| ==> s[r] == t[r - 1];
  }

  lemma StripBack(s: string, i: nat, j: nat)
    requires s != "" && IsPythonSpace(s[|s| - 1]) && StripsTo(s[..|s| - 1], i, j)
    ensures StripsTo(s, i, j) && s[..|s| - 1][i..j] == s[i..j]
  {
    var t := s[..|s| - 1];
    assert forall r :: 0 <= r < |t| ==> s[r] == t[r];
  }

  lemma {:induction false} StripFound(s: string) returns (i: nat, j: nat)
    ensures StripsTo(s, i, j) && Strip(s) == s[i..j]
    decreases |s|
  {
    if s != "" && IsPythonSpace(s[0]) {
      var k, m := StripFound(s[1..]);
      StripFront(s, k, m);
      i, j := k + 1, m + 1;
    } else if s != "" && IsPythonSpace(s[|s| - 1]) {
      i, j := StripFound(s[..|s| - 1]);
      StripBack(s, i, j);
    } else {
      i, j := 0, |s|;
    }
  }

  lemma StripIff(s: string, t: string)
    ensures t == Strip(s) <==> IsStripped(s, t)
  {
    var k, m := StripFound(s);
    if i: nat, j: nat :| StripsTo(s, i, j) && t == s[i..j] {
      assert i < j ==> k <= i < m && j <= m;
      assert k < m ==> i <= k < j && m <= j;
    }
  }

  /** The text is this one, possibly after a release tag's prefix. */
  ghost predicate IsTagged(text: string, u: string) {
    || text == "rust-v" + u
    || text == "v" + u
    || (text == u && !("rust-v" <= text) && !("v" <= text))
  }

  lemma TaggedIff(text: string, u: string)
    ensures u == DropTag(text) <==> IsTagged(text, u)
  {
    if "rust-v" <= text {
      assert text == "rust-v" + text[6..] && text[0] == 'r';
      assert text == "rust-v" + u ==> text[6..] == u;
    } else if "v" <= text {
      assert text == "v" + text[1..];
      assert text == "v" + u ==> text[1..] == u;
    }
  }

  // ----- Spellings ------------------------------------------------------------

  /** The base, a dash, the word, and the number, with or without a dot before it. */
  ghost predicate SpellsWord(u: string, base: string, word: string, n: string) {
    u == base + ("-" + word) + n || u == base + ("-" + word + ".") + n
  }

  ghost predicate SpellsPre(u: string, v: Version, kind: Kind, word: string) {
    v.pre.Some? && v.pre.value.0 == kind && v.post.None? && SpellsWord(u, v.base, word, v.pre.value.1)
  }

  /** An alpha with a second number is an alpha with a post release. */
  ghost predicate SpellsHotfix(u: string, v: Version) {
    && v.pre.Some? && v.pre.value.0.Alpha? && v.post.Some?
    && exists t :: SpellsWord(t, v.base, "alpha", v.pre.value.1) && u == t + "." + v.post.value
  }

  /** The alpha rule leaves an ending that the beta rule then takes. */
  ghost predicate SpellsByAccident(u: string, v: Version) {
    && v.pre.Some? && v.pre.value.0.Beta? && v.post.None?
    && SpellsWord(u, v.base + "-bet", "alpha", v.pre.value.1)
  }

  ghost predicate Spells(u: string, v: Version) {
    && Valid(v)
    && (|| u == Print(v)
        || SpellsPre(u, v, Candidate, "rc") || SpellsPre(u, v, Beta, "beta") || SpellsPre(u, v, Alpha, "alpha")
        || SpellsHotfix(u, v) || SpellsByAccident(u, v))
  }

  // ----- Text that ends in a number -------------------------------------------

  lemma SameTail(h: string, d: string, h': string, d': string)
    requires IsNumber(d) && IsNumber(d') && h != "" && h' != ""
    requires !IsDigit(h[|h| - 1]) && !IsDigit(h'[|h'| - 1]) && h + d == h' + d'
    ensures h == h' && d == d'
  {
    DigitsOf(h, d);
    DigitsOf(h', d');
  }

  ghost predicate IsWord(word: string) { word != "" && 'a' <= word[|word| - 1] <= 'z' }

  /** What stands before the number of a spelled word. */
  lemma WordTail(u: string, base: string, word: string, n: string) returns (h: string)
    requires SpellsWord(u, base, word, n) && IsNumber(n) && IsWord(word)
    ensures u == h + n && (h == base + ("-" + word) || h == base + ("-" + word + "."))
    ensures h != "" && h[|h| - 1] in {word[|word| - 1], '.'} && Digits(u) == n && Head(u) == h
  {
    h := if u == base + ("-" + word) + n then base + ("-" + word) else base + ("-" + word + ".");
    DigitsOf(h, n);
  }

  /** A text that ends in a mark and a number spells no word that ends differently. */
  lemma NotSpelled(u: string, h: string, d: string, base: string, word: string, n: string)
    requires u == h + d && IsNumber(d) && h != "" && IsNumber(n) && IsWord(word)
    requires 'a' <= h[|h| - 1] <= 'z' && h[|h| - 1] != word[|word| - 1]
    ensures !SpellsWord(u, base, word, n)
  {
    if SpellsWord(u, base, word, n) {
      var h' := WordTail(u, base, word, n);
      SameTail(h, d, h', n);
    }
  }

  lemma ReadsPre(base: string, kind: Kind, d: string, post: Option<string>)
    requires IsNumber(d)
    ensures ParsePre(base + (Mark(kind) + d), post) == BaseVersion(base, Some((kind, d)), post)
    ensures !EndsWith(Head(base + (Mark(kind) + d)), ".post")
  {
    var h := base + Mark(kind);
    Regrouped(base, Mark(kind), d);
    DigitsOf(h, d);
    EndOf(base, Mark(kind));
    OtherEnd(h, ".post");
    if !kind.Candidate? { OtherEnd(h, "rc"); }
    if kind.Beta? { OtherEnd(h, "a"); }
  }

  lemma ReadsPost(core: string, p: string)
    requires IsNumber(p)
    ensures Parse(core + (".post" + p)) == ParsePre(core, Some(p))
  {
    Regrouped(core, ".post", p);
    DigitsOf(core + ".post", p);
    EndOf(core, ".post");
  }

  lemma MarkedVersion(v: Version, base: string, kind: Kind, d: string)
    requires Valid(v) && IsNumber(d) && Print(v) == base + (Mark(kind) + d)
    ensures v == Version(base, Some((kind, d)), None)
  {
    ReadsPre(base, kind, d, None);
    PrintParses(v);
  }

  lemma HotfixVersion(v: Version, base: string, n: string, p: string)
    requires Valid(v) && IsNumber(n) && IsNumber(p) && Print(v) == base + ("a" + n) + (".post" + p)
    ensures v == Version(base, Some((Alpha, n)), Some(p))
  {
    ReadsPost(base + ("a" + n), p);
    ReadsPre(base, Alpha, n, Some(p));
    PrintParses(v);
  }

  // ----- One rewrite ----------------------------------------------------------

  lemma BeforeWordFound(h: string, word: string)
    ensures BeforeWord(h, word).Some? ==>
              var base := BeforeWord(h, word).value; h == base + ("-" + word) || h == base + ("-" + word + ".")
  {
    if EndsWith(h, "-" + word) {
      Joined(h, "-" + word);
    } else if EndsWith(h, "-" + word + ".") {
      Joined(h, "-" + word + ".");
    }
  }

  /** A rewrite leaves the text alone or replaces a spelled word by its mark. */
  lemma RewriteInverts(s: string, word: string, mark: string) returns (base: string, hit: bool)
    ensures !hit ==> Rewrite(s, word, mark) == s
    ensures hit ==> && IsNumber(Digits(s)) && SpellsWord(s, base, word, Digits(s))
                    && Rewrite(s, word, mark) == base + (mark + Digits(s))
  {
    DigitsSplit(s);
    BeforeWordFound(Head(s), word);
    hit := Digits(s) != "" && BeforeWord(Head(s), word).Some?;
    base := if hit then BeforeWord(Head(s), word).value else "";
  }

  /** A spelled word is replaced by its mark. */
  lemma RewriteTakes(u: string, base: string, word: string, mark: string, n: string)
    requires IsNumber(n) && IsWord(word) && SpellsWord(u, base, word, n)
    ensures Rewrite(u, word, mark) == base + (mark + n)
  {
    var h := WordTail(u, base, word, n);
    if h == base + ("-" + word) {
      EndOf(base, "-" + word);
    } else {
      OtherEnd(h, "-" + word);
      EndOf(base, "-" + word + ".");
    }
  }

  /** A text that ends in another letter or in a dot and another word is passed by. */
  lemma RewritePasses(u: string, base: string, word: string, n: string, other: string, mark: string)
    requires IsNumber(n) && SpellsWord(u, base, word, n)
    requires word in {"alpha", "beta", "rc"} && other in {"alpha", "beta", "rc"} && word != other
    ensures Rewrite(u, other, mark) == u
  {
    var h := WordTail(u, base, word, n);
    if h == base + ("-" + word) {
      OtherEnd(h, "-" + other + ".");
      OtherWord(base, word, other);
    } else {
      OtherEnd(h, "-" + other);
      OtherStem(base, other, word);
    }
  }

  lemma OtherWord(base: string, word: string, other: string)
    requires word in {"alpha", "beta", "rc"} && other in {"alpha", "beta", "rc"} && word != other
    ensures !EndsWith(base + ("-" + word), "-" + other)
  {
    var s, t := base + ("-" + word), "-" + other;
    SameEnd(s, t, 1);
    SameEnd(s, t, 2);
    assert s[|s| - 1] == word[|word| - 1] && s[|s| - 2] == word[|word| - 2];
    assert t[|t| - 1] == other[|other| - 1] && t[|t| - 2] == other[|other| - 2];
  }

  // ----- Backwards through the rewrites ---------------------------------------

  lemma BackFromCandidate(x: string, v: Version)
    requires Valid(v) && Rewrite(x, "rc", "rc") == Print(v)
    ensures x == Print(v) || SpellsPre(x, v, Candidate, "rc")
  {
    var base, hit := RewriteInverts(x, "rc", "rc");
    if hit { MarkedVersion(v, base, Candidate, Digits(x)); }
  }

  lemma BackFromBeta(x: string, v: Version)
    requires Valid(v)
    requires var y := Rewrite(x, "beta", "b"); y == Print(v) || SpellsPre(y, v, Candidate, "rc")
    ensures x == Print(v) || SpellsPre(x, v, Candidate, "rc") || SpellsPre(x, v, Beta, "beta")
  {
    var base, hit := RewriteInverts(x, "beta", "b");
    if hit {
      var y, d := Rewrite(x, "beta", "b"), Digits(x);
      if y == Print(v) {
        MarkedVersion(v, base, Beta, d);
      } else {
        Regrouped(base, "b", d);
        NotSpelled(y, base + "b", d, v.base, "rc", v.pre.value.1);
      }
    }
  }

  lemma BackFromAlpha(x: string, v: Version)
    requires Valid(v)
    requires var y := Rewrite(x, "alpha", "a");
             y == Print(v) || SpellsPre(y, v, Candidate, "rc") || SpellsPre(y, v, Beta, "beta")
    ensures || x == Print(v) || SpellsPre(x, v, Candidate, "rc") || SpellsPre(x, v, Beta, "beta")
            || SpellsPre(x, v, Alpha, "alpha") || SpellsByAccident(x, v)
  {
    var base, hit := RewriteInverts(x, "alpha", "a");
    if hit {
      var y, d := Rewrite(x, "alpha", "a"), Digits(x);
      Regrouped(base, "a", d);
      if y == Print(v) {
        MarkedVersion(v, base, Alpha, d);
      } else if SpellsPre(y, v, Candidate, "rc") {
        NotSpelled(y, base + "a", d, v.base, "rc", v.pre.value.1);
      } else {
        AccidentalBeta(y, base, d, v);
      }
    }
  }

  /** What the alpha rule wrote reads as a beta: the base must have ended in `-bet`. */
  lemma AccidentalBeta(y: string, base: string, d: string, v: Version)
    requires IsNumber(d) && y == base + "a" + d && Valid(v) && SpellsPre(y, v, Beta, "beta")
    ensures base == v.base + "-bet" && d == v.pre.value.1
  {
    var h := WordTail(y, v.base, "beta", v.pre.value.1);
    SameTail(base + "a", d, h, v.pre.value.1);
    assert (base + "a")[|base|] == 'a';
    assert h == (v.base + "-bet") + "a";
    assert (base + "a")[..|base|] == base && ((v.base + "-bet") + "a")[..|v.base + "-bet"|] == v.base + "-bet";
  }

  lemma HotfixInverts(s: string) returns (base: string, n: string, p: string, hit: bool)
    ensures !hit ==> RewriteHotfix(s) == s
    ensures hit ==> && IsNumber(n) && IsNumber(p) && RewriteHotfix(s) == base + ("a" + n) + (".post" + p)
                    && exists t :: SpellsWord(t, base, "alpha", n) && s == t + "." + p
  {
    base, n, p, hit := "", "", "", false;
    DigitsSplit(s);
    if Digits(s) != "" && EndsWith(Head(s), ".") {
      var t := Without(Head(s), ".");
      Joined(Head(s), ".");
      DigitsSplit(t);
      BeforeWordFound(Head(t), "alpha");
      if Digits(t) != "" && BeforeWord(Head(t), "alpha").Some? {
        base, n, p, hit := BeforeWord(Head(t), "alpha").value, Digits(t), Digits(s), true;
        assert SpellsWord(t, base, "alpha", n) && s == t + "." + p;
      }
    }
  }

  lemma BackFromHotfix(x: string, v: Version)
    requires Valid(v)
    requires var y := RewriteHotfix(x);
             || y == Print(v) || SpellsPre(y, v, Candidate, "rc") || SpellsPre(y, v, Beta, "beta")
             || SpellsPre(y, v, Alpha, "alpha") || SpellsByAccident(y, v)
    ensures Spells(x, v)
  {
    var base, n, p, hit := HotfixInverts(x);
    if hit {
      var y, h := RewriteHotfix(x), base + ("a" + n) + ".post";
      Regrouped(base + ("a" + n), ".post", p);
      if y == Print(v) {
        HotfixVersion(v, base, n, p);
      } else {
        var word := if v.pre.value.0.Candidate? then "rc"
                    else if SpellsPre(y, v, Beta, "beta") then "beta" else "alpha";
        var before := if SpellsByAccident(y, v) && word == "alpha" then v.base + "-bet" else v.base;
        NotSpelled(y, h, p, before, word, v.pre.value.1);
      }
    }
  }

  lemma RewrittenIsSpelled(u: string, v: Version)
    requires Valid(v) && Rewritten(u) == Print(v)
    ensures Spells(u, v)
  {
    var a := RewriteHotfix(u);
    var b := Rewrite(a, "alpha", "a");
    BackFromCandidate(Rewrite(b, "beta", "b"), v);
    BackFromBeta(b, v);
    BackFromAlpha(a, v);
    BackFromHotfix(u, v);
  }

  // ----- Forwards through the rewrites ----------------------------------------

  /** A single number is no hotfix, with or without a dot before it. */
  lemma WordIsNoHotfix(u: string, base: string, word: string, n: string)
    requires IsNumber(n) && IsWord(word) && SpellsWord(u, base, word, n)
    ensures RewriteHotfix(u) == u
  {
    var h := WordTail(u, base, word, n);
    if h == base + ("-" + word + ".") {
      assert Stem(base, word) == h;
      NoHotfix(base, word, n);
    } else {
      OtherEnd(h, ".");
    }
  }

  lemma PreIsRewritten(u: string, v: Version)
    requires Valid(v) && v.pre.Some? && SpellsPre(u, v, v.pre.value.0, Name(v.pre.value.0))
    ensures Rewritten(u) == Print(v)
  {
    var kind, n := v.pre.value.0, v.pre.value.1;
    WordIsNoHotfix(u, v.base, Name(kind), n);
    RewriteTakes(u, v.base, Name(kind), Mark(kind), n);
    PrintsPre(v.base, kind, n);
    if kind != Alpha { RewritePasses(u, v.base, Name(kind), n, "alpha", "a"); }
    if kind != Beta {
      RewritePasses(u, v.base, Name(kind), n, "beta", "b");
      NoDash(Print(v), "beta", "b");
    }
    if kind != Candidate { NoDash(Print(v), "rc", "rc"); }
  }

  lemma AccidentIsRewritten(u: string, v: Version)
    requires Valid(v) && SpellsByAccident(u, v)
    ensures Rewritten(u) == Print(v)
  {
    var n, bet := v.pre.value.1, v.base + "-bet";
    WordIsNoHotfix(u, bet, "alpha", n);
    RewriteTakes(u, bet, "alpha", "a", n);
    var y := bet + ("a" + n);
    assert y == v.base + ("-" + "beta") + n;
    RewriteTakes(y, v.base, "beta", "b", n);
    PrintsPre(v.base, Beta, n);
    NoDash(Print(v), "rc", "rc");
  }

  lemma HotfixTakes(t: string, base: string, n: string, p: string)
    requires IsNumber(n) && IsNumber(p) && SpellsWord(t, base, "alpha", n)
    ensures RewriteHotfix(t + "." + p) == base + ("a" + n) + (".post" + p)
  {
    var h := WordTail(t, base, "alpha", n);
    DigitsOf(t + ".", p);
    EndOf(t, ".");
    if h == base + ("-" + "alpha") {
      EndOf(base, "-" + "alpha");
    } else {
      OtherEnd(h, "-" + "alpha");
      EndOf(base, "-" + "alpha" + ".");
    }
  }

  lemma HotfixIsRewritten(u: string, v: Version)
    requires Valid(v) && SpellsHotfix(u, v)
    ensures Rewritten(u) == Print(v)
  {
    var n, p := v.pre.value.1, v.post.value;
    var t :| SpellsWord(t, v.base, "alpha", n) && u == t + "." + p;
    HotfixTakes(t, v.base, n, p);
    VersionText(v);
    NoDash(Print(v), "alpha", "a");
    NoDash(Print(v), "beta", "b");
    NoDash(Print(v), "rc", "rc");
  }

  lemma SpelledIsRewritten(u: string, v: Version)
    requires Spells(u, v)
    ensures Rewritten(u) == Print(v)
  {
    if u == Print(v) {
      VersionText(v);
      NoDashAtAll(u);
    } else if SpellsHotfix(u, v) {
      HotfixIsRewritten(u, v);
    } else if SpellsByAccident(u, v) {
      AccidentIsRewritten(u, v);
    } else {
      PreIsRewritten(u, v);
    }
  }

  // ----- Normalising ----------------------------------------------------------

  /** The version text, with white space and a tag around it, spells this version. */
  ghost predicate SpellsVersion(version: string, v: Version) {
    exists text, u :: IsStripped(version, text) && IsTagged(text, u) && Spells(u, v)
  }

  /** A text normalises to a version exactly when it is one of that version's spellings. */
  lemma NormalizeIff(version: string, v: Version)
    requires Valid(v)
    ensures Normalize(version) == Some(Print(v)) <==> SpellsVersion(version, v)
  {
    var text := Strip(version);
    var u := DropTag(text);
    StripIff(version, text);
    TaggedIff(text, u);
    PrintParses(v);
    if Normalize(version) == Some(Print(v)) { RewrittenIsSpelled(u, v); }
    forall text', u' | IsStripped(version, text') && IsTagged(text', u') ensures u' == u {
      StripIff(version, text');
      TaggedIff(text', u');
    }
    if SpellsVersion(version, v) { SpelledIsRewritten(u, v); }
  }

  /** Every other text is refused. */
  lemma NormalizedIsVersion(version: string)
    requires Normalize(version).Some?
    ensures exists v :: Valid(v) && Normalize(version) == Some(Print(v))
  {
    ParsePrints(Normalize(version).value);
  }

  /** Not only the documented spellings are accepted: a base that ends in `-bet` turns an alpha
      into a beta. */
  lemma AlphaReadAsBeta()
    ensures Normalize("1-bet-alpha.2") == Some("1b2")
  {
    var v := Version("1", Some((Beta, "2")), None);
    var version := "1-bet-alpha.2";
    assert Print(v) == "1b2";
    assert version == (v.base + "-bet") + ("-" + "alpha" + ".") + "2";
    assert StripsTo(version, 0, |version|) && version[0..|version|] == version;
    assert IsTagged(version, version) by { assert version[0] == '1'; }
    assert SpellsVersion(version, v);
    NormalizeIff(version, v);
  }

  ghost predicate IsReleaseOf(release: string, v: Version) {
    match v.pre
    case None => release == Print(v)
    case Some((kind, n)) =>
      if v.post.None? then
        match kind
        case Alpha => release == v.base + "-alpha." + n
        case Beta => release == v.base + "-beta." + n
        case Candidate => release == v.base + "-rc." + n
      else if kind.Alpha? then release == v.base + "-alpha." + n + "." + v.post.value
      else release == Print(v)
  }

  lemma ReleaseTextIs(v: Version)
    ensures IsReleaseOf(ReleaseText(v), v)
  {
    assert "-" + "alpha" + "." == "-alpha." && "-" + "beta" + "." == "-beta." && "-" + "rc" + "." == "-rc.";
  }

  /** A release is the base, a dash, the kind's full name and the numbers, joined by dots; other
      versions are released as they are. */
  lemma ReleaseIs(version: string, v: Version)
    requires Valid(v) && Normalize(version) == Some(Print(v))
    ensures Release(version).Some? && IsReleaseOf(Release(version).value, v)
    ensures Tag(version) == Some("rust-v" + Release(version).value)
  {
    PrintParses(v);
    ReleaseTextIs(v);
  }
}
