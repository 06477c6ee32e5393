/** Which references a message has, said of its lines without scanning them. */
module DirectiveRules {
  import opened Basics
  import opened Text
  import opened Directives

  // ----- One line -------------------------------------------------------------

  /** The line up to position `j`, which only carriage returns follow. */
  ghost predicate DropsTo(line: string, j: nat) {
    && j <= |line| && (forall k :: j <= k < |line| ==> line[k] == '\r') && (j == 0 || line[j - 1] != '\r')
  }

  lemma {:induction false} DropFound(line: string) returns (j: nat)
    ensures DropsTo(line, j) && DropReturns(line) == line[..j]
  {
    j := |line|;
    if line != "" && line[|line| - 1] == '\r' {
      var t := line[..|line| - 1];
      j := DropFound(t);
      assert forall k :: 0 <= k < |t| ==> line[k] == t[k];
    }
  }

  /** Four spaces or a tab at the start make it code. */
  ghost predicate IsIndented(line: string) {
    (|line| >= 4 && forall k :: 0 <= k < 4 ==> line[k] == ' ') || (line != "" && line[0] == '\t')
  }

  /** The line holds nothing but the code that embeds this reference. */
  ghost predicate IsEmbedLine(line: string, ref: string) {
    !IsIndented(line) && IsCardIdentifier(ref) && IsTrim(line, "::codex-inline-vis{artifact=\"" + ref + "\"}")
  }

  lemma DirectiveOfIff(line: string, ref: string)
    ensures DirectiveOf(line) == Directive(ref) <==> IsCardIdentifier(ref) && Trim(line) == PREFIX + ref + SUFFIX
  {
    var text := Trim(line);
    if StartsWith(text, PREFIX) && EndsWith(text[|PREFIX|..], SUFFIX) {
      assert text == PREFIX + text[|PREFIX|..|text| - |SUFFIX|] + SUFFIX;
    }
    if text == PREFIX + ref + SUFFIX {
      assert text[|PREFIX|..] == ref + SUFFIX && (ref + SUFFIX)[|ref|..] == SUFFIX;
      assert text[|PREFIX|..|text| - |SUFFIX|] == ref;
    }
  }

  /** The first character that is not white space. */
  lemma TrimStartsAt(line: string, spaces: nat)
    requires spaces < |line| && !IsSpace(line[spaces]) && forall k :: 0 <= k < spaces ==> IsSpace(line[k])
    ensures Trim(line) != "" && Trim(line)[0] == line[spaces]
  {
    var i, j := TrimFound(line);
    assert i == spaces < j;
  }

  lemma IndentIff(line: string)
    ensures (RunLength(line, 0, ' ') >= 4 || (line != "" && line[0] == '\t')) <==> IsIndented(line)
  {
    RunLengthIsRun(line, 0, ' ', 0);
  }

  /** A marker line does not trim to anything that starts with another character. */
  lemma MarkerIsNoEmbed(line: string, code: string)
    requires var spaces := RunLength(line, 0, ' '); spaces < |line| && line[spaces] in {'`', '~'}
    requires code != "" && code[0] == ':'
    ensures Trim(line) != code
  {
    RunLengthIsRun(line, 0, ' ', 0);
    TrimStartsAt(line, RunLength(line, 0, ' '));
  }

  /** The directives are exactly the embed codes on a line of their own that is not indented,
      up to trailing carriage returns. */
  lemma DirectiveIffEmbedLine(sourceLine: string, ref: string)
    ensures Classify(sourceLine) == Directive(ref) <==> IsEmbedLine(DropReturns(sourceLine), ref)
  {
    var line := DropReturns(sourceLine);
    var spaces := RunLength(line, 0, ' ');
    TrimIff(line, PREFIX + ref + SUFFIX);
    IndentIff(line);
    DirectiveOfIff(line, ref);
    if spaces < |line| && line[spaces] in {'`', '~'} { MarkerIsNoEmbed(line, PREFIX + ref + SUFFIX); }
  }

  // ----- Fences ---------------------------------------------------------------

  /** Closed fenced blocks and lines that are no markers. */
  ghost predicate Balanced(kinds: seq<Kind>)
    decreases |kinds|
  {
    || kinds == []
    || (!kinds[|kinds| - 1].Marker? && Balanced(kinds[..|kinds| - 1]))
    || exists m :: 0 <= m < |kinds| && Balanced(kinds[..m]) && IsBlock(kinds[m..])
  }

  /** The marker at `m` opened a fence that nothing has closed. */
  ghost predicate OpenedAt(kinds: seq<Kind>, m: nat) {
    && m < |kinds| && kinds[m].Marker? && FenceAfter(kinds[..m]).None?
    && forall i :: m < i < |kinds| ==> !Closes(kinds[i], kinds[m])
  }

  lemma {:induction false} OpeningFound(kinds: seq<Kind>) returns (m: nat)
    requires FenceAfter(kinds).Some?
    ensures OpenedAt(kinds, m) && FenceAfter(kinds) == Some((kinds[m].c, kinds[m].length))
  {
    var before := kinds[..|kinds| - 1];
    if FenceAfter(before).None? {
      m := |kinds| - 1;
    } else {
      m := OpeningFound(before);
      assert before[..m] == kinds[..m] && forall i :: 0 <= i < |before| ==> before[i] == kinds[i];
    }
  }

  lemma BlockCloses(kinds: seq<Kind>, m: nat)
    requires m < |kinds| && FenceAfter(kinds[..m]).None? && IsBlock(kinds[m..])
    ensures FenceAfter(kinds).None?
  {
    BlockIsBlank(kinds[m..]);
    VisibleJoins(kinds[..m], kinds[m..]);
    assert kinds[..m] + kinds[m..] == kinds;
  }

  lemma ClosingMakesBlock(kinds: seq<Kind>) returns (m: nat)
    requires kinds != [] && FenceAfter(kinds).None? && kinds[|kinds| - 1].Marker?
    ensures m < |kinds| - 1 && FenceAfter(kinds[..m]).None? && IsBlock(kinds[m..])
  {
    var before := kinds[..|kinds| - 1];
    m := OpeningFound(before);
    var block := kinds[m..];
    assert before[..m] == kinds[..m];
    assert forall i :: 0 <= i < |block| - 1 ==> block[i] == before[m + i];
  }

  /** No fence is open exactly after closed blocks and lines that are no markers. */
  lemma {:induction false} OutsideIffBalanced(kinds: seq<Kind>)
    ensures FenceAfter(kinds).None? <==> Balanced(kinds)
    decreases |kinds|
  {
    if kinds == [] {
    } else {
      var before := kinds[..|kinds| - 1];
      OutsideIffBalanced(before);
      if m :| 0 <= m < |kinds| && Balanced(kinds[..m]) && IsBlock(kinds[m..]) {
        OutsideIffBalanced(kinds[..m]);
        BlockCloses(kinds, m);
      }
      if FenceAfter(kinds).None? && kinds[|kinds| - 1].Marker? {
        var m := ClosingMakesBlock(kinds);
        OutsideIffBalanced(kinds[..m]);
      }
    }
  }

  /** The directive on line `i` stands outside every fence. */
  ghost predicate StandsOutside(kinds: seq<Kind>, i: nat, ref: string) {
    i < |kinds| && kinds[i] == Directive(ref) && Balanced(kinds[..i])
  }

  lemma {:induction false} VisibleIff(kinds: seq<Kind>, ref: string)
    ensures ref in Visible(kinds) <==> exists i: nat :: StandsOutside(kinds, i, ref)
  {
    if kinds == [] {
    } else {
      var n := |kinds| - 1;
      var before := kinds[..n];
      VisibleIff(before, ref);
      OutsideIffBalanced(before);
      if i: nat :| StandsOutside(before, i, ref) {
        assert before[..i] == kinds[..i];
        assert StandsOutside(kinds, i, ref);
      }
      if i: nat :| StandsOutside(kinds, i, ref) && i < n {
        assert before[..i] == kinds[..i];
        assert StandsOutside(before, i, ref);
      }
      assert StandsOutside(kinds, n, ref) <==> kinds[n] == Directive(ref) && FenceAfter(before).None?;
    }
  }

  /** Line `i` embeds the reference, and before it every fence was closed. */
  ghost predicate EmbedsAt(text: string, i: nat, ref: string) {
    i < |Lines(text)| && IsEmbedLine(DropReturns(Lines(text)[i]), ref) && Balanced(Kinds(text)[..i])
  }

  /** A message refers to exactly what its lines outside fences embed. */
  lemma RefsIff(text: string, ref: string)
    ensures ref in Refs(text) <==> exists i: nat :: EmbedsAt(text, i, ref)
  {
    DedupeMember(Visible(Kinds(text)), ref);
    VisibleIff(Kinds(text), ref);
    forall i: nat | i < |Kinds(text)|
      ensures Kinds(text)[i] == Directive(ref) <==> IsEmbedLine(DropReturns(Lines(text)[i]), ref)
    {
      assert Kinds(text)[i] == Classify(Lines(text)[i]);
      DirectiveIffEmbedLine(Lines(text)[i], ref);
    }
    if i: nat :| EmbedsAt(text, i, ref) { assert StandsOutside(Kinds(text), i, ref); }
    if i: nat :| StandsOutside(Kinds(text), i, ref) { assert EmbedsAt(text, i, ref); }
  }

  /** Each reference is listed once, in the order of first occurrence. */
  lemma {:induction false} DedupeIsDistinct<T>(s: seq<T>)
    ensures Distinct(Dedupe(s))
  {
    if s == [] {
    } else {
      DedupeIsDistinct(s[..|s| - 1]);
    }
  }

  lemma {:induction false} DedupeKeepsOrder<T>(s: seq<T>, n: nat)
    requires n <= |s|
    ensures Dedupe(s[..n]) <= Dedupe(s)
  {
    if n == |s| {
      assert s[..n] == s;
    } else {
      var t := s[..|s| - 1];
      DedupeKeepsOrder(t, n);
      assert t[..n] == s[..n];
    }
  }
}
