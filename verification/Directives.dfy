/** The fence-aware scan of a message for embedded artifact directives. */
module Directives {
  import opened Basics
  import opened Text

  const PREFIX := "::codex-inline-vis{artifact=\""
  const SUFFIX := "\"}"

  /** The text that embeds an artifact. */
  function EmbedCode(ref: string): string { PREFIX + ref + SUFFIX }

  // ----- Lines ----------------------------------------------------------------

  function LineEnd(text: string, i: nat): (e: nat)
    requires i <= |text|
    ensures i <= e <= |text| && (e < |text| ==> text[e] == '\n')
    ensures forall k :: i <= k < e ==> text[k] != '\n'
    decreases |text| - i
  {
    if i == |text| || text[i] == '\n' then i else LineEnd(text, i + 1)
  }

  function Lines(text: string): seq<string> {
    if text == "" then []
    else
      var e := LineEnd(text, 0);
      [text[..e]] + if e < |text| then Lines(text[e + 1..]) else []
  }

  /** The text is empty or ends its last line. */
  predicate EndsLine(text: string) {
    text == "" || text[|text| - 1] == '\n'
  }

  lemma Associates<T>(a: seq<T>, b: seq<T>, c: seq<T>)
    ensures (a + b) + c == a + (b + c)
  {
  }

  lemma FirstLine(line: string, rest: string)
    requires '\n' !in line
    ensures Lines(line + "\n" + rest) == [line] + Lines(rest)
  {
    var text := line + "\n" + rest;
    assert text[|line|] == '\n' && forall k :: 0 <= k < |line| ==> text[k] == line[k] && line[k] in line;
    assert LineEnd(text, 0) == |line| && text[..|line|] == line && text[|line| + 1..] == rest;
  }

  lemma SplitFirstLine(p: string) returns (line: string, rest: string)
    requires p != "" && EndsLine(p)
    ensures p == line + "\n" + rest && '\n' !in line && EndsLine(rest) && |rest| < |p|
  {
    var e := LineEnd(p, 0);
    line, rest := p[..e], p[e + 1..];
  }

  lemma {:induction false} LinesJoin(p: string, s: string)
    requires EndsLine(p)
    ensures Lines(p + s) == Lines(p) + Lines(s)
    decreases |p|
  {
    if p == "" {
      assert p + s == s;
    } else {
      var line, rest := SplitFirstLine(p);
      LinesJoin(rest, s);
      FirstLine(line, rest);
      FirstLine(line, rest + s);
      Associates(line + "\n", rest, s);
      Associates([line], Lines(rest), Lines(s));
    }
  }

  lemma OneLine(text: string)
    requires text != "" && '\n' !in text
    ensures Lines(text) == [text] && Lines(text + "\n") == [text]
  {
    var ended := text + "\n";
    assert ended[|text|] == '\n' && forall k :: 0 <= k < |text| ==> ended[k] == text[k] && text[k] in text;
    assert LineEnd(ended, 0) == |text| && LineEnd(text, 0) == |text|;
    assert ended[..|text|] == text && ended[|text| + 1..] == "" && text[..|text|] == text;
  }

  // ----- One line -------------------------------------------------------------

  function DropReturns(line: string): string {
    if line != "" && line[|line| - 1] == '\r' then DropReturns(line[..|line| - 1]) else line
  }

  /** How many times `c` is repeated from position `i`. */
  function RunLength(line: string, i: nat, c: char): (n: nat)
    requires i <= |line|
    ensures i + n <= |line|
    decreases |line| - i
  {
    if i < |line| && line[i] == c then 1 + RunLength(line, i + 1, c) else 0
  }

  datatype Kind = Marker(c: char, length: nat) | Directive(ref: string) | Other

  function DirectiveOf(line: string): Kind {
    var text := Trim(line);
    if StartsWith(text, PREFIX) && EndsWith(text[|PREFIX|..], SUFFIX)
    then
      var ref := text[|PREFIX|..|text| - |SUFFIX|];
      if IsCardIdentifier(ref) then Directive(ref) else Other
    else Other
  }

  /** A fence marker, a directive that counts outside fences, or anything else. */
  function Classify(sourceLine: string): Kind {
    var line := DropReturns(sourceLine);
    var spaces := RunLength(line, 0, ' ');
    if spaces <= 3 && spaces < |line| && line[spaces] in {'`', '~'} && RunLength(line, spaces, line[spaces]) >= 3
    then Marker(line[spaces], RunLength(line, spaces, line[spaces]))
    else if spaces >= 4 || (line != "" && line[0] == '\t') then Other
    else DirectiveOf(line)
  }

  /** From position `i` the line has exactly `n` times `c`. */
  ghost predicate HasRun(line: string, i: nat, c: char, n: nat) {
    && i + n <= |line| && (forall k :: i <= k < i + n ==> line[k] == c)
    && (i + n < |line| ==> line[i + n] != c)
  }

  lemma {:induction false} RunLengthIsRun(line: string, i: nat, c: char, n: nat)
    requires i <= |line|
    ensures HasRun(line, i, c, RunLength(line, i, c))
    ensures HasRun(line, i, c, n) ==> n == RunLength(line, i, c)
    decreases |line| - i
  {
    if i < |line| && line[i] == c { RunLengthIsRun(line, i + 1, c, if n > 0 then n - 1 else 0); }
  }

  /** At most three spaces, then exactly `n` of the fence character, three or more. */
  ghost predicate IsFenceLine(line: string, spaces: nat, c: char, n: nat) {
    spaces <= 3 && HasRun(line, 0, ' ', spaces) && c in {'`', '~'} && n >= 3 && HasRun(line, spaces, c, n)
  }

  ghost predicate Fences(line: string, c: char, n: nat) {
    exists spaces: nat :: IsFenceLine(line, spaces, c, n)
  }

  lemma FenceLineIsMarker(sourceLine: string, spaces: nat, c: char, n: nat)
    requires IsFenceLine(DropReturns(sourceLine), spaces, c, n)
    ensures Classify(sourceLine) == Marker(c, n)
  {
    var line := DropReturns(sourceLine);
    RunLengthIsRun(line, 0, ' ', spaces);
    RunLengthIsRun(line, spaces, c, n);
    assert line[spaces] == c;
  }

  /** The fence markers are exactly those lines, up to trailing carriage returns. */
  lemma MarkerIffFenceLine(sourceLine: string, c: char, n: nat)
    ensures Classify(sourceLine) == Marker(c, n) <==> Fences(DropReturns(sourceLine), c, n)
  {
    var line := DropReturns(sourceLine);
    var spaces := RunLength(line, 0, ' ');
    RunLengthIsRun(line, 0, ' ', 0);
    RunLengthIsRun(line, spaces, c, n);
    if Classify(sourceLine) == Marker(c, n) {
      assert IsFenceLine(line, spaces, c, n);
    } else if k: nat :| IsFenceLine(line, k, c, n) {
      FenceLineIsMarker(sourceLine, k, c, n);
    }
  }

  // ----- The scan -------------------------------------------------------------

  type Fence = Option<(char, nat)>

  function NextFence(fence: Fence, kind: Kind): Fence {
    if !kind.Marker? then fence
    else if fence.None? then Some((kind.c, kind.length))
    else if fence.value.0 == kind.c && kind.length >= fence.value.1 then None
    else fence
  }

  /** The fence that is open after these lines. */
  function FenceAfter(kinds: seq<Kind>): Fence {
    if kinds == [] then None else NextFence(FenceAfter(kinds[..|kinds| - 1]), kinds[|kinds| - 1])
  }

  /** The directives on these lines that stand outside every fence. */
  function Visible(kinds: seq<Kind>): seq<string> {
    if kinds == [] then []
    else
      var before, last := kinds[..|kinds| - 1], kinds[|kinds| - 1];
      if last.Directive? && FenceAfter(before).None? then Visible(before) + [last.ref] else Visible(before)
  }

  /** The first occurrence of every element. */
  function Dedupe<T(==)>(s: seq<T>): seq<T> {
    if s == [] then []
    else
      var d, x := Dedupe(s[..|s| - 1]), s[|s| - 1];
      if x in d then d else d + [x]
  }

  function Kinds(text: string): (kinds: seq<Kind>)
    ensures |kinds| == |Lines(text)|
    ensures forall i {:trigger Classify(Lines(text)[i])} :: 0 <= i < |kinds| ==> kinds[i] == Classify(Lines(text)[i])
  {
    seq(|Lines(text)|, i requires 0 <= i < |Lines(text)| => Classify(Lines(text)[i]))
  }

  function Refs(markdown: string): seq<string> { Dedupe(Visible(Kinds(markdown))) }

  /** The open fence and the references found on the lines scanned so far. */
  ghost predicate Scanned(done: seq<Kind>, fence: Fence, refs: seq<string>) {
    fence == FenceAfter(done) && refs == Dedupe(Visible(done))
  }

  method ScanLine(ghost done: seq<Kind>, kind: Kind, fence: Fence, refs: seq<string>)
    returns (fence': Fence, refs': seq<string>)
    requires Scanned(done, fence, refs)
    ensures Scanned(done + [kind], fence', refs')
  {
    ScanOne(done, kind);
    fence', refs' := NextFence(fence, kind), refs;
    if kind.Directive? && fence.None? && kind.ref !in refs { refs' := refs + [kind.ref]; }
  }

  /** One pass over the lines, classifying each. */
  method ScanLines<Line>(lines: seq<Line>, classify: Line -> Kind) returns (refs: seq<string>, ghost kinds: seq<Kind>)
    ensures |kinds| == |lines| && forall k :: 0 <= k < |lines| ==> kinds[k] == classify(lines[k])
    ensures refs == Dedupe(Visible(kinds))
  {
    refs, kinds := [], [];
    var fence: Fence := None;
    for i := 0 to |lines|
      invariant |kinds| == i && forall k :: 0 <= k < i ==> kinds[k] == classify(lines[k])
      invariant Scanned(kinds, fence, refs)
    {
      var kind := classify(lines[i]);
      fence, refs := ScanLine(kinds, kind, fence, refs);
      kinds := kinds + [kind];
    }
  }

  method InlineArtifactRefs(markdown: string) returns (refs: seq<string>)
    ensures refs == Refs(markdown)
  {
    ghost var kinds;
    refs, kinds := ScanLines(Lines(markdown), Classify);
    assert kinds == Kinds(markdown);
  }

  lemma ScanOne(done: seq<Kind>, kind: Kind)
    ensures FenceAfter(done + [kind]) == NextFence(FenceAfter(done), kind)
    ensures var refs := Dedupe(Visible(done));
            Dedupe(Visible(done + [kind])) ==
              if kind.Directive? && FenceAfter(done).None? && kind.ref !in refs then refs + [kind.ref] else refs
  {
    VisibleSnoc(done, kind);
    if kind.Directive? && FenceAfter(done).None? { DedupeSnoc(Visible(done), kind.ref); }
  }

  lemma VisibleSnoc(done: seq<Kind>, kind: Kind)
    ensures FenceAfter(done + [kind]) == NextFence(FenceAfter(done), kind)
    ensures Visible(done + [kind]) ==
              if kind.Directive? && FenceAfter(done).None? then Visible(done) + [kind.ref] else Visible(done)
  {
    assert (done + [kind])[..|done|] == done;
  }

  // ----- Composition ----------------------------------------------------------

  lemma DedupeSnoc<T>(s: seq<T>, x: T)
    ensures Dedupe(s + [x]) == if x in Dedupe(s) then Dedupe(s) else Dedupe(s) + [x]
  {
    assert (s + [x])[..|s|] == s;
  }

  lemma {:induction false} DedupeMember<T>(s: seq<T>, x: T)
    ensures x in Dedupe(s) <==> x in s
  {
    if s == [] {
    } else {
      DedupeMember(s[..|s| - 1], x);
      DedupeMember(s[..|s| - 1], s[|s| - 1]);
      assert s == s[..|s| - 1] + [s[|s| - 1]];
    }
  }

  lemma {:induction false} DedupeTwice<T>(s: seq<T>)
    ensures Dedupe(Dedupe(s)) == Dedupe(s)
  {
    if s == [] {
    } else {
      var d, x := Dedupe(s[..|s| - 1]), s[|s| - 1];
      DedupeTwice(s[..|s| - 1]);
      if x !in d { DedupeSnoc(d, x); }
    }
  }

  lemma DedupeJoinStep<T>(a: seq<T>, b: seq<T>, x: T)
    requires Dedupe(Dedupe(a) + Dedupe(b)) == Dedupe(a + b)
    ensures Dedupe(Dedupe(a) + Dedupe(b + [x])) == Dedupe((a + b) + [x])
  {
    DedupeSnoc(a + b, x);
    DedupeSnoc(b, x);
    if x in Dedupe(b) {
      DedupeMember(b, x);
      DedupeMember(a + b, x);
    } else {
      DedupeSnoc(Dedupe(a) + Dedupe(b), x);
      Associates(Dedupe(a), Dedupe(b), [x]);
    }
  }

  lemma {:induction false} DedupeJoin<T>(a: seq<T>, b: seq<T>)
    ensures Dedupe(Dedupe(a) + Dedupe(b)) == Dedupe(a + b)
  {
    if b == [] {
      assert a + b == a && Dedupe(a) + Dedupe(b) == Dedupe(a);
      DedupeTwice(a);
    } else {
      var b', x := b[..|b| - 1], b[|b| - 1];
      DedupeJoin(a, b');
      DedupeJoinStep(a, b', x);
      Associates(a, b', [x]);
      assert b == b' + [x];
    }
  }

  /** The second part is scanned as if it stood alone. */
  ghost predicate Joins(p: seq<Kind>, s: seq<Kind>, whole: seq<Kind>) {
    FenceAfter(whole) == FenceAfter(s) && Visible(whole) == Visible(p) + Visible(s)
  }

  lemma JoinsOneMore(p: seq<Kind>, s: seq<Kind>, whole: seq<Kind>, x: Kind)
    requires Joins(p, s, whole)
    ensures Joins(p, s + [x], whole + [x])
  {
    VisibleSnoc(whole, x);
    VisibleSnoc(s, x);
    if x.Directive? { Associates(Visible(p), Visible(s), [x.ref]); }
  }

  /** After a prefix that leaves no fence open, scanning starts afresh. */
  lemma {:induction false} VisibleJoins(p: seq<Kind>, s: seq<Kind>)
    requires FenceAfter(p).None?
    ensures Joins(p, s, p + s)
  {
    if s == [] {
      assert p + s == p;
    } else {
      var b, x := s[..|s| - 1], s[|s| - 1];
      VisibleJoins(p, b);
      JoinsOneMore(p, b, p + b, x);
      assert s == b + [x];
      Associates(p, b, [x]);
    }
  }

  /** The text ends its last line and leaves no fence open. */
  ghost predicate Settled(p: string) {
    EndsLine(p) && FenceAfter(Kinds(p)).None?
  }

  lemma KindsJoin(p: string, s: string)
    requires EndsLine(p)
    ensures Kinds(p + s) == Kinds(p) + Kinds(s)
  {
    LinesJoin(p, s);
    forall i | 0 <= i < |Kinds(p + s)| ensures Kinds(p + s)[i] == (Kinds(p) + Kinds(s))[i] {
      assert Kinds(p + s)[i] == Classify(Lines(p + s)[i]);
      assert i < |Kinds(p)| ==> Kinds(p)[i] == Classify(Lines(p)[i]);
      assert i >= |Kinds(p)| ==> Kinds(s)[i - |Kinds(p)|] == Classify(Lines(s)[i - |Kinds(p)|]);
    }
  }

  lemma SettledJoins(p: string, s: string)
    requires Settled(p)
    ensures Visible(Kinds(p + s)) == Visible(Kinds(p)) + Visible(Kinds(s))
  {
    KindsJoin(p, s);
    VisibleJoins(Kinds(p), Kinds(s));
  }

  lemma RefsJoin(p: string, s: string)
    requires Settled(p)
    ensures Refs(p + s) == Dedupe(Refs(p) + Refs(s))
  {
    SettledJoins(p, s);
    DedupeJoin(Visible(Kinds(p)), Visible(Kinds(s)));
  }

  // ----- Fenced blocks --------------------------------------------------------

  /** An opening marker, lines that do not close it, and one that does. */
  ghost predicate IsBlock(kinds: seq<Kind>) {
    && |kinds| >= 2 && kinds[0].Marker? && Closes(kinds[|kinds| - 1], kinds[0])
    && forall i :: 0 < i < |kinds| - 1 ==> !Closes(kinds[i], kinds[0])
  }

  /** The same character, at least as often. */
  ghost predicate Closes(kind: Kind, opening: Kind)
    requires opening.Marker?
  {
    kind.Marker? && kind.c == opening.c && kind.length >= opening.length
  }

  lemma {:induction false} BlockStaysOpen(kinds: seq<Kind>, n: nat)
    requires IsBlock(kinds) && 0 < n < |kinds|
    ensures FenceAfter(kinds[..n]) == Some((kinds[0].c, kinds[0].length)) && Visible(kinds[..n]) == []
  {
    if n == 1 {
      assert kinds[..1] == [kinds[0]] && [kinds[0]][..0] == [];
    } else {
      BlockStaysOpen(kinds, n - 1);
      assert kinds[..n][..n - 1] == kinds[..n - 1];
    }
  }

  lemma BlockIsBlank(kinds: seq<Kind>)
    requires IsBlock(kinds)
    ensures Visible(kinds) == [] && FenceAfter(kinds).None?
  {
    BlockStaysOpen(kinds, |kinds| - 1);
  }

  lemma BlockAddsNothing(block: string, s: string)
    requires EndsLine(block) && IsBlock(Kinds(block))
    ensures Visible(Kinds(block + s)) == Visible(Kinds(s))
  {
    BlockIsBlank(Kinds(block));
    SettledJoins(block, s);
    assert [] + Visible(Kinds(s)) == Visible(Kinds(s));
  }

  /** Inserting a closed fenced block after settled text changes no reference. */
  lemma BlockIsInvisible(p: string, block: string, s: string)
    requires Settled(p) && EndsLine(block) && IsBlock(Kinds(block))
    ensures Refs(p + (block + s)) == Refs(p + s)
  {
    var rest := block + s;
    BlockAddsNothing(block, s);
    SettledJoins(p, rest);
    SettledJoins(p, s);
  }

  // ----- Embedding ------------------------------------------------------------

  lemma EmbedCharacters(ref: string)
    requires IsCardIdentifier(ref)
    ensures EmbedCode(ref)[0] == ':' && EmbedCode(ref)[|EmbedCode(ref)| - 1] == '}'
    ensures '\n' !in EmbedCode(ref)
  {
    assert '\n' !in PREFIX && '\n' !in SUFFIX && '\n' !in ref;
  }

  lemma EmbedIsDirective(ref: string)
    requires IsCardIdentifier(ref)
    ensures Classify(EmbedCode(ref)) == Directive(ref)
  {
    var code := EmbedCode(ref);
    EmbedCharacters(ref);
    TrimIsTrimmed(code);
    assert DropReturns(code) == code && RunLength(code, 0, ' ') == 0 && Trim(code) == code;
    assert code[|PREFIX|..] == ref + SUFFIX;
    assert (ref + SUFFIX)[|ref|..] == SUFFIX && code[|PREFIX|..|code| - |SUFFIX|] == ref;
  }

  lemma LoneDirective(kinds: seq<Kind>, ref: string)
    requires kinds == [Directive(ref)]
    ensures Visible(kinds) == [ref] && FenceAfter(kinds) == None
  {
    var none: seq<Kind> := kinds[..0];
    assert FenceAfter(none) == None && Visible(none) == [];
  }

  lemma LoneRef(ref: string)
    ensures Dedupe([ref]) == [ref]
  {
    DedupeSnoc([], ref);
    assert [] + [ref] == [ref];
  }

  lemma EmbedStandsAlone(ref: string)
    requires IsCardIdentifier(ref)
    ensures Refs(EmbedCode(ref)) == [ref] && Refs(EmbedCode(ref) + "\n") == [ref] && Settled(EmbedCode(ref) + "\n")
  {
    var code := EmbedCode(ref);
    EmbedCharacters(ref);
    EmbedIsDirective(ref);
    OneLine(code);
    assert Kinds(code) == [Directive(ref)] == Kinds(code + "\n");
    LoneDirective(Kinds(code), ref);
    LoneRef(ref);
  }

  /** An embed code on a line of its own after settled text adds exactly its reference. */
  lemma EmbedIsExtracted(p: string, ref: string, s: string)
    requires Settled(p) && IsCardIdentifier(ref)
    ensures Refs(p + (EmbedCode(ref) + "\n" + s)) == Dedupe(Refs(p) + Dedupe([ref] + Refs(s)))
    ensures Refs(EmbedCode(ref)) == [ref]
  {
    var line := EmbedCode(ref) + "\n";
    EmbedStandsAlone(ref);
    RefsJoin(line, s);
    RefsJoin(p, line + s);
  }
}
