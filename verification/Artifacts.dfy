/**
 The artifact tables behind projected events: reply artifacts, which name resources that
 tool calls produced, and inline artifacts, whose map payloads link to them.
 */
module Artifacts {
  import opened Basics
  import opened Text
  import opened Sanitizer
  import opened MapCard
  import opened Directives
  import Lifecycle

  // ----- Candidates -----------------------------------------------------------

  datatype InlineCandidate = InlineCandidate(ref: string, kind: string, payload: Json)

  /** `freshId` is the identifier a new row for this candidate would be given. */
  datatype ReplyCandidate = ReplyCandidate(uri: string, mime: Option<string>, size: Option<int>, freshId: string)

  datatype Event = Event(kind: Lifecycle.EventKind, thread: string, turn: Option<string>, item: Option<string>,
                         payload: Json, replies: seq<ReplyCandidate>, inline: Option<InlineCandidate>)

  const MAP_KIND := "map.v3"

  predicate TextWithin(s: string, most: nat) {
    0 < |s| <= most && forall i :: 0 <= i < |s| ==> !IsControl(s[i])
  }

  predicate WarningOk(warning: Json) {
    && warning.Obj? && warning.fields.Keys <= {"code", "path", "message"} && 2 <= |warning.fields| <= 3
    && warning.GetStr("code") in {Some("ignored_extra_input"), Some("mapbox_style_warning")}
    && warning.GetStr("path").Some? && TextWithin(warning.GetStr("path").value, 512)
    && (warning.Get("message").Some? ==>
          warning.GetStr("message").Some? && TextWithin(warning.GetStr("message").value, 1024))
  }

  predicate WarningsOk(structured: Json) {
    var warnings := structured.Get("warnings");
    warnings.Some? ==> warnings.value.Arr? && forall i :: 0 <= i < |warnings.value.items| ==>
      WarningOk(warnings.value.items[i])
  }

  predicate EmbedOk(structured: Json, ref: string) {
    && var embed := structured.Get("embed");
    && embed.Some? && embed.value.Obj? && embed.value.fields.Keys <= {"syntax", "code"}
    && embed.value.GetStr("syntax") == Some("codex-inline-vis.artifact.v1")
    && embed.value.GetStr("code") == Some(EmbedCode(ref))
  }

  function AcceptRenderer(artifact: Json): Option<InlineCandidate> {
    var ref :- artifact.GetStr("ref");
    var renderer :- artifact.Get("renderer");
    if !IsCardIdentifier(Trim(ref)) || !renderer.Obj? || !(renderer.fields.Keys <= {"kind", "payload"}) then None
    else
      var kind :- renderer.GetStr("kind");
      var payload :- renderer.Get("payload");
      if !payload.Obj? || Trim(kind) != MAP_KIND then None
      else
        var card :- ProjectCard(payload.fields);
        Some(InlineCandidate(Trim(ref), Trim(kind), card))
  }

  /** The inline artifact a tool call's structured result declares, if it is acceptable. */
  function AcceptArtifact(structured: Json): Option<InlineCandidate> {
    if || structured.GetStr("type") != Some("open-web-artifact")
       || structured.GetStr("kind") != Some("inline-visualization.v1")
       || !(structured.fields.Keys <= {"type", "kind", "artifact", "embed", "warnings"}) || !WarningsOk(structured)
    then None
    else
      var artifact :- structured.Get("artifact");
      if !artifact.Obj? || !(artifact.fields.Keys <= {"ref", "renderer"}) then None
      else
        var candidate :- AcceptRenderer(artifact);
        if EmbedOk(structured, candidate.ref) then Some(candidate) else None
  }

  lemma AcceptedEmbeds(structured: Json)
    requires AcceptArtifact(structured).Some?
    ensures EmbedOk(structured, AcceptArtifact(structured).value.ref)
    ensures IsCardIdentifier(AcceptArtifact(structured).value.ref)
  {
  }

  /** The embed code, pasted on a line of its own after settled text, brings in exactly the reference. */
  ghost predicate CodeExtracts(structured: Json, ref: string, p: string, s: string) {
    && structured.Get("embed").Some? && structured.fields["embed"].GetStr("code").Some?
    && var code := structured.fields["embed"].GetStr("code").value;
    Refs(code) == [ref] && Refs(p + (code + "\n" + s)) == Dedupe(Refs(p) + Dedupe([ref] + Refs(s)))
  }

  lemma EmbedExtracts(structured: Json, ref: string, p: string, s: string)
    requires EmbedOk(structured, ref) && IsCardIdentifier(ref) && Settled(p)
    ensures CodeExtracts(structured, ref, p, s)
  {
    EmbedIsExtracted(p, ref, s);
  }

  /** The embed code of an accepted artifact brings in exactly that artifact. */
  lemma AcceptedCodeExtracts(structured: Json, p: string, s: string)
    requires AcceptArtifact(structured).Some? && Settled(p)
    ensures CodeExtracts(structured, AcceptArtifact(structured).value.ref, p, s)
  {
    AcceptedEmbeds(structured);
    EmbedExtracts(structured, AcceptArtifact(structured).value.ref, p, s);
  }

  /** The payload came out of the card projection. */
  ghost predicate IsCard(payload: Json) {
    exists card :: ProjectCard(card) == Some(payload)
  }

  /** The event's inline candidate was accepted. */
  ghost predicate Projected(e: Event) {
    e.inline.Some? ==> IsCard(e.inline.value.payload) && e.inline.value.kind == MAP_KIND
  }

  lemma AcceptedIsProjected(structured: Json, e: Event)
    requires e.inline == AcceptArtifact(structured)
    ensures Projected(e)
  {
    if e.inline.Some? {
      var card := structured.fields["artifact"].fields["renderer"].fields["payload"].fields;
      assert ProjectCard(card) == Some(e.inline.value.payload);
    }
  }

  // ----- Store ---------------------------------------------------------------

  datatype ReplyState = ReplyPending | ReplyReady | ReplyFailed

  datatype ReplyKey = ReplyKey(run: string, thread: string, server: string, uri: string)

  datatype ReplyRow = ReplyRow(id: string, turn: string, producer: string, mime: Option<string>, size: Option<int>,
                               state: ReplyState)

  datatype InlineKey = InlineKey(run: string, ref: string)

  datatype InlineRow = InlineRow(thread: string, turn: string, producer: string, kind: string, payload: Json,
                                 ready: bool)

  type Replies = map<ReplyKey, ReplyRow>

  type Inlines = map<InlineKey, InlineRow>

  // ----- Registering replies --------------------------------------------------

  predicate IsToolResult(e: Event) {
    e.kind.ItemCompleted? && e.payload.GetStr("itemType") == Some("mcpToolCall") && e.turn.Some? && e.item.Some?
  }

  function ServerOf(e: Event): Option<string> {
    var data :- e.payload.Get("data");
    var server :- data.GetStr("server");
    if Trim(server) != "" then Some(Trim(server)) else None
  }

  function KeyFor(run: string, e: Event, server: string, uri: string): ReplyKey {
    ReplyKey(run, e.thread, server, uri)
  }

  function NewRow(e: Event, c: ReplyCandidate): ReplyRow
    requires e.turn.Some? && e.item.Some?
  {
    ReplyRow(c.freshId, e.turn.value, e.item.value, c.mime, c.size, ReplyPending)
  }

  function RegisterOne(replies: Replies, key: ReplyKey, e: Event, c: ReplyCandidate): Replies
    requires e.turn.Some? && e.item.Some?
  {
    if key !in replies then replies[key := NewRow(e, c)]
    else if replies[key].producer == e.item.value then replies
    else replies[key := replies[key].(state := ReplyFailed)]
  }

  function RegisterUpTo(replies: Replies, run: string, e: Event, server: string, n: nat): Replies
    requires e.turn.Some? && e.item.Some? && n <= |e.replies|
  {
    if n == 0 then replies
    else
      var c := e.replies[n - 1];
      RegisterOne(RegisterUpTo(replies, run, e, server, n - 1), KeyFor(run, e, server, c.uri), e, c)
  }

  function RegisterReplies(replies: Replies, run: string, e: Event): Replies {
    if IsToolResult(e) && ServerOf(e).Some?
    then RegisterUpTo(replies, run, e, ServerOf(e).value, |e.replies|)
    else replies
  }

  /** One of the first `n` candidates has this key. */
  ghost predicate Names(e: Event, run: string, server: string, n: nat, key: ReplyKey)
    requires n <= |e.replies|
  {
    exists j :: 0 <= j < n && key == KeyFor(run, e, server, e.replies[j].uri)
  }

  /** The event registers this key. */
  ghost predicate Registers(e: Event, run: string, key: ReplyKey) {
    IsToolResult(e) && ServerOf(e).Some? && Names(e, run, ServerOf(e).value, |e.replies|, key)
  }

  /** What registering does to one row. */
  ghost predicate RowAfter(before: Replies, after: Replies, key: ReplyKey, named: bool, producer: string) {
    if !named then (key in after <==> key in before) && (key in before ==> after[key] == before[key])
    else if key !in before then key in after && after[key].producer == producer && after[key].state.ReplyPending?
    else
      && key in after
      && after[key] == if before[key].producer == producer then before[key] else before[key].(state := ReplyFailed)
  }

  lemma {:induction false} RegisteredUpTo(replies: Replies, run: string, e: Event, server: string, n: nat,
                                          key: ReplyKey)
    requires e.turn.Some? && e.item.Some? && n <= |e.replies|
    ensures RowAfter(replies, RegisterUpTo(replies, run, e, server, n), key, Names(e, run, server, n, key),
                     e.item.value)
  {
    if n == 0 {
    } else {
      RegisteredUpTo(replies, run, e, server, n - 1, key);
      assert Names(e, run, server, n, key) <==>
             Names(e, run, server, n - 1, key) || key == KeyFor(run, e, server, e.replies[n - 1].uri);
    }
  }

  /** Candidate `j` is the first of its key. */
  ghost predicate IsFirst(e: Event, run: string, server: string, j: nat)
    requires j < |e.replies|
  {
    !Names(e, run, server, j, KeyFor(run, e, server, e.replies[j].uri))
  }

  /** A new row is made from the first candidate with its key; repetitions add nothing. */
  lemma {:induction false} FirstCandidateWins(replies: Replies, run: string, e: Event, server: string, n: nat, j: nat)
    requires e.turn.Some? && e.item.Some? && j < n <= |e.replies| && IsFirst(e, run, server, j)
    requires KeyFor(run, e, server, e.replies[j].uri) !in replies
    ensures KeyFor(run, e, server, e.replies[j].uri) in RegisterUpTo(replies, run, e, server, n)
    ensures var c := e.replies[j];
            RegisterUpTo(replies, run, e, server, n)[KeyFor(run, e, server, c.uri)] ==
              ReplyRow(c.freshId, e.turn.value, e.item.value, c.mime, c.size, ReplyPending)
  {
    if j + 1 < n {
      FirstCandidateWins(replies, run, e, server, n - 1, j);
    } else {
      RegisteredUpTo(replies, run, e, server, j, KeyFor(run, e, server, e.replies[j].uri));
    }
  }

  lemma RowRegistered(replies: Replies, run: string, e: Event, key: ReplyKey)
    ensures RowAfter(replies, RegisterReplies(replies, run, e), key, Registers(e, run, key), e.item.GetOr(""))
  {
    if IsToolResult(e) && ServerOf(e).Some? { RegisteredUpTo(replies, run, e, ServerOf(e).value, |e.replies|, key); }
  }

  // ----- Resolving resources --------------------------------------------------

  /** The server and uri of a source that is an unresolved resource. */
  function ResourceOf(source: Json): Option<(string, string)> {
    var data :- source.Get("data");
    if data.GetStr("type") != Some("mcp_resource") then None
    else
      var server :- data.GetStr("server");
      var uri :- data.GetStr("uri");
      Some((server, uri))
  }

  /** Where the resources of a payload are looked up. */
  datatype Scope = Scope(run: string, thread: string, producer: string)

  predicate Available(replies: Replies, scope: Scope, resource: (string, string)) {
    var key := ReplyKey(scope.run, scope.thread, resource.0, resource.1);
    key in replies && replies[key].producer != scope.producer && !replies[key].state.ReplyFailed?
  }

  function ArtifactData(run: string, row: ReplyRow): Json {
    Obj(map["type" := Str("artifact"), "format" := Str("geojson"), "artifact_id" := Str(row.id),
            "mime_type" := if row.mime.Some? then Str(row.mime.value) else Null,
            "url" := Str("/api/runs/" + run + "/artifacts/" + row.id)])
  }

  /** The source with its resource, if it is one, replaced by a link; nothing if it is unavailable. */
  function ResolveSource(replies: Replies, scope: Scope, source: Json): Option<Json> {
    match ResourceOf(source)
    case None => Some(source)
    case Some(resource) =>
      if Available(replies, scope, resource)
      then
        var row := replies[ReplyKey(scope.run, scope.thread, resource.0, resource.1)];
        Some(Obj(source.fields["data" := ArtifactData(scope.run, row)]))
      else None
  }

  function Resolver(replies: Replies, scope: Scope): Json -> Option<Json> {
    source => ResolveSource(replies, scope, source)
  }

  function ResolvePayload(replies: Replies, scope: Scope, payload: Json): Option<Json> {
    match payload.Get("sources")
    case Some(Obj(sources)) =>
      var resolved :- ProjectAll(sources, Resolver(replies, scope));
      Some(Obj(payload.fields["sources" := Obj(resolved)]))
    case _ => Some(payload)
  }

  // ----- Registering an inline artifact ---------------------------------------

  function RowFor(e: Event, payload: Json): InlineRow
    requires e.turn.Some? && e.item.Some? && e.inline.Some?
  {
    InlineRow(e.thread, e.turn.value, e.item.value, e.inline.value.kind, payload, true)
  }

  predicate SameArtifact(a: InlineRow, b: InlineRow) {
    a.producer == b.producer && a.kind == b.kind && a.payload == b.payload
  }

  /** The inline table after the event, or nothing if the registration is refused. */
  function RegisterInline(replies: Replies, inlines: Inlines, run: string, e: Event): Option<Inlines> {
    if !IsToolResult(e) || e.inline.None? then Some(inlines)
    else
      var c := e.inline.value;
      if c.kind != MAP_KIND then None
      else
        var payload :- ResolvePayload(replies, Scope(run, e.thread, e.item.value), c.payload);
        var key, row := InlineKey(run, c.ref), RowFor(e, payload);
        if key !in inlines then Some(inlines[key := row])
        else if SameArtifact(inlines[key], row) then Some(inlines)
        else None
  }

  datatype Store = Store(replies: Replies, inlines: Inlines)

  /** The artifact part of one event, all or nothing. */
  function Register(t: Store, run: string, e: Event): Option<Store> {
    var replies := RegisterReplies(t.replies, run, e);
    var inlines :- RegisterInline(replies, t.inlines, run, e);
    Some(Store(replies, inlines))
  }

  // ----- Histories ------------------------------------------------------------

  /** A frame for a run, or a reader fetching the content of a pending reply artifact. */
  datatype Step = Frame(run: string, event: Event) | Fetched(key: ReplyKey)

  function Next(t: Store, step: Step): Store {
    match step
    case Frame(run, e) => Register(t, run, e).GetOr(t)
    case Fetched(key) =>
      if key in t.replies && t.replies[key].state.ReplyPending?
      then t.(replies := t.replies[key := t.replies[key].(state := ReplyReady)])
      else t
  }

  function Replay(t: Store, history: seq<Step>, n: nat): Store
    requires n <= |history|
  {
    if n == 0 then t else Next(Replay(t, history, n - 1), history[n - 1])
  }

  /** The row still describes the same artifact, and once failed it is failed. */
  ghost predicate RowKept(before: ReplyRow, after: ReplyRow) {
    after == before.(state := after.state) && (before.state.ReplyFailed? ==> after.state.ReplyFailed?)
  }

  ghost predicate RepliesKept(before: Replies, after: Replies) {
    forall k :: k in before ==> k in after && RowKept(before[k], after[k])
  }

  ghost predicate InlinesKept(before: Inlines, after: Inlines) {
    forall k :: k in before ==> k in after && after[k] == before[k]
  }

  lemma StepKeeps(t: Store, step: Step)
    ensures RepliesKept(t.replies, Next(t, step).replies) && InlinesKept(t.inlines, Next(t, step).inlines)
  {
    if step.Frame? {
      forall k | k in t.replies
        ensures k in RegisterReplies(t.replies, step.run, step.event)
                && RowKept(t.replies[k], RegisterReplies(t.replies, step.run, step.event)[k])
      {
        RowRegistered(t.replies, step.run, step.event, k);
      }
    }
  }

  /** First producers, failures and inline contents last through every history. */
  lemma {:induction false} HistoryKeeps(t: Store, history: seq<Step>, i: nat, n: nat)
    requires i <= n <= |history|
    ensures RepliesKept(Replay(t, history, i).replies, Replay(t, history, n).replies)
    ensures InlinesKept(Replay(t, history, i).inlines, Replay(t, history, n).inlines)
  {
    if i == n {
    } else {
      HistoryKeeps(t, history, i, n - 1);
      StepKeeps(Replay(t, history, n - 1), history[n - 1]);
    }
  }
}
