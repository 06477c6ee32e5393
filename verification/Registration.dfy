/** Which artifacts a tool result declares and what registering them does, said of the fields. */
module Registration {
  import opened Basics
  import opened Text
  import opened Sanitizer
  import opened MapCard
  import opened CardRules
  import Lifecycle
  import opened Artifacts
  import opened ArtifactHistory

  // ----- Declared artifacts ---------------------------------------------------

  ghost predicate LineWithin(value: Json, most: nat) {
    value.Str? && 0 < |value.s| <= most && NoControls(value.s)
  }

  ghost predicate WarningIsOk(warning: Json) {
    && warning.Obj? && KeysAmong(warning.fields, {"code", "path", "message"})
    && (|| warning.Get("code") == Some(Str("ignored_extra_input"))
        || warning.Get("code") == Some(Str("mapbox_style_warning")))
    && "path" in warning.fields && LineWithin(warning.fields["path"], 512)
    && ("message" in warning.fields ==> LineWithin(warning.fields["message"], 1024))
  }

  ghost predicate WarningsAreOk(structured: Json) {
    structured.Get("warnings").Some? ==>
      && structured.fields["warnings"].Arr?
      && var items := structured.fields["warnings"].items;
      forall i :: 0 <= i < |items| ==> WarningIsOk(items[i])
  }

  ghost predicate EmbedIsOk(structured: Json, ref: string) {
    && structured.Get("embed").Some? && structured.fields["embed"].Obj?
    && var embed := structured.fields["embed"];
    && KeysAmong(embed.fields, {"syntax", "code"})
    && embed.Get("syntax") == Some(Str("codex-inline-vis.artifact.v1"))
    && embed.Get("code") == Some(Str("::codex-inline-vis{artifact=\"" + ref + "\"}"))
  }

  /** A renderer for maps with an acceptable card. */
  ghost predicate RendererIsOk(renderer: Json) {
    && renderer.Obj? && KeysAmong(renderer.fields, {"kind", "payload"}) && Reads(renderer.fields, "kind", "map.v3")
    && "payload" in renderer.fields && renderer.fields["payload"].Obj? && Acceptable(renderer.fields["payload"].fields)
  }

  ghost predicate ArtifactIsOk(artifact: Json, ref: string) {
    && artifact.Obj? && KeysAmong(artifact.fields, {"ref", "renderer"})
    && Reads(artifact.fields, "ref", ref) && IsIdentifier(ref)
    && "renderer" in artifact.fields && RendererIsOk(artifact.fields["renderer"])
  }

  /** The result declares a map under this reference, with the code that embeds it. */
  ghost predicate Declares(structured: Json, ref: string) {
    && structured.Get("type") == Some(Str("open-web-artifact"))
    && structured.Get("kind") == Some(Str("inline-visualization.v1"))
    && KeysAmong(structured.fields, {"type", "kind", "artifact", "embed", "warnings"}) && WarningsAreOk(structured)
    && structured.Get("artifact").Some? && ArtifactIsOk(structured.fields["artifact"], ref)
    && EmbedIsOk(structured, ref)
  }

  lemma TwoOrThreeFields(fields: Fields)
    requires "code" in fields && "path" in fields && KeysAmong(fields, {"code", "path", "message"})
    ensures 2 <= |fields| <= 3
  {
    var two, three := {"code", "path"}, {"code", "path", "message"};
    assert |two| == 2 && |three| == 3;
    SubsetIsSmaller(two, fields.Keys);
    SubsetIsSmaller(fields.Keys, three);
    assert |fields| == |fields.Keys|;
  }

  lemma {:induction false} SubsetIsSmaller(a: set<string>, b: set<string>)
    requires a <= b
    ensures |a| <= |b|
  {
    if a != {} {
      var x :| x in a;
      SubsetIsSmaller(a - {x}, b - {x});
    }
  }

  lemma WarningIff(warning: Json)
    ensures WarningOk(warning) <==> WarningIsOk(warning)
  {
    if WarningIsOk(warning) { TwoOrThreeFields(warning.fields); }
  }

  lemma WarningsIff(structured: Json)
    ensures WarningsOk(structured) <==> WarningsAreOk(structured)
  {
    var warnings := structured.Get("warnings");
    if warnings.Some? && warnings.value.Arr? {
      var items := warnings.value.items;
      forall i | 0 <= i < |items| ensures WarningOk(items[i]) <==> WarningIsOk(items[i]) { WarningIff(items[i]); }
    }
  }

  lemma EmbedIff(structured: Json, ref: string)
    ensures EmbedOk(structured, ref) <==> EmbedIsOk(structured, ref)
  {
  }

  lemma KindIff(fields: Fields)
    ensures ("kind" in fields && fields["kind"].Str? && Trim(fields["kind"].s) == MAP_KIND) <==>
              Reads(fields, "kind", "map.v3")
  {
    NonEmptyReads(fields, "kind", "map.v3");
  }

  /** The identifier the artifact's reference trims to. */
  lemma RefIff(fields: Fields, ref: string)
    ensures ("ref" in fields && fields["ref"].Str? && Trim(fields["ref"].s) == ref && IsCardIdentifier(ref)) <==>
              Reads(fields, "ref", ref) && IsIdentifier(ref)
  {
    NonEmptyReads(fields, "ref", ref);
  }

  /** What the acceptance asks of the renderer. */
  ghost predicate Renders(renderer: Json) {
    && renderer.Obj? && renderer.fields.Keys <= {"kind", "payload"}
    && "kind" in renderer.fields && renderer.fields["kind"].Str? && Trim(renderer.fields["kind"].s) == MAP_KIND
    && "payload" in renderer.fields && renderer.fields["payload"].Obj?
    && ProjectCard(renderer.fields["payload"].fields).Some?
  }

  lemma RendersIff(renderer: Json)
    ensures Renders(renderer) <==> RendererIsOk(renderer)
  {
    if renderer.Obj? {
      KindIff(renderer.fields);
      if "payload" in renderer.fields && renderer.fields["payload"].Obj? {
        CardRules.AcceptedIff(renderer.fields["payload"].fields);
      }
    }
  }

  /** The candidate that an accepted artifact yields. */
  ghost predicate Yields(artifact: Json, c: InlineCandidate) {
    && artifact.Obj? && "ref" in artifact.fields && artifact.fields["ref"].Str?
    && Trim(artifact.fields["ref"].s) == c.ref && IsCardIdentifier(c.ref)
    && "renderer" in artifact.fields && Renders(artifact.fields["renderer"]) && c.kind == MAP_KIND
    && ProjectCard(artifact.fields["renderer"].fields["payload"].fields) == Some(c.payload)
  }

  lemma RendererYields(artifact: Json, c: InlineCandidate)
    ensures AcceptRenderer(artifact) == Some(c) <==> Yields(artifact, c)
  {
    if artifact.GetStr("ref").Some? && artifact.Get("renderer").Some? {
      RendererReads(artifact, c);
    }
  }

  lemma RendererReads(artifact: Json, c: InlineCandidate)
    requires artifact.GetStr("ref").Some? && artifact.Get("renderer").Some?
    ensures AcceptRenderer(artifact) == Some(c) <==> Yields(artifact, c)
  {
    var ref, renderer := artifact.fields["ref"].s, artifact.fields["renderer"];
    if !Renders(renderer) {
      assert AcceptRenderer(artifact).None?;
    } else if IsCardIdentifier(Trim(ref)) {
      var card := ProjectCard(renderer.fields["payload"].fields).value;
      assert AcceptRenderer(artifact) == Some(InlineCandidate(Trim(ref), MAP_KIND, card));
    }
  }

  lemma YieldsIff(artifact: Json, ref: string)
    requires artifact.Obj? && KeysAmong(artifact.fields, {"ref", "renderer"})
    ensures (exists c :: Yields(artifact, c) && c.ref == ref) <==> ArtifactIsOk(artifact, ref)
  {
    RefIff(artifact.fields, ref);
    if "renderer" in artifact.fields {
      RendersIff(artifact.fields["renderer"]);
      if ArtifactIsOk(artifact, ref) {
        var payload := ProjectCard(artifact.fields["renderer"].fields["payload"].fields).value;
        assert Yields(artifact, InlineCandidate(ref, MAP_KIND, payload));
      }
    }
  }

  /** The structured result is an envelope around some artifact. */
  ghost predicate IsEnvelope(structured: Json) {
    && structured.Get("type") == Some(Str("open-web-artifact"))
    && structured.Get("kind") == Some(Str("inline-visualization.v1"))
    && KeysAmong(structured.fields, {"type", "kind", "artifact", "embed", "warnings"}) && WarningsAreOk(structured)
    && structured.Get("artifact").Some? && structured.fields["artifact"].Obj?
    && KeysAmong(structured.fields["artifact"].fields, {"ref", "renderer"})
  }

  lemma EnvelopeYields(structured: Json, c: InlineCandidate)
    ensures AcceptArtifact(structured) == Some(c) <==>
              IsEnvelope(structured) && Yields(structured.fields["artifact"], c) && EmbedIsOk(structured, c.ref)
  {
    WarningsIff(structured);
    EmbedIff(structured, c.ref);
    if IsEnvelope(structured) { RendererYields(structured.fields["artifact"], c); }
  }

  /** A structured result yields a candidate exactly when it declares one. */
  lemma DeclaredIff(structured: Json, ref: string)
    ensures (AcceptArtifact(structured).Some? && AcceptArtifact(structured).value.ref == ref) <==>
              Declares(structured, ref)
  {
    var accepted := AcceptArtifact(structured);
    if accepted.Some? { EnvelopeYields(structured, accepted.value); }
    if IsEnvelope(structured) {
      YieldsIff(structured.fields["artifact"], ref);
      if Declares(structured, ref) {
        var c :| Yields(structured.fields["artifact"], c) && c.ref == ref;
        EnvelopeYields(structured, c);
      }
    }
  }

  /** The candidate is the projection of the declared card, for the map renderer. */
  lemma CandidateIsDeclared(structured: Json)
    requires AcceptArtifact(structured).Some?
    ensures Declares(structured, AcceptArtifact(structured).value.ref)
    ensures AcceptArtifact(structured).value.kind == "map.v3"
    ensures ProjectCard(structured.fields["artifact"].fields["renderer"].fields["payload"].fields) ==
              Some(AcceptArtifact(structured).value.payload)
  {
    DeclaredIff(structured, AcceptArtifact(structured).value.ref);
    EnvelopeYields(structured, AcceptArtifact(structured).value);
  }

  // ----- Replies --------------------------------------------------------------

  ghost predicate IsToolCall(e: Event) {
    && e.kind == Lifecycle.ItemCompleted && e.payload.Get("itemType") == Some(Str("mcpToolCall"))
    && e.turn.Some? && e.item.Some?
  }

  /** A tool call of this server links to the address. */
  ghost predicate LinksReply(e: Event, server: string, uri: string) {
    && IsToolCall(e) && e.payload.Get("data").Some? && e.payload.fields["data"].Obj?
    && Reads(e.payload.fields["data"].fields, "server", server)
    && exists j :: 0 <= j < |e.replies| && e.replies[j].uri == uri
  }

  /** An event registers the addresses its own tool call links to, for its own run, thread and
      server, and nothing else. */
  lemma RegistersIff(e: Event, run: string, key: ReplyKey)
    ensures Registers(e, run, key) <==>
              key.run == run && key.thread == e.thread && LinksReply(e, key.server, key.uri)
  {
    var data := e.payload.Get("data");
    if data.Some? && data.value.Obj? {
      NonEmptyReads(data.value.fields, "server", key.server);
      var server := NonEmpty(data.value.fields, "server");
      assert ServerOf(e) == server;
    }
  }

  // ----- Resources ------------------------------------------------------------

  ghost predicate NamesResource(source: Json, server: string, uri: string) {
    && source.Get("data").Some?
    && var data := source.fields["data"];
    && data.Get("type") == Some(Str("mcp_resource"))
    && data.Get("server") == Some(Str(server)) && data.Get("uri") == Some(Str(uri))
  }

  /** Another item of the same run and thread registered this address of this server, and it
      has not failed. */
  ghost predicate IsAvailable(replies: Replies, scope: Scope, server: string, uri: string) {
    var key := ReplyKey(scope.run, scope.thread, server, uri);
    key in replies && replies[key].producer != scope.producer && replies[key].state != ReplyFailed
  }

  ghost predicate SourceAvailable(replies: Replies, scope: Scope, source: Json) {
    forall server, uri :: NamesResource(source, server, uri) ==> IsAvailable(replies, scope, server, uri)
  }

  /** The same source, except that a resource became a link to its own row. */
  ghost predicate LinkedSource(replies: Replies, scope: Scope, source: Json, out: Json) {
    && ((forall server, uri :: !NamesResource(source, server, uri)) ==> out == source)
    && forall server, uri :: NamesResource(source, server, uri) ==>
         && out.Obj? && out.fields.Keys == source.fields.Keys
         && (forall k :: k in source.fields && k != "data" ==> out.fields[k] == source.fields[k])
         && var key := ReplyKey(scope.run, scope.thread, server, uri);
         && key in replies && IsLink(out.fields["data"], scope.run, replies[key])
  }

  ghost predicate IsLink(data: Json, run: string, row: ReplyRow) {
    && data.Obj? && data.fields.Keys == {"type", "format", "artifact_id", "mime_type", "url"}
    && data.Get("type") == Some(Str("artifact")) && data.Get("format") == Some(Str("geojson"))
    && PointsAt(data, run, row)
  }

  lemma SourceResolvesIff(replies: Replies, scope: Scope, source: Json)
    ensures ResolveSource(replies, scope, source).Some? <==> SourceAvailable(replies, scope, source)
    ensures ResolveSource(replies, scope, source).Some? ==>
              LinkedSource(replies, scope, source, ResolveSource(replies, scope, source).value)
  {
    var resource := ResourceOf(source);
    if resource.Some? {
      assert NamesResource(source, resource.value.0, resource.value.1);
      assert forall server, uri :: NamesResource(source, server, uri) ==> resource.value == (server, uri);
    } else {
      assert forall server, uri :: !NamesResource(source, server, uri);
    }
  }

  ghost predicate AllAvailable(replies: Replies, scope: Scope, payload: Json) {
    payload.Get("sources").Some? && payload.fields["sources"].Obj? ==>
      forall id :: id in payload.fields["sources"].fields ==>
        SourceAvailable(replies, scope, payload.fields["sources"].fields[id])
  }

  /** The same payload, except that every resource among its sources became a link. */
  ghost predicate LinkedPayload(replies: Replies, scope: Scope, payload: Json, out: Json) {
    if payload.Get("sources").Some? && payload.fields["sources"].Obj?
    then
      && out.Obj? && out.fields.Keys == payload.fields.Keys
      && (forall k :: k in payload.fields && k != "sources" ==> out.fields[k] == payload.fields[k])
      && var a, b := payload.fields["sources"].fields, out.fields["sources"];
      && b.Obj? && b.fields.Keys == a.Keys
      && forall id :: id in a ==> LinkedSource(replies, scope, a[id], b.fields[id])
    else out == payload
  }

  lemma PayloadResolvesIff(replies: Replies, scope: Scope, payload: Json)
    ensures ResolvePayload(replies, scope, payload).Some? <==> AllAvailable(replies, scope, payload)
    ensures ResolvePayload(replies, scope, payload).Some? ==>
              LinkedPayload(replies, scope, payload, ResolvePayload(replies, scope, payload).value)
  {
    if payload.Get("sources").Some? && payload.fields["sources"].Obj? {
      var sources := payload.fields["sources"].fields;
      AllOrNothing(sources, Resolver(replies, scope));
      forall id | id in sources
        ensures ResolveSource(replies, scope, sources[id]).Some? <==> SourceAvailable(replies, scope, sources[id])
        ensures ResolveSource(replies, scope, sources[id]).Some? ==>
                  LinkedSource(replies, scope, sources[id], ResolveSource(replies, scope, sources[id]).value)
      {
        SourceResolvesIff(replies, scope, sources[id]);
      }
    }
  }

  // ----- Inline artifacts -----------------------------------------------------

  /** The row the event's candidate makes: the event's thread, turn and item, the candidate's
      kind, its card with links instead of resources, and ready. */
  ghost predicate IsCandidateRow(replies: Replies, run: string, e: Event, row: InlineRow)
    requires IsToolCall(e) && e.inline.Some?
  {
    && row.thread == e.thread && row.turn == e.turn.value && row.producer == e.item.value && row.ready
    && row.kind == e.inline.value.kind
    && LinkedPayload(replies, Scope(run, e.thread, e.item.value), e.inline.value.payload, row.payload)
  }

  /** Both are the artifact of the same item, with the same kind and payload. */
  ghost predicate SameContent(a: InlineRow, b: InlineRow) {
    a.producer == b.producer && a.kind == b.kind && a.payload == b.payload
  }

  /** The candidate can be registered, making `row` unless the reference already has its content. */
  ghost predicate CanRegister(replies: Replies, inlines: Inlines, run: string, e: Event, row: InlineRow)
    requires IsToolCall(e) && e.inline.Some?
  {
    && e.inline.value.kind == "map.v3"
    && AllAvailable(replies, Scope(run, e.thread, e.item.value), e.inline.value.payload)
    && IsCandidateRow(replies, run, e, row)
    && var key := InlineKey(run, e.inline.value.ref);
    key in inlines ==> SameContent(inlines[key], row)
  }

  /** An event without a candidate leaves the table alone. A candidate is refused exactly if its
      kind is unknown, one of its resources is unavailable, or its reference has other content. */
  lemma CandidateIff(replies: Replies, inlines: Inlines, run: string, e: Event)
    returns (row: InlineRow)
    ensures !IsToolCall(e) || e.inline.None? ==> RegisterInline(replies, inlines, run, e) == Some(inlines)
    ensures IsToolCall(e) && e.inline.Some? ==>
              var key := InlineKey(run, e.inline.value.ref);
              RegisterInline(replies, inlines, run, e) ==
                if !CanRegister(replies, inlines, run, e, row) then None
                else if key in inlines then Some(inlines) else Some(inlines[key := row])
    ensures IsToolCall(e) && e.inline.Some? && e.inline.value.kind == "map.v3"
            && AllAvailable(replies, Scope(run, e.thread, e.item.value), e.inline.value.payload) ==>
              IsCandidateRow(replies, run, e, row)
  {
    row := InlineRow("", "", "", "", Null, false);
    if IsToolCall(e) && e.inline.Some? {
      var scope := Scope(run, e.thread, e.item.value);
      PayloadResolvesIff(replies, scope, e.inline.value.payload);
      var payload := ResolvePayload(replies, scope, e.inline.value.payload);
      if payload.Some? { row := RowFor(e, payload.value); }
    }
  }
}
