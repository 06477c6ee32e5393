/** What a persisted message shows and what a persisted candidate leaves in the table. */
module MessageContent {
  import opened Basics
  import opened Sanitizer
  import opened Directives
  import opened Artifacts
  import opened EventProjection
  import opened StoreHistory
  import opened Registration

  // ----- Messages -------------------------------------------------------------

  /** The payload is a message of an agent in this thread with this text. */
  ghost predicate IsMessage(payload: Json, thread: string, text: string) {
    && payload.Get("itemType") == Some(Str("agentMessage")) && payload.Get("threadId") == Some(Str(thread))
    && payload.Get("data").Some? && payload.fields["data"].Get("text") == Some(Str(text))
  }

  /** The artifact is the ready row that the reference has in this run and thread. */
  ghost predicate IsReadyRow(inlines: Inlines, run: string, thread: string, ref: string, artifact: Json) {
    && InlineKey(run, ref) in inlines
    && var row := inlines[InlineKey(run, ref)];
    && row.thread == thread && row.ready
    && artifact == Obj(map["ref" := Str(ref),
                           "renderer" := Obj(map["kind" := Str(row.kind), "payload" := row.payload])])
  }

  /** A message in this thread refers, outside its fences, to the artifact. */
  ghost predicate RefersTo(inlines: Inlines, run: string, payload: Json, artifact: Json) {
    exists thread, text, ref ::
      IsMessage(payload, thread, text) && ref in Refs(text) && IsReadyRow(inlines, run, thread, ref, artifact)
  }

  /** The payloads are the same except for the artifacts they show. */
  ghost predicate SameUpToArtifacts(a: Json, b: Json) {
    if a.Get("data").Some? && a.fields["data"].Obj?
    then
      && b.Obj? && b.fields.Keys == a.fields.Keys && b.fields["data"].Obj?
      && (forall k :: k in a.fields && k != "data" ==> b.fields[k] == a.fields[k])
      && a.fields["data"].fields - {"inlineArtifacts"} == b.fields["data"].fields - {"inlineArtifacts"}
    else b == a
  }

  lemma MessageIff(payload: Json, thread: string, text: string)
    ensures MessageOf(payload) == Some((thread, text)) <==> IsMessage(payload, thread, text)
  {
  }

  lemma FoundIff(inlines: Inlines, run: string, thread: string, refs: seq<string>, artifact: Json)
    ensures artifact in Found(inlines, run, thread, refs, |refs|) <==>
              exists ref :: ref in refs && IsReadyRow(inlines, run, thread, ref, artifact)
  {
    ShowsItsOwn(inlines, run, thread, refs, |refs|, artifact);
    if i :| 0 <= i < |refs| && Shown(inlines, run, thread, refs[i])
            && artifact == ArtifactJson(refs[i], inlines[InlineKey(run, refs[i])]) {
      assert IsReadyRow(inlines, run, thread, refs[i], artifact);
    }
    if ref :| ref in refs && IsReadyRow(inlines, run, thread, ref, artifact) {
      var i :| 0 <= i < |refs| && refs[i] == ref;
      assert Shown(inlines, run, thread, refs[i]) && artifact == ArtifactJson(refs[i], inlines[InlineKey(run, ref)]);
    }
  }

  lemma EmbeddedShows(inlines: Inlines, run: string, payload: Json)
    requires payload.Get("data").Some? ==> payload.fields["data"].Get("inlineArtifacts").None?
    ensures SameUpToArtifacts(payload, Embedded(inlines, run, payload))
    ensures match MessageOf(payload)
            case None => ShownBy(Embedded(inlines, run, payload)) == []
            case Some((thread, text)) =>
              ShownBy(Embedded(inlines, run, payload)) == Found(inlines, run, thread, Refs(text), |Refs(text)|)
  {
  }

  /** A bare payload comes out showing exactly the ready artifacts of its run and thread that it
      refers to, and otherwise unchanged. */
  lemma EmbeddedShowsExactly(inlines: Inlines, run: string, payload: Json, artifact: Json)
    requires payload.Get("data").Some? ==> payload.fields["data"].Get("inlineArtifacts").None?
    ensures artifact in ShownBy(Embedded(inlines, run, payload)) <==> RefersTo(inlines, run, payload, artifact)
  {
    EmbeddedShows(inlines, run, payload);
    var message := MessageOf(payload);
    forall thread, text ensures message == Some((thread, text)) <==> IsMessage(payload, thread, text) {
      MessageIff(payload, thread, text);
    }
    if message.Some? { FoundIff(inlines, run, message.value.0, Refs(message.value.1), artifact); }
  }

  lemma BareShowsNothing(payload: Json)
    ensures SameUpToArtifacts(payload, WithoutArtifacts(payload)) && ShownBy(WithoutArtifacts(payload)) == []
  {
    if payload.Get("data").Some? && payload.fields["data"].Obj? {
      var data := payload.fields["data"].fields;
      assert data - {"inlineArtifacts"} - {"inlineArtifacts"} == data - {"inlineArtifacts"};
    }
  }

  /** The logged payload shows exactly the ready artifacts of its run and thread that the message
      refers to; when registering failed it shows none; and nothing else of it is changed. */
  lemma LoggedShowsExactly(before: Contents, e: Event, run: Option<nat>, after: Contents, artifact: Json)
    requires Persists(before, e, run, after) && run.Some? && Bare(e)
    ensures |after.log| == |before.log| + 1
    ensures var id, payload := before.rows.runs[run.value].id, after.log[|before.log|].payload;
            && SameUpToArtifacts(e.payload, payload)
            && (artifact in ShownBy(payload) <==>
                  && Register(before.holdings, id, e).Some?
                  && RefersTo(after.holdings.inlines, id, e.payload, artifact))
  {
    var id := before.rows.runs[run.value].id;
    var registered := Register(before.holdings, id, e);
    if registered.Some? {
      EmbeddedShows(registered.value.inlines, id, e.payload);
      EmbeddedShowsExactly(registered.value.inlines, id, e.payload, artifact);
    } else {
      BareShowsNothing(e.payload);
    }
  }

  // ----- Candidates -----------------------------------------------------------

  /** A map candidate under a free reference, with all its resources available, is in the table
      after the frame, ready and with the event's own thread, turn and item. */
  lemma CandidateIsStored(before: Contents, e: Event, run: Option<nat>, after: Contents)
    requires Persists(before, e, run, after) && run.Some? && IsToolCall(e) && e.inline.Some?
    requires e.inline.value.kind == "map.v3"
    requires InlineKey(before.rows.runs[run.value].id, e.inline.value.ref) !in before.holdings.inlines
    requires var id := before.rows.runs[run.value].id;
             AllAvailable(RegisterReplies(before.holdings.replies, id, e), Scope(id, e.thread, e.item.value),
                          e.inline.value.payload)
    ensures var id := before.rows.runs[run.value].id;
            var key := InlineKey(id, e.inline.value.ref);
            && key in after.holdings.inlines
            && IsCandidateRow(after.holdings.replies, id, e, after.holdings.inlines[key])
  {
    var id := before.rows.runs[run.value].id;
    var row := CandidateIff(RegisterReplies(before.holdings.replies, id, e), before.holdings.inlines, id, e);
  }

}
