/** What holds of the artifact tables after every history. */
module ArtifactHistory {
  import opened Basics
  import opened Sanitizer
  import opened MapCard
  import opened Artifacts

  // ----- When a reply artifact has failed -------------------------------------

  /** Step `i` went through and registered the key for another producer. */
  ghost predicate Conflicts(t: Store, history: seq<Step>, i: nat, key: ReplyKey, producer: string)
    requires i < |history|
  {
    && history[i].Frame? && Register(Replay(t, history, i), history[i].run, history[i].event).Some?
    && Registers(history[i].event, history[i].run, key) && history[i].event.item.value != producer
  }

  ghost predicate EverConflicts(t: Store, history: seq<Step>, n: nat, key: ReplyKey, producer: string)
    requires n <= |history|
  {
    exists i :: 0 <= i < n && Conflicts(t, history, i, key, producer)
  }

  ghost predicate HasFailed(t: Store, key: ReplyKey) { key in t.replies && t.replies[key].state.ReplyFailed? }

  lemma ConflictIsKnown(t: Store, history: seq<Step>, i: nat, n: nat, key: ReplyKey, producer: string)
    requires i < n <= |history| && Conflicts(t, history, i, key, producer)
    ensures key in Replay(t, history, n).replies
  {
    RowRegistered(Replay(t, history, i).replies, history[i].run, history[i].event, key);
    HistoryKeeps(t, history, i + 1, n);
  }

  /** One step on a row that exists after it. */
  lemma FailedStep(t: Store, history: seq<Step>, i: nat, key: ReplyKey)
    requires i < |history| && key in Replay(t, history, i + 1).replies
    ensures var before, after := Replay(t, history, i), Replay(t, history, i + 1);
            && (key in before.replies ==> before.replies[key].producer == after.replies[key].producer)
            && (HasFailed(after, key) <==>
                  HasFailed(before, key) || Conflicts(t, history, i, key, after.replies[key].producer))
  {
    var before, step := Replay(t, history, i), history[i];
    if step.Frame? { RowRegistered(before.replies, step.run, step.event, key); }
  }

  lemma UnknownNeverFailed(t: Store, history: seq<Step>, n: nat, key: ReplyKey, producer: string)
    requires n <= |history| && key !in Replay(t, history, n).replies
    ensures !HasFailed(t, key) && !EverConflicts(t, history, n, key, producer)
  {
    HistoryKeeps(t, history, 0, n);
    if i :| 0 <= i < n && Conflicts(t, history, i, key, producer) {
      ConflictIsKnown(t, history, i, n, key, producer);
    }
  }

  lemma EverConflictsStep(t: Store, history: seq<Step>, i: nat, key: ReplyKey, producer: string)
    requires i < |history|
    ensures EverConflicts(t, history, i + 1, key, producer) <==>
              EverConflicts(t, history, i, key, producer) || Conflicts(t, history, i, key, producer)
  {
  }

  /** Whether step `i` is a conflict decides both sides of the law below. */
  lemma ConflictStep(t: Store, history: seq<Step>, i: nat, key: ReplyKey) returns (conflict: bool)
    requires i < |history| && key in Replay(t, history, i + 1).replies
    ensures key in Replay(t, history, i).replies ==>
              Replay(t, history, i).replies[key].producer == Replay(t, history, i + 1).replies[key].producer
    ensures HasFailed(Replay(t, history, i + 1), key) <==> HasFailed(Replay(t, history, i), key) || conflict
    ensures var producer := Replay(t, history, i + 1).replies[key].producer;
            EverConflicts(t, history, i + 1, key, producer) <==> EverConflicts(t, history, i, key, producer) || conflict
  {
    var producer := Replay(t, history, i + 1).replies[key].producer;
    FailedStep(t, history, i, key);
    EverConflictsStep(t, history, i, key, producer);
    conflict := Conflicts(t, history, i, key, producer);
  }

  /** A reply artifact has failed exactly when it had at the start or some frame that went
      through registered it for a producer other than its own. */
  lemma {:induction false} FailedIffConflict(t: Store, history: seq<Step>, n: nat, key: ReplyKey)
    requires n <= |history| && key in Replay(t, history, n).replies
    ensures HasFailed(Replay(t, history, n), key) <==>
              HasFailed(t, key) || EverConflicts(t, history, n, key, Replay(t, history, n).replies[key].producer)
  {
    if n == 0 {
    } else {
      var conflict := ConflictStep(t, history, n - 1, key);
      if key in Replay(t, history, n - 1).replies {
        FailedIffConflict(t, history, n - 1, key);
      } else {
        UnknownNeverFailed(t, history, n - 1, key, Replay(t, history, n).replies[key].producer);
      }
    }
  }

  // ----- Links ----------------------------------------------------------------

  /** The data names the row and the address its content is read from. */
  ghost predicate PointsAt(data: Json, run: string, row: ReplyRow) {
    && data.Get("artifact_id") == Some(Str(row.id))
    && data.Get("url") == Some(Str("/api/runs/" + run + "/artifacts/" + row.id))
    && data.Get("mime_type") == Some(if row.mime.Some? then Str(row.mime.value) else Null)
  }

  /** The data points at some reply artifact of this run and thread that another item made. */
  ghost predicate LinksTo(replies: Replies, scope: Scope, data: Json) {
    exists key :: key in replies && key.run == scope.run && key.thread == scope.thread
                  && replies[key].producer != scope.producer && PointsAt(data, key.run, replies[key])
  }

  ghost predicate SourceResolved(replies: Replies, scope: Scope, source: Json) {
    && source.Get("data").Some?
    && var data := source.fields["data"];
    && data.GetStr("type") != Some("mcp_resource")
    && (data.GetStr("type") == Some("artifact") ==> LinksTo(replies, scope, data))
  }

  ghost predicate SourcesResolved(replies: Replies, scope: Scope, sources: Fields) {
    forall id :: id in sources ==> SourceResolved(replies, scope, sources[id])
  }

  /** The payload has sources, none unresolved and each link to the right place. */
  ghost predicate PayloadResolved(replies: Replies, scope: Scope, payload: Json) {
    && payload.Get("sources").Some? && payload.fields["sources"].Obj?
    && SourcesResolved(replies, scope, payload.fields["sources"].fields)
  }

  ghost predicate RowResolved(t: Store, key: InlineKey) {
    key in t.inlines ==>
      PayloadResolved(t.replies, Scope(key.run, t.inlines[key].thread, t.inlines[key].producer), t.inlines[key].payload)
  }

  ghost predicate AllResolved(t: Store) {
    forall key :: key in t.inlines ==> RowResolved(t, key)
  }

  /** A complete resource, or inline data. */
  ghost predicate ProjectedData(data: Json) {
    || data.GetStr("type") == Some("inline")
    || (data.GetStr("type") == Some("mcp_resource") && data.GetStr("server").Some? && data.GetStr("uri").Some?)
  }

  ghost predicate ProjectedSource(source: Json) {
    source.Get("data").Some? && ProjectedData(source.fields["data"])
  }

  lemma DataIsProjected(data: Json)
    requires ProjectData(data).Some?
    ensures ProjectedData(ProjectData(data).value)
  {
  }

  lemma SourceIsProjected(source: Json)
    requires ProjectSource(source).Some?
    ensures ProjectedSource(ProjectSource(source).value)
  {
    DataIsProjected(source.fields["data"]);
  }

  lemma CardSources(card: Fields)
    requires ReadSources(card).Some?
    ensures forall id :: id in ReadSources(card).value ==> ProjectedSource(ReadSources(card).value[id])
  {
    var given := card["sources"].fields;
    forall id | id in ReadSources(card).value
      ensures ProjectedSource(ReadSources(card).value[id])
    {
      SourceIsProjected(given[id]);
    }
  }

  ghost predicate ProjectedSources(payload: Json) {
    && payload.Get("sources").Some? && payload.fields["sources"].Obj?
    && forall id :: id in payload.fields["sources"].fields ==> ProjectedSource(payload.fields["sources"].fields[id])
  }

  lemma PrintedSources(card: Fields, l: Layout, printed: Json)
    requires ReadLayout(card) == Some(l) && PrintsLayout(l, printed)
    ensures ProjectedSources(printed)
  {
    LayoutParts(card, l);
    CardSources(card);
  }

  lemma CardIsProjected(payload: Json)
    requires IsCard(payload)
    ensures ProjectedSources(payload)
  {
    var card :| ProjectCard(card) == Some(payload);
    var l := CardPrints(card);
    PrintedSources(card, l, payload);
  }

  lemma SourceGetsResolved(replies: Replies, scope: Scope, source: Json)
    requires ProjectedSource(source) && ResolveSource(replies, scope, source).Some?
    ensures SourceResolved(replies, scope, ResolveSource(replies, scope, source).value)
  {
    var resource := ResourceOf(source);
    if resource.Some? {
      var key := ReplyKey(scope.run, scope.thread, resource.value.0, resource.value.1);
      assert PointsAt(ArtifactData(scope.run, replies[key]), key.run, replies[key]);
    }
  }

  lemma SourcesGetResolved(replies: Replies, scope: Scope, sources: Fields)
    requires forall id :: id in sources ==> ProjectedSource(sources[id])
    requires ProjectAll(sources, Resolver(replies, scope)).Some?
    ensures SourcesResolved(replies, scope, ProjectAll(sources, Resolver(replies, scope)).value)
  {
    forall id | id in sources
      ensures SourceResolved(replies, scope, ProjectAll(sources, Resolver(replies, scope)).value[id])
    {
      SourceGetsResolved(replies, scope, sources[id]);
    }
  }

  lemma CardGetsResolved(replies: Replies, scope: Scope, payload: Json)
    requires IsCard(payload) && ResolvePayload(replies, scope, payload).Some?
    ensures PayloadResolved(replies, scope, ResolvePayload(replies, scope, payload).value)
  {
    CardIsProjected(payload);
    SourcesGetResolved(replies, scope, payload.fields["sources"].fields);
  }

  lemma LinksStay(before: Replies, after: Replies, scope: Scope, data: Json)
    requires RepliesKept(before, after) && LinksTo(before, scope, data)
    ensures LinksTo(after, scope, data)
  {
    var key :| key in before && key.run == scope.run && key.thread == scope.thread
               && before[key].producer != scope.producer && PointsAt(data, key.run, before[key]);
    assert RowKept(before[key], after[key]);
  }

  lemma SourcesStayResolved(before: Replies, after: Replies, scope: Scope, sources: Fields)
    requires RepliesKept(before, after) && SourcesResolved(before, scope, sources)
    ensures SourcesResolved(after, scope, sources)
  {
    forall id | id in sources
      ensures SourceResolved(after, scope, sources[id])
    {
      var data := sources[id].fields["data"];
      if data.GetStr("type") == Some("artifact") { LinksStay(before, after, scope, data); }
    }
  }

  lemma NewRowResolved(t: Store, run: string, e: Event)
    requires Projected(e) && Register(t, run, e).Some? && IsToolResult(e) && e.inline.Some?
    requires InlineKey(run, e.inline.value.ref) !in t.inlines
    ensures RowResolved(Register(t, run, e).value, InlineKey(run, e.inline.value.ref))
  {
    CardGetsResolved(RegisterReplies(t.replies, run, e), Scope(run, e.thread, e.item.value), e.inline.value.payload);
  }

  /** What a step adds to the inline table. */
  lemma AddedRow(t: Store, step: Step, key: InlineKey)
    requires key in Next(t, step).inlines && key !in t.inlines
    ensures && step.Frame? && Register(t, step.run, step.event).Some? && IsToolResult(step.event)
            && step.event.inline.Some? && key == InlineKey(step.run, step.event.inline.value.ref)
  {
  }

  lemma StepStaysResolved(t: Store, step: Step, key: InlineKey)
    requires AllResolved(t) && (step.Frame? ==> Projected(step.event)) && key in Next(t, step).inlines
    ensures RowResolved(Next(t, step), key)
  {
    if key in t.inlines {
      StepKeeps(t, step);
      var row := t.inlines[key];
      assert RowResolved(t, key);
      SourcesStayResolved(t.replies, Next(t, step).replies, Scope(key.run, row.thread, row.producer),
                          row.payload.fields["sources"].fields);
    } else {
      AddedRow(t, step, key);
      NewRowResolved(t, step.run, step.event);
    }
  }

  /** After every history of projected frames, stored payloads hold no unresolved resource, and
      every link is to a reply artifact of the same run and thread and of a different item. */
  lemma {:induction false} HistoryStaysResolved(t: Store, history: seq<Step>, n: nat)
    requires AllResolved(t) && n <= |history|
    requires forall i :: 0 <= i < n && history[i].Frame? ==> Projected(history[i].event)
    ensures AllResolved(Replay(t, history, n))
  {
    if n == 0 {
    } else {
      HistoryStaysResolved(t, history, n - 1);
      var before := Replay(t, history, n - 1);
      var after := Next(before, history[n - 1]);
      forall key | key in after.inlines
        ensures RowResolved(after, key)
      {
        StepStaysResolved(before, history[n - 1], key);
      }
    }
  }
}
