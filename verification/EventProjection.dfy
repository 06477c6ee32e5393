/** Persisting one frame: artifacts behind a savepoint, the event log, then the lifecycle. */
module EventProjection {
  import opened Basics
  import opened Sanitizer
  import opened MapCard
  import opened Directives
  import opened Lifecycle
  import opened Artifacts

  // ----- Embedding artifacts in messages --------------------------------------

  function ArtifactJson(ref: string, row: InlineRow): Json {
    Obj(map["ref" := Str(ref), "renderer" := Obj(map["kind" := Str(row.kind), "payload" := row.payload])])
  }

  /** The reference names a ready artifact of this run and thread. */
  predicate Shown(inlines: Inlines, run: string, thread: string, ref: string) {
    var key := InlineKey(run, ref);
    key in inlines && inlines[key].thread == thread && inlines[key].ready
  }

  function Found(inlines: Inlines, run: string, thread: string, refs: seq<string>, n: nat): seq<Json>
    requires n <= |refs|
  {
    if n == 0 then []
    else
      var ref := refs[n - 1];
      Found(inlines, run, thread, refs, n - 1)
      + if Shown(inlines, run, thread, ref) then [ArtifactJson(ref, inlines[InlineKey(run, ref)])] else []
  }

  /** The thread and text of an agent message. */
  function MessageOf(payload: Json): Option<(string, string)> {
    if payload.GetStr("itemType") != Some("agentMessage") then None
    else
      var thread :- payload.GetStr("threadId");
      var data :- payload.Get("data");
      var text :- data.GetStr("text");
      Some((thread, text))
  }

  function WithArtifacts(payload: Json, artifacts: seq<Json>): Json
    requires MessageOf(payload).Some?
  {
    var data := payload.fields["data"];
    Obj(payload.fields["data" := Obj(data.fields["inlineArtifacts" := Arr(artifacts)])])
  }

  function Embedded(inlines: Inlines, run: string, payload: Json): Json {
    match MessageOf(payload)
    case None => payload
    case Some((thread, text)) =>
      var found := Found(inlines, run, thread, Refs(text), |Refs(text)|);
      if found == [] then payload else WithArtifacts(payload, found)
  }

  function WithoutArtifacts(payload: Json): Json {
    match payload.Get("data")
    case Some(Obj(data)) => Obj(payload.fields["data" := Obj(data - {"inlineArtifacts"})])
    case _ => payload
  }

  /** A message shows exactly the artifacts of its own run and thread that it refers to. */
  lemma {:induction false} ShowsItsOwn(inlines: Inlines, run: string, thread: string, refs: seq<string>, n: nat,
                                       artifact: Json)
    requires n <= |refs|
    ensures artifact in Found(inlines, run, thread, refs, n) <==>
              exists i :: 0 <= i < n && Shown(inlines, run, thread, refs[i])
                          && artifact == ArtifactJson(refs[i], inlines[InlineKey(run, refs[i])])
  {
    if n == 0 {
    } else {
      ShowsItsOwn(inlines, run, thread, refs, n - 1, artifact);
    }
  }

  // ----- The store ------------------------------------------------------------

  datatype Stored = Stored(run: string, kind: EventKind, thread: string, turn: Option<string>, item: Option<string>,
                           payload: Json)

  /** The payload that is stored: with the artifacts it shows, or without any if registering failed. */
  function StoredPayload(before: Store, run: string, e: Event): Json {
    match Register(before, run, e)
    case Some(after) => Embedded(after.inlines, run, e.payload)
    case None => WithoutArtifacts(e.payload)
  }

  function StoredRow(before: Store, run: string, e: Event): Stored {
    Stored(run, e.kind, e.thread, e.turn, e.item, StoredPayload(before, run, e))
  }

  /** Everything the store holds. */
  datatype Contents = Contents(rows: Tables, holdings: Store, log: seq<Stored>)

  /** Persisting an event for `run`, a latest run of its thread, or for none if there is none. */
  ghost predicate Persists(before: Contents, e: Event, run: Option<nat>, after: Contents) {
    && IsLatest(before.rows.runs, e.thread, run)
    && (run.None? ==> after == before)
    && (run.Some? ==>
          var row := StoredRow(before.holdings, before.rows.runs[run.value].id, e);
          && after.log == before.log + [row]
          && after.holdings == Artifacts.Next(before.holdings, Frame(row.run, e))
          && after.rows == Lifecycle.Next(before.rows, Change(run.value, e.kind, e.turn, row.payload)))
  }

  class EventStore {
    var runs: seq<Run>
    var tasks: map<int, Task>
    var workspaces: map<int, WorkspaceState>
    var replies: Replies
    var inlines: Inlines
    var log: seq<Stored>

    ghost function All(): Contents
      reads this
    {
      Contents(Rows(), Holdings(), log)
    }

    ghost function Rows(): Tables
      reads this
    {
      Tables(runs, tasks, workspaces)
    }

    ghost function Holdings(): Store
      reads this
    {
      Store(replies, inlines)
    }

    constructor (runs: seq<Run>, tasks: map<int, Task>, workspaces: map<int, WorkspaceState>)
      ensures Rows() == Tables(runs, tasks, workspaces) && Holdings() == Store(map[], map[]) && log == []
    {
      this.runs, this.tasks, this.workspaces := runs, tasks, workspaces;
      replies, inlines, log := map[], map[], [];
    }

    method AddReplies(run: string, e: Event)
      modifies this`replies
      ensures replies == RegisterReplies(old(replies), run, e)
    {
      if !IsToolResult(e) { return; }
      var server := ServerOf(e);
      if server.None? { return; }
      for i := 0 to |e.replies|
        invariant replies == RegisterUpTo(old(replies), run, e, server.value, i)
      {
        var c := e.replies[i];
        var key := KeyFor(run, e, server.value, c.uri);
        if key !in replies {
          replies := replies[key := NewRow(e, c)];
        } else if replies[key].producer != e.item.value {
          replies := replies[key := replies[key].(state := ReplyFailed)];
        }
      }
    }

    /** The rows behind every resource of the sources, or nothing if one is unavailable. */
    method LookUp(scope: Scope, sources: Fields) returns (found: Option<map<(string, string), ReplyRow>>)
      ensures found.None? ==> exists id :: id in sources && ResolveSource(replies, scope, sources[id]).None?
      ensures found.Some? ==>
                forall id {:trigger sources[id]} :: id in sources && ResourceOf(sources[id]).Some? ==>
                  Holds(found.value, scope, ResourceOf(sources[id]).value)
    {
      var rows := map[];
      var todo := sources.Keys;
      while todo != {}
        invariant todo <= sources.Keys
        invariant forall id {:trigger sources[id]} :: id in sources && id !in todo && ResourceOf(sources[id]).Some? ==>
                    Holds(rows, scope, ResourceOf(sources[id]).value)
      {
        var id :| id in todo;
        todo := todo - {id};
        var resource := ResourceOf(sources[id]);
        if resource.Some? {
          if !Available(replies, scope, resource.value) { return None; }
          var key := ReplyKey(scope.run, scope.thread, resource.value.0, resource.value.1);
          rows := rows[resource.value := replies[key]];
        }
      }
      found := Some(rows);
    }

    ghost predicate Holds(rows: map<(string, string), ReplyRow>, scope: Scope, resource: (string, string))
      reads this
    {
      && Available(replies, scope, resource) && resource in rows
      && rows[resource] == replies[ReplyKey(scope.run, scope.thread, resource.0, resource.1)]
    }

    /** Replaces every resource by a link to its row, in place. */
    method Link(scope: Scope, sources: Fields, rows: map<(string, string), ReplyRow>) returns (linked: Fields)
      requires forall id {:trigger sources[id]} :: id in sources && ResourceOf(sources[id]).Some? ==>
                 Holds(rows, scope, ResourceOf(sources[id]).value)
      ensures Some(linked) == ProjectAll(sources, Resolver(replies, scope))
    {
      linked := sources;
      var todo := sources.Keys;
      while todo != {}
        invariant todo <= sources.Keys && linked.Keys == sources.Keys
        invariant forall id :: id in todo ==> linked[id] == sources[id]
        invariant forall id :: id in sources && id !in todo ==>
                    Some(linked[id]) == ResolveSource(replies, scope, sources[id])
      {
        var id :| id in todo;
        todo := todo - {id};
        var resource := ResourceOf(linked[id]);
        if resource.Some? {
          linked := linked[id := Obj(linked[id].fields["data" := ArtifactData(scope.run, rows[resource.value])])];
        }
      }
      ghost var resolver := Resolver(replies, scope);
      assert forall id :: id in sources ==> resolver(sources[id]) == Some(linked[id]);
      assert linked == map id | id in sources :: resolver(sources[id]).value;
    }

    method Resolve(scope: Scope, payload: Json) returns (resolved: Option<Json>)
      ensures resolved == ResolvePayload(replies, scope, payload)
    {
      var given := payload.Get("sources");
      if given.None? || !given.value.Obj? { return Some(payload); }
      var sources := given.value.fields;
      var rows := LookUp(scope, sources);
      if rows.None? { return None; }
      var linked := Link(scope, sources, rows.value);
      resolved := Some(Obj(payload.fields["sources" := Obj(linked)]));
    }

    /** Registers the event's inline artifact; refuses a different one under a taken reference. */
    method AddInline(run: string, e: Event) returns (ok: bool)
      modifies this`inlines
      ensures ok <==> RegisterInline(replies, old(inlines), run, e).Some?
      ensures inlines == RegisterInline(replies, old(inlines), run, e).GetOr(old(inlines))
    {
      if !IsToolResult(e) || e.inline.None? { return true; }
      var c := e.inline.value;
      if c.kind != MAP_KIND { return false; }
      var payload := Resolve(Scope(run, e.thread, e.item.value), c.payload);
      if payload.None? { return false; }
      var key, row := InlineKey(run, c.ref), RowFor(e, payload.value);
      if key !in inlines {
        inlines := inlines[key := row];
        return true;
      }
      ok := SameArtifact(inlines[key], row);
    }

    method Embed(run: string, payload: Json) returns (embedded: Json)
      ensures embedded == Embedded(inlines, run, payload)
    {
      var message := MessageOf(payload);
      if message.None? { return payload; }
      var (thread, text) := message.value;
      var refs := InlineArtifactRefs(text);
      var artifacts := [];
      for i := 0 to |refs|
        invariant artifacts == Found(inlines, run, thread, refs, i)
      {
        if Shown(inlines, run, thread, refs[i]) {
          artifacts := artifacts + [ArtifactJson(refs[i], inlines[InlineKey(run, refs[i])])];
        }
      }
      embedded := if artifacts == [] then payload else WithArtifacts(payload, artifacts);
    }

    /** The artifact part: on failure both tables are as before. */
    method ProjectArtifacts(run: string, e: Event) returns (payload: Json)
      modifies this`replies, this`inlines
      ensures Holdings() == Register(old(Holdings()), run, e).GetOr(old(Holdings()))
      ensures payload == StoredPayload(old(Holdings()), run, e)
    {
      var savedReplies, savedInlines := replies, inlines;
      AddReplies(run, e);
      var ok := AddInline(run, e);
      if ok {
        payload := Embed(run, e.payload);
      } else {
        replies, inlines := savedReplies, savedInlines;
        payload := WithoutArtifacts(e.payload);
      }
    }

    /** The lifecycle part. */
    method Advance(c: Change)
      requires c.run < |runs|
      modifies this`runs, this`tasks, this`workspaces
      ensures Rows() == Lifecycle.Next(old(Rows()), c)
    {
      var run := runs[c.run];
      match c.kind {
        case TurnStarted =>
          if run.status.Running? { runs := runs[c.run := run.(activeTurn := c.turn)]; }
        case TurnCompleted =>
          if c.turn.Some? && run.activeTurn == c.turn { runs := runs[c.run := run.(activeTurn := None)]; }
        case ThreadArchived =>
          if run.task in tasks { tasks := tasks[run.task := tasks[run.task].(status := Archived)]; }
        case ThreadUnarchived =>
          if run.task in tasks && tasks[run.task].status.Archived? {
            tasks := tasks[run.task := tasks[run.task].(status := Pending)];
          }
        case ThreadNameUpdated =>
          var title := NewTitle(c.payload);
          if title.Some? && run.task in tasks { tasks := tasks[run.task := tasks[run.task].(title := title.value)]; }
        case _ =>
      }
      if IsTerminal(c.kind) { Finish(c); }
    }

    /** Ends a running run: its lease, its workspace and its task follow. */
    method Finish(c: Change)
      requires c.run < |runs| && IsTerminal(c.kind)
      modifies this`runs, this`tasks, this`workspaces
      ensures Rows() == Lifecycle.Next(old(Rows()), c)
    {
      var run := runs[c.run];
      if !run.status.Running? { return; }
      runs := runs[c.run := run.(status := TerminalStatus(c.kind), activeTurn := None,
                                 leaseOwner := None, leaseToken := None, leaseExpiry := None)];
      if run.workspace in workspaces { workspaces := workspaces[run.workspace := Ready]; }
      if run.task in tasks && tasks[run.task].status !in {TaskCompleted, Cancelled, Archived} {
        var status := if c.kind.ThreadCompleted? then TaskCompleted else Pending;
        tasks := tasks[run.task := tasks[run.task].(status := status)];
      }
    }

    /** Persists one event for the latest run of its thread, if there is one. */
    method PersistFrame(e: Event) returns (stored: Option<Stored>, ghost run: Option<nat>)
      modifies this
      ensures Persists(old(All()), e, run, All()) && (stored.Some? <==> run.Some?)
      ensures stored.Some? ==> log == old(log) + [stored.value]
    {
      var found := LatestRun(runs, e.thread);
      if found.None? { return None, None; }
      var id := runs[found.value].id;
      var payload := ProjectArtifacts(id, e);
      var row := Stored(id, e.kind, e.thread, e.turn, e.item, payload);
      log := log + [row];
      Advance(Change(found.value, e.kind, e.turn, payload));
      return Some(row), found;
    }

    /** A reader fetched the content of a reply artifact. */
    method StoreContent(key: ReplyKey)
      modifies this`replies
      ensures All() == old(All()).(holdings := Artifacts.Next(old(Holdings()), Fetched(key)))
    {
      if key in replies && replies[key].state.ReplyPending? {
        replies := replies[key := replies[key].(state := ReplyReady)];
      }
    }
  }
}
