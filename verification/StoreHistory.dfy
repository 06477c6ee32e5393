/** Whole histories of the event store: its log, its tables and what its messages show. */
module StoreHistory {
  import opened Basics
  import opened Sanitizer
  import opened Directives
  import Lifecycle
  import opened Artifacts
  import opened ArtifactHistory
  import opened EventProjection

  /** An event with the run it was persisted for, or a reader fetching a reply's content. */
  datatype Action = Persist(event: Event, run: Option<nat>) | Fetch(key: ReplyKey)

  ghost predicate Acts(before: Contents, action: Action, after: Contents) {
    match action
    case Persist(e, run) => Persists(before, e, run, after)
    case Fetch(key) => after == before.(holdings := Artifacts.Next(before.holdings, Fetched(key)))
  }

  ghost predicate ActsAt(states: seq<Contents>, actions: seq<Action>, i: nat) {
    0 < i <= |actions| < |states| && Acts(states[i - 1], actions[i - 1], states[i])
  }

  /** The store went through these states by these actions. */
  ghost predicate IsHistory(states: seq<Contents>, actions: seq<Action>) {
    |states| == |actions| + 1 && forall i :: 0 < i <= |actions| ==> ActsAt(states, actions, i)
  }

  // ----- The log --------------------------------------------------------------

  datatype Header = Header(kind: Lifecycle.EventKind, thread: string, turn: Option<string>, item: Option<string>)

  function HeaderOf(e: Event): Header { Header(e.kind, e.thread, e.turn, e.item) }

  function Headers(log: seq<Stored>): (h: seq<Header>)
    ensures |h| == |log|
    ensures forall i :: 0 <= i < |h| ==> h[i] == Header(log[i].kind, log[i].thread, log[i].turn, log[i].item)
  {
    seq(|log|, i requires 0 <= i < |log| => Header(log[i].kind, log[i].thread, log[i].turn, log[i].item))
  }

  ghost predicate HasRun(runs: seq<Lifecycle.Run>, thread: string) {
    exists r :: 0 <= r < |runs| && runs[r].thread == Some(thread)
  }

  /** The headers of the first `n` actions that are events whose thread has a run. */
  ghost function Kept(runs: seq<Lifecycle.Run>, actions: seq<Action>, n: nat): seq<Header>
    requires n <= |actions|
  {
    if n == 0 then []
    else if actions[n - 1].Persist? && HasRun(runs, actions[n - 1].event.thread) then
      Kept(runs, actions, n - 1) + [HeaderOf(actions[n - 1].event)]
    else Kept(runs, actions, n - 1)
  }

  ghost predicate SameThreads(a: seq<Lifecycle.Run>, b: seq<Lifecycle.Run>) {
    |a| == |b| && forall r {:trigger a[r]} {:trigger b[r]} :: 0 <= r < |a| ==> a[r].thread == b[r].thread
  }

  lemma ThreadsStay(before: Contents, action: Action, after: Contents)
    requires Acts(before, action, after)
    ensures SameThreads(before.rows.runs, after.rows.runs)
  {
  }

  lemma SameThreadsSameRun(a: seq<Lifecycle.Run>, b: seq<Lifecycle.Run>, thread: string, run: Option<nat>)
    requires SameThreads(a, b) && Lifecycle.IsLatest(b, thread, run)
    ensures run.Some? <==> HasRun(a, thread)
  {
    if run.Some? {
      assert a[run.value].thread == Some(thread);
    } else if r :| 0 <= r < |a| && a[r].thread == Some(thread) {
      assert false;
    }
  }

  /** The log grows by exactly one entry, in order, for each event whose thread has a run. */
  lemma {:induction false} LogKeepsEvents(states: seq<Contents>, actions: seq<Action>, n: nat)
    requires IsHistory(states, actions) && n <= |actions|
    ensures SameThreads(states[0].rows.runs, states[n].rows.runs)
    ensures Headers(states[n].log) == Headers(states[0].log) + Kept(states[0].rows.runs, actions, n)
  {
    if n == 0 {
    } else {
      LogKeepsEvents(states, actions, n - 1);
      assert ActsAt(states, actions, n);
      ThreadsStay(states[n - 1], actions[n - 1], states[n]);
      var action := actions[n - 1];
      if action.Persist? {
        SameThreadsSameRun(states[0].rows.runs, states[n - 1].rows.runs, action.event.thread, action.run);
      }
    }
  }

  // ----- The two table histories ----------------------------------------------

  /** The lifecycle changes of the first `n` actions. */
  ghost function Changes(states: seq<Contents>, actions: seq<Action>, n: nat): seq<Lifecycle.Change>
    requires n <= |actions| < |states|
  {
    if n == 0 then []
    else if actions[n - 1].Persist? && actions[n - 1].run.Some? && states[n].log != [] then
      var e, last := actions[n - 1].event, states[n].log[|states[n].log| - 1];
      Changes(states, actions, n - 1) + [Lifecycle.Change(actions[n - 1].run.value, e.kind, e.turn, last.payload)]
    else Changes(states, actions, n - 1)
  }

  /** The steps of the first `n` actions on the artifact tables. */
  ghost function Steps(states: seq<Contents>, actions: seq<Action>, n: nat): seq<Artifacts.Step>
    requires n <= |actions| < |states|
  {
    if n == 0 then []
    else
      match actions[n - 1]
      case Fetch(key) => Steps(states, actions, n - 1) + [Fetched(key)]
      case Persist(e, run) =>
        if run.Some? && run.value < |states[n - 1].rows.runs|
        then Steps(states, actions, n - 1) + [Frame(states[n - 1].rows.runs[run.value].id, e)]
        else Steps(states, actions, n - 1)
  }

  lemma {:induction false} ReplayPrefix(t: Lifecycle.Tables, h: seq<Lifecycle.Change>, c: Lifecycle.Change, n: nat)
    requires n <= |h|
    ensures Lifecycle.Replay(t, h + [c], n) == Lifecycle.Replay(t, h, n)
  {
    if n == 0 {
    } else {
      ReplayPrefix(t, h, c, n - 1);
    }
  }

  lemma ReplayOneMore(t: Lifecycle.Tables, h: seq<Lifecycle.Change>, c: Lifecycle.Change)
    ensures Lifecycle.Replay(t, h + [c], |h + [c]|) == Lifecycle.Next(Lifecycle.Replay(t, h, |h|), c)
  {
    ReplayPrefix(t, h, c, |h|);
  }

  lemma {:induction false} StepsPrefix(t: Store, h: seq<Artifacts.Step>, s: Artifacts.Step, n: nat)
    requires n <= |h|
    ensures Artifacts.Replay(t, h + [s], n) == Artifacts.Replay(t, h, n)
  {
    if n == 0 {
    } else {
      StepsPrefix(t, h, s, n - 1);
    }
  }

  lemma StepsOneMore(t: Store, h: seq<Artifacts.Step>, s: Artifacts.Step)
    ensures Artifacts.Replay(t, h + [s], |h + [s]|) == Artifacts.Next(Artifacts.Replay(t, h, |h|), s)
  {
    StepsPrefix(t, h, s, |h|);
  }

  /** The rows of the store are those of a lifecycle history. */
  lemma {:induction false} RowsAreReplayed(states: seq<Contents>, actions: seq<Action>, n: nat)
    requires IsHistory(states, actions) && n <= |actions|
    ensures var h := Changes(states, actions, n); states[n].rows == Lifecycle.Replay(states[0].rows, h, |h|)
  {
    if n == 0 {
    } else {
      RowsAreReplayed(states, actions, n - 1);
      assert ActsAt(states, actions, n);
      var action, before := actions[n - 1], Changes(states, actions, n - 1);
      if action.Persist? && action.run.Some? {
        var last := states[n].log[|states[n].log| - 1];
        ReplayOneMore(states[0].rows, before,
                      Lifecycle.Change(action.run.value, action.event.kind, action.event.turn, last.payload));
      }
    }
  }

  /** The artifact tables of the store are those of an artifact history. */
  lemma {:induction false} HoldingsAreReplayed(states: seq<Contents>, actions: seq<Action>, n: nat)
    requires IsHistory(states, actions) && n <= |actions|
    ensures var h := Steps(states, actions, n); states[n].holdings == Artifacts.Replay(states[0].holdings, h, |h|)
  {
    if n == 0 {
    } else {
      HoldingsAreReplayed(states, actions, n - 1);
      assert ActsAt(states, actions, n);
      var action, before := actions[n - 1], Steps(states, actions, n - 1);
      match action
      case Fetch(key) => StepsOneMore(states[0].holdings, before, Fetched(key));
      case Persist(e, run) =>
        if run.Some? { StepsOneMore(states[0].holdings, before, Frame(states[n - 1].rows.runs[run.value].id, e)); }
    }
  }

  // ----- What messages show ---------------------------------------------------

  /** The artifacts a stored payload shows. */
  function ShownBy(payload: Json): seq<Json> {
    match payload.Get("data")
    case None => []
    case Some(data) => if data.Get("inlineArtifacts").Some? && data.fields["inlineArtifacts"].Arr?
                       then data.fields["inlineArtifacts"].items else []
  }

  /** The event brings no artifacts of its own making. */
  ghost predicate Bare(e: Event) {
    e.payload.Get("data").Some? ==> e.payload.fields["data"].Get("inlineArtifacts").None?
  }

  /** The artifact is the row that this reference has in the run. */
  ghost predicate IsRow(inlines: Inlines, run: string, ref: string, artifact: Json) {
    InlineKey(run, ref) in inlines && artifact == ArtifactJson(ref, inlines[InlineKey(run, ref)])
  }

  ghost predicate HasRow(inlines: Inlines, run: string, artifact: Json) {
    exists ref :: IsRow(inlines, run, ref, artifact)
  }

  ghost predicate ShowsRows(inlines: Inlines, row: Stored) {
    forall artifact :: artifact in ShownBy(row.payload) ==> HasRow(inlines, row.run, artifact)
  }

  lemma EmbeddedShowsRows(inlines: Inlines, run: string, payload: Json, artifact: Json)
    requires payload.Get("data").Some? ==> payload.fields["data"].Get("inlineArtifacts").None?
    requires artifact in ShownBy(Embedded(inlines, run, payload))
    ensures HasRow(inlines, run, artifact)
  {
    var (thread, text) := MessageOf(payload).value;
    var refs := Refs(text);
    ShowsItsOwn(inlines, run, thread, refs, |refs|, artifact);
    var i :| 0 <= i < |refs| && Shown(inlines, run, thread, refs[i])
             && artifact == ArtifactJson(refs[i], inlines[InlineKey(run, refs[i])]);
    assert IsRow(inlines, run, refs[i], artifact);
  }

  lemma NewRowShowsRows(before: Store, run: string, e: Event)
    requires Bare(e)
    ensures ShowsRows(Artifacts.Next(before, Frame(run, e)).inlines, StoredRow(before, run, e))
  {
    var after := Register(before, run, e);
    if after.Some? {
      forall artifact | artifact in ShownBy(Embedded(after.value.inlines, run, e.payload))
        ensures HasRow(after.value.inlines, run, artifact)
      {
        EmbeddedShowsRows(after.value.inlines, run, e.payload, artifact);
      }
    }
  }

  lemma RowsStayShown(before: Inlines, after: Inlines, row: Stored)
    requires InlinesKept(before, after) && ShowsRows(before, row)
    ensures ShowsRows(after, row)
  {
    forall artifact | artifact in ShownBy(row.payload) ensures HasRow(after, row.run, artifact) {
      var ref :| IsRow(before, row.run, ref, artifact);
      assert IsRow(after, row.run, ref, artifact);
    }
  }

  ghost predicate AllShown(s: Contents) {
    forall k :: 0 <= k < |s.log| ==> ShowsRows(s.holdings.inlines, s.log[k])
  }

  lemma ShownStep(before: Contents, action: Action, after: Contents)
    requires Acts(before, action, after) && AllShown(before) && (action.Persist? ==> Bare(action.event))
    ensures AllShown(after)
  {
    if action.Fetch? {
      StepKeeps(before.holdings, Fetched(action.key));
    } else if action.run.Some? {
      var id := before.rows.runs[action.run.value].id;
      StepKeeps(before.holdings, Frame(id, action.event));
      NewRowShowsRows(before.holdings, id, action.event);
    }
    forall k | 0 <= k < |before.log| ensures ShowsRows(after.holdings.inlines, before.log[k]) {
      RowsStayShown(before.holdings.inlines, after.holdings.inlines, before.log[k]);
    }
  }

  lemma ResolvedStep(before: Contents, action: Action, after: Contents)
    requires Acts(before, action, after) && AllResolved(before.holdings)
    requires (action.Persist? ==> Projected(action.event))
    ensures AllResolved(after.holdings)
  {
    if after.holdings != before.holdings {
      var step := match action case Fetch(key) => Fetched(key)
                               case Persist(e, run) => Frame(before.rows.runs[run.value].id, e);
      forall key | key in after.holdings.inlines ensures RowResolved(after.holdings, key) {
        StepStaysResolved(before.holdings, step, key);
      }
    }
  }

  /** In every state of every history, whatever a logged message shows is still the row its
      reference has in its run, and every such row is resolved. */
  lemma {:induction false} LogStaysTrue(states: seq<Contents>, actions: seq<Action>, n: nat)
    requires IsHistory(states, actions) && n <= |actions| && AllShown(states[0]) && AllResolved(states[0].holdings)
    requires forall i :: 0 <= i < n && actions[i].Persist? ==> Bare(actions[i].event) && Projected(actions[i].event)
    ensures AllShown(states[n]) && AllResolved(states[n].holdings)
  {
    if n == 0 {
    } else {
      LogStaysTrue(states, actions, n - 1);
      assert ActsAt(states, actions, n);
      ShownStep(states[n - 1], actions[n - 1], states[n]);
      ResolvedStep(states[n - 1], actions[n - 1], states[n]);
    }
  }
}
