/** How projected events move runs, tasks and workspaces, one committed event at a time. */
module Lifecycle {
  import opened Basics
  import opened Text
  import opened Sanitizer

  datatype RunStatus = Running | RunCompleted | RunFailed | RunOther(name: string)

  datatype TaskStatus = Pending | TaskCompleted | Cancelled | Archived | TaskOther(name: string)

  datatype Run = Run(id: string, thread: Option<string>, createdAt: int, task: int, workspace: int, status: RunStatus,
                     activeTurn: Option<string>, leaseOwner: Option<string>, leaseToken: Option<string>,
                     leaseExpiry: Option<int>)

  datatype Task = Task(title: string, status: TaskStatus)

  datatype WorkspaceState = Ready | WorkspaceOther(name: string)

  datatype Tables = Tables(runs: seq<Run>, tasks: map<int, Task>, workspaces: map<int, WorkspaceState>)

  datatype EventKind =
    | TurnStarted | TurnCompleted
    | ThreadArchived | ThreadUnarchived | ThreadNameUpdated
    | ThreadCompleted | ThreadFailed
    | ItemCompleted | OtherEvent(name: string)

  /** An event after it was matched to a run. */
  datatype Change = Change(run: nat, kind: EventKind, turn: Option<string>, payload: Json)

  const MAX_TITLE_BYTES: nat := 200

  // ----- The run a thread belongs to ------------------------------------------

  /** `r` is a latest created run of the thread, if there is any. */
  ghost predicate IsLatest(runs: seq<Run>, thread: string, r: Option<nat>) {
    match r
    case None => forall i :: 0 <= i < |runs| ==> runs[i].thread != Some(thread)
    case Some(k) =>
      && k < |runs| && runs[k].thread == Some(thread)
      && forall i :: 0 <= i < |runs| && runs[i].thread == Some(thread) ==> runs[i].createdAt <= runs[k].createdAt
  }

  method LatestRun(runs: seq<Run>, thread: string) returns (r: Option<nat>)
    ensures IsLatest(runs, thread, r)
  {
    r := None;
    for i := 0 to |runs|
      invariant IsLatest(runs[..i], thread, r)
    {
      if runs[i].thread == Some(thread) && (r.None? || runs[i].createdAt > runs[r.value].createdAt) { r := Some(i); }
    }
    assert runs[..|runs|] == runs;
  }

  // ----- One step -------------------------------------------------------------

  predicate IsTerminal(kind: EventKind) { kind.ThreadCompleted? || kind.ThreadFailed? }

  function TerminalStatus(kind: EventKind): RunStatus { if kind.ThreadCompleted? then RunCompleted else RunFailed }

  function NextRun(run: Run, c: Change): Run {
    if c.kind.TurnStarted? then if run.status.Running? then run.(activeTurn := c.turn) else run
    else if c.kind.TurnCompleted? then
      if c.turn.Some? && run.activeTurn == c.turn then run.(activeTurn := None) else run
    else if IsTerminal(c.kind) && run.status.Running? then
      run.(status := TerminalStatus(c.kind), activeTurn := None, leaseOwner := None, leaseToken := None,
           leaseExpiry := None)
    else run
  }

  /** The new title, if the event carries an acceptable one. */
  function NewTitle(payload: Json): Option<string> {
    var data :- payload.Get("data");
    var name :- data.GetStr("threadName");
    if Trim(name) != "" && Utf8Length(Trim(name)) <= MAX_TITLE_BYTES then Some(Trim(name)) else None
  }

  /** The task of a run, given the run's status before the event. */
  function NextTask(task: Task, status: RunStatus, c: Change): Task {
    match c.kind
    case ThreadArchived => task.(status := Archived)
    case ThreadUnarchived => if task.status.Archived? then task.(status := Pending) else task
    case ThreadNameUpdated => task.(title := NewTitle(c.payload).GetOr(task.title))
    case _ =>
      if IsTerminal(c.kind) && status.Running? && task.status !in {TaskCompleted, Cancelled, Archived}
      then task.(status := if c.kind.ThreadCompleted? then TaskCompleted else Pending)
      else task
  }

  function Next(t: Tables, c: Change): Tables {
    if c.run >= |t.runs| then t
    else
      var run := t.runs[c.run];
      Tables(t.runs[c.run := NextRun(run, c)],
             if run.task in t.tasks then t.tasks[run.task := NextTask(t.tasks[run.task], run.status, c)] else t.tasks,
             if run.workspace in t.workspaces && IsTerminal(c.kind) && run.status.Running?
             then t.workspaces[run.workspace := Ready]
             else t.workspaces)
  }

  // ----- Whole histories ------------------------------------------------------

  function Replay(t: Tables, history: seq<Change>, n: nat): (r: Tables)
    requires n <= |history|
    ensures |r.runs| == |t.runs| && r.tasks.Keys == t.tasks.Keys
  {
    if n == 0 then t else Next(Replay(t, history, n - 1), history[n - 1])
  }

  predicate IsSettled(status: RunStatus) { status.RunCompleted? || status.RunFailed? }

  /** Only running runs have an active turn, and settled runs hold no lease. */
  ghost predicate RunOk(run: Run) {
    && (run.activeTurn.Some? ==> run.status.Running?)
    && (IsSettled(run.status) ==> run.leaseOwner.None? && run.leaseToken.None? && run.leaseExpiry.None?)
  }

  ghost predicate RunsOk(t: Tables) {
    forall i :: 0 <= i < |t.runs| ==> RunOk(t.runs[i])
  }

  lemma {:induction false} RunsStayOk(t: Tables, history: seq<Change>, n: nat)
    requires RunsOk(t) && n <= |history|
    ensures RunsOk(Replay(t, history, n))
  {
    if n == 0 {
    } else {
      RunsStayOk(t, history, n - 1);
    }
  }

  /** A settled run never changes again. */
  lemma {:induction false} SettledRunIsFrozen(t: Tables, history: seq<Change>, i: nat, n: nat, r: nat)
    requires RunsOk(t) && i <= n <= |history| && r < |t.runs| && IsSettled(Replay(t, history, i).runs[r].status)
    ensures Replay(t, history, n).runs[r] == Replay(t, history, i).runs[r]
  {
    if i == n {
    } else {
      SettledRunIsFrozen(t, history, i, n - 1, r);
      RunsStayOk(t, history, n - 1);
    }
  }

  ghost predicate Ends(c: Change, r: nat) { c.run == r && (c.kind == ThreadCompleted || c.kind == ThreadFailed) }

  ghost predicate NoneEnds(history: seq<Change>, n: nat, r: nat)
    requires n <= |history|
  {
    forall k :: 0 <= k < n ==> !Ends(history[k], r)
  }

  /** A run is running exactly when it started so and no terminal event came for it. */
  lemma {:induction false} RunningUntilEnded(t: Tables, history: seq<Change>, n: nat, r: nat)
    requires n <= |history| && r < |t.runs|
    ensures Replay(t, history, n).runs[r].status.Running? <==> t.runs[r].status.Running? && NoneEnds(history, n, r)
  {
    if n == 0 {
    } else {
      RunningUntilEnded(t, history, n - 1, r);
      assert NoneEnds(history, n, r) <==> NoneEnds(history, n - 1, r) && !Ends(history[n - 1], r);
    }
  }

  /** The first terminal event of a running run decides how it ends, for good. */
  lemma FirstEndDecides(t: Tables, history: seq<Change>, k: nat, n: nat, r: nat)
    requires RunsOk(t) && k < n <= |history| && r < |t.runs| && t.runs[r].status.Running?
    requires NoneEnds(history, k, r) && Ends(history[k], r)
    ensures Replay(t, history, n).runs[r].status ==
              if history[k].kind == ThreadCompleted then RunCompleted else RunFailed
  {
    RunningUntilEnded(t, history, k, r);
    SettledRunIsFrozen(t, history, k + 1, n, r);
  }

  // ----- The active turn ------------------------------------------------------

  ghost predicate Starts(c: Change, r: nat) { c.run == r && c.kind.TurnStarted? }

  ghost predicate Finishes(c: Change, r: nat, turn: string) {
    c.run == r && c.kind.TurnCompleted? && c.turn == Some(turn)
  }

  /** From `i` on, no turn is started and this one is not completed. */
  ghost predicate Undisturbed(history: seq<Change>, i: nat, n: nat, r: nat, turn: string)
    requires n <= |history|
  {
    forall k :: i <= k < n ==> !Starts(history[k], r) && !Finishes(history[k], r, turn)
  }

  /** The turn was started by event `i`, and it was not replaced or completed since. */
  ghost predicate OpenSince(history: seq<Change>, i: nat, n: nat, r: nat, turn: string)
    requires i < n <= |history|
  {
    Starts(history[i], r) && history[i].turn == Some(turn) && Undisturbed(history, i + 1, n, r, turn)
  }

  /** The turn was the last one started and was not completed since. */
  ghost predicate IsOpen(t: Tables, history: seq<Change>, n: nat, r: nat, turn: string)
    requires n <= |history| && r < |t.runs|
  {
    || (t.runs[r].activeTurn == Some(turn) && Undisturbed(history, 0, n, r, turn))
    || exists i :: 0 <= i < n && OpenSince(history, i, n, r, turn)
  }

  lemma UndisturbedStep(history: seq<Change>, i: nat, n: nat, r: nat, turn: string)
    requires i < n <= |history|
    ensures Undisturbed(history, i, n, r, turn) <==>
              && Undisturbed(history, i, n - 1, r, turn) && !Starts(history[n - 1], r)
              && !Finishes(history[n - 1], r, turn)
  {
  }

  lemma OpenStep(t: Tables, history: seq<Change>, n: nat, r: nat, turn: string)
    requires 0 < n <= |history| && r < |t.runs|
    ensures IsOpen(t, history, n, r, turn) <==>
              if Starts(history[n - 1], r) then history[n - 1].turn == Some(turn)
              else IsOpen(t, history, n - 1, r, turn) && !Finishes(history[n - 1], r, turn)
  {
    UndisturbedStep(history, 0, n, r, turn);
    assert OpenSince(history, n - 1, n, r, turn) <==> Starts(history[n - 1], r) && history[n - 1].turn == Some(turn);
    if i :| 0 <= i < n - 1 && OpenSince(history, i, n, r, turn) {
      UndisturbedStep(history, i + 1, n, r, turn);
      assert OpenSince(history, i, n - 1, r, turn);
    }
    var m := n - 1;
    if i :| 0 <= i < m && OpenSince(history, i, m, r, turn) {
      UndisturbedStep(history, i + 1, n, r, turn);
      assert OpenSince(history, i, n, r, turn) <==> !Starts(history[n - 1], r) && !Finishes(history[n - 1], r, turn);
    }
  }

  /** While a run is running its active turn is the last started turn not yet completed. */
  lemma {:induction false} ActiveIsOpen(t: Tables, history: seq<Change>, n: nat, r: nat, turn: string)
    requires n <= |history| && r < |t.runs| && Replay(t, history, n).runs[r].status.Running?
    ensures Replay(t, history, n).runs[r].activeTurn == Some(turn) <==> IsOpen(t, history, n, r, turn)
  {
    if n == 0 {
    } else {
      RunningUntilEnded(t, history, n, r);
      RunningUntilEnded(t, history, n - 1, r);
      ActiveIsOpen(t, history, n - 1, r, turn);
      OpenStep(t, history, n, r, turn);
    }
  }

  // ----- Tasks ----------------------------------------------------------------

  predicate IsDone(status: TaskStatus) { status.TaskCompleted? || status.Cancelled? }

  ghost predicate Archives(t: Tables, c: Change, task: int) {
    c.run < |t.runs| && t.runs[c.run].task == task && c.kind.ThreadArchived?
  }

  lemma {:induction false} TasksOfRunsAreFixed(t: Tables, history: seq<Change>, n: nat, r: nat)
    requires n <= |history| && r < |t.runs|
    ensures Replay(t, history, n).runs[r].task == t.runs[r].task
  {
    if n == 0 {
    } else {
      TasksOfRunsAreFixed(t, history, n - 1, r);
    }
  }

  lemma DoneStep(t: Tables, c: Change, task: int)
    requires task in t.tasks && IsDone(t.tasks[task].status) && !Archives(t, c, task)
    ensures Next(t, c).tasks[task].status == t.tasks[task].status
  {
  }

  /** A completed or cancelled task stays so until a thread of one of its runs is archived. */
  lemma {:induction false} DoneUntilArchived(t: Tables, history: seq<Change>, i: nat, n: nat, task: int)
    requires i <= n <= |history| && task in t.tasks && IsDone(Replay(t, history, i).tasks[task].status)
    requires forall k :: i <= k < n ==> !Archives(t, history[k], task)
    ensures Replay(t, history, n).tasks[task].status == Replay(t, history, i).tasks[task].status
  {
    if i == n {
    } else {
      DoneUntilArchived(t, history, i, n - 1, task);
      var before, c := Replay(t, history, n - 1), history[n - 1];
      assert !Archives(before, c, task) by {
        if c.run < |t.runs| { TasksOfRunsAreFixed(t, history, n - 1, c.run); }
        assert !Archives(t, c, task);
      }
      DoneStep(before, c, task);
    }
  }

  ghost predicate Unarchives(t: Tables, c: Change, task: int) {
    c.run < |t.runs| && t.runs[c.run].task == task && c.kind.ThreadUnarchived?
  }

  ghost predicate NoneUnarchives(t: Tables, history: seq<Change>, i: nat, n: nat, task: int)
    requires n <= |history|
  {
    forall k :: i <= k < n ==> !Unarchives(t, history[k], task)
  }

  /** Event `k` archived the task and nothing unarchived it since. */
  ghost predicate ArchivedSince(t: Tables, history: seq<Change>, k: nat, n: nat, task: int)
    requires k < n <= |history|
  {
    Archives(t, history[k], task) && NoneUnarchives(t, history, k + 1, n, task)
  }

  ghost predicate LastArchived(t: Tables, history: seq<Change>, n: nat, task: int)
    requires n <= |history| && task in t.tasks
  {
    || (t.tasks[task].status.Archived? && NoneUnarchives(t, history, 0, n, task))
    || exists k :: 0 <= k < n && ArchivedSince(t, history, k, n, task)
  }

  lemma LastArchivedStep(t: Tables, history: seq<Change>, n: nat, task: int)
    requires 0 < n <= |history| && task in t.tasks
    ensures LastArchived(t, history, n, task) <==>
              || Archives(t, history[n - 1], task)
              || (LastArchived(t, history, n - 1, task) && !Unarchives(t, history[n - 1], task))
  {
    var m := n - 1;
    assert Archives(t, history[m], task) ==> ArchivedSince(t, history, m, n, task);
    if k :| 0 <= k < n && ArchivedSince(t, history, k, n, task) {
      assert k < m ==> ArchivedSince(t, history, k, m, task);
      assert k < m ==> !Unarchives(t, history[m], task);
    }
    if k :| 0 <= k < m && ArchivedSince(t, history, k, m, task) {
      assert !Unarchives(t, history[m], task) ==> ArchivedSince(t, history, k, n, task);
    }
  }

  lemma ArchiveStep(t: Tables, c: Change, task: int)
    requires task in t.tasks
    ensures Next(t, c).tasks[task].status.Archived? <==>
              Archives(t, c, task) || (t.tasks[task].status.Archived? && !Unarchives(t, c, task))
    ensures t.tasks[task].status.Archived? && Unarchives(t, c, task) ==> Next(t, c).tasks[task].status == Pending
  {
  }

  lemma ArchiveStepAt(t: Tables, history: seq<Change>, n: nat, task: int)
    requires 0 < n <= |history| && task in t.tasks
    ensures var before, after := Replay(t, history, n - 1).tasks[task].status, Replay(t, history, n).tasks[task].status;
            && (after.Archived? <==>
                  Archives(t, history[n - 1], task) || (before.Archived? && !Unarchives(t, history[n - 1], task)))
            && (before.Archived? && Unarchives(t, history[n - 1], task) ==> after == Pending)
  {
    var c := history[n - 1];
    if c.run < |t.runs| { TasksOfRunsAreFixed(t, history, n - 1, c.run); }
    ArchiveStep(Replay(t, history, n - 1), c, task);
  }

  /** A task is archived if and only if an archive event came for it, or it was archived at the
      start, and no unarchive event came since. */
  lemma {:induction false} ArchivedUntilUnarchived(t: Tables, history: seq<Change>, n: nat, task: int)
    requires n <= |history| && task in t.tasks
    ensures Replay(t, history, n).tasks[task].status.Archived? <==> LastArchived(t, history, n, task)
  {
    if n == 0 {
    } else {
      ArchivedUntilUnarchived(t, history, n - 1, task);
      ArchiveStepAt(t, history, n, task);
      LastArchivedStep(t, history, n, task);
    }
  }

  /** Unarchiving an archived task leaves it pending. */
  lemma UnarchivedIsPending(t: Tables, history: seq<Change>, n: nat, task: int)
    requires 0 < n <= |history| && task in t.tasks
    requires LastArchived(t, history, n - 1, task) && Unarchives(t, history[n - 1], task)
    ensures Replay(t, history, n).tasks[task].status == Pending
  {
    ArchivedUntilUnarchived(t, history, n - 1, task);
    ArchiveStepAt(t, history, n, task);
  }

  // ----- What the end of a run brings about -----------------------------------

  /** Event `k` ended this run, which was running. */
  ghost predicate Finished(t: Tables, history: seq<Change>, k: nat, r: nat)
    requires k < |history|
  {
    r < |t.runs| && Ends(history[k], r) && Replay(t, history, k).runs[r].status.Running?
  }

  ghost predicate SomeRunFinished(t: Tables, history: seq<Change>, n: nat, workspace: int)
    requires n <= |history|
  {
    exists k :: 0 <= k < n && Finished(t, history, k, history[k].run) && t.runs[history[k].run].workspace == workspace
  }

  lemma {:induction false} WorkspacesOfRunsAreFixed(t: Tables, history: seq<Change>, n: nat, r: nat)
    requires n <= |history| && r < |t.runs|
    ensures Replay(t, history, n).runs[r].workspace == t.runs[r].workspace
    ensures Replay(t, history, n).workspaces.Keys == t.workspaces.Keys
  {
    if n == 0 {
    } else {
      WorkspacesOfRunsAreFixed(t, history, n - 1, r);
    }
  }

  lemma ReadyStep(t: Tables, c: Change, workspace: int)
    requires workspace in t.workspaces
    ensures workspace in Next(t, c).workspaces
    ensures Next(t, c).workspaces[workspace] ==
              if Ends(c, c.run) && c.run < |t.runs| && t.runs[c.run].status.Running?
                  && t.runs[c.run].workspace == workspace
              then Ready else t.workspaces[workspace]
  {
  }

  lemma SomeRunFinishedStep(t: Tables, history: seq<Change>, k: nat, workspace: int)
    requires k < |history|
    ensures var r := history[k].run;
            SomeRunFinished(t, history, k + 1, workspace) <==>
              || SomeRunFinished(t, history, k, workspace)
              || (Finished(t, history, k, r) && t.runs[r].workspace == workspace)
  {
  }

  lemma ReadyStepAt(t: Tables, history: seq<Change>, n: nat, workspace: int)
    requires 0 < n <= |history| && workspace in Replay(t, history, n - 1).workspaces
    ensures workspace in Replay(t, history, n).workspaces
    ensures var r := history[n - 1].run;
            Replay(t, history, n).workspaces[workspace] ==
              if Finished(t, history, n - 1, r) && t.runs[r].workspace == workspace then Ready
              else Replay(t, history, n - 1).workspaces[workspace]
  {
    var c := history[n - 1];
    if c.run < |t.runs| { WorkspacesOfRunsAreFixed(t, history, n - 1, c.run); }
    ReadyStep(Replay(t, history, n - 1), c, workspace);
  }

  /** A workspace is made ready by the end of one of its runs, and by nothing else. */
  lemma {:induction false} ReadyOnceFinished(t: Tables, history: seq<Change>, n: nat, workspace: int)
    requires n <= |history| && workspace in t.workspaces
    ensures workspace in Replay(t, history, n).workspaces
    ensures Replay(t, history, n).workspaces[workspace] ==
              if SomeRunFinished(t, history, n, workspace) then Ready else t.workspaces[workspace]
  {
    if n == 0 {
    } else {
      ReadyOnceFinished(t, history, n - 1, workspace);
      ReadyStepAt(t, history, n, workspace);
      SomeRunFinishedStep(t, history, n - 1, workspace);
    }
  }

  /** When a running run ends, its task follows unless it was done or archived. */
  lemma TaskFollows(t: Tables, history: seq<Change>, k: nat, r: nat, task: int)
    requires k < |history| && Finished(t, history, k, r) && t.runs[r].task == task && task in t.tasks
    ensures var before, after := Replay(t, history, k).tasks[task].status, Replay(t, history, k + 1).tasks[task].status;
            after == if IsDone(before) || before.Archived? then before
                     else if history[k].kind.ThreadCompleted? then TaskCompleted else Pending
  {
    TasksOfRunsAreFixed(t, history, k, r);
  }

  ghost predicate CompletedBy(t: Tables, history: seq<Change>, k: nat, task: int)
    requires k < |history|
  {
    history[k].kind.ThreadCompleted? && Finished(t, history, k, history[k].run) && t.runs[history[k].run].task == task
  }

  /** A task is completed only if it was so at the start or one of its running runs completed. */
  lemma {:induction false} CompletedHasACause(t: Tables, history: seq<Change>, n: nat, task: int)
    requires n <= |history| && task in t.tasks && Replay(t, history, n).tasks[task].status == TaskCompleted
    ensures t.tasks[task].status == TaskCompleted || exists k :: 0 <= k < n && CompletedBy(t, history, k, task)
  {
    if n == 0 {
    } else {
      var c := history[n - 1];
      if Replay(t, history, n - 1).tasks[task].status == TaskCompleted {
        CompletedHasACause(t, history, n - 1, task);
      } else {
        if c.run < |t.runs| { TasksOfRunsAreFixed(t, history, n - 1, c.run); }
        assert CompletedBy(t, history, n - 1, task);
      }
    }
  }

  // ----- Titles ---------------------------------------------------------------

  /** The event carries a name that trims to this title, which is not blank and short enough. */
  ghost predicate Carries(payload: Json, title: string) {
    && payload.Get("data").Some? && payload.fields["data"].Get("threadName").Some?
    && payload.fields["data"].fields["threadName"].Str?
    && IsTrim(payload.fields["data"].fields["threadName"].s, title) && title != "" && Utf8Length(title) <= 200
  }

  lemma TitleIff(payload: Json, title: string)
    ensures NewTitle(payload) == Some(title) <==> Carries(payload, title)
  {
    var data := payload.Get("data");
    if data.Some? && data.value.GetStr("threadName").Some? { TrimIff(data.value.GetStr("threadName").value, title); }
  }

  /** The event names the task: it is about one of its runs and carries this title. */
  ghost predicate Names(t: Tables, c: Change, task: int, title: string) {
    c.run < |t.runs| && t.runs[c.run].task == task && c.kind == ThreadNameUpdated && Carries(c.payload, title)
  }

  ghost predicate NoName(t: Tables, c: Change, task: int) { forall title :: !Names(t, c, task, title) }

  ghost predicate NoneNames(t: Tables, history: seq<Change>, i: nat, n: nat, task: int)
    requires n <= |history|
  {
    forall k :: i <= k < n ==> NoName(t, history[k], task)
  }

  /** The title was given by event `k` and by no later one. */
  ghost predicate NamedSince(t: Tables, history: seq<Change>, k: nat, n: nat, task: int, title: string)
    requires k < n <= |history|
  {
    Names(t, history[k], task, title) && NoneNames(t, history, k + 1, n, task)
  }

  /** The last name given, or the first title if none was. */
  ghost predicate LastNamed(t: Tables, history: seq<Change>, n: nat, task: int, title: string)
    requires n <= |history| && task in t.tasks
  {
    || (t.tasks[task].title == title && NoneNames(t, history, 0, n, task))
    || exists k :: 0 <= k < n && NamedSince(t, history, k, n, task, title)
  }

  lemma NameStep(t: Tables, c: Change, task: int, title: string)
    requires task in t.tasks
    ensures Names(t, c, task, title) ==> Next(t, c).tasks[task].title == title
    ensures NoName(t, c, task) ==> Next(t, c).tasks[task].title == t.tasks[task].title
  {
    TitleIff(c.payload, title);
    var found := NewTitle(c.payload);
    if found.Some? {
      TitleIff(c.payload, found.value);
      assert NoName(t, c, task) ==> !Names(t, c, task, found.value);
    }
  }

  lemma OneName(t: Tables, c: Change, task: int, a: string, b: string)
    requires Names(t, c, task, a) && Names(t, c, task, b)
    ensures a == b
  {
    TitleIff(c.payload, a);
    TitleIff(c.payload, b);
  }

  lemma NamesAreFixed(t: Tables, history: seq<Change>, n: nat, task: int, title: string)
    requires 0 < n <= |history|
    ensures Names(Replay(t, history, n - 1), history[n - 1], task, title) <==> Names(t, history[n - 1], task, title)
  {
    var c := history[n - 1];
    if c.run < |t.runs| { TasksOfRunsAreFixed(t, history, n - 1, c.run); }
  }

  /** One event: a name replaces the last one, anything else leaves it. */
  lemma LastNamedStep(t: Tables, history: seq<Change>, n: nat, task: int, title: string)
    requires 0 < n <= |history| && task in t.tasks
    ensures Names(t, history[n - 1], task, title) ==> LastNamed(t, history, n, task, title)
    ensures NoName(t, history[n - 1], task) && LastNamed(t, history, n - 1, task, title) ==>
              LastNamed(t, history, n, task, title)
  {
    var m := n - 1;
    if Names(t, history[m], task, title) { assert NamedSince(t, history, m, n, task, title); }
    if k :| 0 <= k < m && NamedSince(t, history, k, m, task, title) {
      assert NoName(t, history[m], task) ==> NamedSince(t, history, k, n, task, title);
    }
  }

  /** A task's title is the name given by the last acceptable name event of its runs, or its
      first title if there was none. */
  lemma {:induction false} TitleIsLastName(t: Tables, history: seq<Change>, n: nat, task: int)
    requires n <= |history| && task in t.tasks
    ensures LastNamed(t, history, n, task, Replay(t, history, n).tasks[task].title)
  {
    if n == 0 {
    } else {
      TitleIsLastName(t, history, n - 1, task);
      TitleStepAt(t, history, n, task);
      LastNamedStep(t, history, n, task, Replay(t, history, n).tasks[task].title);
    }
  }

  lemma TitleStepAt(t: Tables, history: seq<Change>, n: nat, task: int)
    requires 0 < n <= |history| && task in t.tasks
    ensures var title := Replay(t, history, n).tasks[task].title;
            || Names(t, history[n - 1], task, title)
            || (NoName(t, history[n - 1], task) && title == Replay(t, history, n - 1).tasks[task].title)
  {
    var before, c := Replay(t, history, n - 1), history[n - 1];
    if title :| Names(t, c, task, title) {
      NamesAreFixed(t, history, n, task, title);
      NameStep(before, c, task, title);
    } else {
      forall other ensures !Names(before, c, task, other) { NamesAreFixed(t, history, n, task, other); }
      NameStep(before, c, task, "");
    }
  }

  lemma LastNamedIsUnique(t: Tables, history: seq<Change>, n: nat, task: int, a: string, b: string)
    requires n <= |history| && task in t.tasks
    requires LastNamed(t, history, n, task, a) && LastNamed(t, history, n, task, b)
    ensures a == b
  {
    if i, j :| 0 <= i < n && 0 <= j < n && NamedSince(t, history, i, n, task, a)
               && NamedSince(t, history, j, n, task, b) {
      assert i == j;
      OneName(t, history[i], task, a, b);
    }
  }

  ghost predicate GoodTitle(title: string) {
    Trimmed(title) && title != "" && Utf8Length(title) <= MAX_TITLE_BYTES
  }

  lemma TitleStep(t: Tables, c: Change, task: int)
    requires task in t.tasks
    ensures Next(t, c).tasks[task].title == t.tasks[task].title || GoodTitle(Next(t, c).tasks[task].title)
  {
    if NewTitle(c.payload).Some? { TrimIsTrimmed(c.payload.Get("data").value.GetStr("threadName").value); }
  }

  /** A title is the one it started with or a good one. */
  lemma {:induction false} TitlesStayGood(t: Tables, history: seq<Change>, n: nat, task: int)
    requires n <= |history| && task in t.tasks
    ensures var title := Replay(t, history, n).tasks[task].title; title == t.tasks[task].title || GoodTitle(title)
  {
    if n == 0 {
    } else {
      TitlesStayGood(t, history, n - 1, task);
      TitleStep(Replay(t, history, n - 1), history[n - 1], task);
    }
  }
}
