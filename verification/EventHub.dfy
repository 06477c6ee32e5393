/**
 The event hub shares one underlying registration among its listeners. Registering is
 asynchronous, so subscriptions, removals and promises may interleave in any order.
 */
module EventHub {
  import opened Basics

  /** A registration that was asked for: still open, or settled with its callback to come. */
  datatype Promise = Waiting | Fulfilled | Rejected

  /** The hub's three variables, and the host's side: promises not yet called back and live
      registrations. A promise and the registration it yields carry the same number. */
  datatype State = State(listeners: set<int>, unlisten: Option<nat>, listenPromise: Option<nat>,
                         promises: map<nat, Promise>, live: set<nat>, next: nat)

  datatype Step =
    | Subscribe(listener: int)
    | Unsubscribe(listener: int)
    | Fulfil(promise: nat)
    | Reject(promise: nat)
    | CallBack(promise: nat)

  const INITIAL := State({}, None, None, map[], {}, 0)

  function Start(s: State): State {
    if s.unlisten.Some? || s.listenPromise.Some? then s
    else s.(listenPromise := Some(s.next), promises := s.promises[s.next := Waiting], next := s.next + 1)
  }

  function Stop(s: State): State {
    if s.unlisten.Some? then s.(unlisten := None, live := s.live - {s.unlisten.value}) else s
  }

  function Settle(s: State, p: nat, outcome: Promise): State {
    if p !in s.promises || !s.promises[p].Waiting? then s
    else s.(promises := s.promises[p := outcome], live := if outcome.Fulfilled? then s.live + {p} else s.live)
  }

  /** The `then` or `catch` callback of a settled promise. */
  function Called(s: State, p: nat): State {
    if p !in s.promises || s.promises[p].Waiting? then s
    else
      var t := s.(listenPromise := None, promises := s.promises - {p});
      if s.promises[p].Rejected? then t
      else if s.listeners == {} then t.(live := s.live - {p})
      else t.(unlisten := Some(p))
  }

  function Next(s: State, step: Step): State {
    match step
    case Subscribe(l) => Start(s.(listeners := s.listeners + {l}))
    case Unsubscribe(l) =>
      var t := s.(listeners := s.listeners - {l});
      if t.listeners == {} then Stop(t) else t
    case Fulfil(p) => Settle(s, p, Fulfilled)
    case Reject(p) => Settle(s, p, Rejected)
    case CallBack(p) => Called(s, p)
  }

  /** The state after the first `n` steps of an interleaving. */
  function After(steps: seq<Step>, n: nat): State
    requires n <= |steps|
  {
    if n == 0 then INITIAL else Next(After(steps, n - 1), steps[n - 1])
  }

  // ----- Safety ---------------------------------------------------------------

  /** The hub never holds more than one registration, live or asked for. */
  ghost predicate AtMostOne(s: State) {
    forall a, b :: a in s.live + s.promises.Keys && b in s.live + s.promises.Keys ==> a == b
  }

  ghost predicate Sound(s: State) {
    && (forall p :: p in s.promises <==> s.listenPromise == Some(p))
    && (forall r :: r in s.live <==> s.unlisten == Some(r) || (r in s.promises && s.promises[r].Fulfilled?))
    && (s.unlisten.Some? ==> s.listenPromise.None? && s.listeners != {})
    && (forall r :: r in s.live || r in s.promises ==> r < s.next)
  }

  lemma StepIsSound(s: State, step: Step)
    requires Sound(s)
    ensures Sound(Next(s, step))
  {
  }

  /** In every interleaving at most one registration is live or pending, a held unlisten has a
      subscriber, and once everyone left and every promise was called back nothing is registered. */
  lemma {:induction false} EveryInterleavingIsSafe(steps: seq<Step>, n: nat)
    requires n <= |steps|
    ensures Sound(After(steps, n)) && AtMostOne(After(steps, n))
    ensures After(steps, n).unlisten.Some? ==> After(steps, n).listeners != {}
    ensures After(steps, n).listeners == {} && After(steps, n).promises == map[] ==> After(steps, n).live == {}
  {
    if n == 0 {
    } else {
      EveryInterleavingIsSafe(steps, n - 1);
      StepIsSound(After(steps, n - 1), steps[n - 1]);
    }
  }

  // ----- Liveness -------------------------------------------------------------

  /** Someone listens but nothing is registered or being registered. */
  ghost predicate Deaf(s: State) {
    s.listeners != {} && s.unlisten.None? && s.listenPromise.None?
  }

  /** A rejection makes the hub deaf although it has a listener. */
  lemma RejectionDeafens(l: int)
    ensures Deaf(After([Subscribe(l), Reject(0), CallBack(0)], 3))
  {
    var steps := [Subscribe(l), Reject(0), CallBack(0)];
    assert After(steps, 1) == Next(INITIAL, Subscribe(l));
    assert After(steps, 2) == Next(After(steps, 1), Reject(0));
  }

  /** Step `i` called back a rejected promise. */
  ghost predicate FailsAt(steps: seq<Step>, i: nat)
    requires i < |steps|
  {
    && steps[i].CallBack? && steps[i].promise in After(steps, i).promises
    && After(steps, i).promises[steps[i].promise].Rejected?
  }

  ghost predicate NobodyJoins(steps: seq<Step>, i: nat, n: nat)
    requires n <= |steps|
  {
    forall k :: i <= k < n ==> !steps[k].Subscribe?
  }

  /** The last registration failed and nobody subscribed since. */
  ghost predicate GaveUp(steps: seq<Step>, n: nat)
    requires n <= |steps|
  {
    exists i :: 0 <= i < n && FailsAt(steps, i) && NobodyJoins(steps, i, n)
  }

  lemma GaveUpStep(steps: seq<Step>, n: nat)
    requires 0 < n <= |steps|
    ensures GaveUp(steps, n) <==> FailsAt(steps, n - 1) || (GaveUp(steps, n - 1) && !steps[n - 1].Subscribe?)
  {
    var m := n - 1;
    if FailsAt(steps, m) { assert NobodyJoins(steps, m, n); }
    if i :| 0 <= i < m && FailsAt(steps, i) && NobodyJoins(steps, i, m) {
      assert !steps[m].Subscribe? ==> NobodyJoins(steps, i, n);
    }
    if i :| 0 <= i < n && FailsAt(steps, i) && NobodyJoins(steps, i, n) {
      assert NobodyJoins(steps, i, m);
    }
  }

  /** The hub is deaf exactly when it has listeners, its last registration was rejected, and
      nobody has subscribed since. */
  lemma {:induction false} DeafIffGaveUp(steps: seq<Step>, n: nat)
    requires n <= |steps|
    ensures Deaf(After(steps, n)) <==> After(steps, n).listeners != {} && GaveUp(steps, n)
    ensures GaveUp(steps, n) ==> After(steps, n).unlisten.None? && After(steps, n).listenPromise.None?
  {
    if n == 0 {
    } else {
      DeafIffGaveUp(steps, n - 1);
      EveryInterleavingIsSafe(steps, n - 1);
      GaveUpStep(steps, n);
    }
  }

  // ----- The hub itself -------------------------------------------------------

  class Hub {
    var listeners: set<int>
    var unlisten: Option<nat>
    var listenPromise: Option<nat>
    var promises: map<nat, Promise>
    var live: set<nat>
    var next: nat

    ghost function Now(): State
      reads this
    {
      State(listeners, unlisten, listenPromise, promises, live, next)
    }

    constructor ()
      ensures Now() == INITIAL
    {
      listeners, unlisten, listenPromise, promises, live, next := {}, None, None, map[], {}, 0;
    }

    method StartListening()
      modifies this
      ensures Now() == Start(old(Now()))
    {
      if unlisten.Some? || listenPromise.Some? { return; }
      promises := promises[next := Waiting];
      listenPromise := Some(next);
      next := next + 1;
    }

    method StopListening()
      modifies this
      ensures Now() == Stop(old(Now()))
    {
      if unlisten.Some? {
        live := live - {unlisten.value};
        unlisten := None;
      }
    }

    method Add(listener: int)
      modifies this
      ensures Now() == Next(old(Now()), Subscribe(listener))
    {
      listeners := listeners + {listener};
      StartListening();
    }

    method Remove(listener: int)
      modifies this
      ensures Now() == Next(old(Now()), Unsubscribe(listener))
    {
      listeners := listeners - {listener};
      if listeners == {} { StopListening(); }
    }

    method OnFulfilled(p: nat)
      requires p in promises && promises[p].Fulfilled?
      modifies this
      ensures Now() == Next(old(Now()), CallBack(p))
    {
      promises := promises - {p};
      listenPromise := None;
      if listeners == {} {
        live := live - {p};
        return;
      }
      unlisten := Some(p);
    }

    method OnRejected(p: nat)
      requires p in promises && promises[p].Rejected?
      modifies this
      ensures Now() == Next(old(Now()), CallBack(p))
    {
      promises := promises - {p};
      listenPromise := None;
    }
  }
}
