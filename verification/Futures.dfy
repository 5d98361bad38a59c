/** Futures and their continuations as a state machine: every operation is one
    atomic step, and steps of any threads interleave. */
module Futures {
  import opened Options

  type Id = nat

  /** How a future ends, or what a callback returns. A cancelled future fails
      with its own error. Values and errors are numbers. */
  datatype Outcome = Completed(v: nat) | Failed(error: nat)

  datatype Kind = Then | Catch | Finally

  /** A continuation waits for its parent, then runs its callback with the
      parent's outcome, then resolves its own future. */
  datatype Phase = Waiting | Calling(seen: Outcome) | Finished(seen: Outcome, called: Option<Outcome>)

  datatype Continuation = Continuation(kind: Kind, parent: Id, phase: Phase)

  /** Every future that was made, with its outcome if it has one, and the
      continuation that was made with it, if it is one's. */
  datatype State = State(futures: map<Id, Option<Outcome>>, continuations: map<Id, Continuation>)

  /** What a step shows to the program. */
  datatype Event =
    | Made(f: Id)
    | Resolved(f: Id, how: Outcome, ok: bool)
    | Awaited(f: Id, seen: Outcome)
    | TimedOut(f: Id)
    | Polled(f: Id, done: bool)
    | Attached(f: Id, parent: Id, kind: Kind)
    | Called(f: Id, seen: Outcome)
    | Passed(f: Id, how: Outcome, ok: bool)

  /** Whether a continuation runs its callback on that outcome. */
  predicate Calls(kind: Kind, seen: Outcome) {
    match kind case Then => seen.Completed? case Catch => seen.Failed? case Finally => true
  }

  /** What a continuation resolves its future with. */
  function Continued(kind: Kind, seen: Outcome, called: Option<Outcome>): Outcome {
    if called.None? then seen
    else if kind == Finally && called.value.Completed? then seen
    else called.value
  }

  predicate Done(s: State, f: Id) { f in s.futures && s.futures[f].Some? }

  /** Resolving: the first one wins. */
  function Resolve(s: State, f: Id, o: Outcome): State
    requires f in s.futures
  {
    if Done(s, f) then s else s.(futures := s.futures[f := Some(o)])
  }

  ghost predicate Step(s: State, e: Event, t: State) {
    match e
    case Made(f) => f !in s.futures && t == s.(futures := s.futures[f := None])
    case Resolved(f, o, ok) => f in s.futures && ok == !Done(s, f) && t == Resolve(s, f, o)
    case Awaited(f, seen) => Done(s, f) && s.futures[f] == Some(seen) && t == s
    case TimedOut(f) => f in s.futures && t == s
    case Polled(f, done) => f in s.futures && done == Done(s, f) && t == s
    case Attached(f, parent, kind) =>
      f !in s.futures && parent in s.futures &&
      t == State(s.futures[f := None], s.continuations[f := Continuation(kind, parent, Waiting)])
    case Called(f, seen) =>
      f in s.continuations &&
      var c := s.continuations[f];
      c.phase == Waiting && Done(s, c.parent) && s.futures[c.parent] == Some(seen) && Calls(c.kind, seen) &&
      t == s.(continuations := s.continuations[f := c.(phase := Calling(seen))])
    case Passed(f, how, ok) =>
      f in s.continuations && f in s.futures && ok == !Done(s, f) &&
      var c := s.continuations[f];
      exists end: Phase :: Ends(s, c, end) && how == Continued(c.kind, end.seen, end.called) &&
        t == Resolve(s, f, how).(continuations := s.continuations[f := c.(phase := end)])
  }

  /** The continuation's last phase: straight from its parent's outcome, or
      with whatever its callback returned. */
  predicate Ends(s: State, c: Continuation, end: Phase) {
    end.Finished? &&
    match c.phase
    case Waiting =>
      Done(s, c.parent) && s.futures[c.parent] == Some(end.seen) && !Calls(c.kind, end.seen) && end.called == None
    case Calling(seen) => end.seen == seen && end.called.Some?
    case Finished(_, _) => false
  }

  /** A run: states and the events between them. */
  ghost predicate Run(states: seq<State>, events: seq<Event>) {
    |states| == |events| + 1 && states[0] == State(map[], map[]) &&
    forall i :: 0 <= i < |events| ==> Step(states[i], events[i], states[i + 1])
  }

  /** The event gives f its outcome. */
  predicate Wins(e: Event, f: Id) { (e.Resolved? || e.Passed?) && e.f == f && e.ok }

  // ------------------------------------------------------- single assignment

  lemma StepStable(s: State, e: Event, t: State, f: Id)
    requires Step(s, e, t)
    ensures Done(s, f) ==> Done(t, f) && t.futures[f] == s.futures[f] && !Wins(e, f)
    ensures !Done(s, f) ==> (Done(t, f) <==> Wins(e, f))
    ensures Wins(e, f) ==> t.futures[f] == Some(e.how)
  {
  }

  lemma {:induction false} Stable(states: seq<State>, events: seq<Event>, i: nat, j: nat, f: Id)
    requires Run(states, events) && i <= j < |states| && Done(states[i], f)
    ensures Done(states[j], f) && states[j].futures[f] == states[i].futures[f]
    decreases j
  {
    hide Step;
    if i < j {
      Stable(states, events, i, j - 1, f);
      StepStable(states[j - 1], events[j - 1], states[j], f);
    }
  }

  /** In every interleaving, at most one resolution of a future succeeds, and a
      future is done exactly from then on. */
  lemma {:induction false} ResolvedOnce(states: seq<State>, events: seq<Event>, f: Id, n: nat)
    requires Run(states, events) && n <= |events|
    ensures Done(states[n], f) <==> exists i :: 0 <= i < n && Wins(events[i], f)
    ensures forall i, j :: 0 <= i < j < n ==> !(Wins(events[i], f) && Wins(events[j], f))
    decreases n
  {
    hide Step;
    if n > 0 {
      ResolvedOnce(states, events, f, n - 1);
      StepStable(states[n - 1], events[n - 1], states[n], f);
    } else {
      NothingYet(states, events, f);
    }
  }

  lemma NothingYet(states: seq<State>, events: seq<Event>, f: Id)
    requires Run(states, events)
    ensures !Done(states[0], f)
  {
  }

  /** Every await that returns reports the outcome of the one resolution that
      succeeded, which came before it. */
  lemma AwaitsAgree(states: seq<State>, events: seq<Event>, f: Id, k: nat)
    requires Run(states, events) && k < |events| && events[k].Awaited? && events[k].f == f
    ensures exists i :: 0 <= i < k && Wins(events[i], f) && events[k].seen == events[i].how
  {
    ResolvedOnce(states, events, f, k);
    assert Step(states[k], events[k], states[k + 1]);
    var i :| 0 <= i < k && Wins(events[i], f);
    assert Step(states[i], events[i], states[i + 1]);
    StepStable(states[i], events[i], states[i + 1], f);
    Stable(states, events, i + 1, k, f);
  }

  // ----------------------------------------------------------- continuations

  /** Every continuation has its own future and an older parent; what it saw is
      its parent's outcome. */
  ghost predicate Consistent(s: State) {
    forall f :: f in s.continuations ==>
      f in s.futures &&
      var c := s.continuations[f];
      c.parent in s.futures && c.parent != f &&
      (c.phase.Calling? ==> s.futures[c.parent] == Some(c.phase.seen) && Calls(c.kind, c.phase.seen)) &&
      (c.phase.Finished? ==>
         Done(s, f) && s.futures[c.parent] == Some(c.phase.seen) &&
         (c.phase.called.Some? <==> Calls(c.kind, c.phase.seen)))
  }

  lemma StepConsistent(s: State, e: Event, t: State)
    requires Consistent(s) && Step(s, e, t)
    ensures Consistent(t)
  {
    forall f | f in s.continuations && Done(s, s.continuations[f].parent)
      ensures Done(t, s.continuations[f].parent) && t.futures[s.continuations[f].parent] == s.futures[s.continuations[f].parent]
    {
      StepStable(s, e, t, s.continuations[f].parent);
    }
  }

  /** The future of a continuation that only the continuation resolves: as long
      as the continuation has not finished it has no outcome. */
  ghost predicate Untouched(s: State, f: Id) {
    f in s.continuations && f in s.futures &&
    var c := s.continuations[f];
    if c.phase.Finished? then s.futures[f] == Some(Continued(c.kind, c.phase.seen, c.phase.called))
    else s.futures[f] == None
  }

  lemma StepUntouched(s: State, e: Event, t: State, f: Id)
    requires Consistent(s) && Untouched(s, f) && Step(s, e, t) && !(e.Resolved? && e.f == f)
    ensures Untouched(t, f)
  {
  }

  /** f was made as that continuation of that future. */
  predicate Continues(s: State, f: Id, kind: Kind, parent: Id) {
    f in s.continuations && s.continuations[f].kind == kind && s.continuations[f].parent == parent
  }

  lemma StepContinues(s: State, e: Event, t: State, f: Id, kind: Kind, parent: Id)
    requires Consistent(s) && Continues(s, f, kind, parent) && Step(s, e, t)
    ensures Continues(t, f, kind, parent)
  {
  }

  lemma {:induction false} ContinuationKept(states: seq<State>, events: seq<Event>, f: Id, m: nat, n: nat)
    requires Run(states, events) && m < n <= |events| && events[m].Attached? && events[m].f == f
    requires forall i :: 0 <= i < n ==> !(events[i].Resolved? && events[i].f == f)
    ensures Consistent(states[n]) && Untouched(states[n], f)
    ensures Continues(states[n], f, events[m].kind, events[m].parent)
    decreases n
  {
    hide Consistent, Untouched, Step, Continues;
    assert Step(states[n - 1], events[n - 1], states[n]);
    if n == m + 1 {
      AllConsistent(states, events, n);
      NewUntouched(states[m], events[m], states[n]);
    } else {
      ContinuationKept(states, events, f, m, n - 1);
      StepConsistent(states[n - 1], events[n - 1], states[n]);
      StepUntouched(states[n - 1], events[n - 1], states[n], f);
      StepContinues(states[n - 1], events[n - 1], states[n], f, events[m].kind, events[m].parent);
    }
  }

  /** What `then`, `catch` or `finally` ends with: errors pass through then and
      values through catch without a call; finally always calls and passes its
      parent's outcome on, unless the callback fails. */
  predicate EndsWith(kind: Kind, seen: Outcome, called: Option<Outcome>, how: Outcome) {
    match kind
    case Then => if seen.Failed? then called == None && how == seen else called == Some(how)
    case Catch => if seen.Completed? then called == None && how == seen else called == Some(how)
    case Finally => called.Some? && how == if called.value.Failed? then called.value else seen
  }

  /** Unless the program resolves it itself, the future that then, catch or
      finally returns has no outcome before its continuation has finished, and
      then ends with what its parent's outcome and the callback's make of it. */
  lemma ContinuationsPass(states: seq<State>, events: seq<Event>, f: Id, m: nat, n: nat)
    requires Run(states, events) && m < n <= |events| && events[m].Attached? && events[m].f == f
    requires forall i :: 0 <= i < n ==> !(events[i].Resolved? && events[i].f == f)
    ensures var s, kind, parent := states[n], events[m].kind, events[m].parent;
            f in s.continuations && f in s.futures && parent in s.futures && s.continuations[f].kind == kind &&
            match s.continuations[f].phase
            case Waiting => s.futures[f] == None
            case Calling(seen) =>
              s.futures[f] == None && s.futures[parent] == Some(seen) && (kind == Then ==> seen.Completed?) &&
              (kind == Catch ==> seen.Failed?)
            case Finished(seen, called) =>
              s.futures[parent] == Some(seen) && s.futures[f].Some? && EndsWith(kind, seen, called, s.futures[f].value)
  {
    hide Step;
    ContinuationKept(states, events, f, m, n);
    PhaseMeans(states[n], f, events[m].kind, events[m].parent);
  }

  lemma PhaseMeans(s: State, f: Id, kind: Kind, parent: Id)
    requires Consistent(s) && Untouched(s, f) && Continues(s, f, kind, parent)
    ensures parent in s.futures
    ensures match s.continuations[f].phase
            case Waiting => s.futures[f] == None
            case Calling(seen) =>
              s.futures[f] == None && s.futures[parent] == Some(seen) && (kind == Then ==> seen.Completed?) &&
              (kind == Catch ==> seen.Failed?)
            case Finished(seen, called) =>
              s.futures[parent] == Some(seen) && s.futures[f].Some? && EndsWith(kind, seen, called, s.futures[f].value)
  {
    var phase := s.continuations[f].phase;
    if phase.Finished? {
      assert s.futures[f] == Some(Continued(kind, phase.seen, phase.called));
      assert phase.called.Some? <==> Calls(kind, phase.seen);
    }
  }

  lemma {:induction false} AllConsistent(states: seq<State>, events: seq<Event>, n: nat)
    requires Run(states, events) && n <= |events|
    ensures Consistent(states[n])
    decreases n
  {
    if n > 0 {
      AllConsistent(states, events, n - 1);
      StepConsistent(states[n - 1], events[n - 1], states[n]);
    }
  }

  lemma NewUntouched(s: State, e: Event, t: State)
    requires Step(s, e, t) && e.Attached?
    ensures Untouched(t, e.f) && Continues(t, e.f, e.kind, e.parent)
  {
  }
}
