/** The UI task queue: posting, cancelling, and runners that take a batch by
    priority, put the rest back, and run the batch one task at a time. */
module UiTasks {
  datatype Task = Task(id: nat, seqno: nat, priority: int)

  /** Task a runs before task b of the same snapshot. */
  predicate Before(a: Task, b: Task) {
    if a.priority == b.priority then a.seqno < b.seqno else a.priority > b.priority
  }

  function Insert(t: Task, ts: seq<Task>): (r: seq<Task>)
    ensures multiset(r) == multiset(ts) + multiset{t} && |r| == |ts| + 1
  {
    if |ts| == 0 then [t]
    else if Before(t, ts[0]) then [t] + ts
    else
      assert ts == [ts[0]] + ts[1..];
      [ts[0]] + Insert(t, ts[1..])
  }

  /** The snapshot in running order. */
  function Sorted(ts: seq<Task>): (r: seq<Task>)
    ensures multiset(r) == multiset(ts) && |r| == |ts|
  {
    if |ts| == 0 then []
    else
      assert ts == [ts[0]] + ts[1..];
      Insert(ts[0], Sorted(ts[1..]))
  }

  predicate Ordered(ts: seq<Task>) { forall i, j :: 0 <= i < j < |ts| ==> Before(ts[i], ts[j]) }

  predicate Distinct(ts: seq<Task>) { forall i, j :: 0 <= i < j < |ts| ==> ts[i].seqno != ts[j].seqno }

  lemma MemberOf(a: seq<Task>, b: seq<Task>, i: nat)
    requires multiset(a) == multiset(b) && i < |a|
    ensures a[i] in b
  {
    assert a[i] in multiset(a);
  }

  lemma {:induction false} InsertOrdered(t: Task, ts: seq<Task>)
    requires Ordered(ts) && forall i :: 0 <= i < |ts| ==> ts[i].seqno != t.seqno
    ensures Ordered(Insert(t, ts))
  {
    if |ts| > 0 && !Before(t, ts[0]) {
      var rest := Insert(t, ts[1..]);
      InsertOrdered(t, ts[1..]);
      forall j | 0 <= j < |rest| ensures Before(ts[0], rest[j]) {
        if rest[j] != t {
          var k := InsertedFrom(t, ts[1..], j);
          assert ts[k + 1] == rest[j];
        }
      }
    }
  }

  /** What is inserted is the new task, or was there. */
  lemma InsertedFrom(t: Task, ts: seq<Task>, j: nat) returns (k: nat)
    requires j <= |ts| && Insert(t, ts)[j] != t
    ensures k < |ts| && ts[k] == Insert(t, ts)[j]
  {
    hide Before, Insert;
    var x := Insert(t, ts)[j];
    assert x in multiset(ts) + multiset{t};
    assert x in ts;
    k :| 0 <= k < |ts| && ts[k] == x;
  }

  /** Sorting orders any tasks posted under different sequence numbers. */
  lemma {:induction false} SortedOrders(ts: seq<Task>)
    requires Distinct(ts)
    ensures Ordered(Sorted(ts))
  {
    if |ts| > 0 {
      SortedOrders(ts[1..]);
      var rest := Sorted(ts[1..]);
      forall i | 0 <= i < |rest| ensures rest[i].seqno != ts[0].seqno {
        MemberOf(rest, ts[1..], i);
        var k :| 0 <= k < |ts| - 1 && ts[1..][k] == rest[i];
        assert ts[k + 1] == rest[i];
      }
      InsertOrdered(ts[0], rest);
    }
  }

  // ----------------------------------------------------------- the machine

  /** One call of runOnUIThread: not running, between its two critical sections
      with the sorted snapshot, or running its batch. */
  datatype Runner = Idle | Taken(all: seq<Task>, max: int) | Running(batch: seq<Task>)

  /** The queue and counters, the runners, and the history. */
  datatype State = State(tasks: seq<Task>, nextId: nat, nextSeq: nat, runners: seq<Runner>,
                         consumed: seq<Task>, cancelled: seq<Task>)

  /** One atomic step; r is a runner. */
  datatype Step = Post(priority: int) | Cancel(id: nat) | Take(r: nat, max: int) | Requeue(r: nat) | Consume(r: nat)

  function Start(runners: nat): State {
    State([], 0, 0, seq(runners, i => Idle), [], [])
  }

  /** The position of the first queued task with that id, or the queue's
      length. */
  function IndexOf(ts: seq<Task>, id: nat): (i: nat)
    ensures i <= |ts| && (i < |ts| ==> ts[i].id == id) && forall j :: 0 <= j < i ==> ts[j].id != id
  {
    if |ts| == 0 || ts[0].id == id then 0 else 1 + IndexOf(ts[1..], id)
  }

  function Removed(ts: seq<Task>, i: nat): seq<Task>
    requires i < |ts|
  {
    ts[..i] + ts[i + 1..]
  }

  /** How many of a snapshot a call with this limit runs. */
  function Limit(max: int, n: nat): (k: nat)
    ensures k <= n
  {
    if 0 < max < n then max else n
  }

  function Next(s: State, step: Step): State {
    match step
    case Post(priority) =>
      s.(tasks := s.tasks + [Task(s.nextId + 1, s.nextSeq + 1, priority)], nextId := s.nextId + 1, nextSeq := s.nextSeq + 1)
    case Cancel(id) =>
      var i := IndexOf(s.tasks, id);
      if i == |s.tasks| then s
      else s.(tasks := Removed(s.tasks, i), cancelled := s.cancelled + [s.tasks[i]])
    case Take(r, max) =>
      if r < |s.runners| && s.runners[r].Idle? && |s.tasks| > 0 then
        s.(tasks := [], runners := s.runners[r := Taken(Sorted(s.tasks), max)])
      else s
    case Requeue(r) =>
      if r < |s.runners| && s.runners[r].Taken? then
        var all := s.runners[r].all;
        var k := Limit(s.runners[r].max, |all|);
        s.(tasks := s.tasks + all[k..], runners := s.runners[r := Running(all[..k])])
      else s
    case Consume(r) =>
      if r < |s.runners| && s.runners[r].Running? then
        var batch := s.runners[r].batch;
        if |batch| == 0 then s.(runners := s.runners[r := Idle])
        else s.(runners := s.runners[r := Running(batch[1..])], consumed := s.consumed + [batch[0]])
      else s
  }

  function Run(s: State, steps: seq<Step>): State
    decreases |steps|
  {
    if |steps| == 0 then s else Next(Run(s, steps[..|steps| - 1]), steps[|steps| - 1])
  }

  // --------------------------------------------------- every task is somewhere

  function InFlight(r: Runner): seq<Task> {
    match r
    case Idle => []
    case Taken(all, _) => all
    case Running(batch) => batch
  }

  function Flying(runners: seq<Runner>): multiset<Task>
  {
    if |runners| == 0 then multiset{}
    else Flying(runners[..|runners| - 1]) + multiset(InFlight(runners[|runners| - 1]))
  }

  /** Every task with the number of places it is in. */
  function Everywhere(s: State): multiset<Task> {
    multiset(s.tasks) + Flying(s.runners) + multiset(s.consumed) + multiset(s.cancelled)
  }

  lemma {:induction false} FlyingUpdate(runners: seq<Runner>, r: nat, x: Runner)
    requires r < |runners|
    ensures Flying(runners[r := x]) + multiset(InFlight(runners[r])) == Flying(runners) + multiset(InFlight(x))
  {
    hide Flying, InFlight;
    var n := |runners| - 1;
    var after := runners[r := x];
    FlyingUnfold(runners);
    FlyingUnfold(after);
    if r < n {
      assert after[..n] == runners[..n][r := x] && after[n] == runners[n];
      FlyingUpdate(runners[..n], r, x);
      Shift(Flying(after[..n]), multiset(InFlight(runners[r])), Flying(runners[..n]), multiset(InFlight(x)),
            multiset(InFlight(runners[n])));
    } else {
      assert after[..n] == runners[..n];
    }
  }

  lemma FlyingUnfold(rs: seq<Runner>)
    requires |rs| > 0
    ensures Flying(rs) == Flying(rs[..|rs| - 1]) + multiset(InFlight(rs[|rs| - 1]))
  {
  }

  lemma Shift(f': multiset<Task>, a: multiset<Task>, f: multiset<Task>, b: multiset<Task>, c: multiset<Task>)
    requires f' + a == f + b
    ensures (f' + c) + a == (f + c) + b
  {
    assert (f' + c) + a == (f' + a) + c && (f + c) + b == (f + b) + c;
  }

  /** Moving `moved` from a runner that kept `kept` to another place. */
  lemma Moved(f': multiset<Task>, f: multiset<Task>, kept: multiset<Task>, moved: multiset<Task>)
    requires f' + (kept + moved) == f + kept
    ensures f' + moved == f
  {
    forall t ensures (f' + moved)[t] == f[t] {
      assert (f' + (kept + moved))[t] == (f + kept)[t];
    }
  }

  lemma {:induction false} NobodyFlies(n: nat)
    ensures Flying(seq(n, i => Idle)) == multiset{}
  {
    if n > 0 {
      var rs := seq(n, i => Idle);
      assert rs[..n - 1] == seq(n - 1, i => Idle);
      NobodyFlies(n - 1);
    }
  }

  /** A step moves tasks between places; only a post adds one. */
  lemma StepConserves(s: State, step: Step)
    ensures Everywhere(Next(s, step)) ==
            Everywhere(s) + if step.Post? then multiset{Task(s.nextId + 1, s.nextSeq + 1, step.priority)} else multiset{}
  {
    hide Flying, Sorted;
    match step
    case Post(_) =>
    case Cancel(id) =>
      var i := IndexOf(s.tasks, id);
      if i < |s.tasks| {
        assert s.tasks == s.tasks[..i] + [s.tasks[i]] + s.tasks[i + 1..];
      }
    case Take(r, max) => TakeConserves(s, r, max);
    case Requeue(r) => RequeueConserves(s, r);
    case Consume(r) => ConsumeConserves(s, r);
  }

  lemma TakeConserves(s: State, r: nat, max: int)
    ensures Everywhere(Next(s, Take(r, max))) == Everywhere(s)
  {
    hide Flying, Sorted;
    if Next(s, Take(r, max)) != s {
      FlyingUpdate(s.runners, r, Taken(Sorted(s.tasks), max));
      var f, f' := Flying(s.runners), Flying(Next(s, Take(r, max)).runners);
      assert f' == f + multiset(s.tasks);
    }
  }

  lemma RequeueConserves(s: State, r: nat)
    ensures Everywhere(Next(s, Requeue(r))) == Everywhere(s)
  {
    hide Flying, Limit;
    if r < |s.runners| && s.runners[r].Taken? {
      var all := s.runners[r].all;
      var k := Limit(s.runners[r].max, |all|);
      assert all == all[..k] + all[k..];
      FlyingUpdate(s.runners, r, Running(all[..k]));
      var f, f' := Flying(s.runners), Flying(Next(s, Requeue(r)).runners);
      assert multiset(all) == multiset(all[..k]) + multiset(all[k..]);
      Moved(f', f, multiset(all[..k]), multiset(all[k..]));
      Regroup(multiset(s.tasks), multiset(all[k..]), f', f, multiset(s.consumed), multiset(s.cancelled));
    }
  }

  lemma Regroup(q: multiset<Task>, moved: multiset<Task>, f': multiset<Task>, f: multiset<Task>, c: multiset<Task>,
                x: multiset<Task>)
    requires f' + moved == f
    ensures (q + moved) + f' + c + x == q + f + c + x
    ensures q + f' + (c + moved) + x == q + f + c + x
  {
    assert (q + moved) + f' == q + f;
    assert q + f' + (c + moved) == q + f + c;
  }

  lemma ConsumeConserves(s: State, r: nat)
    ensures Everywhere(Next(s, Consume(r))) == Everywhere(s)
  {
    hide Flying;
    if r < |s.runners| && s.runners[r].Running? {
      var batch := s.runners[r].batch;
      if |batch| == 0 {
        FlyingUpdate(s.runners, r, Idle);
        assert batch == [] && InFlight(Idle) == [];
        Moved(Flying(Next(s, Consume(r)).runners), Flying(s.runners), multiset(batch), multiset{});
      } else {
        assert batch == [batch[0]] + batch[1..];
        FlyingUpdate(s.runners, r, Running(batch[1..]));
        var f, f' := Flying(s.runners), Flying(Next(s, Consume(r)).runners);
        assert multiset(batch) == multiset(batch[1..]) + multiset([batch[0]]);
        Moved(f', f, multiset(batch[1..]), multiset([batch[0]]));
        Regroup(multiset(s.tasks), multiset([batch[0]]), f', f, multiset(s.consumed), multiset(s.cancelled));
      }
    }
  }

  /** The tasks that were posted, each once: ids and sequence numbers 1, 2, ... */
  ghost predicate Posted(m: multiset<Task>, n: nat) {
    forall t :: m[t] <= 1 && (t in m ==> 1 <= t.id <= n && t.seqno == t.id) &&
                forall u :: t in m && u in m && t.id == u.id ==> t == u
  }

  ghost predicate Conserved(s: State) {
    s.nextSeq == s.nextId && |Everywhere(s)| == s.nextId && Posted(Everywhere(s), s.nextId)
  }

  /** In every interleaving, every posted task is in exactly one place: the
      queue, one runner, the consumed list, or the cancelled list. */
  lemma {:induction false} AlwaysConserved(runners: nat, steps: seq<Step>)
    ensures Conserved(Run(Start(runners), steps))
    decreases |steps|
  {
    if |steps| == 0 {
      NobodyFlies(runners);
      assert Everywhere(Start(runners)) == multiset{};
    } else {
      AlwaysConserved(runners, steps[..|steps| - 1]);
      ConservedStep(Run(Start(runners), steps[..|steps| - 1]), steps[|steps| - 1]);
    }
  }

  lemma ConservedStep(s: State, step: Step)
    requires Conserved(s)
    ensures Conserved(Next(s, step))
  {
    StepConserves(s, step);
    hide Everywhere;
    CountersKept(s, step);
    if step.Post? {
      var t := Task(s.nextId + 1, s.nextSeq + 1, step.priority);
      assert t !in Everywhere(s);
    }
  }

  lemma CountersKept(s: State, step: Step)
    ensures var d := if step.Post? then 1 else 0;
            Next(s, step).nextId == s.nextId + d && Next(s, step).nextSeq == s.nextSeq + d
  {
    hide Sorted;
  }

  /** A task whose cancellation succeeded is never run, whatever happens
      later. */
  lemma CancelledNeverRuns(runners: nat, before: seq<Step>, id: nat, after: seq<Step>)
    requires var s := Run(Start(runners), before); IndexOf(s.tasks, id) < |s.tasks|
    ensures var t := Run(Start(runners), before + [Cancel(id)] + after);
            forall i :: 0 <= i < |t.consumed| ==> t.consumed[i].id != id
  {
    var s := Run(Start(runners), before);
    var u := before + [Cancel(id)];
    assert u[..|u| - 1] == before;
    var task := s.tasks[IndexOf(s.tasks, id)];
    assert task in Run(Start(runners), u).cancelled;
    StaysCancelled(Start(runners), u, after, task);
    AlwaysConserved(runners, u + after);
    OnePlace(Run(Start(runners), u + after), task);
  }

  lemma {:induction false} StaysCancelled(s0: State, u: seq<Step>, after: seq<Step>, task: Task)
    requires task in Run(s0, u).cancelled
    ensures task in Run(s0, u + after).cancelled
    decreases |after|
  {
    if |after| == 0 {
      assert u + after == u;
    } else {
      var n := |after| - 1;
      StaysCancelled(s0, u, after[..n], task);
      assert (u + after)[..|u| + n] == u + after[..n];
      CancelledGrows(Run(s0, u + after[..n]), after[n]);
    }
  }

  lemma CancelledGrows(s: State, step: Step)
    ensures s.cancelled <= Next(s, step).cancelled
  {
    hide Sorted;
  }

  /** A cancelled task is nowhere else, and neither is its id. */
  lemma OnePlace(s: State, task: Task)
    requires Conserved(s) && task in s.cancelled
    ensures forall i :: 0 <= i < |s.consumed| ==> s.consumed[i].id != task.id
  {
    var all := Everywhere(s);
    assert multiset(s.cancelled)[task] >= 1;
    assert all[task] >= multiset(s.consumed)[task] + multiset(s.cancelled)[task];
    assert multiset(s.consumed)[task] == 0;
    forall i | 0 <= i < |s.consumed| ensures s.consumed[i].id != task.id {
      var c := s.consumed[i];
      assert c in multiset(s.consumed) && c in all && task in all;
    }
  }

  /** No task is run twice. */
  lemma RunsOnce(runners: nat, steps: seq<Step>, i: nat, j: nat)
    requires var s := Run(Start(runners), steps); i < j < |s.consumed|
    ensures Run(Start(runners), steps).consumed[i].id != Run(Start(runners), steps).consumed[j].id
  {
    AlwaysConserved(runners, steps);
    var s := Run(Start(runners), steps);
    var a, b := s.consumed[i], s.consumed[j];
    assert a in multiset(s.consumed) && b in multiset(s.consumed);
    assert a in Everywhere(s) && b in Everywhere(s);
    assert Everywhere(s)[b] >= multiset(s.consumed)[b];
    TwoPositions(s.consumed, i, j);
  }

  lemma TwoPositions(ts: seq<Task>, i: nat, j: nat)
    requires i < j < |ts| && multiset(ts)[ts[j]] <= 1
    ensures ts[i] != ts[j]
  {
    assert ts == ts[..j] + [ts[j]] + ts[j + 1..];
    assert multiset(ts)[ts[j]] >= multiset(ts[..j])[ts[j]] + multiset([ts[j]])[ts[j]];
    assert ts[j] !in multiset(ts[..j]);
    assert ts[i] == ts[..j][i] && ts[i] in multiset(ts[..j]);
  }

  // ---------------------------------------------------------- posting order

  /** Among tasks of one priority, those of `a` were posted before those of
      `b`. */
  predicate Earlier(a: seq<Task>, b: seq<Task>) {
    forall i, j :: 0 <= i < |a| && 0 <= j < |b| && a[i].priority == b[j].priority ==> a[i].seqno < b[j].seqno
  }

  predicate Ascending(ts: seq<Task>) {
    forall i, j :: 0 <= i < j < |ts| && ts[i].priority == ts[j].priority ==> ts[i].seqno < ts[j].seqno
  }

  /** With one runner: what ran, then what is in flight, then what is queued. */
  ghost predicate InOrder(s: State) {
    |s.runners| == 1 && Conserved(s) &&
    var flight := InFlight(s.runners[0]);
    Ascending(s.consumed) && Ordered(flight) &&
    Earlier(s.consumed, flight) && Earlier(s.consumed, s.tasks) && Earlier(flight, s.tasks)
  }

  lemma EarlierSame(a: seq<Task>, b: seq<Task>, c: seq<Task>)
    requires Earlier(a, b) && multiset(c) == multiset(b)
    ensures Earlier(a, c)
  {
    forall i, j | 0 <= i < |a| && 0 <= j < |c| && a[i].priority == c[j].priority ensures a[i].seqno < c[j].seqno {
      MemberOf(c, b, j);
    }
  }

  /** Everything known was posted before the next post. */
  lemma PostedBefore(s: State, t: Task)
    requires Conserved(s) && t in Everywhere(s)
    ensures t.seqno <= s.nextSeq
  {
  }

  lemma SeqInEverywhere(s: State)
    ensures forall t :: t in s.tasks || t in s.consumed ==> t in Everywhere(s)
  {
    forall t | t in s.tasks || t in s.consumed ensures t in Everywhere(s) {
      assert t in multiset(s.tasks) || t in multiset(s.consumed);
    }
  }

  lemma FlightInEverywhere(s: State)
    requires |s.runners| == 1
    ensures forall t :: t in InFlight(s.runners[0]) ==> t in Everywhere(s)
  {
    FlyingUnfold(s.runners);
    forall t | t in InFlight(s.runners[0]) ensures t in Everywhere(s) {
      assert t in multiset(InFlight(s.runners[0]));
    }
  }

  /** Queued tasks have different sequence numbers. */
  lemma QueueDistinct(s: State)
    requires Conserved(s)
    ensures Distinct(s.tasks)
  {
    SeqInEverywhere(s);
    forall i, j | 0 <= i < j < |s.tasks| ensures s.tasks[i].seqno != s.tasks[j].seqno {
      assert Everywhere(s)[s.tasks[j]] >= multiset(s.tasks)[s.tasks[j]];
      TwoPositions(s.tasks, i, j);
    }
  }

  lemma PostInOrder(s: State, priority: int)
    requires InOrder(s)
    ensures var t := Next(s, Post(priority)); Earlier(s.consumed, t.tasks) && Earlier(InFlight(s.runners[0]), t.tasks)
  {
    SeqInEverywhere(s);
    FlightInEverywhere(s);
    PostAppends(s, priority);
    hide Everywhere, Conserved, Earlier, Next;
    var flight := InFlight(s.runners[0]);
    forall c | c in s.consumed || c in flight ensures c.seqno <= s.nextSeq { PostedBefore(s, c); }
    var t := Task(s.nextId + 1, s.nextSeq + 1, priority);
    EarlierAppend(s.consumed, s.tasks, t);
    EarlierAppend(flight, s.tasks, t);
  }

  lemma PostAppends(s: State, priority: int)
    ensures Next(s, Post(priority)).tasks == s.tasks + [Task(s.nextId + 1, s.nextSeq + 1, priority)]
  {
  }

  lemma EarlierAppend(a: seq<Task>, b: seq<Task>, t: Task)
    requires Earlier(a, b) && forall c :: c in a ==> c.seqno < t.seqno
    ensures Earlier(a, b + [t])
  {
  }

  lemma CancelInOrder(s: State, id: nat)
    requires InOrder(s)
    ensures var t := Next(s, Cancel(id)); Earlier(s.consumed, t.tasks) && Earlier(InFlight(s.runners[0]), t.tasks)
  {
    hide Conserved;
  }

  lemma StepInOrder(s: State, step: Step)
    requires InOrder(s)
    ensures InOrder(Next(s, step))
  {
    ConservedStep(s, step);
    match step
    case Post(priority) => PostInOrder(s, priority);
    case Cancel(id) => CancelInOrder(s, id);
    case Take(r, max) => TakeInOrder(s, r, max);
    case Requeue(r) => RequeueInOrder(s, r);
    case Consume(r) => ConsumeInOrder(s, r);
  }

  lemma TakeInOrder(s: State, r: nat, max: int)
    requires InOrder(s)
    ensures Conserved(Next(s, Take(r, max))) ==> InOrder(Next(s, Take(r, max)))
  {
    hide Conserved, Sorted;
    QueueDistinct(s);
    SortedOrders(s.tasks);
    EarlierSame(s.consumed, s.tasks, Sorted(s.tasks));
  }

  lemma RequeueInOrder(s: State, r: nat)
    requires InOrder(s)
    ensures Conserved(Next(s, Requeue(r))) ==> InOrder(Next(s, Requeue(r)))
  {
    hide Conserved, Limit;
  }

  lemma ConsumeInOrder(s: State, r: nat)
    requires InOrder(s)
    ensures Conserved(Next(s, Consume(r))) ==> InOrder(Next(s, Consume(r)))
  {
    hide Conserved;
  }

  /** With one runner, over every run with cancellations, ticks and requeues,
      tasks of equal priority run in the order they were posted. */
  lemma {:induction false} PostingOrder(steps: seq<Step>)
    ensures InOrder(Run(Start(1), steps))
    decreases |steps|
  {
    AlwaysConserved(1, steps);
    if |steps| > 0 {
      PostingOrder(steps[..|steps| - 1]);
      StepInOrder(Run(Start(1), steps[..|steps| - 1]), steps[|steps| - 1]);
    }
  }

  /** a is of higher priority than b, or of the same and posted earlier. */
  predicate Sooner(a: Task, b: Task) {
    a.priority >= b.priority && (a.priority == b.priority ==> a.seqno < b.seqno)
  }

  /** The batch is as many of the tasks as the limit allows, and the rest is what
      is left; the tasks in the batch, in their order, come sooner than those
      behind them and than all the rest. */
  ghost predicate FirstOf(tasks: seq<Task>, max: int, batch: seq<Task>, rest: seq<Task>) {
    |batch| == (if 0 < max < |tasks| then max else |tasks|) && multiset(batch) + multiset(rest) == multiset(tasks) &&
    (forall i, j :: 0 <= i < j < |batch| ==> Sooner(batch[i], batch[j])) &&
    forall i, j :: 0 <= i < |batch| && 0 <= j < |rest| ==> Sooner(batch[i], rest[j])
  }

  /** A batch is the first tasks of its snapshot, by priority and then by
      posting; what goes back comes after all of it. */
  lemma BatchComesFirst(s: State, r: nat, max: int)
    requires Conserved(s) && r < |s.runners| && s.runners[r].Idle? && |s.tasks| > 0
    ensures var t := Next(Next(s, Take(r, max)), Requeue(r));
            t.runners[r].Running? && FirstOf(s.tasks, max, t.runners[r].batch, t.tasks)
  {
    QueueDistinct(s);
    TakeThenRequeue(s, r, max);
    SortedFirst(s.tasks, max);
    hide Conserved, Sorted, Next, FirstOf;
  }

  /** The first tasks of the sorted snapshot. */
  lemma SortedFirst(ts: seq<Task>, max: int)
    requires Distinct(ts)
    ensures var all := Sorted(ts);
            var k := Limit(max, |all|);
            FirstOf(ts, max, all[..k], all[k..])
  {
    hide *;
    SortedOrders(ts);
    var all := Sorted(ts);
    Cut(ts, max, all, Limit(max, |all|));
  }

  lemma Cut(ts: seq<Task>, max: int, all: seq<Task>, k: nat)
    requires Ordered(all) && multiset(all) == multiset(ts) && |all| == |ts| && k == Limit(max, |all|)
    ensures FirstOf(ts, max, all[..k], all[k..])
  {
    hide Ordered, Sooner;
    PartedSooner(all, k);
    InOrderIn(all[..k]);
  }

  lemma PartedSooner(all: seq<Task>, k: nat)
    requires Ordered(all) && k <= |all|
    ensures multiset(all[..k]) + multiset(all[k..]) == multiset(all) && Ordered(all[..k])
    ensures forall i, j :: 0 <= i < |all[..k]| && 0 <= j < |all[k..]| ==> Sooner(all[..k][i], all[k..][j])
  {
    hide Before, Sooner, Ordered;
    Parted(all, k);
    forall i, j | 0 <= i < k && 0 <= j < |all| - k ensures Sooner(all[..k][i], all[k..][j]) {
      BeforeSooner(all[..k][i], all[k..][j]);
    }
  }

  lemma BeforeSooner(a: Task, b: Task)
    requires Before(a, b)
    ensures Sooner(a, b)
  {
  }

  lemma InOrderIn(ts: seq<Task>)
    requires Ordered(ts)
    ensures forall i, j :: 0 <= i < j < |ts| ==> Sooner(ts[i], ts[j])
  {
    hide Before, Sooner;
    forall i, j | 0 <= i < j < |ts| ensures Sooner(ts[i], ts[j]) { BeforeSooner(ts[i], ts[j]); }
  }

  lemma TakeThenRequeue(s: State, r: nat, max: int)
    requires r < |s.runners| && s.runners[r].Idle? && |s.tasks| > 0
    ensures var t := Next(Next(s, Take(r, max)), Requeue(r));
            var all := Sorted(s.tasks);
            var k := Limit(max, |all|);
            t == s.(runners := s.runners[r := Running(all[..k])], tasks := all[k..])
  {
    hide Sorted, Limit;
    var all := Sorted(s.tasks);
    var k := Limit(max, |all|);
    assert [] + all[k..] == all[k..];
  }

  lemma Parted(all: seq<Task>, k: nat)
    requires Ordered(all) && k <= |all|
    ensures multiset(all[..k]) + multiset(all[k..]) == multiset(all) && Ordered(all[..k])
    ensures forall i, j :: 0 <= i < k && 0 <= j < |all| - k ==> Before(all[..k][i], all[k..][j])
  {
    assert all == all[..k] + all[k..];
  }

  /** Two runners do not keep that order: the second takes what the
      first put back, and runs it first. */
  lemma TwoRunnersReorder()
    ensures var s := Run(Start(2), [Post(0), Post(0), Take(0, 1), Requeue(0), Take(1, 0), Requeue(1), Consume(1), Consume(0)]);
            s.consumed == [Task(2, 2, 0), Task(1, 1, 0)]
  {
    hide Next, Start;
    FirstBatch();
    SecondBatch();
    EightSteps(Start(2), Post(0), Post(0), Take(0, 1), Requeue(0), Take(1, 0), Requeue(1), Consume(1), Consume(0));
  }

  const FIRST: Task := Task(1, 1, 0)
  const SECOND: Task := Task(2, 2, 0)

  lemma FirstBatch()
    ensures Next(Next(Next(Next(Start(2), Post(0)), Post(0)), Take(0, 1)), Requeue(0)) ==
            State([SECOND], 2, 2, [Running([FIRST]), Idle], [], [])
  {
    var s := State([FIRST, SECOND], 2, 2, [Idle, Idle], [], []);
    assert Start(2).runners == [Idle, Idle];
    assert Next(Next(Start(2), Post(0)), Post(0)) == s;
    assert Sorted([SECOND]) == [SECOND] && Sorted([FIRST, SECOND]) == [FIRST, SECOND];
    hide Sorted;
    assert Next(s, Take(0, 1)) == State([], 2, 2, [Taken([FIRST, SECOND], 1), Idle], [], []);
  }

  lemma SecondBatch()
    ensures Next(Next(Next(Next(State([SECOND], 2, 2, [Running([FIRST]), Idle], [], []), Take(1, 0)), Requeue(1)),
                      Consume(1)), Consume(0)).consumed == [SECOND, FIRST]
  {
    var s := State([SECOND], 2, 2, [Running([FIRST]), Idle], [], []);
    assert Sorted([SECOND]) == [SECOND];
    hide Sorted;
    var t := State([], 2, 2, [Running([FIRST]), Taken([SECOND], 0)], [], []);
    assert Next(s, Take(1, 0)) == t;
    var u := State([], 2, 2, [Running([FIRST]), Running([SECOND])], [], []);
    assert [SECOND][..1] == [SECOND] && [SECOND][1..] == [];
    assert Next(t, Requeue(1)) == u;
  }

  lemma EightSteps(s: State, a: Step, b: Step, c: Step, d: Step, e: Step, f: Step, g: Step, h: Step)
    ensures Run(s, [a, b, c, d, e, f, g, h]) ==
            Next(Next(Next(Next(Next(Next(Next(Next(s, a), b), c), d), e), f), g), h)
  {
    hide Next;
    FourSteps(s, a, b, c, d);
    RunSplit(s, [a, b, c, d], [e, f, g, h]);
    FourSteps(Run(s, [a, b, c, d]), e, f, g, h);
    assert [a, b, c, d] + [e, f, g, h] == [a, b, c, d, e, f, g, h];
  }

  lemma FourSteps(s: State, a: Step, b: Step, c: Step, d: Step)
    ensures Run(s, [a, b, c, d]) == Next(Next(Next(Next(s, a), b), c), d)
  {
    hide Next;
    assert [a, b, c, d][..3] == [a, b, c] && [a, b, c][..2] == [a, b] && [a, b][..1] == [a] && [a][..0] == [];
    assert Run(s, [a]) == Next(s, a);
    assert Run(s, [a, b]) == Next(Run(s, [a]), b);
    assert Run(s, [a, b, c]) == Next(Run(s, [a, b]), c);
  }

  lemma {:induction false} RunSplit(s: State, p: seq<Step>, q: seq<Step>)
    ensures Run(s, p + q) == Run(Run(s, p), q)
    decreases |q|
  {
    if |q| == 0 {
      assert p + q == p;
    } else {
      RunSplit(s, p, q[..|q| - 1]);
      assert (p + q)[..|p + q| - 1] == p + q[..|q| - 1];
    }
  }

  // --------------------------------------------------------------- the queue

  /** The fields of the app that the lock protects. */
  class UiApp {
    var tasks: seq<Task>
    var nextTaskId: nat
    var nextTaskSeq: nat

    constructor ()
      ensures tasks == [] && nextTaskId == 0 && nextTaskSeq == 0
    {
      tasks, nextTaskId, nextTaskSeq := [], 0, 0;
    }

    /** The machine's state, with the given runners and history. */
    ghost function View(runners: seq<Runner>, consumed: seq<Task>, cancelled: seq<Task>): State
      reads this
    {
      State(tasks, nextTaskId, nextTaskSeq, runners, consumed, cancelled)
    }

    method Post(priority: int) returns (id: nat)
      modifies this
      ensures id == nextTaskId
      ensures forall rs, cs, xs :: View(rs, cs, xs) == Next(old(View(rs, cs, xs)), Step.Post(priority))
    {
      nextTaskId := nextTaskId + 1;
      nextTaskSeq := nextTaskSeq + 1;
      tasks := tasks + [Task(nextTaskId, nextTaskSeq, priority)];
      id := nextTaskId;
    }

    method CancelTask(id: nat) returns (ok: bool)
      modifies this
      ensures ok == exists i :: 0 <= i < |old(tasks)| && old(tasks)[i].id == id
      ensures ok ==> exists i :: 0 <= i < |old(tasks)| && old(tasks)[i].id == id && tasks == Removed(old(tasks), i)
      ensures !ok ==> tasks == old(tasks)
      ensures nextTaskId == old(nextTaskId) && nextTaskSeq == old(nextTaskSeq)
      ensures forall rs, cs, xs :: View(rs, cs, xs) == Next(old(View(rs, cs, xs)), Cancel(id)).(cancelled := xs)
    {
      ghost var before := tasks;
      var i := 0;
      while i < |tasks|
        invariant 0 <= i <= |tasks| && tasks == before && forall j :: 0 <= j < i ==> tasks[j].id != id
        invariant nextTaskId == old(nextTaskId) && nextTaskSeq == old(nextTaskSeq)
      {
        if tasks[i].id == id {
          FirstIndex(tasks, id, i);
          tasks := tasks[..i] + tasks[i + 1..];
          return true;
        }
        i := i + 1;
      }
      FirstIndex(tasks, id, i);
      return false;
    }

    /** The first critical section of runOnUIThread, and the sort. */
    method TakeAll() returns (all: seq<Task>)
      modifies this
      ensures all == Sorted(old(tasks)) && tasks == [] && nextTaskId == old(nextTaskId) && nextTaskSeq == old(nextTaskSeq)
    {
      var snapshot := tasks;
      tasks := [];
      all := Sorted(snapshot);
    }

    /** The second critical section: what is over the limit goes back. */
    method PutBack(all: seq<Task>, max: int) returns (batch: seq<Task>)
      modifies this
      ensures batch == all[..Limit(max, |all|)] && tasks == old(tasks) + all[Limit(max, |all|)..]
      ensures nextTaskId == old(nextTaskId) && nextTaskSeq == old(nextTaskSeq)
    {
      batch := all;
      if max > 0 && max < |all| {
        tasks := tasks + all[max..];
        batch := all[..max];
      }
    }

    /** A call that nothing interleaves with, as steps of the machine. */
    method RunOnUiThread(max: int) returns (batch: seq<Task>)
      modifies this
      ensures var s := old(View([Idle], [], []));
              if |s.tasks| == 0 then batch == [] && View([Idle], [], []) == s
              else
                var t := Next(Next(s, Take(0, max)), Requeue(0));
                t.runners == [Running(batch)] && View([Running(batch)], [], []) == t
      ensures Distinct(old(tasks)) ==> FirstOf(old(tasks), max, batch, tasks)
    {
      if |tasks| == 0 { return []; }
      ghost var s := View([Idle], [], []);
      if Distinct(s.tasks) { SortedFirst(s.tasks, max); }
      TakeThenRequeue(s, 0, max);
      hide Sorted, Distinct, FirstOf, Next, Limit;
      var all := TakeAll();
      batch := PutBack(all, max);
      assert [Idle][0 := Running(batch)] == [Running(batch)];
      assert [] + all[Limit(max, |all|)..] == all[Limit(max, |all|)..];
    }
  }

  lemma {:induction false} FirstIndex(ts: seq<Task>, id: nat, i: nat)
    requires i <= |ts| && (i < |ts| ==> ts[i].id == id) && forall j :: 0 <= j < i ==> ts[j].id != id
    ensures IndexOf(ts, id) == i
  {
    if i > 0 { FirstIndex(ts[1..], id, i - 1); }
  }
}
