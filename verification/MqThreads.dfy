/**
 MQClient's publishers and event loop as threads (common/rabbitmq.hpp): a publisher pushes under
 the queue mutex and signals afterwards; the loop wakes, swaps the queue out under the mutex and
 runs the tasks outside it, taking the mutex again for each one it puts back.
 Signals coalesce into one pending flag. A step that is not enabled leaves the state alone, so a
 list of actions is any interleaving.
 */
module MqThreads {
  import opened MqPublisher

  datatype Loop =
    | Waiting
    | Started                                    // in the callback, queue not yet swapped
    | Draining(left: seq<Task>)
    | Requeueing(left: seq<Task>, task: Task)    // failed and counted, not yet put back

  datatype State = State(
    tasks: seq<Task>,
    loop: Loop,
    wake: bool,             // a signal the loop has not answered
    unsignalled: set<nat>,  // pushed, publisher has not yet signalled
    failures: seq<nat>,     // by id: attempts that failed; its length is the number of tasks published
    tries: nat,             // attempts made so far
    sent: seq<nat>,
    dropped: seq<nat>)

  datatype Action = Push | Signal(id: nat) | Wake | Swap | Try | PutBack | Finish

  function Init(): State { State([], Waiting, false, {}, [], 0, [], []) }

  /** One action; the n-th attempt of the run ends as attempt(n). */
  function Step(s: State, a: Action, attempt: nat -> Attempt): State {
    match a
    case Push =>
      var id := |s.failures|;
      s.(tasks := s.tasks + [Task(id, 0)], unsignalled := s.unsignalled + {id}, failures := s.failures + [0])
    case Signal(id) =>
      if id in s.unsignalled then s.(unsignalled := s.unsignalled - {id}, wake := true) else s
    case Wake =>
      if s.loop.Waiting? && s.wake then s.(wake := false, loop := Started) else s
    case Swap =>
      if s.loop.Started? then s.(tasks := [], loop := Draining(s.tasks)) else s
    case Try =>
      if s.loop.Draining? && s.loop.left != [] then TryFront(s, s.loop.left[0], s.loop.left[1..], attempt(s.tries)) else s
    case PutBack =>
      if s.loop.Requeueing? then s.(tasks := s.tasks + [s.loop.task], loop := Draining(s.loop.left)) else s
    case Finish =>
      if s.loop.Draining? && s.loop.left == [] then s.(loop := Waiting) else s
  }

  function TryFront(s: State, task: Task, rest: seq<Task>, a: Attempt): State {
    if Succeeds(a) then Succeeded(s, task, rest)
    else if task.retry + 1 <= MAX_RETRY then Failed(s, task, rest)
    else GaveUp(s, task, rest)
  }

  function Succeeded(s: State, task: Task, rest: seq<Task>): State {
    State(s.tasks, Draining(rest), s.wake, s.unsignalled, s.failures, s.tries + 1, s.sent + [task.id], s.dropped)
  }

  function Failed(s: State, task: Task, rest: seq<Task>): State {
    State(s.tasks, Requeueing(rest, Task(task.id, task.retry + 1)), s.wake, s.unsignalled,
          OneMore(s.failures, task.id), s.tries + 1, s.sent, s.dropped)
  }

  function GaveUp(s: State, task: Task, rest: seq<Task>): State {
    State(s.tasks, Draining(rest), s.wake, s.unsignalled,
          OneMore(s.failures, task.id), s.tries + 1, s.sent, s.dropped + [task.id])
  }

  function OneMore(failures: seq<nat>, id: nat): (r: seq<nat>)
    ensures |r| == |failures|
    ensures forall j :: 0 <= j < |r| ==> r[j] == failures[j] + if j == id then 1 else 0
  {
    seq(|failures|, j requires 0 <= j < |failures| => failures[j] + if j == id then 1 else 0)
  }

  function Run(s: State, actions: seq<Action>, attempt: nat -> Attempt): State
    decreases |actions|
  {
    if actions == [] then s else Run(Step(s, actions[0], attempt), actions[1..], attempt)
  }

  // ---------------------------------------------------------------- conservation

  function Left(l: Loop): seq<Task> {
    match l case Draining(left) => left case Requeueing(left, _) => left case _ => []
  }

  function InHand(l: Loop): seq<Task> { if l.Requeueing? then [l.task] else [] }

  function Count(ids: seq<nat>, id: nat): nat {
    if ids == [] then 0 else (if ids[0] == id then 1 else 0) + Count(ids[1..], id)
  }

  lemma {:induction false} CountSnoc(ids: seq<nat>, x: nat, id: nat)
    ensures Count(ids + [x], id) == Count(ids, id) + if x == id then 1 else 0
  {
    if ids == [] {
      assert (ids + [x])[1..] == [];
    } else {
      assert (ids + [x])[1..] == ids[1..] + [x];
      CountSnoc(ids[1..], x, id);
    }
  }

  lemma {:induction false} CountIn(ids: seq<nat>, id: nat)
    ensures Count(ids, id) >= 1 <==> id in ids
  {
    if ids != [] {
      CountIn(ids[1..], id);
    }
  }

  /** In how many places a task is: queued, in the loop's snapshot, in its hand, sent, dropped. */
  function Places(s: State, id: nat): nat {
    Count(Ids(s.tasks), id) + Count(Ids(Left(s.loop)), id) + Count(Ids(InHand(s.loop)), id) + Count(s.sent, id) + Count(s.dropped, id)
  }

  ghost predicate Conserved(s: State) {
    forall id: nat :: Places(s, id) == if id < |s.failures| then 1 else 0
  }

  /** A waiting task's retry is the number of its failures, at most 3. */
  predicate Counted(s: State, t: Task) {
    t.id < |s.failures| && t.retry == s.failures[t.id] && t.retry <= MAX_RETRY
  }

  predicate AllCounted(s: State, tasks: seq<Task>) {
    forall i :: 0 <= i < |tasks| ==> Counted(s, tasks[i])
  }

  predicate Failures(s: State, ids: seq<nat>, low: nat, high: nat) {
    forall i :: 0 <= i < |ids| ==> ids[i] < |s.failures| && low <= s.failures[ids[i]] <= high
  }

  predicate Faithful(s: State) {
    && AllCounted(s, s.tasks)
    && AllCounted(s, Left(s.loop))
    && AllCounted(s, InHand(s.loop))
    && (s.loop.Requeueing? ==> s.loop.task.retry >= 1)
    && Failures(s, s.sent, 0, MAX_RETRY)
    && Failures(s, s.dropped, MAX_RETRY + 1, MAX_RETRY + 1)
  }

  /** Nobody has forgotten a task that was never attempted. */
  predicate Awake(s: State) {
    forall i :: 0 <= i < |s.tasks| && s.tasks[i].retry == 0 ==> s.wake || s.loop.Started? || s.tasks[i].id in s.unsignalled
  }

  lemma {:induction false} IdsConcat(a: seq<Task>, b: seq<Task>)
    ensures Ids(a + b) == Ids(a) + Ids(b)
  {
    if a == [] {
      assert a + b == b;
    } else {
      assert (a + b)[1..] == a[1..] + b;
      IdsConcat(a[1..], b);
    }
  }

  lemma {:induction false} IdsAt(a: seq<Task>)
    ensures |Ids(a)| == |a| && forall i :: 0 <= i < |a| ==> Ids(a)[i] == a[i].id
  {
    if a != [] { IdsAt(a[1..]); }
  }

  lemma IdsSnoc(a: seq<Task>, t: Task)
    ensures Ids(a + [t]) == Ids(a) + [t.id]
  {
    IdsConcat(a, [t]);
    IdsOne(t);
  }

  lemma IdsOne(t: Task)
    ensures Ids([t]) == [t.id]
  {
    assert [t][1..] == [];
  }

  lemma CountFirst(a: seq<Task>, id: nat)
    requires a != []
    ensures Count(Ids(a), id) == (if a[0].id == id then 1 else 0) + Count(Ids(a[1..]), id)
  {
    assert Ids(a)[1..] == Ids(a[1..]);
  }

  /** Apart from a push, a step only moves tasks about. */
  lemma StepMoves(s: State, a: Action, attempt: nat -> Attempt, id: nat)
    ensures Places(Step(s, a, attempt), id) == Places(s, id) + if a == Push && id == |s.failures| then 1 else 0
  {
    if a == Push {
      IdsSnoc(s.tasks, Task(|s.failures|, 0));
      CountSnoc(Ids(s.tasks), |s.failures|, id);
    } else if a == PutBack && s.loop.Requeueing? {
      IdsSnoc(s.tasks, s.loop.task);
      CountSnoc(Ids(s.tasks), s.loop.task.id, id);
      IdsOne(s.loop.task);
    } else if a == Try && s.loop.Draining? && s.loop.left != [] {
      TryMoves(s, attempt(s.tries), id);
    }
  }

  lemma TryMoves(s: State, a: Attempt, id: nat)
    requires s.loop.Draining? && s.loop.left != []
    ensures Places(TryFront(s, s.loop.left[0], s.loop.left[1..], a), id) == Places(s, id)
  {
    var front, rest := s.loop.left[0], s.loop.left[1..];
    CountFirst(s.loop.left, id);
    if Succeeds(a) {
      SucceededMoves(s, front, rest, id);
    } else if front.retry + 1 <= MAX_RETRY {
      FailedMoves(s, front, rest, id);
    } else {
      GaveUpMoves(s, front, rest, id);
    }
  }

  lemma SucceededMoves(s: State, front: Task, rest: seq<Task>, id: nat)
    requires s.loop.Draining?
    requires Count(Ids(s.loop.left), id) == (if front.id == id then 1 else 0) + Count(Ids(rest), id)
    ensures Places(Succeeded(s, front, rest), id) == Places(s, id)
  {
    CountSnoc(s.sent, front.id, id);
  }

  lemma FailedMoves(s: State, front: Task, rest: seq<Task>, id: nat)
    requires s.loop.Draining?
    requires Count(Ids(s.loop.left), id) == (if front.id == id then 1 else 0) + Count(Ids(rest), id)
    ensures Places(Failed(s, front, rest), id) == Places(s, id)
  {
    IdsOne(Task(front.id, front.retry + 1));
    CountSnoc([], front.id, id);
  }

  lemma GaveUpMoves(s: State, front: Task, rest: seq<Task>, id: nat)
    requires s.loop.Draining?
    requires Count(Ids(s.loop.left), id) == (if front.id == id then 1 else 0) + Count(Ids(rest), id)
    ensures Places(GaveUp(s, front, rest), id) == Places(s, id)
  {
    CountSnoc(s.dropped, front.id, id);
  }

  lemma StepConserves(s: State, a: Action, attempt: nat -> Attempt)
    requires Conserved(s)
    ensures Conserved(Step(s, a, attempt))
  {
    var t := Step(s, a, attempt);
    assert |t.failures| == |s.failures| + if a == Push then 1 else 0;
    forall id: nat ensures Places(t, id) == if id < |t.failures| then 1 else 0 {
      StepMoves(s, a, attempt, id);
    }
  }

  lemma CountedIfQueued(tasks: seq<Task>, i: nat)
    requires i < |tasks|
    ensures Count(Ids(tasks), tasks[i].id) >= 1
  {
    IdsAt(tasks);
    assert Ids(tasks)[i] in Ids(tasks);
    CountIn(Ids(tasks), tasks[i].id);
  }

  lemma QueuedIfCounted(tasks: seq<Task>, id: nat) returns (i: nat)
    requires Count(Ids(tasks), id) >= 1
    ensures i < |tasks| && tasks[i].id == id
  {
    IdsAt(tasks);
    CountIn(Ids(tasks), id);
    i :| 0 <= i < |Ids(tasks)| && Ids(tasks)[i] == id;
  }

  /** A task in the loop's snapshot is nowhere else, so its failure changes no other count. */
  lemma FrontIsAlone(s: State)
    requires Conserved(s) && s.loop.Draining? && s.loop.left != []
    ensures forall i :: 0 <= i < |s.tasks| ==> s.tasks[i].id != s.loop.left[0].id
    ensures forall i :: 1 <= i < |s.loop.left| ==> s.loop.left[i].id != s.loop.left[0].id
    ensures s.loop.left[0].id !in s.sent && s.loop.left[0].id !in s.dropped
  {
    var id := s.loop.left[0].id;
    CountFirst(s.loop.left, id);
    assert Places(s, id) <= 1;
    forall i | 0 <= i < |s.tasks| ensures s.tasks[i].id != id { CountedIfQueued(s.tasks, i); }
    forall i | 1 <= i < |s.loop.left| ensures s.loop.left[i].id != id { CountedIfQueued(s.loop.left[1..], i - 1); }
    CountIn(s.sent, id);
    CountIn(s.dropped, id);
  }

  lemma TryIsFaithful(s: State, a: Attempt)
    requires Conserved(s) && Faithful(s) && s.loop.Draining? && s.loop.left != []
    ensures Faithful(TryFront(s, s.loop.left[0], s.loop.left[1..], a))
  {
    var front, rest := s.loop.left[0], s.loop.left[1..];
    FrontIsAlone(s);
    assert Counted(s, front);
    var t := TryFront(s, front, rest, a);
    OthersAreFaithful(s, t, front.id, s.tasks);
    OthersAreFaithful(s, t, front.id, rest);
    OutcomesAreFaithful(s, t, front.id, s.sent, 0, MAX_RETRY);
    OutcomesAreFaithful(s, t, front.id, s.dropped, MAX_RETRY + 1, MAX_RETRY + 1);
  }

  lemma OthersAreFaithful(s: State, t: State, id: nat, tasks: seq<Task>)
    requires AllCounted(s, tasks) && (forall i :: 0 <= i < |tasks| ==> tasks[i].id != id)
    requires t.failures == s.failures || t.failures == OneMore(s.failures, id)
    ensures AllCounted(t, tasks)
  {
    forall i | 0 <= i < |tasks| ensures Counted(t, tasks[i]) { assert Counted(s, tasks[i]); }
  }

  lemma OutcomesAreFaithful(s: State, t: State, id: nat, ids: seq<nat>, low: nat, high: nat)
    requires Failures(s, ids, low, high) && id !in ids
    requires t.failures == s.failures || t.failures == OneMore(s.failures, id)
    ensures Failures(t, ids, low, high)
  {
  }

  lemma StepIsFaithful(s: State, a: Action, attempt: nat -> Attempt)
    requires Conserved(s) && Faithful(s)
    ensures Faithful(Step(s, a, attempt))
  {
    if a == Try && s.loop.Draining? && s.loop.left != [] {
      TryIsFaithful(s, attempt(s.tries));
    }
  }

  lemma StepStaysAwake(s: State, a: Action, attempt: nat -> Attempt)
    requires Faithful(s) && Awake(s)
    ensures Awake(Step(s, a, attempt))
  {
  }

  lemma {:induction false} RunKeeps(s: State, actions: seq<Action>, attempt: nat -> Attempt)
    requires Conserved(s) && Faithful(s) && Awake(s)
    ensures var e := Run(s, actions, attempt); Conserved(e) && Faithful(e) && Awake(e)
    decreases |actions|
  {
    if actions != [] {
      StepConserves(s, actions[0], attempt);
      StepIsFaithful(s, actions[0], attempt);
      StepStaysAwake(s, actions[0], attempt);
      RunKeeps(Step(s, actions[0], attempt), actions[1..], attempt);
    }
  }

  /** In every reachable state each published task is in exactly one place, and retry counts its failures. */
  lemma EveryTaskIsSomewhere(actions: seq<Action>, attempt: nat -> Attempt)
    ensures Conserved(Run(Init(), actions, attempt)) && Faithful(Run(Init(), actions, attempt))
  {
    RunKeeps(Init(), actions, attempt);
  }

  /** No lost wake-up: coalesced signals strand no task that was never attempted. */
  lemma NoLostWakeup(actions: seq<Action>, attempt: nat -> Attempt, i: nat)
    requires i < |Run(Init(), actions, attempt).tasks|
    ensures var s := Run(Init(), actions, attempt);
      s.tasks[i].retry == 0 ==> s.wake || s.loop.Started? || s.tasks[i].id in s.unsignalled
  {
    RunKeeps(Init(), actions, attempt);
  }

  /** Nothing is due to happen until someone publishes. */
  predicate AtRest(s: State) { s.loop.Waiting? && !s.wake && s.unsignalled == {} }

  /** At rest, every task was sent, was dropped after four failures, or waits after one to three. */
  lemma AtRestOnlyRetriesWait(actions: seq<Action>, attempt: nat -> Attempt, id: nat)
    requires var s := Run(Init(), actions, attempt); AtRest(s) && id < |s.failures|
    ensures var s := Run(Init(), actions, attempt);
      || (id in s.sent && s.failures[id] <= 3)
      || (id in s.dropped && s.failures[id] == 4)
      || (Task(id, s.failures[id]) in s.tasks && 1 <= s.failures[id] <= 3)
  {
    RunKeeps(Init(), actions, attempt);
    RestingPlace(Run(Init(), actions, attempt), id);
  }

  lemma RestingPlace(s: State, id: nat)
    requires Conserved(s) && Faithful(s) && Awake(s) && AtRest(s) && id < |s.failures|
    ensures
      || (id in s.sent && s.failures[id] <= 3)
      || (id in s.dropped && s.failures[id] == 4)
      || (Task(id, s.failures[id]) in s.tasks && 1 <= s.failures[id] <= 3)
  {
    assert Places(s, id) == 1;
    CountIn(s.sent, id);
    CountIn(s.dropped, id);
    if id !in s.sent && id !in s.dropped {
      var i := QueuedIfCounted(s.tasks, id);
      assert Counted(s, s.tasks[i]);
    }
  }

  /** A task that failed can wait with no wake-up on its way: the loop looks again only when someone publishes. */
  lemma RetryCanBeStranded()
    ensures var s := Run(Init(), [Push, Signal(0), Wake, Swap, Try, PutBack, Finish], _ => Threw);
      AtRest(s) && s.tasks == [Task(0, 1)]
  {
    var attempt: nat -> Attempt := _ => Threw;
    var s0 := Init();
    var s1 := Step(s0, Push, attempt);
    var s2 := Step(s1, Signal(0), attempt);
    var s3 := Step(s2, Wake, attempt);
    var s4 := Step(s3, Swap, attempt);
    var s5 := Step(s4, Try, attempt);
    var s6 := Step(s5, PutBack, attempt);
    var s7 := Step(s6, Finish, attempt);
    assert s7 == State([Task(0, 1)], Waiting, false, {}, [1], 1, [], []);
    assert Run(s6, [Finish], attempt) == s7;
    assert Run(s5, [PutBack, Finish], attempt) == s7;
    assert Run(s4, [Try, PutBack, Finish], attempt) == s7;
    assert Run(s3, [Swap, Try, PutBack, Finish], attempt) == s7;
    assert Run(s2, [Wake, Swap, Try, PutBack, Finish], attempt) == s7;
    assert Run(s1, [Signal(0), Wake, Swap, Try, PutBack, Finish], attempt) == s7;
  }

  // ---------------------------------------------------------------- an interleaved drain is a sequential one

  function Retried(tasks: seq<Task>): seq<Task> {
    if tasks == [] then [] else One(tasks[0].retry > 0, tasks[0]) + Retried(tasks[1..])
  }

  lemma {:induction false} RetriedSnoc(tasks: seq<Task>, t: Task)
    ensures Retried(tasks + [t]) == Retried(tasks) + One(t.retry > 0, t)
  {
    if tasks == [] {
      assert (tasks + [t])[1..] == [];
    } else {
      assert (tasks + [t])[1..] == tasks[1..] + [t];
      RetriedSnoc(tasks[1..], t);
    }
  }

  /** What the loop has done so far. */
  function Done(s: State): Outcome { Outcome(Retried(s.tasks) + InHand(s.loop), s.sent, s.dropped) }

  /** What the drain in progress will have done by its end, by the sequential drain. */
  function Due(s: State, attempt: nat -> Attempt): Outcome {
    AfterDrain(Done(s), Left(s.loop), attempt, s.tries)
  }

  predicate Busy(l: Loop) { l.Draining? || l.Requeueing? }

  /** Neither publishers nor the loop's own steps change what is due. */
  lemma StepKeepsDue(s: State, a: Action, attempt: nat -> Attempt)
    requires Busy(s.loop) && Faithful(s)
    ensures Due(Step(s, a, attempt), attempt) == Due(s, attempt)
    ensures Step(s, a, attempt).loop.Waiting? || Busy(Step(s, a, attempt).loop)
  {
    match a
    case Push =>
      RetriedSnoc(s.tasks, Task(|s.failures|, 0));
      assert Retried(s.tasks) + [] == Retried(s.tasks);
    case PutBack =>
      if s.loop.Requeueing? {
        RetriedSnoc(s.tasks, s.loop.task);
        assert Retried(s.tasks) + [s.loop.task] + [] == Retried(s.tasks) + [s.loop.task];
      }
    case Try =>
      if s.loop.Draining? && s.loop.left != [] { TryKeepsDue(s, attempt); }
    case _ =>
  }

  lemma TryKeepsDue(s: State, attempt: nat -> Attempt)
    requires s.loop.Draining? && s.loop.left != []
    ensures Due(TryFront(s, s.loop.left[0], s.loop.left[1..], attempt(s.tries)), attempt) == Due(s, attempt)
  {
    var left, a := s.loop.left, attempt(s.tries);
    var t := TryFront(s, left[0], left[1..], a);
    TryIsDone(s, left[0], left[1..], a);
    DueOf(t, AfterTask(Done(s), left[0], a), left[1..], s.tries + 1, attempt);
    DueOf(s, Done(s), left, s.tries, attempt);
    DrainTurn(Done(s), left, attempt, s.tries);
  }

  lemma DueOf(s: State, o: Outcome, left: seq<Task>, n: nat, attempt: nat -> Attempt)
    requires Done(s) == o && Left(s.loop) == left && s.tries == n
    ensures Due(s, attempt) == AfterDrain(o, left, attempt, n)
  {
  }

  lemma TryIsDone(s: State, front: Task, rest: seq<Task>, a: Attempt)
    requires s.loop.Draining?
    ensures var t := TryFront(s, front, rest, a);
      Done(t) == AfterTask(Done(s), front, a) && Left(t.loop) == rest && t.tries == s.tries + 1
  {
    var queue := Retried(s.tasks);
    Regroup(queue, [], []);
    Regroup(s.sent, [], []);
    Regroup(s.dropped, [], []);
    assert Done(s) == Outcome(queue, s.sent, s.dropped);
    assert AfterTask(Outcome(queue, s.sent, s.dropped), front, a) ==
      if Succeeds(a) then Outcome(queue, s.sent + [front.id], s.dropped)
      else if front.retry + 1 <= MAX_RETRY then Outcome(queue + [Task(front.id, front.retry + 1)], s.sent, s.dropped)
      else Outcome(queue, s.sent, s.dropped + [front.id]);
  }

  /**
   However publishers interleave with a drain, by the time the loop waits again it has sent,
   dropped and put back exactly what the sequential drain of its snapshot does, in that order.
   */
  lemma {:induction false} InterleavedDrain(s: State, actions: seq<Action>, attempt: nat -> Attempt)
    requires Busy(s.loop) && Conserved(s) && Faithful(s) && Wake !in actions
    requires Run(s, actions, attempt).loop.Waiting?
    ensures var e := Run(s, actions, attempt);
      Outcome(Retried(e.tasks), e.sent, e.dropped) == Due(s, attempt)
    decreases |actions|
  {
    var t := Step(s, actions[0], attempt);
    StepKeepsDue(s, actions[0], attempt);
    StepConserves(s, actions[0], attempt);
    StepIsFaithful(s, actions[0], attempt);
    if Busy(t.loop) {
      InterleavedDrain(t, actions[1..], attempt);
    } else {
      WaitingLoopWaits(t, actions[1..], attempt);
      DrainTurn(Done(t), [], attempt, t.tries);
    }
  }

  /** Without a wake-up a waiting loop does nothing, and publishers add only tasks never attempted. */
  lemma {:induction false} WaitingLoopWaits(s: State, actions: seq<Action>, attempt: nat -> Attempt)
    requires s.loop.Waiting? && Wake !in actions
    ensures var e := Run(s, actions, attempt);
      e.loop.Waiting? && Retried(e.tasks) == Retried(s.tasks) && e.sent == s.sent && e.dropped == s.dropped
    decreases |actions|
  {
    if actions != [] {
      WaitingStep(s, actions[0], attempt);
      WaitingLoopWaits(Step(s, actions[0], attempt), actions[1..], attempt);
    }
  }

  lemma WaitingStep(s: State, a: Action, attempt: nat -> Attempt)
    requires s.loop.Waiting? && a != Wake
    ensures var t := Step(s, a, attempt);
      t.loop.Waiting? && Retried(t.tasks) == Retried(s.tasks) && t.sent == s.sent && t.dropped == s.dropped
  {
    if a == Push {
      RetriedSnoc(s.tasks, Task(|s.failures|, 0));
    }
  }

  // ---------------------------------------------------------------- when nothing is stranded

  predicate NeverTried(tasks: seq<Task>) { forall i :: 0 <= i < |tasks| ==> tasks[i].retry == 0 }

  /** Each attempt on `left` succeeds or is its task's fourth. */
  predicate AllSettle(left: seq<Task>, attempt: nat -> Attempt, n: nat) {
    forall i :: 0 <= i < |left| ==> Succeeds(attempt(n + i)) || left[i].retry >= MAX_RETRY
  }

  lemma {:induction false} RetriedEmptyIff(tasks: seq<Task>)
    ensures Retried(tasks) == [] <==> NeverTried(tasks)
  {
    if tasks != [] {
      RetriedEmptyIff(tasks[1..]);
      assert forall i :: 1 <= i < |tasks| ==> tasks[i] == tasks[1..][i - 1];
    }
  }

  /** At rest only tasks that failed are queued. */
  lemma AtRestQueueRetried(s: State)
    requires Awake(s) && AtRest(s)
    ensures s.tasks == [] <==> Retried(s.tasks) == []
  {
    RetriedEmptyIff(s.tasks);
    if s.tasks != [] && s.tasks[0].retry == 0 {
      assert s.tasks[0].id in s.unsignalled;
    }
  }

  /** What is put back by the end of a drain: what was back already and what the sequential drain puts back. */
  lemma PutBackByTheEnd(s: State, actions: seq<Action>, attempt: nat -> Attempt)
    requires s.loop.Draining? && Conserved(s) && Faithful(s) && Wake !in actions
    requires Run(s, actions, attempt).loop.Waiting?
    ensures Retried(Run(s, actions, attempt).tasks) == Retried(s.tasks) + Requeued(s.loop.left, attempt, s.tries)
  {
    InterleavedDrain(s, actions, attempt);
    assert Retried(s.tasks) + [] == Retried(s.tasks);
  }

  lemma PutBackNothingIff(tasks: seq<Task>, left: seq<Task>, attempt: nat -> Attempt, n: nat)
    ensures Retried(tasks) + Requeued(left, attempt, n) == [] <==> NeverTried(tasks) && AllSettle(left, attempt, n)
  {
    RetriedEmptyIff(tasks);
    DrainEmptiesIff(left, attempt, n);
    assert |Retried(tasks) + Requeued(left, attempt, n)| == |Retried(tasks)| + |Requeued(left, attempt, n)|;
  }

  /**
   From a reachable drain in progress to the rest that follows it, whatever publishers do: nothing
   is left stranded if and only if no failed task is back in the queue already and every attempt
   still to come that fails is its task's fourth. Right after the swap the first part holds.
   */
  lemma NothingStrandedIff(before: seq<Action>, actions: seq<Action>, attempt: nat -> Attempt)
    requires var s := Run(Init(), before, attempt);
      s.loop.Draining? && Wake !in actions && AtRest(Run(s, actions, attempt))
    ensures var s := Run(Init(), before, attempt);
      Run(s, actions, attempt).tasks == [] <==> NeverTried(s.tasks) && AllSettle(s.loop.left, attempt, s.tries)
  {
    RunKeeps(Init(), before, attempt);
    StrandedFrom(Run(Init(), before, attempt), actions, attempt);
  }

  lemma StrandedFrom(s: State, actions: seq<Action>, attempt: nat -> Attempt)
    requires Conserved(s) && Faithful(s) && Awake(s) && s.loop.Draining?
    requires Wake !in actions && AtRest(Run(s, actions, attempt))
    ensures Run(s, actions, attempt).tasks == [] <==> NeverTried(s.tasks) && AllSettle(s.loop.left, attempt, s.tries)
  {
    RunKeeps(s, actions, attempt);
    AtRestQueueRetried(Run(s, actions, attempt));
    PutBackByTheEnd(s, actions, attempt);
    PutBackNothingIff(s.tasks, s.loop.left, attempt, s.tries);
  }
}
