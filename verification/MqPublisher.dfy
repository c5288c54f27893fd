/**
 The publishing half of MQClient (common/rabbitmq.hpp): callers push tasks on a shared queue and
 wake an event loop, which swaps the queue out and tries each task, putting failures back.
 */
module MqPublisher {

  const MAX_RETRY: nat := 3

  /** A queued publish; `id` stands for its closure. */
  datatype Task = Task(id: nat, retry: nat)

  /** How running a task ended; an exception is a failure. */
  datatype Attempt = Returned(ok: bool) | Threw

  predicate Succeeds(a: Attempt) { a == Returned(true) }

  // ---------------------------------------------------------------- one drain

  function One<T>(yes: bool, x: T): seq<T> { if yes then [x] else [] }

  /** The tasks put back when the n-th, n+1-st, ... attempts are made on `left`. */
  function Requeued(left: seq<Task>, attempt: nat -> Attempt, n: nat): seq<Task> {
    if left == [] then []
    else One(Survives(left[0], attempt(n)), Task(left[0].id, left[0].retry + 1))
         + Requeued(left[1..], attempt, n + 1)
  }

  function Sent(left: seq<Task>, attempt: nat -> Attempt, n: nat): seq<nat> {
    if left == [] then [] else One(Succeeds(attempt(n)), left[0].id) + Sent(left[1..], attempt, n + 1)
  }

  function Dropped(left: seq<Task>, attempt: nat -> Attempt, n: nat): seq<nat> {
    if left == [] then []
    else One(GivenUp(left[0], attempt(n)), left[0].id) + Dropped(left[1..], attempt, n + 1)
  }

  predicate Survives(task: Task, a: Attempt) { !Succeeds(a) && task.retry + 1 <= MAX_RETRY }
  predicate GivenUp(task: Task, a: Attempt) { !Succeeds(a) && task.retry + 1 > MAX_RETRY }

  lemma Regroup<T>(a: seq<T>, b: seq<T>, c: seq<T>)
    ensures a + (b + c) == (a + b) + c && a + [] == a
  {
  }

  /** What a drain leaves: the queue, what was sent and what was dropped. */
  datatype Outcome = Outcome(tasks: seq<Task>, sent: seq<nat>, dropped: seq<nat>)

  function AfterTask(o: Outcome, task: Task, a: Attempt): Outcome {
    Outcome(o.tasks + One(Survives(task, a), Task(task.id, task.retry + 1)),
            o.sent + One(Succeeds(a), task.id),
            o.dropped + One(GivenUp(task, a), task.id))
  }

  function AfterDrain(o: Outcome, left: seq<Task>, attempt: nat -> Attempt, n: nat): Outcome {
    Outcome(o.tasks + Requeued(left, attempt, n), o.sent + Sent(left, attempt, n), o.dropped + Dropped(left, attempt, n))
  }

  /** Draining is running the first task, then draining the others. */
  lemma DrainTurn(o: Outcome, left: seq<Task>, attempt: nat -> Attempt, n: nat)
    ensures AfterDrain(o, left, attempt, n) ==
      if left == [] then o else AfterDrain(AfterTask(o, left[0], attempt(n)), left[1..], attempt, n + 1)
  {
    if left != [] {
      Regroup(o.tasks, One(Survives(left[0], attempt(n)), Task(left[0].id, left[0].retry + 1)), Requeued(left[1..], attempt, n + 1));
      Regroup(o.sent, One(Succeeds(attempt(n)), left[0].id), Sent(left[1..], attempt, n + 1));
      Regroup(o.dropped, One(GivenUp(left[0], attempt(n)), left[0].id), Dropped(left[1..], attempt, n + 1));
    }
  }

  /** What each way an attempt can end does to its task. */
  lemma AttemptDecides(o: Outcome, task: Task, a: Attempt)
    ensures AfterTask(o, task, a) ==
      match a
      case Returned(true) => Outcome(o.tasks, o.sent + [task.id], o.dropped)
      case _ =>
        if task.retry < 3 then Outcome(o.tasks + [Task(task.id, task.retry + 1)], o.sent, o.dropped)
        else Outcome(o.tasks, o.sent, o.dropped + [task.id])
  {
    Regroup(o.tasks, [], []);
    Regroup(o.sent, [], []);
    Regroup(o.dropped, [], []);
  }

  class Client {
    var tasks: seq<Task>
    var sent: seq<nat>     // what reached the channel, in order
    var dropped: seq<nat>
    var wakeups: nat       // ev_async_send calls

    constructor ()
      ensures tasks == [] && sent == [] && dropped == [] && wakeups == 0
    {
      tasks, sent, dropped, wakeups := [], [], [], 0;
    }

    method Publish(id: nat) returns (ok: bool)
      modifies this
      ensures ok && tasks == old(tasks) + [Task(id, 0)] && wakeups == old(wakeups) + 1
      ensures sent == old(sent) && dropped == old(dropped)
    {
      tasks := tasks + [Task(id, 0)];
      wakeups := wakeups + 1;
      ok := true;
    }

    ghost function Now(): Outcome reads this { Outcome(tasks, sent, dropped) }

    method DrainTasks(attempt: nat -> Attempt)
      modifies this`tasks, this`sent, this`dropped
      ensures tasks == Requeued(old(tasks), attempt, 0)
      ensures sent == old(sent) + Sent(old(tasks), attempt, 0)
      ensures dropped == old(dropped) + Dropped(old(tasks), attempt, 0)
    {
      var left := tasks;
      tasks := [];
      var n := 0;
      ghost var end := AfterDrain(Now(), left, attempt, 0);
      assert [] + Requeued(left, attempt, 0) == Requeued(left, attempt, 0);
      while left != []
        invariant AfterDrain(Now(), left, attempt, n) == end
        decreases |left|
      {
        DrainTurn(Now(), left, attempt, n);
        RunTask(left[0], attempt(n));
        left, n := left[1..], n + 1;
      }
      DrainTurn(Now(), left, attempt, n);
    }

    /** One turn of the drain loop. */
    method RunTask(front: Task, outcome: Attempt)
      modifies this`tasks, this`sent, this`dropped
      ensures Now() == AfterTask(old(Now()), front, outcome)
      ensures outcome == Returned(true) ==> sent == old(sent) + [front.id] && tasks == old(tasks) && dropped == old(dropped)
      ensures outcome != Returned(true) && front.retry < 3 ==>
        tasks == old(tasks) + [Task(front.id, front.retry + 1)] && sent == old(sent) && dropped == old(dropped)
      ensures outcome != Returned(true) && front.retry >= 3 ==>
        dropped == old(dropped) + [front.id] && tasks == old(tasks) && sent == old(sent)
    {
      AttemptDecides(Now(), front, outcome);
      var task, ok := front, false;
      match outcome {
        case Returned(result) => ok := result;
        case Threw =>
      }
      if ok {
        sent := sent + [task.id];
      } else {
        task := task.(retry := task.retry + 1);
        if task.retry <= MAX_RETRY {
          tasks := tasks + [task];
        } else {
          dropped := dropped + [task.id];
        }
      }
    }
  }

  function Ids(tasks: seq<Task>): seq<nat> {
    if tasks == [] then [] else [tasks[0].id] + Ids(tasks[1..])
  }

  lemma IdsCons(t: Task, rest: seq<Task>)
    ensures Ids([t] + rest) == [t.id] + Ids(rest)
  {
    assert ([t] + rest)[1..] == rest;
  }

  /** One task goes to exactly one of the three places. */
  lemma OneConserves(task: Task, a: Attempt, back: seq<Task>, sent: seq<nat>, dropped: seq<nat>)
    ensures multiset(Ids(One(Survives(task, a), Task(task.id, task.retry + 1)) + back))
        + multiset(One(Succeeds(a), task.id) + sent) + multiset(One(GivenUp(task, a), task.id) + dropped)
      == multiset{task.id} + (multiset(Ids(back)) + multiset(sent) + multiset(dropped))
  {
    IdsOne(Survives(task, a), Task(task.id, task.retry + 1), back);
    MaybeOne(Survives(task, a), task.id, Ids(back));
    MaybeOne(Succeeds(a), task.id, sent);
    MaybeOne(GivenUp(task, a), task.id, dropped);
  }

  lemma IdsOne(yes: bool, t: Task, rest: seq<Task>)
    ensures Ids(One(yes, t) + rest) == One(yes, t.id) + Ids(rest)
  {
    if yes {
      IdsCons(t, rest);
    } else {
      assert [] + rest == rest;
    }
  }

  lemma MaybeOne(yes: bool, id: nat, ids: seq<nat>)
    ensures multiset(One(yes, id) + ids) == (if yes then multiset{id} else multiset{}) + multiset(ids)
  {
    assert !yes ==> [] + ids == ids;
  }

  /** Every drained task is put back, sent or dropped: exactly one of the three. */
  lemma {:induction false} DrainConserves(left: seq<Task>, attempt: nat -> Attempt, n: nat)
    ensures multiset(Ids(left)) ==
      multiset(Ids(Requeued(left, attempt, n))) + multiset(Sent(left, attempt, n)) + multiset(Dropped(left, attempt, n))
    decreases |left|
  {
    if left != [] {
      var rest := left[1..];
      DrainConserves(rest, attempt, n + 1);
      OneConserves(left[0], attempt(n), Requeued(rest, attempt, n + 1), Sent(rest, attempt, n + 1), Dropped(rest, attempt, n + 1));
      assert multiset([left[0].id] + Ids(rest)) == multiset{left[0].id} + multiset(Ids(rest));
    }
  }

  /** The positions in `left` of the tasks that are put back. */
  function KeptAt(left: seq<Task>, attempt: nat -> Attempt, n: nat): seq<nat> {
    if left == [] then []
    else One(Survives(left[0], attempt(n)), n) + KeptAt(left[1..], attempt, n + 1)
  }

  /** Tasks put back keep their order, and each carries one failure more. */
  lemma {:induction false} RequeuedInOrder(left: seq<Task>, attempt: nat -> Attempt, n: nat)
    ensures var kept, back := KeptAt(left, attempt, n), Requeued(left, attempt, n);
      && |kept| == |back|
      && (forall j :: 0 <= j < |kept| ==> n <= kept[j] < n + |left|)
      && (forall i, j :: 0 <= i < j < |kept| ==> kept[i] < kept[j])
      && (forall j :: 0 <= j < |kept| ==> back[j] == Task(left[kept[j] - n].id, left[kept[j] - n].retry + 1) && back[j].retry <= MAX_RETRY)
    decreases |left|
  {
    if left != [] {
      RequeuedInOrder(left[1..], attempt, n + 1);
    }
  }

  /** How many more failures the queue can still absorb. */
  function Patience(tasks: seq<Task>): nat
    requires forall i :: 0 <= i < |tasks| ==> tasks[i].retry <= MAX_RETRY
  {
    if tasks == [] then 0 else 4 - tasks[0].retry + Patience(tasks[1..])
  }

  /** With no one publishing, a drain of a non-empty queue leaves less to do. */
  lemma {:induction false} DrainMakesProgress(left: seq<Task>, attempt: nat -> Attempt, n: nat)
    requires forall i :: 0 <= i < |left| ==> left[i].retry <= MAX_RETRY
    ensures forall i :: 0 <= i < |Requeued(left, attempt, n)| ==> Requeued(left, attempt, n)[i].retry <= MAX_RETRY
    ensures Patience(Requeued(left, attempt, n)) + |left| <= Patience(left)
    decreases |left|
  {
    if left != [] {
      DrainMakesProgress(left[1..], attempt, n + 1);
      var rest := Requeued(left[1..], attempt, n + 1);
      if Survives(left[0], attempt(n)) {
        assert Requeued(left, attempt, n)[1..] == rest;
      } else {
        assert Requeued(left, attempt, n) == rest;
      }
    }
  }

  /** A drain raises every surviving count, so tasks that failed three times do not survive. */
  lemma {:induction false} DrainRaises(left: seq<Task>, attempt: nat -> Attempt, n: nat, least: nat)
    requires forall i :: 0 <= i < |left| ==> left[i].retry >= least
    ensures forall i :: 0 <= i < |Requeued(left, attempt, n)| ==> Requeued(left, attempt, n)[i].retry >= least + 1
    ensures least >= MAX_RETRY ==> Requeued(left, attempt, n) == []
    decreases |left|
  {
    if left != [] {
      DrainRaises(left[1..], attempt, n + 1, least);
    }
  }

  /** A drain leaves an empty queue if and only if every attempt that fails is its task's fourth. */
  lemma {:induction false} DrainEmptiesIff(left: seq<Task>, attempt: nat -> Attempt, n: nat)
    ensures Requeued(left, attempt, n) == [] <==>
      forall i :: 0 <= i < |left| ==> Succeeds(attempt(n + i)) || left[i].retry >= MAX_RETRY
    decreases |left|
  {
    if left != [] {
      DrainEmptiesIff(left[1..], attempt, n + 1);
      assert forall i :: 0 <= i < |left[1..]| ==> left[1..][i] == left[i + 1];
      forall i | 1 <= i < |left|
        ensures (Succeeds(attempt(n + i)) || left[i].retry >= MAX_RETRY)
          <==> (Succeeds(attempt(n + 1 + (i - 1))) || left[1..][i - 1].retry >= MAX_RETRY)
      {
      }
      assert n + 0 == n;
      assert Requeued(left, attempt, n) == [] <==> !Survives(left[0], attempt(n)) && Requeued(left[1..], attempt, n + 1) == [];
    }
  }

  /** Whatever the attempts do, four drains leave nothing. */
  lemma FourDrainsEmptyTheQueue(tasks: seq<Task>, a: nat -> Attempt, b: nat -> Attempt, c: nat -> Attempt, d: nat -> Attempt)
    ensures Requeued(Requeued(Requeued(Requeued(tasks, a, 0), b, 0), c, 0), d, 0) == []
  {
    var t1 := Requeued(tasks, a, 0);
    var t2 := Requeued(t1, b, 0);
    DrainRaises(tasks, a, 0, 0);
    DrainRaises(t1, b, 0, 1);
    DrainRaises(t2, c, 0, 2);
    DrainRaises(Requeued(t2, c, 0), d, 0, 3);
  }

  // ---------------------------------------------------------------- what becomes of each task of a drain

  /** `at` lists, in order, exactly the positions whose flag is set. */
  ghost predicate Lists(at: seq<nat>, flags: seq<bool>) {
    && (forall i, j :: 0 <= i < j < |at| ==> at[i] < at[j])
    && (forall j :: 0 <= j < |at| ==> at[j] < |flags| && flags[at[j]])
    && (forall i :: 0 <= i < |flags| && flags[i] ==> i in at)
  }

  function Positions(flags: seq<bool>): seq<nat> {
    if flags == [] then []
    else Positions(flags[..|flags| - 1]) + One(flags[|flags| - 1], |flags| - 1)
  }

  lemma {:induction false} PositionsListed(flags: seq<bool>)
    ensures Lists(Positions(flags), flags)
  {
    if flags != [] {
      PositionsListed(flags[..|flags| - 1]);
      ListsSnoc(Positions(flags[..|flags| - 1]), flags);
    }
  }

  lemma ListsSnoc(at: seq<nat>, flags: seq<bool>)
    requires flags != [] && Lists(at, flags[..|flags| - 1])
    ensures Lists(at + One(flags[|flags| - 1], |flags| - 1), flags)
  {
    var init, last := flags[..|flags| - 1], |flags| - 1;
    forall i | 0 <= i < |flags| && flags[i] ensures i in at + One(flags[last], last) {
      assert i < last ==> init[i];
    }
    forall j | 0 <= j < |at| ensures at[j] < last && flags[at[j]] {
      assert init[at[j]];
    }
  }

  /** The elements at the flagged positions. */
  function Select<T>(xs: seq<T>, flags: seq<bool>): seq<T>
    requires |xs| == |flags|
  {
    if xs == [] then [] else Select(xs[..|xs| - 1], flags[..|xs| - 1]) + One(flags[|xs| - 1], xs[|xs| - 1])
  }

  lemma {:induction false} SelectAt<T>(xs: seq<T>, flags: seq<bool>)
    requires |xs| == |flags|
    ensures |Select(xs, flags)| == |Positions(flags)|
    ensures forall j :: 0 <= j < |Positions(flags)| ==> Positions(flags)[j] < |xs| && Select(xs, flags)[j] == xs[Positions(flags)[j]]
  {
    if xs != [] {
      SelectAt(xs[..|xs| - 1], flags[..|xs| - 1]);
    }
  }

  lemma {:induction false} SelectCons<T>(x: T, xs: seq<T>, flag: bool, flags: seq<bool>)
    requires |xs| == |flags|
    ensures Select([x] + xs, [flag] + flags) == One(flag, x) + Select(xs, flags)
  {
    var ys, marks := [x] + xs, [flag] + flags;
    if xs == [] {
      assert ys[..0] == [] && marks[..0] == [];
    } else {
      var last := |xs| - 1;
      assert ys[..|ys| - 1] == [x] + xs[..last] && marks[..|ys| - 1] == [flag] + flags[..last];
      SelectCons(x, xs[..last], flag, flags[..last]);
      Regroup(One(flag, x), Select(xs[..last], flags[..last]), One(flags[last], xs[last]));
    }
  }

  /** The i-th task of the drain is attempted n + i-th; what becomes of it is decided by that attempt and its count. */
  function SentFlags(left: seq<Task>, attempt: nat -> Attempt, n: nat): seq<bool> {
    seq(|left|, i requires 0 <= i < |left| => attempt(n + i) == Returned(true))
  }

  function BackFlags(left: seq<Task>, attempt: nat -> Attempt, n: nat): seq<bool> {
    seq(|left|, i requires 0 <= i < |left| => attempt(n + i) != Returned(true) && left[i].retry < 3)
  }

  function DroppedFlags(left: seq<Task>, attempt: nat -> Attempt, n: nat): seq<bool> {
    seq(|left|, i requires 0 <= i < |left| => attempt(n + i) != Returned(true) && left[i].retry >= 3)
  }

  function Raised(left: seq<Task>): (r: seq<Task>)
    ensures |r| == |left|
  {
    seq(|left|, i requires 0 <= i < |left| => Task(left[i].id, left[i].retry + 1))
  }

  function Names(left: seq<Task>): (r: seq<nat>)
    ensures |r| == |left|
  {
    seq(|left|, i requires 0 <= i < |left| => left[i].id)
  }

  lemma FlagsCons(left: seq<Task>, attempt: nat -> Attempt, n: nat)
    requires left != []
    ensures SentFlags(left, attempt, n) == [attempt(n) == Returned(true)] + SentFlags(left[1..], attempt, n + 1)
    ensures BackFlags(left, attempt, n) == [attempt(n) != Returned(true) && left[0].retry < 3] + BackFlags(left[1..], attempt, n + 1)
    ensures DroppedFlags(left, attempt, n) == [attempt(n) != Returned(true) && left[0].retry >= 3] + DroppedFlags(left[1..], attempt, n + 1)
  {
  }

  lemma TasksCons(left: seq<Task>)
    requires left != []
    ensures Names(left) == [left[0].id] + Names(left[1..])
    ensures Raised(left) == [Task(left[0].id, left[0].retry + 1)] + Raised(left[1..])
  {
  }

  lemma {:induction false} SentIsSelected(left: seq<Task>, attempt: nat -> Attempt, n: nat)
    ensures Sent(left, attempt, n) == Select(Names(left), SentFlags(left, attempt, n))
    decreases |left|
  {
    if left != [] {
      SentIsSelected(left[1..], attempt, n + 1);
      FlagsCons(left, attempt, n);
      TasksCons(left);
      SelectCons(left[0].id, Names(left[1..]), attempt(n) == Returned(true), SentFlags(left[1..], attempt, n + 1));
    }
  }

  lemma {:induction false} BackIsSelected(left: seq<Task>, attempt: nat -> Attempt, n: nat)
    ensures Requeued(left, attempt, n) == Select(Raised(left), BackFlags(left, attempt, n))
    decreases |left|
  {
    if left != [] {
      var back := attempt(n) != Returned(true) && left[0].retry < 3;
      BackIsSelected(left[1..], attempt, n + 1);
      FlagsCons(left, attempt, n);
      TasksCons(left);
      SelectCons(Task(left[0].id, left[0].retry + 1), Raised(left[1..]), back, BackFlags(left[1..], attempt, n + 1));
    }
  }

  lemma {:induction false} DroppedIsSelected(left: seq<Task>, attempt: nat -> Attempt, n: nat)
    ensures Dropped(left, attempt, n) == Select(Names(left), DroppedFlags(left, attempt, n))
    decreases |left|
  {
    if left != [] {
      var gone := attempt(n) != Returned(true) && left[0].retry >= 3;
      DroppedIsSelected(left[1..], attempt, n + 1);
      FlagsCons(left, attempt, n);
      TasksCons(left);
      SelectCons(left[0].id, Names(left[1..]), gone, DroppedFlags(left[1..], attempt, n + 1));
    }
  }

  /** `out` holds, in order, exactly the elements of `all` at the flagged positions. */
  ghost predicate IsSelection<T>(out: seq<T>, all: seq<T>, flags: seq<bool>) {
    exists at :: Lists(at, flags) && |at| == |out| && forall j :: 0 <= j < |at| ==> at[j] < |all| && out[j] == all[at[j]]
  }

  lemma Selected<T>(xs: seq<T>, flags: seq<bool>)
    requires |xs| == |flags|
    ensures IsSelection(Select(xs, flags), xs, flags)
  {
    PositionsListed(flags);
    SelectAt(xs, flags);
  }

  /**
   Task by task: sent, in order, are exactly those whose attempt returned true; put back, with one
   failure more, exactly those whose attempt did anything else with fewer than three failures
   behind it; dropped the others.
   */
  lemma DrainDecides(left: seq<Task>, attempt: nat -> Attempt, n: nat)
    ensures IsSelection(Sent(left, attempt, n), Names(left), SentFlags(left, attempt, n))
    ensures IsSelection(Requeued(left, attempt, n), Raised(left), BackFlags(left, attempt, n))
    ensures IsSelection(Dropped(left, attempt, n), Names(left), DroppedFlags(left, attempt, n))
  {
    SentIsSelected(left, attempt, n);
    BackIsSelected(left, attempt, n);
    DroppedIsSelected(left, attempt, n);
    Selected(Names(left), SentFlags(left, attempt, n));
    Selected(Raised(left), BackFlags(left, attempt, n));
    Selected(Names(left), DroppedFlags(left, attempt, n));
  }
}
