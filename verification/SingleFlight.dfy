/**
 The same get, one process, any number of threads: every memory, Redis and lock operation is a
 step of its own and a scheduler may interleave the threads in any order. Only this process
 writes the session keys in Redis.
 */
module SingleFlight {
  import opened Options
  import opened TieredCache
  import SessionMemberCache
  import MemberList

  const MUTEX_SHARDS: nat := 64

  /** Where a thread stands in get(id), and what it carries. */
  datatype Pc =
    | Idle
    | CheckLocal(id: string)
    | CheckRemote(id: string)
    | Copying(id: string, value: string)         // found in L2 without the lock
    | AwaitLock(id: string)
    | Recheck(id: string)                        // from here on the shard lock is held
    | Loading(id: string)                        // the double-check found nothing
    | Filling(id: string, members: seq<string>)  // the loader has answered
    | CopyingLocked(id: string, value: string, members: seq<string>)  // L2 holds the value; L1 is next, then unlock and return

  datatype Mark =
    | Loaded(thread: nat, id: string, at: nat, members: seq<string>)
    | Stored(thread: nat, id: string, at: nat, ttl: nat)
    | Dropped(id: string, at: nat)

  datatype State = State(
    now: nat,
    local: map<string, LocalEntry<string>>,
    remote: Remote<string>,
    owner: map<nat, nat>,  // shard -> the thread that holds its mutex
    pcs: map<nat, Pc>,
    answers: map<nat, seq<string>>,  // what a thread's last get returned
    log: seq<Mark>)

  datatype Action =
    | Tick(elapsed: nat)
    | Enter(thread: nat, id: string)
    | Advance(thread: nat)                             // every step that takes no outside input
    | Load(thread: nat, members: seq<string>)          // the database answers
    | Fill(thread: nat, jitter: nat)
    | DropRemote(id: string)                           // the two halves of invalidate
    | DropLocal(id: string)

  function PcOf(s: State, t: nat): Pc {
    if t in s.pcs then s.pcs[t] else Idle
  }

  function Key(id: string): string { SessionMemberCache.KEY_PREFIX + id }

  function Shard(hash: string -> nat, id: string): nat { hash(Key(id)) % MUTEX_SHARDS }

  predicate Holds(pc: Pc) {
    pc.Recheck? || pc.Loading? || pc.Filling? || pc.CopyingLocked?
  }

  function Goto(s: State, t: nat, pc: Pc): State { s.(pcs := s.pcs[t := pc]) }

  predicate FreshLocal(s: State, id: string) {
    id in s.local && s.now - s.local[id].since < SessionMemberCache.L1_TTL * SessionMemberCache.SECOND
  }

  predicate Served(s: State, id: string) { Visible(s.remote, Key(id), s.now) }

  function FoundLocked(id: string, value: string): Pc { CopyingLocked(id, value, MemberList.Decode(value)) }

  function NextPc(hash: string -> nat, s: State, pc: Pc): Pc {
    match pc
    case CheckLocal(id) => if FreshLocal(s, id) then Idle else CheckRemote(id)
    case CheckRemote(id) => if Served(s, id) then Copying(id, s.remote[Key(id)].value) else AwaitLock(id)
    case Copying(_, _) => Idle
    case AwaitLock(id) => if Shard(hash, id) in s.owner then pc else Recheck(id)
    case Recheck(id) => if Served(s, id) then FoundLocked(id, s.remote[Key(id)].value) else Loading(id)
    case CopyingLocked(_, _, _) => Idle
    case _ => pc
  }

  function NextOwner(hash: string -> nat, s: State, t: nat, pc: Pc): map<nat, nat> {
    if pc.AwaitLock? && Shard(hash, pc.id) !in s.owner then s.owner[Shard(hash, pc.id) := t]
    else if pc.CopyingLocked? then s.owner - {Shard(hash, pc.id)}
    else s.owner
  }

  /** A get returns what the bytes it met decode to, or after a fill the loader's own list. */
  function NextAnswers(s: State, t: nat, pc: Pc): map<nat, seq<string>> {
    if pc.CheckLocal? && FreshLocal(s, pc.id) then s.answers[t := MemberList.Decode(s.local[pc.id].value)]
    else if pc.Copying? then s.answers[t := MemberList.Decode(pc.value)]
    else if pc.CopyingLocked? then s.answers[t := pc.members]
    else s.answers
  }

  function NextLocal(s: State, pc: Pc): map<string, LocalEntry<string>> {
    if pc.Copying? || pc.CopyingLocked? then s.local[pc.id := LocalEntry(pc.value, s.now)]
    else if pc.CheckLocal? && !FreshLocal(s, pc.id) then s.local - {pc.id}
    else s.local
  }

  /** An action whose thread is elsewhere changes nothing, so every list of actions is a run. */
  function Step(hash: string -> nat, s: State, a: Action): State {
    match a
    case Tick(elapsed) => s.(now := s.now + elapsed)
    case Enter(t, id) => if PcOf(s, t).Idle? then Goto(s, t, CheckLocal(id)) else s
    case Advance(t) =>
      var pc := PcOf(s, t);
      Goto(s.(local := NextLocal(s, pc), owner := NextOwner(hash, s, t, pc), answers := NextAnswers(s, t, pc)), t, NextPc(hash, s, pc))
    case Load(t, members) =>
      if PcOf(s, t).Loading? then
        var id := PcOf(s, t).id;
        Goto(s.(log := s.log + [Loaded(t, id, s.now, members)]), t, Filling(id, members))
      else s
    case Fill(t, jitter) =>
      if PcOf(s, t).Filling? && jitter <= SessionMemberCache.TTL_JITTER then
        var Filling(id, members) := PcOf(s, t);
        var fill := SessionMemberCache.FillFor(members, jitter);
        Goto(s.(remote := s.remote[Key(id) := RemoteEntry(fill.value, s.now + fill.ttl)],
                log := s.log + [Stored(t, id, s.now, fill.ttl)]), t, CopyingLocked(id, fill.value, members))
      else s
    case DropRemote(id) => s.(remote := s.remote - {Key(id)}, log := s.log + [Dropped(id, s.now)])
    case DropLocal(id) => s.(local := s.local - {id})
  }

  function Run(hash: string -> nat, actions: seq<Action>): State {
    if actions == [] then State(0, map[], map[], map[], map[], map[], [])
    else Step(hash, Run(hash, actions[..|actions| - 1]), actions[|actions| - 1])
  }

  // ---------------------------------------------------------------- the lock

  /** The mutexes are held exactly by the threads that are past them. */
  ghost predicate Locked(hash: string -> nat, s: State) {
    && (forall t :: t in s.pcs && Holds(s.pcs[t]) ==>
         Shard(hash, s.pcs[t].id) in s.owner && s.owner[Shard(hash, s.pcs[t].id)] == t)
    && (forall n :: n in s.owner ==> s.owner[n] in s.pcs && Holds(s.pcs[s.owner[n]]) && Shard(hash, s.pcs[s.owner[n]].id) == n)
  }

  /** Thread t moves on without touching a mutex, takes a free one, or gives its own back. */
  predicate Moves(s: State, s': State, t: nat) {
    t in s'.pcs && s'.pcs == s.pcs[t := s'.pcs[t]] && s'.owner == s.owner
    && Holds(PcOf(s, t)) == Holds(s'.pcs[t]) && (Holds(s'.pcs[t]) ==> s'.pcs[t].id == PcOf(s, t).id)
  }

  predicate Acquires(hash: string -> nat, s: State, s': State, t: nat) {
    t in s'.pcs && s'.pcs == s.pcs[t := s'.pcs[t]] && !Holds(PcOf(s, t)) && Holds(s'.pcs[t])
    && Shard(hash, s'.pcs[t].id) !in s.owner && s'.owner == s.owner[Shard(hash, s'.pcs[t].id) := t]
  }

  predicate Releases(hash: string -> nat, s: State, s': State, t: nat) {
    s'.pcs == s.pcs[t := Idle] && Holds(PcOf(s, t)) && s'.owner == s.owner - {Shard(hash, PcOf(s, t).id)}
  }

  lemma MoveKeepsLocked(hash: string -> nat, s: State, s': State, t: nat)
    requires Locked(hash, s) && (Moves(s, s', t) || Acquires(hash, s, s', t) || Releases(hash, s, s', t))
    ensures Locked(hash, s')
  {
  }

  lemma StepKeepsLocked(hash: string -> nat, s: State, a: Action)
    requires Locked(hash, s)
    ensures Locked(hash, Step(hash, s, a))
  {
    var s' := Step(hash, s, a);
    if (a.Advance? || a.Enter? || a.Load? || a.Fill?) && s' != s {
      MoveKeepsLocked(hash, s, s', a.thread);
    }
  }

  /** At most one thread per shard is between the double-check and the end of the fill. */
  lemma {:induction false} OneThreadPerShard(hash: string -> nat, actions: seq<Action>, t: nat, u: nat)
    ensures var s := Run(hash, actions);
      t != u && Holds(PcOf(s, t)) && Holds(PcOf(s, u)) ==> Shard(hash, PcOf(s, t).id) != Shard(hash, PcOf(s, u).id)
  {
    RunIsSafe(hash, actions);
  }

  // ---------------------------------------------------------------- the loads

  /** While a thread is about to load or fill, Redis serves nothing for its session. */
  ghost predicate NothingServed(s: State) {
    forall t :: t in s.pcs && (s.pcs[t].Loading? || s.pcs[t].Filling?) ==> !Visible(s.remote, Key(s.pcs[t].id), s.now)
  }

  predicate IsLoad(m: Mark, id: string) { m.Loaded? && m.id == id }

  ghost predicate NoDrop(log: seq<Mark>, id: string, i: int, j: int) {
    forall k :: 0 <= k < |log| && i < k < j ==> !(log[k].Dropped? && log[k].id == id)
  }

  /** The TTLs a fill of `members` may carry: 2 s for an empty list, else 5, 6 or 7 s. */
  predicate TtlOf(members: seq<string>, ttl: nat) {
    ttl in (if members == [] then {2_000_000_000} else {5_000_000_000, 6_000_000_000, 7_000_000_000})
  }

  /** Mark `f` is the fill that load `i` led to. */
  predicate FillOf(log: seq<Mark>, i: int, f: int) {
    0 <= i < f < |log| && log[i].Loaded? && log[f].Stored? && log[f].thread == log[i].thread && log[f].id == log[i].id
    && TtlOf(log[i].members, log[f].ttl) && log[i].at <= log[f].at
  }

  /** Load `i` is still being filled by its thread, and is the last load of its session. */
  ghost predicate InFlight(s: State, i: nat)
    requires i < |s.log| && s.log[i].Loaded?
  {
    && s.log[i].thread in s.pcs && s.pcs[s.log[i].thread] == Filling(s.log[i].id, s.log[i].members)
    && forall j :: i < j < |s.log| ==> !IsLoad(s.log[j], s.log[i].id)
  }

  /** Load `i` has been stored, and Redis serves the session at least as long as that fill said. */
  ghost predicate Settled(s: State, i: nat)
    requires i < |s.log| && s.log[i].Loaded?
  {
    exists f :: FillOf(s.log, i, f) && Key(s.log[i].id) in s.remote
             && s.log[f].at + s.log[f].ttl <= s.remote[Key(s.log[i].id)].expiry
  }

  ghost predicate Accounted(s: State) {
    forall i :: 0 <= i < |s.log| && s.log[i].Loaded? && NoDrop(s.log, s.log[i].id, i, |s.log|) ==> InFlight(s, i) || Settled(s, i)
  }

  /** Load `i` was stored before mark `j`, and the TTL of that fill had passed by then. */
  ghost predicate Expired(log: seq<Mark>, i: int, j: int) {
    exists f :: FillOf(log, i, f) && f < j < |log| && log[f].at + log[f].ttl < log[j].at
  }

  /** Two loads of one session with no drop between them: the first one's fill expired before the second. */
  ghost predicate Separated(log: seq<Mark>) {
    forall i, j :: 0 <= i < j < |log| && log[i].Loaded? && IsLoad(log[j], log[i].id) && NoDrop(log, log[i].id, i, j) ==>
      Expired(log, i, j)
  }

  ghost predicate PastLog(s: State) {
    forall i :: 0 <= i < |s.log| ==> s.log[i].at <= s.now
  }

  ghost predicate Safe(hash: string -> nat, s: State) {
    Locked(hash, s) && NothingServed(s) && Accounted(s) && Separated(s.log) && PastLog(s)
  }

  lemma KeyIsInjective(a: string, b: string)
    ensures Key(a) == Key(b) ==> a == b
  {
    KeysAreInjective(SessionMemberCache.KEY_PREFIX, a, b);
  }

  /** Only one thread at a time is loading or filling a session. */
  lemma OnlyHolder(hash: string -> nat, s: State, t: nat, u: nat)
    requires Locked(hash, s) && t in s.pcs && u in s.pcs
    requires Holds(s.pcs[t]) && Holds(s.pcs[u]) && s.pcs[t].id == s.pcs[u].id
    ensures t == u
  {
  }

  lemma HoldersDiffer(hash: string -> nat, s: State, t: nat, u: nat)
    requires Locked(hash, s) && t in s.pcs && u in s.pcs && t != u
    requires Holds(s.pcs[t]) && Holds(s.pcs[u])
    ensures s.pcs[t].id != s.pcs[u].id
  {
  }

  lemma StepKeepsNothingServed(hash: string -> nat, s: State, a: Action)
    requires Locked(hash, s) && NothingServed(s)
    ensures NothingServed(Step(hash, s, a))
  {
    if a.Fill? && a.thread in s.pcs && s.pcs[a.thread].Filling? {
      forall u | u in s.pcs && (s.pcs[u].Loading? || s.pcs[u].Filling?) ensures u == a.thread || Key(s.pcs[u].id) != Key(s.pcs[a.thread].id) {
        KeyIsInjective(s.pcs[u].id, s.pcs[a.thread].id);
        if s.pcs[u].id == s.pcs[a.thread].id {
          OnlyHolder(hash, s, u, a.thread);
        }
      }
    }
  }

  /** Appending a mark leaves the earlier loads and fills as they were. */
  lemma LogGrows(log: seq<Mark>, m: Mark, i: nat)
    requires i < |log| && log[i].Loaded?
    ensures forall f :: FillOf(log, i, f) ==> FillOf(log + [m], i, f)
    ensures NoDrop(log + [m], log[i].id, i, |log| + 1) ==> NoDrop(log, log[i].id, i, |log|) && !(m.Dropped? && m.id == log[i].id)
    ensures forall j :: j <= |log| && NoDrop(log + [m], log[i].id, i, j) ==> NoDrop(log, log[i].id, i, j)
  {
    assert forall k :: 0 <= k < |log| ==> (log + [m])[k] == log[k];
    assert (log + [m])[|log|] == m;
  }

  /** A step that logs nothing leaves Redis and the threads that are filling alone. */
  lemma QuietStep(hash: string -> nat, s: State, a: Action, t: nat)
    requires Step(hash, s, a).log == s.log
    ensures Step(hash, s, a).remote == s.remote
    ensures t in s.pcs && s.pcs[t].Filling? ==> t in Step(hash, s, a).pcs && Step(hash, s, a).pcs[t] == s.pcs[t]
  {
  }

  lemma QuietStepKeepsAccounted(hash: string -> nat, s: State, a: Action)
    requires Accounted(s) && Step(hash, s, a).log == s.log
    ensures Accounted(Step(hash, s, a))
  {
    QuietStep(hash, s, a, 0);
    forall t | t in s.pcs && s.pcs[t].Filling? ensures t in Step(hash, s, a).pcs && Step(hash, s, a).pcs[t] == s.pcs[t] {
      QuietStep(hash, s, a, t);
    }
    SameLogKeepsAccounted(s, Step(hash, s, a));
  }

  lemma SameLogKeepsAccounted(s: State, s': State)
    requires Accounted(s) && s'.log == s.log && s'.remote == s.remote
    requires forall t :: t in s.pcs && s.pcs[t].Filling? ==> t in s'.pcs && s'.pcs[t] == s.pcs[t]
    ensures Accounted(s')
  {
    forall i | 0 <= i < |s'.log| && s'.log[i].Loaded? && NoDrop(s'.log, s'.log[i].id, i, |s'.log|)
      ensures InFlight(s', i) || Settled(s', i)
    {
      assert InFlight(s, i) ==> InFlight(s', i);
      assert Settled(s, i) ==> Settled(s', i);
    }
  }

  /** The loader answers: every earlier undropped load of the session is settled, and its fill has expired. */
  lemma LoadKeepsAccounted(hash: string -> nat, s: State, a: Action)
    requires a.Load? && PcOf(s, a.thread).Loading? && Safe(hash, s)
    ensures Accounted(Step(hash, s, a)) && Separated(Step(hash, s, a).log)
  {
    var s', n, id := Step(hash, s, a), |s.log|, PcOf(s, a.thread).id;
    var m := Loaded(a.thread, id, s.now, a.members);
    assert s'.log[n] == m;
    forall i | 0 <= i < n && s.log[i].Loaded? && NoDrop(s'.log, s.log[i].id, i, n)
      ensures s.log[i].id == id ==> Expired(s'.log, i, n)
      ensures InFlight(s', i) || Settled(s', i)
    {
      LogGrows(s.log, m, i);
      if InFlight(s, i) {
        assert s.log[i].thread != a.thread;
        HoldersDiffer(hash, s, s.log[i].thread, a.thread);
        assert InFlight(s', i);
      } else {
        var f :| FillOf(s.log, i, f) && Key(s.log[i].id) in s.remote
             && s.log[f].at + s.log[f].ttl <= s.remote[Key(s.log[i].id)].expiry;
        assert FillOf(s'.log, i, f);
      }
    }
    assert InFlight(s', n);
    SeparatedGrows(s.log, m);
  }

  lemma SeparatedGrows(log: seq<Mark>, m: Mark)
    requires Separated(log)
    requires forall i :: 0 <= i < |log| && log[i].Loaded? && IsLoad(m, log[i].id) && NoDrop(log + [m], log[i].id, i, |log|) ==>
      Expired(log + [m], i, |log|)
    ensures Separated(log + [m])
  {
    var log' := log + [m];
    forall i, j | 0 <= i < j < |log'| && log'[i].Loaded? && IsLoad(log'[j], log'[i].id) && NoDrop(log', log'[i].id, i, j)
      ensures Expired(log', i, j)
    {
      if j < |log| {
        LogGrows(log, m, i);
        assert log'[i] == log[i] && log'[j] == log[j];
        assert Expired(log, i, j);
        var f :| FillOf(log, i, f) && f < j && log[f].at + log[f].ttl < log[j].at;
        assert FillOf(log', i, f);
      }
    }
  }

  lemma FillKeepsAccounted(hash: string -> nat, s: State, a: Action)
    requires a.Fill? && PcOf(s, a.thread).Filling? && a.jitter <= SessionMemberCache.TTL_JITTER && Safe(hash, s)
    ensures Accounted(Step(hash, s, a)) && Separated(Step(hash, s, a).log)
  {
    var s', n := Step(hash, s, a), |s.log|;
    var Filling(id, members) := PcOf(s, a.thread);
    var fill := SessionMemberCache.FillFor(members, a.jitter);
    var m := Stored(a.thread, id, s.now, fill.ttl);
    assert s'.log[n] == m && TtlOf(members, fill.ttl);
    forall i | 0 <= i < n && s.log[i].Loaded? && NoDrop(s'.log, s.log[i].id, i, n + 1)
      ensures InFlight(s', i) || Settled(s', i)
    {
      LogGrows(s.log, m, i);
      KeyIsInjective(s.log[i].id, id);
      if InFlight(s, i) {
        if s.log[i].thread == a.thread {
          assert FillOf(s'.log, i, n);
        } else {
          HoldersDiffer(hash, s, s.log[i].thread, a.thread);
          assert InFlight(s', i);
        }
      } else {
        var f :| FillOf(s.log, i, f) && Key(s.log[i].id) in s.remote
             && s.log[f].at + s.log[f].ttl <= s.remote[Key(s.log[i].id)].expiry;
        assert FillOf(s'.log, i, f);
      }
    }
    SeparatedGrows(s.log, m);
  }

  lemma DropKeepsAccounted(hash: string -> nat, s: State, a: Action)
    requires a.DropRemote? && Safe(hash, s)
    ensures Accounted(Step(hash, s, a)) && Separated(Step(hash, s, a).log)
  {
    var s', n, m := Step(hash, s, a), |s.log|, Dropped(a.id, s.now);
    forall i | 0 <= i < n && s.log[i].Loaded? && NoDrop(s'.log, s.log[i].id, i, n + 1)
      ensures InFlight(s', i) || Settled(s', i)
    {
      LogGrows(s.log, m, i);
      KeyIsInjective(s.log[i].id, a.id);
      if InFlight(s, i) {
        assert InFlight(s', i);
      } else {
        var f :| FillOf(s.log, i, f) && Key(s.log[i].id) in s.remote
             && s.log[f].at + s.log[f].ttl <= s.remote[Key(s.log[i].id)].expiry;
        assert FillOf(s'.log, i, f);
      }
    }
    SeparatedGrows(s.log, m);
  }

  lemma StepKeepsPastLog(hash: string -> nat, s: State, a: Action)
    requires PastLog(s)
    ensures PastLog(Step(hash, s, a))
  {
  }

  lemma StepKeepsAccounted(hash: string -> nat, s: State, a: Action)
    requires Safe(hash, s)
    ensures Accounted(Step(hash, s, a)) && Separated(Step(hash, s, a).log)
  {
    match a
    case Load(t, _) =>
      if PcOf(s, t).Loading? { LoadKeepsAccounted(hash, s, a); }
    case Fill(t, jitter) =>
      if PcOf(s, t).Filling? && jitter <= SessionMemberCache.TTL_JITTER { FillKeepsAccounted(hash, s, a); }
    case DropRemote(_) => DropKeepsAccounted(hash, s, a);
    case _ => QuietStepKeepsAccounted(hash, s, a);
  }

  lemma {:induction false} RunIsSafe(hash: string -> nat, actions: seq<Action>)
    ensures Safe(hash, Run(hash, actions))
  {
    if actions != [] {
      var init, a := actions[..|actions| - 1], actions[|actions| - 1];
      RunIsSafe(hash, init);
      StepKeepsLocked(hash, Run(hash, init), a);
      StepKeepsNothingServed(hash, Run(hash, init), a);
      StepKeepsAccounted(hash, Run(hash, init), a);
      StepKeepsPastLog(hash, Run(hash, init), a);
    }
  }

  /**
   Single flight: in every interleaving, between two loads of one session with no invalidate
   between them the first load was stored, and the second came only after that TTL had passed:
   more than 2 s later for an empty list, more than 5 s for any other.
   */
  lemma LoadsAreSeparated(hash: string -> nat, actions: seq<Action>, i: nat, j: nat)
    requires var log := Run(hash, actions).log;
      && i < j < |log| && log[i].Loaded? && IsLoad(log[j], log[i].id)
      && NoDrop(log, log[i].id, i, j)
    ensures var log := Run(hash, actions).log;
      && Expired(log, i, j)
      && log[j].at > log[i].at + (if log[i].members == [] then 2 else 5) * SessionMemberCache.SECOND
  {
    RunIsSafe(hash, actions);
  }

  // ---------------------------------------------------------------- one thread alone is the sequential get

  /** Undisturbed, the steps before the lock are the first half of get. */
  lemma AloneIsLook(hash: string -> nat, s: State, t: nat, id: string)
    requires PcOf(s, t) == CheckLocal(id)
    ensures
      var (answer, l) := Look(SessionMemberCache.RULES, Local(s.local, 0, 0), s.remote, id, s.now);
      var s2 := Step(hash, Step(hash, s, Advance(t)), Advance(t));
      var s3 := Step(hash, s2, Advance(t));
      && (answer.None? <==> PcOf(s2, t) == AwaitLock(id))
      && (answer.None? ==> s2.local == l.entries)
      && (answer.Some? ==> PcOf(s3, t).Idle? && s3.local == l.entries && s3.answers == s.answers[t := answer.value])
      && s2.remote == s.remote && s2.owner == s.owner
  {
    var s1 := Step(hash, s, Advance(t));
    assert id !in s.local ==> s.local - {id} == s.local;
    assert PcOf(s1, t) == if FreshLocal(s, id) then Idle else CheckRemote(id);
  }

  /** Undisturbed, the steps under the lock are the second half of get, and end by releasing it. */
  lemma AloneIsLookLocked(hash: string -> nat, s: State, t: nat, id: string, members: seq<string>, jitter: nat)
    requires PcOf(s, t) == Recheck(id) && jitter <= SessionMemberCache.TTL_JITTER
    ensures
      var (answer, l, r) := LookLocked(SessionMemberCache.RULES, Local(s.local, 0, 0), s.remote, id, s.now,
                                  Some(members), Some(SessionMemberCache.FillFor(members, jitter)));
      var s1 := Step(hash, s, Advance(t));
      var s2 := if PcOf(s1, t).Loading? then Step(hash, Step(hash, s1, Action.Load(t, members)), Action.Fill(t, jitter)) else s1;
      var s3 := Step(hash, s2, Advance(t));
      && PcOf(s3, t).Idle? && answer.Some? && s3.answers == s.answers[t := answer.value]
      && s3.local == l.entries && s3.remote == r && s3.owner == s.owner - {Shard(hash, id)}
  {
    var s1 := Step(hash, s, Advance(t));
    if PcOf(s1, t).Loading? {
      assert PcOf(Step(hash, s1, Action.Load(t, members)), t) == Filling(id, members);
    }
  }

  /** A waiting thread whose shard is free takes the lock and goes on to the double-check; nothing else changes. */
  lemma TakesFreeLock(hash: string -> nat, s: State, t: nat, id: string)
    requires PcOf(s, t) == AwaitLock(id) && Shard(hash, id) !in s.owner
    ensures Step(hash, s, Advance(t)) == s.(pcs := s.pcs[t := Recheck(id)], owner := s.owner[Shard(hash, id) := t])
  {
  }

  function Do(hash: string -> nat, s: State, actions: seq<Action>): State
    decreases |actions|
  {
    if actions == [] then s else Do(hash, Step(hash, s, actions[0]), actions[1..])
  }

  lemma {:induction false} DoConcat(hash: string -> nat, s: State, a: seq<Action>, b: seq<Action>)
    ensures Do(hash, s, a + b) == Do(hash, Do(hash, s, a), b)
    decreases |a|
  {
    if a == [] {
      assert a + b == b;
    } else {
      assert (a + b)[0] == a[0] && (a + b)[1..] == a[1..] + b;
      DoConcat(hash, Step(hash, s, a[0]), a[1..], b);
    }
  }

  lemma DoThree(hash: string -> nat, s: State, a: Action, b: Action, c: Action)
    ensures Do(hash, s, [a, b, c]) == Step(hash, Step(hash, Step(hash, s, a), b), c)
  {
    var s1 := Step(hash, s, a);
    var s2 := Step(hash, s1, b);
    assert Do(hash, s2, [c]) == Step(hash, s2, c);
    assert Do(hash, s1, [b, c]) == Step(hash, s2, c);
  }

  /** All a thread does for one get: three steps if L1 or Redis answers, else the lock, the load, the fill, the copy. */
  function GetSteps(t: nat, members: seq<string>, jitter: nat): seq<Action> {
    [Advance(t), Advance(t), Advance(t)] + [Advance(t), Action.Load(t, members), Action.Fill(t, jitter)] + [Advance(t)]
  }

  /** A thread that has returned is not moved by steps meant for a get. */
  lemma IdleStays(hash: string -> nat, s: State, t: nat, members: seq<string>, jitter: nat)
    requires t in s.pcs && s.pcs[t] == Idle
    ensures Step(hash, s, Advance(t)) == s && Step(hash, s, Action.Load(t, members)) == s && Step(hash, s, Action.Fill(t, jitter)) == s
  {
    assert s.pcs[t := Idle] == s.pcs;
  }

  /** The answer, L1 and Redis of an undisturbed get. */
  predicate IsGet(s: State, e: State, t: nat, id: string, members: seq<string>, jitter: nat) {
    var (first, l1) := Look(SessionMemberCache.RULES, Local(s.local, 0, 0), s.remote, id, s.now);
    var (second, l2, r2) := LookLocked(SessionMemberCache.RULES, l1, s.remote, id, s.now,
                                       Some(members), Some(SessionMemberCache.FillFor(members, jitter)));
    if first.Some? then
      e.answers == s.answers[t := first.value] && e.local == l1.entries && e.remote == s.remote
    else
      second.Some? && e.answers == s.answers[t := second.value] && e.local == l2.entries && e.remote == r2
  }

  /**
   Undisturbed and with its shard free, a thread that enters get ends idle, with the answer, the L1
   and the Redis of Look and, if that finds nothing, of LookLocked after it; and the lock is free again.
   */
  lemma AloneIsGet(hash: string -> nat, s: State, t: nat, id: string, members: seq<string>, jitter: nat)
    requires PcOf(s, t) == CheckLocal(id) && Shard(hash, id) !in s.owner && jitter <= SessionMemberCache.TTL_JITTER
    ensures var e := Do(hash, s, GetSteps(t, members, jitter));
      PcOf(e, t).Idle? && e.owner == s.owner && IsGet(s, e, t, id, members, jitter)
  {
    var a := Advance(t);
    var s2 := Step(hash, Step(hash, s, a), a);
    var s3 := Step(hash, s2, a);
    DoConcat(hash, s, [a, a, a] + [a, Action.Load(t, members), Action.Fill(t, jitter)], [a]);
    DoConcat(hash, s, [a, a, a], [a, Action.Load(t, members), Action.Fill(t, jitter)]);
    DoThree(hash, s, a, a, a);
    DoThree(hash, s3, a, Action.Load(t, members), Action.Fill(t, jitter));
    AloneIsLook(hash, s, t, id);
    if PcOf(s2, t) == AwaitLock(id) {
      AloneMisses(hash, s, t, id, members, jitter);
    } else {
      IdleStays(hash, s3, t, members, jitter);
    }
  }

  lemma AloneMisses(hash: string -> nat, s: State, t: nat, id: string, members: seq<string>, jitter: nat)
    requires PcOf(s, t) == CheckLocal(id) && Shard(hash, id) !in s.owner && jitter <= SessionMemberCache.TTL_JITTER
    requires PcOf(Step(hash, Step(hash, s, Advance(t)), Advance(t)), t) == AwaitLock(id)
    ensures var a := Advance(t);
      var s3 := Step(hash, Step(hash, Step(hash, s, a), a), a);
      var s6 := Step(hash, Step(hash, Step(hash, s3, a), Action.Load(t, members)), Action.Fill(t, jitter));
      var e := Step(hash, s6, a);
      PcOf(e, t).Idle? && e.owner == s.owner && IsGet(s, e, t, id, members, jitter)
  {
    var a := Advance(t);
    var s2 := Step(hash, Step(hash, s, a), a);
    var s3 := Step(hash, s2, a);
    AloneIsLook(hash, s, t, id);
    TakesFreeLock(hash, s2, t, id);
    MissLoads(hash, s, t, id);
    AloneIsLookLocked(hash, s3, t, id, members, jitter);
    assert s.owner[Shard(hash, id) := t] - {Shard(hash, id)} == s.owner;
  }

  /** Redis served nothing at the first look, so the double-check finds nothing either. */
  lemma MissLoads(hash: string -> nat, s: State, t: nat, id: string)
    requires PcOf(s, t) == CheckLocal(id) && Shard(hash, id) !in s.owner
    requires PcOf(Step(hash, Step(hash, s, Advance(t)), Advance(t)), t) == AwaitLock(id)
    ensures var a := Advance(t);
      var s2 := Step(hash, Step(hash, s, a), a);
      && s2.now == s.now && s2.remote == s.remote && s2.answers == s.answers
      && !Visible(s.remote, Key(id), s.now)
      && PcOf(Step(hash, Step(hash, s2, a), a), t).Loading?
  {
  }

  /** The two halves of invalidate remove the session's entries in Redis and in this process, and nothing else. */
  lemma DropsAreInvalidate(hash: string -> nat, s: State, id: string)
    ensures var e := Step(hash, Step(hash, s, DropRemote(id)), DropLocal(id));
      && e.remote == s.remote - {Key(id)} && e.local == s.local - {id}
      && e.pcs == s.pcs && e.owner == s.owner && e.answers == s.answers && e.now == s.now
  {
  }

  function OneGet(id: string, members: seq<string>): seq<Action> { [Enter(0, id)] + GetSteps(0, members, 0) }

  /** Loads do recur: one thread's get, ten seconds, and the same get again asks the database twice. */
  lemma LoadedAgain(hash: string -> nat, id: string, members: seq<string>)
    ensures var e := Do(hash, Run(hash, []), OneGet(id, members) + [Tick(10_000_000_000)] + OneGet(id, members));
      && |e.log| == 4 && IsLoad(e.log[0], id) && IsLoad(e.log[2], id)
      && e.log[0].at == 0 && e.log[2].at == 10_000_000_000 && e.owner == map[]
  {
    var s0 := Run(hash, []);
    var first, second := OneGet(id, members) + [Tick(10_000_000_000)], OneGet(id, members);
    DoConcat(hash, s0, first, second);
    DoConcat(hash, s0, OneGet(id, members), [Tick(10_000_000_000)]);
    GetLoads(hash, s0, id, members);
    var s1 := Do(hash, s0, OneGet(id, members));
    var s2 := Step(hash, s1, Tick(10_000_000_000));
    assert Do(hash, s1, [Tick(10_000_000_000)]) == s2;
    GetLoads(hash, s2, id, members);
  }

  /** A get that finds nothing fresh in L1 and nothing in Redis loads once and fills both. */
  lemma GetLoads(hash: string -> nat, s: State, id: string, members: seq<string>)
    requires PcOf(s, 0).Idle? && s.owner == map[] && !FreshLocal(s, id) && !Served(s, id)
    ensures var e, fill := Do(hash, s, OneGet(id, members)), SessionMemberCache.FillFor(members, 0);
      && PcOf(e, 0).Idle? && e.owner == map[] && e.now == s.now
      && e.log == s.log + [Loaded(0, id, s.now, members), Stored(0, id, s.now, fill.ttl)]
      && id in e.local && e.local[id].since == s.now
      && Key(id) in e.remote && e.remote[Key(id)].expiry == s.now + fill.ttl
  {
    var a := Advance(0);
    var s1 := Step(hash, s, Enter(0, id));
    DoConcat(hash, s, [Enter(0, id)], GetSteps(0, members, 0));
    assert Do(hash, s, [Enter(0, id)]) == s1;
    DoConcat(hash, s1, [a, a, a] + [a, Action.Load(0, members), Action.Fill(0, 0)], [a]);
    DoConcat(hash, s1, [a, a, a], [a, Action.Load(0, members), Action.Fill(0, 0)]);
    DoThree(hash, s1, a, a, a);
    MissWaits(hash, s1, id);
    var s4 := Step(hash, Step(hash, Step(hash, s1, a), a), a);
    DoThree(hash, s4, a, Action.Load(0, members), Action.Fill(0, 0));
    LockedLoads(hash, s4, id, members);
  }

  lemma MissWaits(hash: string -> nat, s: State, id: string)
    requires PcOf(s, 0) == CheckLocal(id) && s.owner == map[] && !FreshLocal(s, id) && !Served(s, id)
    ensures var a := Advance(0);
      var e := Step(hash, Step(hash, Step(hash, s, a), a), a);
      PcOf(e, 0) == Recheck(id) && e.owner == map[Shard(hash, id) := 0] && e.now == s.now && e.remote == s.remote && e.log == s.log
  {
  }

  lemma LockedLoads(hash: string -> nat, s: State, id: string, members: seq<string>)
    requires PcOf(s, 0) == Recheck(id) && s.owner == map[Shard(hash, id) := 0] && !Served(s, id)
    ensures var fill := SessionMemberCache.FillFor(members, 0);
      var s1 := Step(hash, s, Advance(0));
      var s3 := Step(hash, Step(hash, s1, Action.Load(0, members)), Action.Fill(0, 0));
      var e := Step(hash, s3, Advance(0));
      && PcOf(e, 0).Idle? && e.owner == map[] && e.now == s.now
      && e.log == s.log + [Loaded(0, id, s.now, members), Stored(0, id, s.now, fill.ttl)]
      && id in e.local && e.local[id].since == s.now
      && Key(id) in e.remote && e.remote[Key(id)].expiry == s.now + fill.ttl
  {
    var s1 := Step(hash, s, Advance(0));
    var s2 := Step(hash, s1, Action.Load(0, members));
    assert PcOf(s2, 0) == Filling(id, members);
    var s3 := Step(hash, s2, Action.Fill(0, 0));
    assert PcOf(s3, 0).CopyingLocked? && s3.log == s.log + [Loaded(0, id, s.now, members), Stored(0, id, s.now, SessionMemberCache.FillFor(members, 0).ttl)];
  }
}
