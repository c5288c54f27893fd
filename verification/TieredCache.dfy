/**
 The get/invalidate protocol shared by SessionMemberCache and UserInfoCache, over any stored
 value V and answer A: an in-process map (L1), a map shared by all processes (L2, Redis) and a
 loader. Several processes run it at once on one timeline. A get is two atomic steps: `Look`
 (L1, then L2) and, when that finds nothing, `LookLocked` (the double-check under the shard
 lock, the loader, the fill); anything may happen between the two.
 */
module TieredCache {
  import opened Options

  datatype LocalEntry<V> = LocalEntry(value: V, since: nat)
  datatype RemoteEntry<V> = RemoteEntry(value: V, expiry: nat)
  type Remote<V> = map<string, RemoteEntry<V>>

  /** What one process keeps: its L1 map and its counters. */
  datatype Local<V> = Local(entries: map<string, LocalEntry<V>>, hits: nat, misses: nat)

  datatype Fill<V> = Fill(value: V, ttl: nat)
  datatype Rules<!V, !A> = Rules(prefix: string, l1Ttl: nat, decode: V -> Option<A>)

  function Empty<V>(): Local<V> { Local(map[], 0, 0) }

  /** L1: a fresh entry that decodes is the answer; a stale or undecodable one is erased. */
  function ProbeLocal<V, A>(rules: Rules<V, A>, l: Local<V>, id: string, now: nat): (Option<A>, Local<V>) {
    if id !in l.entries then (None, l)
    else
      var entry, erased := l.entries[id], l.entries - {id};
      if now - entry.since < rules.l1Ttl then
        var answer := rules.decode(entry.value);
        (answer, Local(if answer.Some? then l.entries else erased, l.hits + 1, l.misses))
      else (None, l.(entries := erased))
  }

  /** An L2 entry may still be returned at its expiry instant; `Evict` covers servers that drop it then. */
  predicate Visible<V>(r: Remote<V>, key: string, now: nat) {
    key in r && now <= r[key].expiry
  }

  /** L2: a visible entry counts as a hit and is copied into L1, even when it does not decode. */
  function ProbeRemote<V, A>(rules: Rules<V, A>, l: Local<V>, r: Remote<V>, id: string, now: nat): (Option<A>, Local<V>) {
    var key := rules.prefix + id;
    if Visible(r, key, now) then
      (rules.decode(r[key].value), Local(l.entries[id := LocalEntry(r[key].value, now)], l.hits + 1, l.misses))
    else (None, l)
  }

  function Look<V, A>(rules: Rules<V, A>, l: Local<V>, r: Remote<V>, id: string, now: nat): (Option<A>, Local<V>) {
    var (answer, l') := ProbeLocal(rules, l, id, now);
    if answer.Some? then (answer, l') else ProbeRemote(rules, l', r, id, now)
  }

  /** `loaded` is what the loader answers if it is asked; `fill` is what would then be stored. */
  function LookLocked<V, A>(rules: Rules<V, A>, l: Local<V>, r: Remote<V>, id: string, now: nat,
                            loaded: Option<A>, fill: Option<Fill<V>>): (Option<A>, Local<V>, Remote<V>) {
    var (answer, l') := ProbeRemote(rules, l, r, id, now);
    if answer.Some? then (answer, l', r)
    else
      var missed := l'.(misses := l'.misses + 1);
      match fill
      case None => (loaded, missed, r)
      case Some(f) =>
        (loaded, missed.(entries := missed.entries[id := LocalEntry(f.value, now)]),
         r[rules.prefix + id := RemoteEntry(f.value, now + f.ttl)])
  }

  predicate Fresh<V, A>(rules: Rules<V, A>, l: Local<V>, id: string, now: nat) {
    id in l.entries && now - l.entries[id].since < rules.l1Ttl
  }

  /**
   The first half of a get, level by level: an L1 entry younger than the TTL that decodes is the
   answer and stays as it is, with its date; else it is gone, and what L2 holds takes its place,
   dated now, and is the answer if it decodes. Each level that holds something counts a hit.
   */
  lemma LookEffect<V, A>(rules: Rules<V, A>, l: Local<V>, r: Remote<V>, id: string, now: nat)
    ensures var (answer, l') := Look(rules, l, r, id, now);
      var key := rules.prefix + id;
      if Fresh(rules, l, id, now) && rules.decode(l.entries[id].value).Some? then
        answer == rules.decode(l.entries[id].value) && l' == Local(l.entries, l.hits + 1, l.misses)
      else
        var hits := l.hits + if Fresh(rules, l, id, now) then 1 else 0;
        if key in r && now <= r[key].expiry then
          answer == rules.decode(r[key].value) && l' == Local(l.entries[id := LocalEntry(r[key].value, now)], hits + 1, l.misses)
        else
          answer == None && l' == Local(l.entries - {id}, hits, l.misses)
  {
    var key := rules.prefix + id;
    assert id !in l.entries ==> l.entries - {id} == l.entries;
    if key in r {
      var e := LocalEntry(r[key].value, now);
      assert (l.entries - {id})[id := e] == l.entries[id := e];
    }
  }

  /**
   The second half: what L2 now holds is copied and is the answer if it decodes; else the loader's
   answer is returned and counted as a miss, and what is to be stored goes to both levels.
   */
  lemma LookLockedEffect<V, A>(rules: Rules<V, A>, l: Local<V>, r: Remote<V>, id: string, now: nat,
                               loaded: Option<A>, fill: Option<Fill<V>>)
    ensures var (answer, l', r') := LookLocked(rules, l, r, id, now, loaded, fill);
      var key := rules.prefix + id;
      var held := key in r && now <= r[key].expiry;
      var copied := if held then l.entries[id := LocalEntry(r[key].value, now)] else l.entries;
      var hits := l.hits + if held then 1 else 0;
      if held && rules.decode(r[key].value).Some? then
        answer == rules.decode(r[key].value) && l' == Local(copied, hits, l.misses) && r' == r
      else if fill.None? then
        answer == loaded && l' == Local(copied, hits, l.misses + 1) && r' == r
      else
        && answer == loaded
        && l' == Local(l.entries[id := LocalEntry(fill.value.value, now)], hits, l.misses + 1)
        && r' == r[key := RemoteEntry(fill.value.value, now + fill.value.ttl)]
  {
    var key := rules.prefix + id;
    if key in r && fill.Some? {
      var e := LocalEntry(fill.value.value, now);
      assert l.entries[id := LocalEntry(r[key].value, now)][id := e] == l.entries[id := e];
    }
  }

  // ---------------------------------------------------------------- runs of many processes

  /** One call of the loader, and what the caller then stored. */
  datatype Load<V, A> = Load(proc: nat, id: string, at: nat, loaded: Option<A>, fill: Option<Fill<V>>)

  datatype System<V, A> = System(procs: map<nat, Local<V>>, remote: Remote<V>, loads: seq<Load<V, A>>)

  datatype Event<V, A> =
    | Looks(proc: nat, id: string, at: nat)
    | LooksLocked(proc: nat, id: string, at: nat, loaded: Option<A>, fill: Option<Fill<V>>)
    | Invalidates(proc: nat, id: string, at: nat)
    | Evicts(key: string, at: nat)

  function Proc<V, A>(s: System<V, A>, p: nat): Local<V> {
    if p in s.procs then s.procs[p] else Empty()
  }

  /** Does a LookLocked in this state reach the loader? */
  predicate Loads<V, A>(rules: Rules<V, A>, s: System<V, A>, e: Event<V, A>)
    requires e.LooksLocked?
  {
    ProbeRemote(rules, Proc(s, e.proc), s.remote, e.id, e.at).0.None?
  }

  function Step<V, A>(rules: Rules<V, A>, s: System<V, A>, e: Event<V, A>): System<V, A> {
    match e
    case Looks(p, id, now) =>
      s.(procs := s.procs[p := Look(rules, Proc(s, p), s.remote, id, now).1])
    case LooksLocked(p, id, now, loaded, fill) =>
      var (_, l, r) := LookLocked(rules, Proc(s, p), s.remote, id, now, loaded, fill);
      System(s.procs[p := l], r, if Loads(rules, s, e) then s.loads + [Load(p, id, now, loaded, fill)] else s.loads)
    case Invalidates(p, id, _) =>
      System(s.procs[p := Proc(s, p).(entries := Proc(s, p).entries - {id})], s.remote - {rules.prefix + id}, s.loads)
    case Evicts(key, _) => s.(remote := s.remote - {key})
  }

  /** What the caller of a get step is given. */
  function Answer<V, A>(rules: Rules<V, A>, s: System<V, A>, e: Event<V, A>): Option<A>
    requires e.Looks? || e.LooksLocked?
  {
    match e
    case Looks(p, id, now) => Look(rules, Proc(s, p), s.remote, id, now).0
    case LooksLocked(p, id, now, loaded, fill) => LookLocked(rules, Proc(s, p), s.remote, id, now, loaded, fill).0
  }

  function Run<V, A>(rules: Rules<V, A>, events: seq<Event<V, A>>): System<V, A> {
    if events == [] then System(map[], map[], [])
    else Step(rules, Run(rules, events[..|events| - 1]), events[|events| - 1])
  }

  /** Time never goes back, and only something the loader returned is ever stored. */
  ghost predicate Timely<V, A>(events: seq<Event<V, A>>) {
    && (forall i, j :: 0 <= i < j < |events| ==> events[i].at <= events[j].at)
    && (forall i :: 0 <= i < |events| && events[i].LooksLocked? ==> (events[i].fill.Some? ==> events[i].loaded.Some?))
  }

  /** Invalidating takes one entry from L2 and one from that process's L1; other entries, processes, counters and loads stay. */
  lemma InvalidateEffect<V, A>(rules: Rules<V, A>, s: System<V, A>, p: nat, id: string, now: nat)
    ensures var s' := Step(rules, s, Invalidates(p, id, now));
      && s'.remote == s.remote - {rules.prefix + id} && s'.loads == s.loads
      && Proc(s', p) == Proc(s, p).(entries := Proc(s, p).entries - {id})
      && forall q: nat :: q != p ==> Proc(s', q) == Proc(s, q)
  {
  }

  // ---------------------------------------------------------------- where cached values come from

  predicate Filled<V(==), A>(load: Load<V, A>, id: string, value: V) {
    load.id == id && load.fill.Some? && load.fill.value.value == value
  }

  ghost predicate RemoteBacked<V, A>(loads: seq<Load<V, A>>, lo: nat, id: string, e: RemoteEntry<V>) {
    exists i :: lo <= i < |loads| && Filled(loads[i], id, e.value) && e.expiry == loads[i].at + loads[i].fill.value.ttl
  }

  ghost predicate LocalBacked<V, A>(loads: seq<Load<V, A>>, lo: nat, id: string, e: LocalEntry<V>) {
    exists i :: lo <= i < |loads| && Filled(loads[i], id, e.value)
             && loads[i].at <= e.since <= loads[i].at + loads[i].fill.value.ttl
  }

  /**
   Every copy of `id` that can still be served comes from a load numbered `lo` or later, except
   that processes other than `p` may hold an older copy that they took at time `t` or before.
   With lo == 0 this is: every copy of `id` comes from some load.
   */
  ghost predicate Sourced<V, A>(rules: Rules<V, A>, s: System<V, A>, id: string, lo: nat, p: nat, t: nat) {
    && lo <= |s.loads|
    && (rules.prefix + id in s.remote ==> RemoteBacked(s.loads, lo, id, s.remote[rules.prefix + id]))
    && (forall q :: q in s.procs ==> ProcSourced(s.loads, id, lo, q != p, t, s.procs[q]))
  }

  ghost predicate ProcSourced<V, A>(loads: seq<Load<V, A>>, id: string, lo: nat, other: bool, t: nat, l: Local<V>) {
    id in l.entries ==> LocalBacked(loads, lo, id, l.entries[id]) || (lo > 0 && other && l.entries[id].since <= t)
  }

  ghost predicate LoadsBefore<V, A>(loads: seq<Load<V, A>>, now: nat) {
    forall i :: 0 <= i < |loads| ==> loads[i].at <= now
  }

  /** `a` is what load `i` of `id` put in the cache (or returned, this instant), still within its lifetime. */
  ghost predicate Explains<V, A>(rules: Rules<V, A>, load: Load<V, A>, id: string, now: nat, a: A) {
    load.id == id
    && (|| (load.at == now && load.loaded == Some(a))
        || (load.fill.Some? && rules.decode(load.fill.value.value) == Some(a)
            && load.at <= now < load.at + load.fill.value.ttl + rules.l1Ttl))
  }

  lemma KeysAreInjective(prefix: string, a: string, b: string)
    ensures prefix + a == prefix + b ==> a == b
  {
    assert (prefix + a)[|prefix|..] == a && (prefix + b)[|prefix|..] == b;
  }

  lemma BackedStays<V, A>(loads: seq<Load<V, A>>, more: seq<Load<V, A>>, lo: nat, id: string)
    ensures forall e :: RemoteBacked(loads, lo, id, e) ==> RemoteBacked(loads + more, lo, id, e)
    ensures forall e :: LocalBacked(loads, lo, id, e) ==> LocalBacked(loads + more, lo, id, e)
  {
    forall e | RemoteBacked(loads, lo, id, e) ensures RemoteBacked(loads + more, lo, id, e) {
      var i :| lo <= i < |loads| && Filled(loads[i], id, e.value) && e.expiry == loads[i].at + loads[i].fill.value.ttl;
      assert (loads + more)[i] == loads[i];
    }
    forall e | LocalBacked(loads, lo, id, e) ensures LocalBacked(loads + more, lo, id, e) {
      var i :| lo <= i < |loads| && Filled(loads[i], id, e.value)
               && loads[i].at <= e.since <= loads[i].at + loads[i].fill.value.ttl;
      assert (loads + more)[i] == loads[i];
    }
  }

  /** Copying a visible L2 entry into L1 now gives an L1 entry with the same origin. */
  lemma CopyIsBacked<V, A>(loads: seq<Load<V, A>>, lo: nat, id: string, e: RemoteEntry<V>, now: nat)
    requires RemoteBacked(loads, lo, id, e) && now <= e.expiry && LoadsBefore(loads, now)
    ensures LocalBacked(loads, lo, id, LocalEntry(e.value, now))
  {
    var i :| lo <= i < |loads| && Filled(loads[i], id, e.value) && e.expiry == loads[i].at + loads[i].fill.value.ttl;
    assert Filled(loads[i], id, LocalEntry(e.value, now).value);
  }

  lemma ProbesKeepProc<V, A>(rules: Rules<V, A>, loads: seq<Load<V, A>>, l: Local<V>, r: Remote<V>, at: string, now: nat,
                             id: string, lo: nat, other: bool, t: nat)
    requires ProcSourced(loads, id, lo, other, t, l) && LoadsBefore(loads, now)
    requires rules.prefix + id in r ==> RemoteBacked(loads, lo, id, r[rules.prefix + id])
    ensures ProcSourced(loads, id, lo, other, t, ProbeLocal(rules, l, at, now).1)
    ensures ProcSourced(loads, id, lo, other, t, ProbeRemote(rules, l, r, at, now).1)
  {
    if Visible(r, rules.prefix + id, now) {
      CopyIsBacked(loads, lo, id, r[rules.prefix + id], now);
    }
  }

  lemma StepKeepsProc<V, A>(rules: Rules<V, A>, s: System<V, A>, e: Event<V, A>, id: string, lo: nat, p: nat, t: nat, q: nat)
    requires Sourced(rules, s, id, lo, p, t) && LoadsBefore(s.loads, e.at)
    requires q in Step(rules, s, e).procs
    ensures ProcSourced(Step(rules, s, e).loads, id, lo, q != p, t, Step(rules, s, e).procs[q])
  {
    assert ProcSourced(s.loads, id, lo, q != p, t, Proc(s, q));
    match e
    case Evicts(_, _) =>
    case Invalidates(_, _, _) =>
    case Looks(_, at, now) =>
      ProbesKeepProc(rules, s.loads, Proc(s, q), s.remote, at, now, id, lo, q != p, t);
      ProbesKeepProc(rules, s.loads, ProbeLocal(rules, Proc(s, q), at, now).1, s.remote, at, now, id, lo, q != p, t);
    case LooksLocked(_, at, now, loaded, fill) =>
      ProbesKeepProc(rules, s.loads, Proc(s, q), s.remote, at, now, id, lo, q != p, t);
      var load := Load(e.proc, e.id, e.at, e.loaded, e.fill);
      BackedStays(s.loads, [load], lo, id);
      if Loads(rules, s, e) && fill.Some? && at == id {
        assert (s.loads + [load])[|s.loads|] == load && Filled(load, id, fill.value.value);
      }
  }

  lemma StepKeepsSourced<V, A>(rules: Rules<V, A>, s: System<V, A>, e: Event<V, A>, id: string, lo: nat, p: nat, t: nat)
    requires Sourced(rules, s, id, lo, p, t) && LoadsBefore(s.loads, e.at)
    ensures Sourced(rules, Step(rules, s, e), id, lo, p, t)
    ensures LoadsBefore(Step(rules, s, e).loads, e.at)
  {
    var s' := Step(rules, s, e);
    forall q | q in s'.procs ensures ProcSourced(s'.loads, id, lo, q != p, t, s'.procs[q]) {
      StepKeepsProc(rules, s, e, id, lo, p, t, q);
    }
    if e.LooksLocked? && Loads(rules, s, e) {
      KeysAreInjective(rules.prefix, id, e.id);
      var load := Load(e.proc, e.id, e.at, e.loaded, e.fill);
      BackedStays(s.loads, [load], lo, id);
      assert s'.loads[|s.loads|] == load;
      if e.fill.Some? && e.id == id {
        assert Filled(load, id, e.fill.value.value);
      }
    }
  }

  /** A get answered from a sourced state is explained by a load numbered `lo` or later. */
  lemma AnswerIsExplained<V, A>(rules: Rules<V, A>, s: System<V, A>, e: Event<V, A>, lo: nat, p: nat, t: nat) returns (i: nat)
    requires e.Looks? || e.LooksLocked?
    requires rules.l1Ttl > 0 && LoadsBefore(s.loads, e.at)
    requires Sourced(rules, s, e.id, lo, p, t)
    requires lo == 0 || e.proc == p || e.at >= t + rules.l1Ttl
    requires Answer(rules, s, e).Some?
    ensures lo <= i < |Step(rules, s, e).loads|
    ensures Explains(rules, Step(rules, s, e).loads[i], e.id, e.at, Answer(rules, s, e).value)
  {
    var l, key := Proc(s, e.proc), rules.prefix + e.id;
    if e.Looks? && ProbeLocal(rules, l, e.id, e.at).0.Some? {
      var entry := l.entries[e.id];
      i :| lo <= i < |s.loads| && Filled(s.loads[i], e.id, entry.value)
           && s.loads[i].at <= entry.since <= s.loads[i].at + s.loads[i].fill.value.ttl;
    } else if Visible(s.remote, key, e.at) && rules.decode(s.remote[key].value).Some? {
      var entry := s.remote[key];
      i :| lo <= i < |s.loads| && Filled(s.loads[i], e.id, entry.value)
           && entry.expiry == s.loads[i].at + s.loads[i].fill.value.ttl;
    } else {
      i := |s.loads|;
    }
  }

  lemma {:induction false} RunIsSourced<V, A>(rules: Rules<V, A>, events: seq<Event<V, A>>, id: string, now: nat)
    requires Timely(events) && (events != [] ==> events[|events| - 1].at <= now)
    ensures Sourced(rules, Run(rules, events), id, 0, 0, 0)
    ensures LoadsBefore(Run(rules, events).loads, now)
  {
    if events != [] {
      var init, last := events[..|events| - 1], events[|events| - 1];
      RunIsSourced(rules, init, id, last.at);
      StepKeepsSourced(rules, Run(rules, init), last, id, 0, 0, 0);
    }
  }

  /**
   Staleness bound: whatever a get returns, in any run of any number of processes, was loaded
   less than (the TTL it was stored with + the L1 TTL) before.
   */
  lemma StalenessBound<V, A>(rules: Rules<V, A>, events: seq<Event<V, A>>, e: Event<V, A>) returns (i: nat)
    requires rules.l1Ttl > 0 && Timely(events + [e])
    requires e.Looks? || e.LooksLocked?
    requires Answer(rules, Run(rules, events), e).Some?
    ensures i < |Run(rules, events + [e]).loads|
    ensures Explains(rules, Run(rules, events + [e]).loads[i], e.id, e.at, Answer(rules, Run(rules, events), e).value)
  {
    TimelyPrefix(events, [e]);
    RunIsSourced(rules, events, e.id, e.at);
    assert (events + [e])[..|events|] == events;
    i := AnswerIsExplained(rules, Run(rules, events), e, 0, 0, 0);
  }

  lemma TimelyPrefix<V, A>(events: seq<Event<V, A>>, more: seq<Event<V, A>>)
    requires Timely(events + more)
    ensures Timely(events)
    ensures events != [] && more != [] ==> events[|events| - 1].at <= more[0].at
  {
    forall i | 0 <= i < |events| ensures events[i] == (events + more)[i] {}
    assert more != [] ==> (events + more)[|events|] == more[0];
  }

  /** No L1 entry is dated in the future. */
  ghost predicate DatedBy<V, A>(s: System<V, A>, id: string, now: nat) {
    forall q :: q in s.procs ==> (id in s.procs[q].entries ==> s.procs[q].entries[id].since <= now)
  }

  lemma StepKeepsDates<V, A>(rules: Rules<V, A>, s: System<V, A>, e: Event<V, A>, id: string, now: nat)
    requires DatedBy(s, id, now) && now <= e.at
    ensures DatedBy(Step(rules, s, e), id, e.at)
  {
    var s' := Step(rules, s, e);
    forall q | q in s'.procs ensures id in s'.procs[q].entries ==> s'.procs[q].entries[id].since <= e.at {
      assert q in s.procs ==> (id in s.procs[q].entries ==> s.procs[q].entries[id].since <= now);
    }
  }

  lemma {:induction false} RunDatedBy<V, A>(rules: Rules<V, A>, events: seq<Event<V, A>>, id: string, now: nat)
    requires Timely(events) && (events != [] ==> events[|events| - 1].at <= now)
    ensures DatedBy(Run(rules, events), id, now)
  {
    if events != [] {
      var init, last := events[..|events| - 1], events[|events| - 1];
      RunDatedBy(rules, init, id, last.at);
      StepKeepsDates(rules, Run(rules, init), last, id, last.at);
    }
  }

  /** After process `p` invalidates `id` at time `t`, only copies other processes already hold survive. */
  lemma InvalidateIsSourced<V, A>(rules: Rules<V, A>, s: System<V, A>, e: Event<V, A>)
    requires e.Invalidates? && DatedBy(s, e.id, e.at)
    requires Sourced(rules, s, e.id, 0, 0, 0)
    ensures Sourced(rules, Step(rules, s, e), e.id, |s.loads|, e.proc, e.at)
  {
    var s' := Step(rules, s, e);
    forall q | q in s'.procs ensures ProcSourced(s'.loads, e.id, |s.loads|, q != e.proc, e.at, s'.procs[q]) {
      if q != e.proc {
        assert s'.procs[q] == s.procs[q] && ProcSourced(s.loads, e.id, 0, q != 0, 0, s.procs[q]);
      }
    }
  }

  lemma RunSnoc<V, A>(rules: Rules<V, A>, events: seq<Event<V, A>>, e: Event<V, A>)
    ensures Run(rules, events + [e]) == Step(rules, Run(rules, events), e)
  {
    assert (events + [e])[..|events|] == events;
  }

  lemma {:induction false} RunIsSourcedAfter<V, A>(rules: Rules<V, A>, before: seq<Event<V, A>>, e: Event<V, A>, after: seq<Event<V, A>>, now: nat)
    requires e.Invalidates? && Timely(before + [e] + after)
    requires forall i :: 0 <= i < |before + [e] + after| ==> (before + [e] + after)[i].at <= now
    ensures Sourced(rules, Run(rules, before + [e] + after), e.id, |Run(rules, before).loads|, e.proc, e.at)
    ensures LoadsBefore(Run(rules, before + [e] + after).loads, now)
    decreases |after|
  {
    if after == [] {
      assert before + [e] + after == before + [e];
      TimelyPrefix(before, [e]);
      RunIsSourced(rules, before, e.id, e.at);
      RunDatedBy(rules, before, e.id, e.at);
      InvalidateIsSourced(rules, Run(rules, before), e);
      RunSnoc(rules, before, e);
      assert (before + [e])[|before|] == e;
    } else {
      var last := after[|after| - 1];
      var init := before + [e] + after[..|after| - 1];
      assert before + [e] + after == init + [last];
      TimelyPrefix(init, [last]);
      assert (init + [last])[|init|] == last;
      forall i | 0 <= i < |init| ensures init[i].at <= last.at { assert init[i] == (init + [last])[i]; }
      RunIsSourcedAfter(rules, before, e, after[..|after| - 1], last.at);
      RunSnoc(rules, init, last);
      StepKeepsSourced(rules, Run(rules, init), last, e.id, |Run(rules, before).loads|, e.proc, e.at);
    }
  }

  /**
   Invalidation: after process p invalidates id, p's own later gets, and every process's gets at
   least one L1 TTL later, return only what the loader was asked for after the invalidation, at its
   time or later.
   */
  lemma InvalidationVisible<V, A>(rules: Rules<V, A>, before: seq<Event<V, A>>, inv: Event<V, A>, after: seq<Event<V, A>>,
                                  e: Event<V, A>) returns (i: nat)
    requires rules.l1Ttl > 0 && inv.Invalidates? && Timely(before + [inv] + after + [e])
    requires (e.Looks? || e.LooksLocked?) && e.id == inv.id
    requires e.proc == inv.proc || e.at >= inv.at + rules.l1Ttl
    requires Answer(rules, Run(rules, before + [inv] + after), e).Some?
    ensures |Run(rules, before).loads| <= i < |Run(rules, before + [inv] + after + [e]).loads|
    ensures Run(rules, before + [inv] + after + [e]).loads[i].at >= inv.at
    ensures Explains(rules, Run(rules, before + [inv] + after + [e]).loads[i], e.id, e.at,
                     Answer(rules, Run(rules, before + [inv] + after), e).value)
  {
    var events := before + [inv] + after;
    TimelyPrefix(events, [e]);
    assert (events + [e])[|events|] == e;
    forall i | 0 <= i < |events| ensures events[i].at <= e.at { assert events[i] == (events + [e])[i]; }
    RunIsSourcedAfter(rules, before, inv, after, e.at);
    RunSnoc(rules, events, e);
    i := AnswerIsExplained(rules, Run(rules, events), e, |Run(rules, before).loads|, inv.proc, inv.at);
    LoadsSince(rules, before, inv, after, e, i);
  }

  /** Loads are recorded in the order of their times. */
  lemma {:induction false} LaterLoads<V, A>(rules: Rules<V, A>, before: seq<Event<V, A>>, more: seq<Event<V, A>>, t: nat)
    requires forall i :: 0 <= i < |more| ==> t <= more[i].at
    ensures var first, loads := Run(rules, before).loads, Run(rules, before + more).loads;
      |first| <= |loads| && forall i :: |first| <= i < |loads| ==> t <= loads[i].at
    decreases |more|
  {
    if more == [] {
      assert before + more == before;
    } else {
      var init, last := more[..|more| - 1], more[|more| - 1];
      LaterLoads(rules, before, init, t);
      assert before + more == (before + init) + [last];
      RunSnoc(rules, before + init, last);
      StepRecords(rules, Run(rules, before + init), last);
    }
  }

  lemma LoadsSince<V, A>(rules: Rules<V, A>, before: seq<Event<V, A>>, first: Event<V, A>, after: seq<Event<V, A>>, last: Event<V, A>, i: nat)
    requires Timely(before + [first] + after + [last])
    requires |Run(rules, before).loads| <= i < |Run(rules, before + [first] + after + [last]).loads|
    ensures Run(rules, before + [first] + after + [last]).loads[i].at >= first.at
  {
    var all, later := before + [first] + after + [last], [first] + after + [last];
    assert all == before + later && all[|before|] == first;
    forall j | 0 <= j < |later| ensures first.at <= later[j].at {
      assert later[j] == all[|before| + j];
    }
    LaterLoads(rules, before, later, first.at);
  }

  lemma StepRecords<V, A>(rules: Rules<V, A>, s: System<V, A>, e: Event<V, A>)
    ensures Step(rules, s, e).loads == s.loads
      || (|Step(rules, s, e).loads| == |s.loads| + 1 && Step(rules, s, e).loads[..|s.loads|] == s.loads && Step(rules, s, e).loads[|s.loads|].at == e.at)
  {
  }

  // ---------------------------------------------------------------- counters

  function LoadsBy<V, A>(loads: seq<Load<V, A>>, p: nat): nat {
    if loads == [] then 0
    else LoadsBy(loads[..|loads| - 1], p) + if loads[|loads| - 1].proc == p then 1 else 0
  }

  /** How many get steps of process p ended with an answer; a Look without one goes on to LookLocked. */
  function Answered<V, A>(rules: Rules<V, A>, events: seq<Event<V, A>>, p: nat): nat {
    if events == [] then 0
    else
      var init, e := events[..|events| - 1], events[|events| - 1];
      Answered(rules, init, p)
      + if (e.LooksLocked? && e.proc == p) || (e.Looks? && e.proc == p && Answer(rules, Run(rules, init), e).Some?) then 1 else 0
  }

  /** Only values that decode are ever stored. */
  ghost predicate FillsDecode<V, A>(rules: Rules<V, A>, events: seq<Event<V, A>>) {
    forall i :: 0 <= i < |events| && events[i].LooksLocked? && events[i].fill.Some? ==>
      rules.decode(events[i].fill.value.value).Some?
  }

  ghost predicate Decodes<V, A>(rules: Rules<V, A>, s: System<V, A>) {
    && (forall p, id :: p in s.procs && id in s.procs[p].entries ==> rules.decode(s.procs[p].entries[id].value).Some?)
    && (forall key :: key in s.remote ==> rules.decode(s.remote[key].value).Some?)
  }

  lemma StepDecodes<V, A>(rules: Rules<V, A>, s: System<V, A>, e: Event<V, A>)
    requires Decodes(rules, s)
    requires e.LooksLocked? && e.fill.Some? ==> rules.decode(e.fill.value.value).Some?
    ensures Decodes(rules, Step(rules, s, e))
  {
  }

  lemma {:induction false} RunDecodes<V, A>(rules: Rules<V, A>, events: seq<Event<V, A>>)
    requires FillsDecode(rules, events)
    ensures Decodes(rules, Run(rules, events))
  {
    if events != [] {
      var init := events[..|events| - 1];
      RunDecodes(rules, init);
      StepDecodes(rules, Run(rules, init), events[|events| - 1]);
    }
  }

  lemma LoadsBySnoc<V, A>(loads: seq<Load<V, A>>, load: Load<V, A>, p: nat)
    ensures LoadsBy(loads + [load], p) == LoadsBy(loads, p) + if load.proc == p then 1 else 0
  {
    assert (loads + [load])[..|loads|] == loads;
  }

  lemma StepCountsLoads<V, A>(rules: Rules<V, A>, s: System<V, A>, e: Event<V, A>, p: nat)
    requires Proc(s, p).misses == LoadsBy(s.loads, p)
    ensures Proc(Step(rules, s, e), p).misses == LoadsBy(Step(rules, s, e).loads, p)
  {
    if e.LooksLocked? {
      LoadsBySnoc(s.loads, Load(e.proc, e.id, e.at, e.loaded, e.fill), p);
    }
  }

  /** In every run, a process's miss counter is the number of times it asked the loader. */
  lemma {:induction false} MissesAreLoads<V, A>(rules: Rules<V, A>, events: seq<Event<V, A>>, p: nat)
    ensures Proc(Run(rules, events), p).misses == LoadsBy(Run(rules, events).loads, p)
  {
    if events != [] {
      var init, e := events[..|events| - 1], events[|events| - 1];
      MissesAreLoads(rules, init, p);
      StepCountsLoads(rules, Run(rules, init), e, p);
    }
  }

  /** A get step counts exactly when it ends with an answer. */
  lemma StepCountsAnswers<V, A>(rules: Rules<V, A>, s: System<V, A>, e: Event<V, A>, p: nat)
    requires Decodes(rules, s)
    ensures var l, l' := Proc(s, p), Proc(Step(rules, s, e), p);
      l'.hits + l'.misses == l.hits + l.misses
        + if (e.LooksLocked? && e.proc == p) || (e.Looks? && e.proc == p && Answer(rules, s, e).Some?) then 1 else 0
  {
    assert e.Looks? || e.LooksLocked? ==> (e.id in Proc(s, e.proc).entries ==> e.proc in s.procs);
  }

  /** When everything stored decodes, every get counts once: hits + misses is the number of gets answered. */
  lemma {:induction false} CountersAreGets<V, A>(rules: Rules<V, A>, events: seq<Event<V, A>>, p: nat)
    requires FillsDecode(rules, events)
    ensures Proc(Run(rules, events), p).hits + Proc(Run(rules, events), p).misses == Answered(rules, events, p)
  {
    if events != [] {
      var init, e := events[..|events| - 1], events[|events| - 1];
      CountersAreGets(rules, init, p);
      RunDecodes(rules, init);
      StepCountsAnswers(rules, Run(rules, init), e, p);
    }
  }

  // ---------------------------------------------------------------- what caching is for

  /**
   A stored load is served: to this process from L1 for one L1 TTL whatever L2 holds by then, and
   to any process without an L1 copy from L2 for the TTL it was stored with.
   */
  lemma FillIsServed<V, A>(rules: Rules<V, A>, l: Local<V>, r: Remote<V>, id: string, now: nat, loaded: Option<A>, f: Fill<V>,
                           later: nat, laterRemote: Remote<V>, other: Local<V>)
    requires ProbeRemote(rules, l, r, id, now).0.None?
    requires rules.decode(f.value).Some? && now <= later && id !in other.entries
    ensures var (_, l', r') := LookLocked(rules, l, r, id, now, loaded, Some(f));
            && (later - now < rules.l1Ttl ==> Look(rules, l', laterRemote, id, later).0 == rules.decode(f.value))
            && (later <= now + f.ttl ==> Look(rules, other, r', id, later).0 == rules.decode(f.value))
  {
    var (_, l', r') := LookLocked(rules, l, r, id, now, loaded, Some(f));
    assert l'.entries[id] == LocalEntry(f.value, now) && r'[rules.prefix + id] == RemoteEntry(f.value, now + f.ttl);
  }

  /** An answer taken from L2 is repeated from L1 for one L1 TTL, whatever L2 holds by then. */
  lemma RemoteHitIsServed<V, A>(rules: Rules<V, A>, l: Local<V>, r: Remote<V>, id: string, now: nat, later: nat, laterRemote: Remote<V>)
    requires ProbeLocal(rules, l, id, now).0.None? && Look(rules, l, r, id, now).0.Some?
    requires now <= later < now + rules.l1Ttl
    ensures Look(rules, Look(rules, l, r, id, now).1, laterRemote, id, later).0 == Look(rules, l, r, id, now).0
  {
    assert Look(rules, l, r, id, now).1.entries[id] == LocalEntry(r[rules.prefix + id].value, now);
  }
}
