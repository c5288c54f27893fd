/**
 SessionMemberCache (common/session_member_cache.hpp): the members of a chat session, behind an
 in-process map, Redis and a database loader. Times are nanoseconds on one clock.
 */
module SessionMemberCache {
  import opened Options
  import opened TieredCache
  import opened RedisStore
  import MemberList

  const SECOND: nat := 1_000_000_000
  const TTL_BASE: nat := 5
  const TTL_EMPTY: nat := 2
  const TTL_JITTER: nat := 2
  const L1_TTL: nat := 2
  const KEY_PREFIX: string := "session_members:"

  const RULES: Rules<string, seq<string>> :=
    Rules(KEY_PREFIX, L1_TTL * SECOND, text => Some(MemberList.Decode(text)))

  /** What is stored after `ids` was loaded. */
  function FillFor(ids: seq<string>, jitter: nat): Fill<string> {
    Fill(MemberList.Encode(ids), (if ids == [] then TTL_EMPTY else TTL_BASE + jitter) * SECOND)
  }

  class Cache {
    const redis: Redis<string>
    const dbLoader: (string, nat) -> seq<string>  // what the database answers at a given instant
    var local: map<string, LocalEntry<string>>
    var hits: nat
    var misses: nat

    constructor (redis: Redis<string>, dbLoader: (string, nat) -> seq<string>)
      ensures this.redis == redis && this.dbLoader == dbLoader && View() == Empty()
    {
      this.redis, this.dbLoader := redis, dbLoader;
      local, hits, misses := map[], 0, 0;
    }

    ghost function View(): Local<string>
      reads this
    {
      Local(local, hits, misses)
    }

    method LocalSet(id: string, value: string, now: nat)
      modifies this`local
      ensures local == old(local)[id := LocalEntry(value, now)]
    {
      local := local[id := LocalEntry(value, now)];
    }

    method Members(value: string) returns (ids: seq<string>)
      ensures ids == MemberList.Decode(value)
    {
      if value == MemberList.EMPTY_SENTINEL {
        return [];
      }
      ids := MemberList.SplitLoop(value);
    }

    /** The first half of get: L1, then L2 without the lock. */
    method Look(id: string, now: nat) returns (members: Option<seq<string>>)
      modifies this
      ensures (members, View()) == TieredCache.Look(RULES, old(View()), redis.store, id, now)
    {
      if id in local {
        if now - local[id].since < L1_TTL * SECOND {
          hits := hits + 1;
          var ids := Members(local[id].value);
          return Some(ids);
        }
        local := local - {id};
      }
      var cached := redis.Get(KEY_PREFIX + id, now);
      if cached.Some? {
        hits := hits + 1;
        LocalSet(id, cached.value, now);
        var ids := Members(cached.value);
        return Some(ids);
      }
      return None;
    }

    /** The second half of get, under the shard lock: the double-check, the loader, the fill. */
    method LookLocked(id: string, now: nat, jitter: nat) returns (members: seq<string>)
      modifies this, redis
      ensures (Some(members), View(), redis.store) ==
        TieredCache.LookLocked(RULES, old(View()), old(redis.store), id, now,
                                Some(dbLoader(id, now)), Some(FillFor(dbLoader(id, now), jitter)))
    {
      var key := KEY_PREFIX + id;
      var cached := redis.Get(key, now);
      if cached.Some? {
        hits := hits + 1;
        LocalSet(id, cached.value, now);
        members := Members(cached.value);
        return;
      }
      misses := misses + 1;
      members := dbLoader(id, now);
      var ttl := if members == [] then TTL_EMPTY else TTL_BASE + jitter;
      var value := MemberList.EMPTY_SENTINEL;
      if members != [] {
        value := MemberList.JoinLoop(members);
      }
      redis.Set(key, value, ttl * SECOND, now);
      LocalSet(id, value, now);
    }

    /**
     The whole get. `meanwhile` is what Redis holds when the lock is granted: another process may
     have filled, dropped or replaced any entry since the first look.
     */
    method Get(id: string, now: nat, later: nat, meanwhile: Remote<string>, jitter: nat) returns (members: seq<string>)
      modifies this, redis
      ensures var (first, l) := TieredCache.Look(RULES, old(View()), old(redis.store), id, now);
        if first.Some? then
          (first, l, old(redis.store)) == (Some(members), View(), redis.store)
        else
          (Some(members), View(), redis.store) ==
            TieredCache.LookLocked(RULES, l, meanwhile, id, later,
                                    Some(dbLoader(id, later)), Some(FillFor(dbLoader(id, later), jitter)))
      ensures hits + misses == old(hits + misses) + 1
    {
      var first := Look(id, now);
      if first.Some? {
        return first.value;
      }
      redis.store := meanwhile;
      members := LookLocked(id, later, jitter);
    }

    method Invalidate(id: string)
      modifies this`local, redis
      ensures local == old(local) - {id} && redis.store == old(redis.store) - {KEY_PREFIX + id}
    {
      redis.Del(KEY_PREFIX + id);
      local := local - {id};
    }
  }

  // ---------------------------------------------------------------- whole runs

  /** Runs in which every fill is the one this class makes, with jitter drawn from 0..TTL_JITTER. */
  ghost predicate FillsAreOurs(events: seq<Event<string, seq<string>>>) {
    forall i :: 0 <= i < |events| && events[i].LooksLocked? ==>
      && events[i].loaded.Some?
      && exists jitter :: 0 <= jitter <= TTL_JITTER && events[i].fill == Some(FillFor(events[i].loaded.value, jitter))
  }

  ghost predicate IsOurs(load: Load<string, seq<string>>) {
    load.loaded.Some? && exists jitter :: 0 <= jitter <= TTL_JITTER && load.fill == Some(FillFor(load.loaded.value, jitter))
  }

  lemma {:induction false} LoadsAreOurs(events: seq<Event<string, seq<string>>>)
    requires FillsAreOurs(events)
    ensures forall i :: 0 <= i < |Run(RULES, events).loads| ==> IsOurs(Run(RULES, events).loads[i])
  {
    if events != [] {
      LoadsAreOurs(events[..|events| - 1]);
    }
  }

  /** How long a loaded list can still be returned, in nanoseconds. */
  function Lifetime(loaded: seq<string>): nat {
    (if loaded == [] then 4 else 9) * SECOND
  }

  /**
   In any run of any number of processes sharing Redis, a returned list is what the loader gave for
   this session less than 9 s before (4 s if the loader gave the empty list), read back through
   the stored text; for a Storable list that is the loaded list itself.
   */
  lemma StaleForAtMost(events: seq<Event<string, seq<string>>>, e: Event<string, seq<string>>) returns (load: Load<string, seq<string>>)
    requires Timely(events + [e]) && FillsAreOurs(events + [e])
    requires e.Looks? || e.LooksLocked?
    requires Answer(RULES, Run(RULES, events), e).Some?
    ensures load in Run(RULES, events + [e]).loads && load.id == e.id && load.loaded.Some?
    ensures load.at <= e.at < load.at + Lifetime(load.loaded.value)
    ensures var members := Answer(RULES, Run(RULES, events), e).value;
      && (members == load.loaded.value || members == MemberList.Decode(MemberList.Encode(load.loaded.value)))
      && (MemberList.Storable(load.loaded.value) ==> members == load.loaded.value)
  {
    var i := StalenessBound(RULES, events, e);
    LoadsAreOurs(events + [e]);
    load := Run(RULES, events + [e]).loads[i];
    assert IsOurs(load);
    MemberList.StoredListRoundTrip(load.loaded.value);
  }

  /** Every get adds one to hits + misses, and misses counts the database loads. */
  lemma Counters(events: seq<Event<string, seq<string>>>, p: nat)
    ensures Proc(Run(RULES, events), p).misses == LoadsBy(Run(RULES, events).loads, p)
    ensures Proc(Run(RULES, events), p).hits + Proc(Run(RULES, events), p).misses == Answered(RULES, events, p)
  {
    MissesAreLoads(RULES, events, p);
    CountersAreGets(RULES, events, p);
  }

  /**
   A process that invalidated a session sees only lists loaded after that; so does every process
   from 2 s later on. Load number `i`, counted from the start of the run, was made after the
   invalidation and at its time or later.
   */
  lemma InvalidatedListsAreGone(before: seq<Event<string, seq<string>>>, inv: Event<string, seq<string>>,
                                after: seq<Event<string, seq<string>>>, e: Event<string, seq<string>>) returns (i: nat)
    requires inv.Invalidates? && Timely(before + [inv] + after + [e])
    requires (e.Looks? || e.LooksLocked?) && e.id == inv.id
    requires e.proc == inv.proc || e.at >= inv.at + 2 * SECOND
    requires Answer(RULES, Run(RULES, before + [inv] + after), e).Some?
    ensures |Run(RULES, before).loads| <= i < |Run(RULES, before + [inv] + after + [e]).loads|
    ensures Run(RULES, before + [inv] + after + [e]).loads[i].at >= inv.at
    ensures Explains(RULES, Run(RULES, before + [inv] + after + [e]).loads[i], e.id, e.at,
                     Answer(RULES, Run(RULES, before + [inv] + after), e).value)
  {
    i := InvalidationVisible(RULES, before, inv, after, e);
  }

  /**
   What caching promises: a loaded list that is storable is answered again, without the database, to
   this process for 2 s, and to any process without a copy of its own for 2 s if it is empty and
   for 5 s and the jitter if it is not, and no longer.
   */
  lemma ServedFor(l: Local<string>, r: Remote<string>, id: string, now: nat, loaded: seq<string>, jitter: nat,
                  later: nat, laterRemote: Remote<string>, other: Local<string>)
    requires MemberList.Storable(loaded) && jitter <= TTL_JITTER
    requires !Visible(r, KEY_PREFIX + id, now) && now <= later && id !in other.entries
    ensures var (answer, l', r') := TieredCache.LookLocked(RULES, l, r, id, now, Some(loaded), Some(FillFor(loaded, jitter)));
      && answer == Some(loaded)
      && (later - now < 2_000_000_000 ==> TieredCache.Look(RULES, l', laterRemote, id, later).0 == Some(loaded))
      && TieredCache.Look(RULES, other, r', id, later).0 ==
           if later - now <= (if loaded == [] then 2 else 5 + jitter) * 1_000_000_000 then Some(loaded) else None
  {
    MemberList.StoredListRoundTrip(loaded);
    var fill := FillFor(loaded, jitter);
    LookLockedEffect(RULES, l, r, id, now, Some(loaded), Some(fill));
    var (_, l', r') := TieredCache.LookLocked(RULES, l, r, id, now, Some(loaded), Some(fill));
    LookEffect(RULES, l', laterRemote, id, later);
    LookEffect(RULES, other, r', id, later);
  }
}
