/**
 UserInfoCache (common/user_info_cache.hpp): user records behind an in-process map, Redis and a
 remote call. What is cached is the serialized message, and bytes that do not parse are passed by.
 */
module UserInfoCache {
  import opened Options
  import opened TieredCache
  import opened RedisStore
  import opened Wire
  import B = BaseMessages
  import BaseObjects

  const SECOND: nat := 1_000_000_000
  const TTL_BASE: nat := 60
  const TTL_JITTER: nat := 10
  const L1_TTL: nat := 10
  const KEY_PREFIX: string := "user_info:"

  function Decode(data: bytes): Option<B.UserInfo> { Parse(B.ApplyUser, B.NO_USER, data) }

  const RULES: Rules<bytes, B.UserInfo> := Rules(KEY_PREFIX, L1_TTL * SECOND, Decode)

  /** What is stored after the loader answered: nothing for no user, or for one too large to serialize. */
  function FillFor(loaded: Option<B.UserInfo>, jitter: nat): Option<Fill<bytes>> {
    if loaded.Some? && B.UserSize(loaded.value) <= B.INT_MAX
    then Some(Fill(B.SerializeUser(loaded.value), (TTL_BASE + jitter) * SECOND))
    else None
  }

  class Cache {
    const redis: Redis<bytes>
    const dbLoader: (string, nat) -> Option<B.UserInfo>  // what the user service answers at a given instant
    var local: map<string, LocalEntry<bytes>>
    var hits: nat
    var misses: nat

    constructor (redis: Redis<bytes>, dbLoader: (string, nat) -> Option<B.UserInfo>)
      ensures this.redis == redis && this.dbLoader == dbLoader && View() == Empty()
    {
      this.redis, this.dbLoader := redis, dbLoader;
      local, hits, misses := map[], 0, 0;
    }

    ghost function View(): Local<bytes>
      reads this
    {
      Local(local, hits, misses)
    }

    method LocalSet(id: string, value: bytes, now: nat)
      modifies this`local
      ensures local == old(local)[id := LocalEntry(value, now)]
    {
      local := local[id := LocalEntry(value, now)];
    }

    method ParseUser(data: bytes) returns (user: Option<B.UserInfo>)
      ensures user == Decode(data)
    {
      var info := new BaseObjects.UserInfo();
      var ok := info.ParseFromString(data);
      user := if ok then Some(info.View()) else None;
    }

    /** L2: a visible value is a hit and is copied to L1 before it is known to parse. */
    method LookInRedis(id: string, now: nat) returns (user: Option<B.UserInfo>)
      modifies this
      ensures (user, View()) == ProbeRemote(RULES, old(View()), redis.store, id, now)
    {
      var cached := redis.Get(KEY_PREFIX + id, now);
      if cached.Some? {
        hits := hits + 1;
        LocalSet(id, cached.value, now);
        user := ParseUser(cached.value);
        return;
      }
      user := None;
    }

    /** The first half of get: L1, then L2 without the lock. */
    method Look(id: string, now: nat) returns (user: Option<B.UserInfo>)
      modifies this
      ensures (user, View()) == TieredCache.Look(RULES, old(View()), redis.store, id, now)
    {
      if id in local {
        if now - local[id].since < L1_TTL * SECOND {
          hits := hits + 1;
          user := ParseUser(local[id].value);
          if user.Some? { return; }
        }
        local := local - {id};
      }
      user := LookInRedis(id, now);
    }

    /** The second half of get, under the shard lock: the double-check, the loader, the fill. */
    method LookLocked(id: string, now: nat, jitter: nat) returns (user: Option<B.UserInfo>)
      modifies this, redis
      ensures (user, View(), redis.store) ==
        TieredCache.LookLocked(RULES, old(View()), old(redis.store), id, now, dbLoader(id, now), FillFor(dbLoader(id, now), jitter))
    {
      user := LookInRedis(id, now);
      if user.Some? { return; }
      misses := misses + 1;
      user := dbLoader(id, now);
      if user.None? { return; }
      var info := new BaseObjects.UserInfo();
      info.userId, info.nickname, info.description := user.value.userId, user.value.nickname, user.value.description;
      info.phone, info.avatar := user.value.phone, user.value.avatar;
      assert info.View() == user.value;
      var serialized := info.SerializeToString();
      if serialized.Some? {
        redis.Set(KEY_PREFIX + id, serialized.value, (TTL_BASE + jitter) * SECOND, now);
        LocalSet(id, serialized.value, now);
      }
    }

    /** The whole get; `meanwhile` is what Redis holds when the lock is granted. */
    method Get(id: string, now: nat, later: nat, meanwhile: Remote<bytes>, jitter: nat) returns (user: Option<B.UserInfo>)
      modifies this, redis
      ensures var (first, l) := TieredCache.Look(RULES, old(View()), old(redis.store), id, now);
        if first.Some? then
          (first, l, old(redis.store)) == (user, View(), redis.store)
        else
          (user, View(), redis.store) ==
            TieredCache.LookLocked(RULES, l, meanwhile, id, later, dbLoader(id, later), FillFor(dbLoader(id, later), jitter))
    {
      user := Look(id, now);
      if user.Some? { return; }
      redis.store := meanwhile;
      user := LookLocked(id, later, jitter);
    }

    method Invalidate(id: string)
      modifies this`local, redis
      ensures local == old(local) - {id} && redis.store == old(redis.store) - {KEY_PREFIX + id}
    {
      redis.Del(KEY_PREFIX + id);
      local := local - {id};
    }
  }

  // ---------------------------------------------------------------- arbitrary cached bytes

  predicate FreshLocal(l: Local<bytes>, id: string, now: nat) {
    id in l.entries && now - l.entries[id].since < L1_TTL * SECOND
  }

  /** The L1 entry holds bytes that parse. */
  predicate Readable(l: Local<bytes>, id: string) { id in l.entries && Decode(l.entries[id].value).Some? }

  predicate ReadableLocal(l: Local<bytes>, id: string, now: nat) { FreshLocal(l, id, now) && Readable(l, id) }

  predicate ReadableRemote(r: Remote<bytes>, id: string, now: nat) {
    Visible(r, KEY_PREFIX + id, now) && Decode(r[KEY_PREFIX + id].value).Some?
  }

  /** Fresh L1 bytes, or visible L2 bytes, that do not parse. */
  predicate UnreadableLocal(l: Local<bytes>, id: string, now: nat) {
    FreshLocal(l, id, now) && !Readable(l, id)
  }

  predicate UnreadableRemote(r: Remote<bytes>, id: string, now: nat) {
    Visible(r, KEY_PREFIX + id, now) && Decode(r[KEY_PREFIX + id].value).None?
  }

  function One(b: bool): nat { if b then 1 else 0 }

  /** A loaded user that can be stored, and one that can also be read back. */
  predicate Fits(loaded: Option<B.UserInfo>) { loaded.Some? && B.UserSize(loaded.value) <= B.INT_MAX }
  predicate Cacheable(loaded: Option<B.UserInfo>) { Fits(loaded) && B.UserUtf8(loaded.value) }

  /** The first half of a get answers exactly when L1 or else L2 holds bytes that parse, and with their decoding. */
  lemma LookAnswersIff(l: Local<bytes>, r: Remote<bytes>, id: string, now: nat)
    ensures Look(RULES, l, r, id, now).0 ==
      if ReadableLocal(l, id, now) then Decode(l.entries[id].value)
      else if ReadableRemote(r, id, now) then Decode(r[KEY_PREFIX + id].value)
      else None
    ensures Look(RULES, l, r, id, now).0.None? ==> !Readable(Look(RULES, l, r, id, now).1, id)
  {
  }

  /**
   A whole get, whatever bytes L1 and L2 hold, and whatever L2 holds by the time the lock is
   granted: the answer is the decoding of the first bytes on the way that parse, and the loader's
   answer when none do. Once the loader is reached, L1 holds readable bytes afterwards if and only
   if it gave a user that fits and whose text is UTF-8; one that fits leaves both levels
   holding exactly its serialization.
   */
  lemma BadBytesAreReplaced(l: Local<bytes>, r: Remote<bytes>, id: string, now: nat,
                            later: nat, meanwhile: Remote<bytes>, loaded: Option<B.UserInfo>, jitter: nat)
    ensures var (first, l1) := Look(RULES, l, r, id, now);
      var (second, l2, r2) := LookLocked(RULES, l1, meanwhile, id, later, loaded, FillFor(loaded, jitter));
      if ReadableLocal(l, id, now) then first == Decode(l.entries[id].value)
      else if ReadableRemote(r, id, now) then first == Decode(r[KEY_PREFIX + id].value)
      else if ReadableRemote(meanwhile, id, later) then
        first.None? && second == Decode(meanwhile[KEY_PREFIX + id].value) && r2 == meanwhile
      else
        && first.None? && second == loaded
        && (Readable(l2, id) <==> Cacheable(loaded))
        && (Fits(loaded) ==>
              && l2.entries[id] == LocalEntry(B.SerializeUser(loaded.value), later)
              && r2 == meanwhile[KEY_PREFIX + id := RemoteEntry(B.SerializeUser(loaded.value), later + (TTL_BASE + jitter) * SECOND)])
        && (!Fits(loaded) ==> r2 == meanwhile)
  {
    LookAnswersIff(l, r, id, now);
    if Fits(loaded) {
      B.UserParsesIffUtf8(loaded.value);
    }
  }

  /** For an L1 TTL after the loader was reached, a cacheable user is served again; any other leaves it to L2. */
  lemma ReplacedIsServed(l: Local<bytes>, r: Remote<bytes>, id: string, now: nat, loaded: Option<B.UserInfo>, jitter: nat,
                         later: nat, laterRemote: Remote<bytes>)
    requires !Readable(l, id) && !ReadableRemote(r, id, now)
    requires now <= later < now + L1_TTL * SECOND
    ensures var l' := LookLocked(RULES, l, r, id, now, loaded, FillFor(loaded, jitter)).1;
      Look(RULES, l', laterRemote, id, later).0 ==
        if Cacheable(loaded) then loaded
        else if ReadableRemote(laterRemote, id, later) then Decode(laterRemote[KEY_PREFIX + id].value)
        else None
  {
    var l' := LookLocked(RULES, l, r, id, now, loaded, FillFor(loaded, jitter)).1;
    LookAnswersIff(l', laterRemote, id, later);
    if Fits(loaded) {
      B.UserParsesIffUtf8(loaded.value);
    }
  }

  /**
   A whole get adds one to hits + misses, and one more for each unreadable value it meets on the
   way: in L1, in L2, and in L2 again under the lock. So it counts once exactly when it meets none.
   */
  lemma CountsOnceUnlessUnreadable(l: Local<bytes>, r: Remote<bytes>, id: string, now: nat,
                                   later: nat, meanwhile: Remote<bytes>, loaded: Option<B.UserInfo>, fill: Option<Fill<bytes>>)
    ensures var (first, l1) := Look(RULES, l, r, id, now);
      var l2 := if first.Some? then l1 else LookLocked(RULES, l1, meanwhile, id, later, loaded, fill).1;
      l2.hits + l2.misses == l.hits + l.misses + 1 + One(UnreadableLocal(l, id, now))
        + if first.Some? then 0 else One(UnreadableRemote(r, id, now)) + One(UnreadableRemote(meanwhile, id, later))
  {
    var (first, l1) := Look(RULES, l, r, id, now);
    assert first.Some? && UnreadableLocal(l, id, now) ==> Visible(r, KEY_PREFIX + id, now);
  }

  // ---------------------------------------------------------------- whole runs

  ghost predicate FillsAreOurs(events: seq<Event<bytes, B.UserInfo>>) {
    forall i :: 0 <= i < |events| && events[i].LooksLocked? ==>
      exists jitter :: 0 <= jitter <= TTL_JITTER && events[i].fill == FillFor(events[i].loaded, jitter)
  }

  ghost predicate IsOurs(load: Load<bytes, B.UserInfo>) {
    exists jitter :: 0 <= jitter <= TTL_JITTER && load.fill == FillFor(load.loaded, jitter)
  }

  lemma {:induction false} LoadsAreOurs(events: seq<Event<bytes, B.UserInfo>>)
    requires FillsAreOurs(events)
    ensures forall i :: 0 <= i < |Run(RULES, events).loads| ==> IsOurs(Run(RULES, events).loads[i])
  {
    if events != [] {
      LoadsAreOurs(events[..|events| - 1]);
    }
  }

  /**
   In any run of any number of processes, a user returned is one the loader gave for this id
   less than 80 s (70 + 10) before, unchanged by the codec.
   */
  lemma StaleForAtMost80s(events: seq<Event<bytes, B.UserInfo>>, e: Event<bytes, B.UserInfo>) returns (load: Load<bytes, B.UserInfo>)
    requires Timely(events + [e]) && FillsAreOurs(events + [e])
    requires e.Looks? || e.LooksLocked?
    requires Answer(RULES, Run(RULES, events), e).Some?
    ensures load in Run(RULES, events + [e]).loads && load.id == e.id
    ensures load.loaded == Answer(RULES, Run(RULES, events), e)
    ensures load.at <= e.at < load.at + 80 * SECOND
  {
    var i := StalenessBound(RULES, events, e);
    LoadsAreOurs(events + [e]);
    load := Run(RULES, events + [e]).loads[i];
    assert IsOurs(load);
    if load.fill.Some? {
      B.UserParsesIffUtf8(load.loaded.value);
    }
  }

  /** Misses always count the loads; if every user loaded has UTF-8 text, hits + misses counts the gets. */
  lemma Counters(events: seq<Event<bytes, B.UserInfo>>, p: nat)
    requires FillsAreOurs(events)
    ensures Proc(Run(RULES, events), p).misses == LoadsBy(Run(RULES, events).loads, p)
    ensures (forall i :: 0 <= i < |events| && events[i].LooksLocked? && events[i].loaded.Some? ==> B.UserUtf8(events[i].loaded.value)) ==>
      Proc(Run(RULES, events), p).hits + Proc(Run(RULES, events), p).misses == Answered(RULES, events, p)
  {
    MissesAreLoads(RULES, events, p);
    if forall i :: 0 <= i < |events| && events[i].LooksLocked? && events[i].loaded.Some? ==> B.UserUtf8(events[i].loaded.value) {
      forall i | 0 <= i < |events| && events[i].LooksLocked? && events[i].fill.Some?
        ensures RULES.decode(events[i].fill.value.value).Some?
      {
        B.UserParsesIffUtf8(events[i].loaded.value);
      }
      CountersAreGets(RULES, events, p);
    }
  }

  /**
   What caching promises: a loaded user that can be cached is answered again, without the user
   service, to this process for 10 s, and to any process without a copy of its own for 60 s and the
   jitter, and no longer.
   */
  lemma ServedFor(l: Local<bytes>, r: Remote<bytes>, id: string, now: nat, loaded: Option<B.UserInfo>, jitter: nat,
                  later: nat, laterRemote: Remote<bytes>, other: Local<bytes>)
    requires Cacheable(loaded) && jitter <= TTL_JITTER
    requires !Visible(r, KEY_PREFIX + id, now) && now <= later && id !in other.entries
    ensures var (answer, l', r') := LookLocked(RULES, l, r, id, now, loaded, FillFor(loaded, jitter));
      && answer == loaded
      && (later - now < 10_000_000_000 ==> Look(RULES, l', laterRemote, id, later).0 == loaded)
      && Look(RULES, other, r', id, later).0 == if later - now <= (60 + jitter) * 1_000_000_000 then loaded else None
  {
    B.UserParsesIffUtf8(loaded.value);
    LookLockedEffect(RULES, l, r, id, now, loaded, FillFor(loaded, jitter));
    var (_, l', r') := LookLocked(RULES, l, r, id, now, loaded, FillFor(loaded, jitter));
    LookEffect(RULES, l', laterRemote, id, later);
    LookEffect(RULES, other, r', id, later);
  }
}
