/**
 The channel registry (common/brpc.hpp): per service a vector of channels and a map from host to
 channel, both changed in place as hosts come and go, and a choice that goes round the vector.
 Calls are atomic. A channel's serial stands for its identity: append makes a new channel object.
 */
module ServiceRegistry {
  import opened Options
  import opened RoundRobin

  datatype Channel = Channel(serial: nat, host: string)

  /** The state of one ChannelManager; made counts the channels it has created. */
  datatype Manager = Manager(channels: seq<Channel>, hosts: map<string, Channel>, index: nat, made: nat)

  function Fresh(): Manager { Manager([], map[], 0, 0) }

  function Append(m: Manager, host: string): Manager {
    var channel := Channel(m.made, host);
    m.(channels := m.channels + [channel], hosts := m.hosts[host := channel], made := m.made + 1)
  }

  function Remove(m: Manager, host: string): Manager {
    if host !in m.hosts then m
    else m.(channels := WithoutFirst(m.channels, m.hosts[host]), hosts := m.hosts - {host})
  }

  function WithoutFirst(channels: seq<Channel>, c: Channel): seq<Channel> {
    if channels == [] then []
    else if channels[0] == c then channels[1..]
    else [channels[0]] + WithoutFirst(channels[1..], c)
  }

  lemma {:induction false} WithoutFirstAt(channels: seq<Channel>, c: Channel, i: nat)
    requires i <= |channels| && c !in channels[..i] && (i < |channels| ==> channels[i] == c)
    ensures WithoutFirst(channels, c) == if i < |channels| then channels[..i] + channels[i + 1..] else channels
  {
    if i > 0 {
      assert channels[0] == channels[..i][0];
      assert channels[1..][..i - 1] == channels[..i][1..];
      WithoutFirstAt(channels[1..], c, i - 1);
    }
  }

  const INT_MAX: nat := 0x7fff_ffff

  /** What choose answers: no manager, an index that cannot be raised in an int, a remainder by zero, or a channel. */
  datatype Choice = NoService | Overflows | DividesByZero | Chosen(channel: Channel)

  function Choose(m: Manager): Choice {
    if m.index >= INT_MAX then Overflows
    else if m.channels == [] then DividesByZero
    else Chosen(m.channels[m.index % |m.channels|])
  }

  class ChannelManager {
    var channels: seq<Channel>
    var hosts: map<string, Channel>
    var index: nat
    var made: nat

    ghost function Value(): Manager reads this { Manager(channels, hosts, index, made) }

    constructor ()
      ensures Value() == Fresh()
    {
      channels, hosts, index, made := [], map[], 0, 0;
    }

    method AppendHost(host: string)
      modifies this
      ensures Value() == Append(old(Value()), host)
    {
      var channel := Channel(made, host);
      made := made + 1;
      channels := channels + [channel];
      hosts := hosts[host := channel];
    }

    method RemoveHost(host: string)
      modifies this
      ensures Value() == Remove(old(Value()), host)
    {
      if host !in hosts {
        return;
      }
      var i := 0;
      while i < |channels|
        invariant i <= |channels| && hosts[host] !in channels[..i]
        invariant Value() == old(Value())
      {
        if channels[i] == hosts[host] {
          break;
        }
        i := i + 1;
      }
      WithoutFirstAt(channels, hosts[host], i);
      if i < |channels| {
        channels := channels[..i] + channels[i + 1..];
      }
      hosts := hosts - {host};
    }

    method ChooseChannel() returns (choice: Choice)
      modifies this`index
      ensures choice == Choose(old(Value()))
      ensures Value() == old(Value()).(index := if choice.Chosen? then old(index) + 1 else old(index))
    {
      if index >= INT_MAX {
        return Overflows;
      }
      if channels == [] {
        return DividesByZero;
      }
      var i := index % |channels|;
      index := index + 1;
      choice := Chosen(channels[i]);
    }
  }

  // ---------------------------------------------------------------- one service's history

  datatype Event = Up(host: string) | Down(host: string)

  function Apply(m: Manager, e: Event): Manager {
    match e case Up(host) => Append(m, host) case Down(host) => Remove(m, host)
  }

  function Replay(events: seq<Event>): Manager {
    if events == [] then Fresh() else Apply(Replay(events[..|events| - 1]), events[|events| - 1])
  }

  /** How many channels belong to no host any more: one for each time a host came up while up. */
  function Orphans(events: seq<Event>): nat {
    if events == [] then 0
    else
      var before, e := events[..|events| - 1], events[|events| - 1];
      Orphans(before) + if e.Up? && Live(before, e.host) then 1 else 0
  }

  /** The last event about the host brought it up. */
  predicate Live(events: seq<Event>, host: string) {
    events != [] &&
    var e := events[|events| - 1];
    if e.host == host then e.Up? else Live(events[..|events| - 1], host)
  }

  predicate UpOnlyWhileDown(events: seq<Event>) { Orphans(events) == 0 }

  /** The channels are in the order of their making, without repeats, and every live host's channel is among them. */
  predicate Sound(m: Manager) {
    && (forall i, j :: 0 <= i < j < |m.channels| ==> m.channels[i].serial < m.channels[j].serial)
    && (forall i :: 0 <= i < |m.channels| ==> m.channels[i].serial < m.made)
    && (forall h :: h in m.hosts ==> m.hosts[h].host == h && m.hosts[h] in m.channels)
  }

  /** The two structures hold the same channels. */
  predicate Agree(m: Manager) {
    forall i :: 0 <= i < |m.channels| ==> m.channels[i].host in m.hosts && m.hosts[m.channels[i].host] == m.channels[i]
  }

  lemma {:induction false} PositionOf(channels: seq<Channel>, c: Channel) returns (i: nat)
    requires c in channels
    ensures i < |channels| && channels[i] == c && c !in channels[..i]
  {
    if channels[0] == c {
      i := 0;
    } else {
      i := PositionOf(channels[1..], c);
      i := i + 1;
      assert channels[..i] == [channels[0]] + channels[1..][..i - 1];
    }
  }

  lemma AppendSound(m: Manager, host: string)
    requires Sound(m)
    ensures Sound(Append(m, host))
  {
    var n := Append(m, host);
    assert n.channels[|m.channels|] == n.hosts[host];
    forall h | h in n.hosts ensures n.hosts[h].host == h && n.hosts[h] in n.channels {
      if h != host { assert h in m.hosts; }
    }
  }

  /** Removing a live host takes out its channel and nothing else, whatever else is there. */
  lemma RemoveTakesOne(m: Manager, host: string) returns (i: nat)
    requires Sound(m) && host in m.hosts
    ensures i < |m.channels| && m.channels[i] == m.hosts[host]
    ensures Remove(m, host).channels == m.channels[..i] + m.channels[i + 1..]
    ensures forall c :: c in Remove(m, host).channels <==> c in m.channels && c != m.hosts[host]
  {
    i := PositionOf(m.channels, m.hosts[host]);
    WithoutFirstAt(m.channels, m.hosts[host], i);
    CutOut(m.channels, i);
  }

  lemma CutOut(channels: seq<Channel>, i: nat)
    requires i < |channels|
    requires forall j, k :: 0 <= j < k < |channels| ==> channels[j].serial < channels[k].serial
    ensures forall c :: c in channels[..i] + channels[i + 1..] <==> c in channels && c != channels[i]
  {
    var rest := channels[..i] + channels[i + 1..];
    forall c ensures c in rest <==> c in channels && c != channels[i] {
      if c in channels && c != channels[i] {
        var j :| 0 <= j < |channels| && channels[j] == c;
        assert c == rest[if j < i then j else j - 1];
      }
    }
  }

  lemma RemoveSound(m: Manager, host: string)
    requires Sound(m)
    ensures Sound(Remove(m, host))
  {
    if host in m.hosts {
      var i := RemoveTakesOne(m, host);
      var n := Remove(m, host);
      forall h | h in n.hosts ensures n.hosts[h].host == h && n.hosts[h] in n.channels {
        assert h in m.hosts && n.hosts[h] == m.hosts[h];
      }
    }
  }

  lemma {:induction false} ReplayIsSound(events: seq<Event>)
    ensures Sound(Replay(events))
  {
    if events != [] {
      var before, e := events[..|events| - 1], events[|events| - 1];
      ReplayIsSound(before);
      match e
      case Up(host) => AppendSound(Replay(before), host);
      case Down(host) => RemoveSound(Replay(before), host);
    }
  }

  /** The map knows exactly the hosts whose last event brought them up. */
  lemma {:induction false} HostsAreLive(events: seq<Event>, host: string)
    ensures host in Replay(events).hosts <==> Live(events, host)
  {
    if events != [] {
      HostsAreLive(events[..|events| - 1], host);
    }
  }

  /** The vector holds one channel for each live host and one for each time a host came up while up. */
  lemma {:induction false} ChannelsCounted(events: seq<Event>)
    ensures |Replay(events).channels| == |Replay(events).hosts| + Orphans(events)
  {
    if events != [] {
      var before, e := events[..|events| - 1], events[|events| - 1];
      ChannelsCounted(before);
      ReplayIsSound(before);
      HostsAreLive(before, e.host);
      var m := Replay(before);
      match e
      case Up(host) =>
        assert (m.hosts[host := Channel(m.made, host)]).Keys == m.hosts.Keys + {host};
        assert |m.hosts[host := Channel(m.made, host)]| == |m.hosts.Keys + {host}|;
      case Down(host) =>
        if host in m.hosts {
          var i := RemoveTakesOne(m, host);
          assert (m.hosts - {host}).Keys == m.hosts.Keys - {host};
          assert |m.hosts - {host}| == |m.hosts.Keys - {host}|;
        }
    }
  }

  lemma {:induction false} DistinctSize(channels: seq<Channel>)
    requires forall i, j :: 0 <= i < j < |channels| ==> channels[i] != channels[j]
    ensures |set c | c in channels| == |channels|
  {
    if channels != [] {
      var last, rest := channels[|channels| - 1], channels[..|channels| - 1];
      DistinctSize(rest);
      assert (set c | c in channels) == (set c | c in rest) + {last};
    }
  }

  lemma {:induction false} ValuesSize(hosts: map<string, Channel>)
    requires forall h :: h in hosts ==> hosts[h].host == h
    ensures |hosts.Values| == |hosts|
    decreases |hosts|
  {
    if hosts != map[] {
      var h :| h in hosts;
      var rest := hosts - {h};
      ValuesSize(rest);
      assert rest.Keys == hosts.Keys - {h} && |rest| == |rest.Keys| && |hosts| == |hosts.Keys|;
      assert hosts.Values == rest.Values + {hosts[h]} by {
        forall c | c in hosts.Values ensures c in rest.Values + {hosts[h]} {
          var g :| g in hosts && hosts[g] == c;
          if g != h { assert rest[g] == c; }
        }
      }
      assert hosts[h] !in rest.Values;
    }
  }

  lemma SubsetOfSameSize<T>(a: set<T>, b: set<T>)
    requires a <= b
    ensures |a| <= |b| && (|a| == |b| <==> a == b)
  {
    assert b == a + (b - a);
    assert |b| == |a| + |b - a|;
  }

  lemma AgreeIsSetEquality(m: Manager)
    requires Sound(m)
    ensures Agree(m) <==> m.hosts.Values == set c | c in m.channels
  {
    var all := set c | c in m.channels;
    assert forall i :: 0 <= i < |m.channels| ==> m.channels[i] in all;
    if m.hosts.Values == all {
      forall i | 0 <= i < |m.channels| ensures m.channels[i].host in m.hosts && m.hosts[m.channels[i].host] == m.channels[i] {
        assert m.channels[i] in m.hosts.Values;
      }
    }
  }

  /** The vector and the map agree exactly when no host ever came up while up. */
  lemma AgreeIff(events: seq<Event>)
    ensures Agree(Replay(events)) <==> UpOnlyWhileDown(events)
  {
    var m := Replay(events);
    ReplayIsSound(events);
    ChannelsCounted(events);
    DistinctSize(m.channels);
    ValuesSize(m.hosts);
    AgreeIsSetEquality(m);
    SubsetOfSameSize(m.hosts.Values, set c | c in m.channels);
  }

  function Ups(events: seq<Event>): nat {
    if events == [] then 0 else Ups(events[..|events| - 1]) + if events[|events| - 1].Up? then 1 else 0
  }

  /** How many hosts had come up before this one's last coming up. */
  function CameUp(events: seq<Event>, host: string): nat {
    if events == [] then 0
    else if events[|events| - 1] == Up(host) then Ups(events[..|events| - 1])
    else CameUp(events[..|events| - 1], host)
  }

  /** A live host's channel is the one its last coming up made, so the vector is in order of coming up. */
  lemma {:induction false} SerialIsCameUp(events: seq<Event>, host: string)
    requires Live(events, host)
    ensures host in Replay(events).hosts && Replay(events).hosts[host] == Channel(CameUp(events, host), host)
  {
    var before, e := events[..|events| - 1], events[|events| - 1];
    MadeIsUps(before);
    if e != Up(host) {
      SerialIsCameUp(before, host);
    }
  }

  lemma {:induction false} MadeIsUps(events: seq<Event>)
    ensures Replay(events).made == Ups(events)
  {
    if events != [] { MadeIsUps(events[..|events| - 1]); }
  }

  /** Without repeated coming up, the vector is exactly the live hosts' latest channels, in order of coming up. */
  lemma ChannelsAreLiveInOrder(events: seq<Event>)
    requires UpOnlyWhileDown(events)
    ensures var cs := Replay(events).channels;
      && (forall i, j :: 0 <= i < j < |cs| ==> cs[i].serial < cs[j].serial)
      && (forall c :: c in cs <==> Live(events, c.host) && c.serial == CameUp(events, c.host))
  {
    var m := Replay(events);
    ReplayIsSound(events);
    AgreeIff(events);
    forall c: Channel ensures c in m.channels <==> Live(events, c.host) && c.serial == CameUp(events, c.host) {
      HostsAreLive(events, c.host);
      if Live(events, c.host) {
        SerialIsCameUp(events, c.host);
      }
    }
  }

  // ---------------------------------------------------------------- the registry of services

  function FindLast(s: string, c: char): (r: Option<nat>)
    ensures r.None? <==> c !in s
    ensures r.Some? ==> r.value < |s| && s[r.value] == c && c !in s[r.value + 1..]
  {
    if s == [] then None
    else if s[|s| - 1] == c then Some(|s| - 1)
    else
      var r := FindLast(s[..|s| - 1], c);
      assert r.Some? ==> s[r.value + 1..] == s[..|s| - 1][r.value + 1..] + [s[|s| - 1]];
      r
  }

  /** The instance path without its last component. */
  function ServiceName(instance: string): string {
    var pos := FindLast(instance, '/');
    if pos.None? then instance else instance[..pos.value]
  }

  lemma ServiceNameOf(name: string, tail: string)
    requires '/' !in tail
    ensures ServiceName(name + "/" + tail) == name && ServiceName(tail) == tail
  {
    FindLastSlash(name, tail);
    assert (name + "/" + tail)[..|name|] == name;
  }

  lemma {:induction false} FindLastSlash(name: string, tail: string)
    requires '/' !in tail
    ensures FindLast(name + "/" + tail, '/') == Some(|name|)
  {
    var s := name + "/" + tail;
    if tail != [] {
      FindLastSlash(name, tail[..|tail| - 1]);
      assert s[..|s| - 1] == name + "/" + tail[..|tail| - 1];
      assert s[|s| - 1] == tail[|tail| - 1];
    }
  }

  datatype Registry = Registry(care: set<string>, services: map<string, Manager>)

  function Of(r: Registry, service: string): Manager {
    if service in r.services then r.services[service] else Fresh()
  }

  datatype Notice =
    | Declare(service: string)
    | Online(instance: string, host: string)
    | Offline(instance: string, host: string)
    | Pick(service: string)

  function Notify(r: Registry, n: Notice): Registry {
    match n
    case Declare(service) => r.(care := r.care + {service})
    case Online(instance, host) =>
      var service := ServiceName(instance);
      if service !in r.care then r
      else r.(services := r.services[service := Append(Of(r, service), host)])
    case Offline(instance, host) =>
      var service := ServiceName(instance);
      if service !in r.care || service !in r.services then r
      else r.(services := r.services[service := Remove(r.services[service], host)])
    case Pick(service) =>
      if Answer(r, service).Chosen? then
        var m := r.services[service];
        r.(services := r.services[service := m.(index := m.index + 1)])
      else r
  }

  function Answer(r: Registry, service: string): (c: Choice)
    ensures c.Chosen? ==> service in r.services
  {
    if service !in r.services then NoService else Choose(r.services[service])
  }

  class ServiceManager {
    var care: set<string>
    var services: map<string, ChannelManager>

    ghost predicate Valid() reads this {
      forall s, t :: s in services && t in services && services[s] == services[t] ==> s == t
    }

    ghost function Value(): Registry
      reads this, services.Values
    {
      Registry(care, map s | s in services :: services[s].Value())
    }

    constructor ()
      ensures Valid() && Value() == Registry({}, map[])
    {
      care, services := {}, map[];
    }

    method Declared(service: string)
      requires Valid()
      modifies this
      ensures Valid() && Value() == Notify(old(Value()), Declare(service))
    {
      care := care + {service};
    }

    method OnServiceOnline(instance: string, host: string)
      requires Valid()
      modifies this, services.Values
      ensures Valid() && Value() == Notify(old(Value()), Online(instance, host))
    {
      var service := ServiceName(instance);
      if service !in care {
        return;
      }
      if service !in services {
        AppendToNew(service, host);
      } else {
        AppendTo(service, host);
      }
    }

    /** A manager is made for the service, and the host is its first. */
    method AppendToNew(service: string, host: string)
      requires Valid() && service !in services
      modifies this`services
      ensures Valid()
      ensures Value() == old(Value()).(services := old(Value()).services[service := Append(Fresh(), host)])
    {
      var manager := new ChannelManager();
      manager.AppendHost(host);
      services := services[service := manager];
    }

    method AppendTo(service: string, host: string)
      requires Valid() && service in services
      modifies services[service]
      ensures Valid()
      ensures Value() == old(Value()).(services := old(Value()).services[service := Append(old(Value()).services[service], host)])
    {
      services[service].AppendHost(host);
    }

    method OnServiceOffline(instance: string, host: string)
      requires Valid()
      modifies services.Values
      ensures Valid() && Value() == Notify(old(Value()), Offline(instance, host))
    {
      var service := ServiceName(instance);
      if service !in care || service !in services {
        return;
      }
      services[service].RemoveHost(host);
    }

    method ChooseFor(service: string) returns (choice: Choice)
      requires Valid()
      modifies services.Values
      ensures Valid() && choice == Answer(old(Value()), service)
      ensures Value() == Notify(old(Value()), Pick(service))
    {
      if service !in services {
        return NoService;
      }
      choice := services[service].ChooseChannel();
    }
  }

  // ---------------------------------------------------------------- every history

  function Run(history: seq<Notice>): Registry {
    if history == [] then Registry({}, map[]) else Notify(Run(history[..|history| - 1]), history[|history| - 1])
  }

  /** The host events of one service that came after it was declared. */
  function Relevant(history: seq<Notice>, service: string): seq<Event> {
    if history == [] then []
    else
      var before := history[..|history| - 1];
      match history[|history| - 1]
      case Online(instance, host) =>
        Relevant(before, service) + if ServiceName(instance) == service && Declare(service) in before then [Up(host)] else []
      case Offline(instance, host) =>
        Relevant(before, service) + if ServiceName(instance) == service && Declare(service) in before then [Down(host)] else []
      case _ => Relevant(before, service)
  }

  lemma {:induction false} CareIsDeclared(history: seq<Notice>, service: string)
    ensures service in Run(history).care <==> Declare(service) in history
  {
    if history != [] {
      CareIsDeclared(history[..|history| - 1], service);
      assert history == history[..|history| - 1] + [history[|history| - 1]];
    }
  }

  lemma ReplaySnoc(events: seq<Event>, e: Event)
    ensures Replay(events + [e]) == Apply(Replay(events), e) && Ups(events + [e]) == Ups(events) + if e.Up? then 1 else 0
  {
    assert (events + [e])[..|events|] == events;
  }

  /** Up to where the round stands, two managers are the same. */
  predicate SameButIndex(a: Manager, b: Manager) { a.(index := b.index) == b }

  lemma ApplyIgnoresIndex(a: Manager, b: Manager, e: Event)
    requires SameButIndex(a, b)
    ensures SameButIndex(Apply(a, e), Apply(b, e))
  {
  }

  /** What one notice does to one service's manager. */
  lemma NotifyIsApply(r: Registry, n: Notice, service: string)
    ensures var s := Notify(r, n);
      match n
      case Online(instance, host) =>
        if ServiceName(instance) == service && service in r.care
        then service in s.services && Of(s, service) == Apply(Of(r, service), Up(host))
        else (service in s.services <==> service in r.services) && Of(s, service) == Of(r, service)
      case Offline(instance, host) =>
        (service in s.services <==> service in r.services)
        && Of(s, service) == if ServiceName(instance) == service && service in r.care then Apply(Of(r, service), Down(host)) else Of(r, service)
      case _ => (service in s.services <==> service in r.services) && SameButIndex(Of(r, service), Of(s, service))
  {
  }

  /**
   The registry refines a replay: for every history, each service's manager is what the service's
   own events, restricted to those after its declaration, make of an empty one.
   */
  lemma {:induction false} RegistryIsReplay(history: seq<Notice>, service: string)
    ensures SameButIndex(Replay(Relevant(history, service)), Of(Run(history), service))
    ensures service in Run(history).services <==> Ups(Relevant(history, service)) > 0
  {
    if history != [] {
      var before, n := history[..|history| - 1], history[|history| - 1];
      var events := Relevant(before, service);
      RegistryIsReplay(before, service);
      CareIsDeclared(before, service);
      NotifyIsApply(Run(before), n, service);
      assert events + [] == events;
      match n {
        case Online(instance, host) =>
          ReplaySnoc(events, Up(host));
          ApplyIgnoresIndex(Replay(events), Of(Run(before), service), Up(host));
        case Offline(instance, host) =>
          ReplaySnoc(events, Down(host));
          ApplyIgnoresIndex(Replay(events), Of(Run(before), service), Down(host));
        case _ =>
      }
    }
  }

  /** After a history in which the service's hosts came up only while down, choose answers with a live host's current channel, or not at all. */
  lemma ChoiceIsLive(history: seq<Notice>, service: string)
    requires UpOnlyWhileDown(Relevant(history, service))
    ensures var events := Relevant(history, service);
      match Answer(Run(history), service)
      case NoService => Ups(events) == 0
      case Overflows => Ups(events) > 0 && Of(Run(history), service).index >= INT_MAX
      case DividesByZero => Ups(events) > 0 && forall h :: !Live(events, h)
      case Chosen(c) => Live(events, c.host) && c == Channel(CameUp(events, c.host), c.host)
  {
    var events := Relevant(history, service);
    var m := Of(Run(history), service);
    RegistryIsReplay(history, service);
    AgreeIff(events);
    ReplayIsSound(events);
    match Answer(Run(history), service)
    case NoService =>
    case Overflows =>
    case DividesByZero =>
      forall h ensures !Live(events, h) { HostsAreLive(events, h); }
    case Chosen(c) =>
      assert c in m.channels;
      HostsAreLive(events, c.host);
      SerialIsCameUp(events, c.host);
  }

  // ---------------------------------------------------------------- fairness

  /** The channels that m choices in a row give. */
  function Chosens(g: Manager, m: nat): seq<Channel>
    requires g.channels != []
  {
    if m == 0 then []
    else Chosens(g, m - 1) + [g.channels[(g.index + m - 1) % |g.channels|]]
  }

  function Times(cs: seq<Channel>, c: Channel): nat {
    if cs == [] then 0 else Times(cs[..|cs| - 1], c) + if cs[|cs| - 1] == c then 1 else 0
  }

  function PickMany(g: Manager, m: nat): Manager { g.(index := g.index + m) }

  /** Choosing again and again is going round, up to the largest int. */
  lemma {:induction false} ChosensAreChoices(g: Manager, m: nat, k: nat)
    requires g.channels != [] && k < m
    ensures |Chosens(g, m)| == m
    ensures Choose(PickMany(g, k)) == if g.index + k < INT_MAX then Chosen(Chosens(g, m)[k]) else Overflows
  {
    if k < m - 1 {
      ChosensAreChoices(g, m - 1, k);
    } else if m > 1 {
      ChosensAreChoices(g, m - 1, 0);
    }
  }

  /** Any m choices in a row from a fixed list of n channels give each one floor(m / n) or ceil(m / n) times. */
  lemma FairChoice(g: Manager, m: nat, i: nat)
    requires Sound(g) && i < |g.channels|
    ensures var n := |g.channels|;
      m / n <= Times(Chosens(g, m), g.channels[i]) <= m / n + if m % n == 0 then 0 else 1
  {
    TimesIsPicks(g, m, i);
    Fair(|g.channels|, g.index, m, i);
  }

  lemma {:induction false} TimesIsPicks(g: Manager, m: nat, i: nat)
    requires Sound(g) && i < |g.channels|
    ensures Times(Chosens(g, m), g.channels[i]) == Picks(|g.channels|, g.index, m, i)
  {
    if m > 0 {
      TimesIsPicks(g, m - 1, i);
      var j := (g.index + m - 1) % |g.channels|;
      assert Chosens(g, m)[..|Chosens(g, m)| - 1] == Chosens(g, m - 1);
      assert g.channels[j] == g.channels[i] <==> j == i;
    }
  }

  /** How many earlier requests for the service were answered with a channel. */
  function Picked(history: seq<Notice>, service: string): nat {
    if history == [] then 0
    else
      var before := history[..|history| - 1];
      Picked(before, service)
      + if history[|history| - 1] == Pick(service) && Answer(Run(before), service).Chosen? then 1 else 0
  }

  /** What one notice does to one service's index. */
  lemma NotifyIndex(r: Registry, n: Notice, service: string)
    ensures Of(Notify(r, n), service).index ==
      Of(r, service).index + if n == Pick(service) && Answer(r, service).Chosen? then 1 else 0
  {
  }

  /** For every history a service's index counts its choices, and nothing else moves it. */
  lemma {:induction false} IndexIsPicked(history: seq<Notice>, service: string)
    ensures Of(Run(history), service).index == Picked(history, service)
  {
    if history != [] {
      var before := history[..|history| - 1];
      IndexIsPicked(before, service);
      NotifyIndex(Run(before), history[|history| - 1], service);
    }
  }

  /** The service is asked for m times in a row. */
  function InARow(service: string, m: nat): seq<Notice> { seq(m, i => Pick(service)) }

  lemma RunSnoc(history: seq<Notice>, n: Notice)
    ensures Run(history + [n]) == Notify(Run(history), n)
  {
    assert (history + [n])[..|history|] == history;
  }

  lemma OneMoreInARow(history: seq<Notice>, service: string, k: nat)
    ensures history + InARow(service, k + 1) == history + InARow(service, k) + [Pick(service)]
    ensures history + InARow(service, 0) == history
  {
  }

  lemma PickMovesOn(r: Registry, service: string, g: Manager)
    requires service in r.services && r.services[service] == g && g.channels != [] && g.index < INT_MAX
    ensures var s := Notify(r, Pick(service)); service in s.services && s.services[service] == PickMany(g, 1)
  {
  }

  lemma {:induction false} RowMovesOn(history: seq<Notice>, service: string, k: nat)
    requires service in Run(history).services && Run(history).services[service].channels != []
    requires Run(history).services[service].index + k <= INT_MAX
    ensures var r := Run(history + InARow(service, k));
      service in r.services && r.services[service] == PickMany(Run(history).services[service], k)
  {
    if k == 0 {
      OneMoreInARow(history, service, 0);
    } else {
      RowMovesOn(history, service, k - 1);
      OneMoreInARow(history, service, k - 1);
      RunSnoc(history + InARow(service, k - 1), Pick(service));
      PickMovesOn(Run(history + InARow(service, k - 1)), service, PickMany(Run(history).services[service], k - 1));
    }
  }

  /** The k-th answer in a row, after any history, is the channel k places on from where the round stands. */
  lemma AnswersGoRound(history: seq<Notice>, service: string, k: nat, cs: seq<Channel>)
    requires service in Run(history).services && Run(history).services[service].channels == cs && cs != []
    requires Picked(history, service) + k <= INT_MAX
    ensures Answer(Run(history + InARow(service, k)), service) ==
      if Picked(history, service) + k < INT_MAX then Chosen(cs[(Picked(history, service) + k) % |cs|]) else Overflows
  {
    RowAnswer(history, service, k);
    ChoiceAt(Run(history).services[service], k, cs, Picked(history, service));
  }

  lemma ChoiceAt(g: Manager, k: nat, cs: seq<Channel>, start: nat)
    requires g.channels == cs && cs != [] && g.index == start
    ensures Choose(PickMany(g, k)) == if start + k < INT_MAX then Chosen(cs[(start + k) % |cs|]) else Overflows
  {
  }

  lemma RowAnswer(history: seq<Notice>, service: string, k: nat)
    requires service in Run(history).services && Run(history).services[service].channels != []
    requires Picked(history, service) + k <= INT_MAX
    ensures Answer(Run(history + InARow(service, k)), service) == Choose(PickMany(Run(history).services[service], k))
    ensures Picked(history, service) == Run(history).services[service].index
  {
    IndexIsPicked(history, service);
    RowMovesOn(history, service, k);
  }

  /** How many of the next m answers are this channel. */
  function TimesAnswered(history: seq<Notice>, service: string, m: nat, c: Channel): nat {
    if m == 0 then 0
    else
      TimesAnswered(history, service, m - 1, c)
      + if Answer(Run(history + InARow(service, m - 1)), service) == Chosen(c) then 1 else 0
  }

  lemma {:induction false} TimesAnsweredIsTimes(history: seq<Notice>, service: string, m: nat, c: Channel, g: Manager)
    requires service in Run(history).services && Run(history).services[service] == g && g.channels != []
    requires Picked(history, service) + m <= INT_MAX
    ensures TimesAnswered(history, service, m, c) == Times(Chosens(g, m), c)
  {
    if m > 0 {
      TimesAnsweredIsTimes(history, service, m - 1, c, g);
      CountedOnce(history, service, m - 1, c, g);
    }
  }

  lemma CountedOnce(history: seq<Notice>, service: string, m: nat, c: Channel, g: Manager)
    requires service in Run(history).services && Run(history).services[service] == g && g.channels != []
    requires Picked(history, service) + m < INT_MAX
    ensures Times(Chosens(g, m + 1), c) ==
      Times(Chosens(g, m), c) + if Answer(Run(history + InARow(service, m)), service) == Chosen(c) then 1 else 0
  {
    RowAnswer(history, service, m);
    TimesSnoc(g, m, c);
  }

  lemma TimesSnoc(g: Manager, m: nat, c: Channel)
    requires g.channels != [] && g.index + m < INT_MAX
    ensures Times(Chosens(g, m + 1), c) == Times(Chosens(g, m), c) + if Choose(PickMany(g, m)) == Chosen(c) then 1 else 0
  {
    ChosensAreChoices(g, m + 1, m);
    var next := Chosens(g, m + 1)[m];
    assert Chosens(g, m + 1) == Chosens(g, m) + [next];
    assert (Chosens(g, m) + [next])[..|Chosens(g, m)|] == Chosens(g, m);
  }

  /**
   Fairness of the registry: after any history, of the next m answers for a service with n channels
   each channel gets floor(m / n) or ceil(m / n), while the index stays within an int.
   */
  lemma FairAnswers(history: seq<Notice>, service: string, m: nat, i: nat)
    requires service in Run(history).services && i < |Run(history).services[service].channels|
    requires Picked(history, service) + m <= INT_MAX
    ensures var cs := Run(history).services[service].channels;
      m / |cs| <= TimesAnswered(history, service, m, cs[i]) <= m / |cs| + if m % |cs| == 0 then 0 else 1
  {
    var g := Run(history).services[service];
    RegistryIsReplay(history, service);
    ReplayIsSound(Relevant(history, service));
    TimesAnsweredIsTimes(history, service, m, g.channels[i], g);
    FairChoice(g, m, i);
  }
}
