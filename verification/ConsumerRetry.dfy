/**
 The consuming half of MQClient (common/rabbitmq.hpp): the handler of one delivery, the chain of
 deliveries a message goes through, and the broker with any number of consumers that may crash.
 The retry exchange and routing key are taken to reach the consumed queue.
 */
module ConsumerRetry {
  import opened Options
  import opened RetryHeader

  const MAX_RETRY: int := 5

  /** How the callback ends; Other is a value outside the enumeration, Raises an exception. */
  datatype ConsumeResult = Success | Retry | Fatal | Other | Raises

  datatype Io = Called(payload: string) | Published(body: string) | Acked(tag: nat)

  /** Whether a delivery that carried `count` is published again. */
  predicate Again(count: int, result: ConsumeResult) { result == Retry && count + 1 <= MAX_RETRY }

  /** The handler does not get past the callback: an exception, or a count that cannot be raised in an int. */
  predicate Stops(count: int, result: ConsumeResult) { result == Raises || (result == Retry && count == INT_MAX) }

  /** All the handler does to the outside for one delivery. */
  function Reaction(body: string, tag: nat, result: string -> ConsumeResult): seq<Io> {
    var parsed := Parse(body);
    if parsed.None? then [] else Handling(parsed.value, tag, result(parsed.value.payload))
  }

  function Handling(read: Body, tag: nat, result: ConsumeResult): seq<Io> {
    [Called(read.payload)]
    + (if Again(read.count, result) then [Published(BuildBody(read.count + 1, read.payload))] else [])
    + (if Stops(read.count, result) then [] else [Acked(tag)])
  }

  /** How the handler ends; after Overflowed, which C++ leaves undefined, nothing is promised. */
  datatype Ended = Returned | Threw | Overflowed

  lemma Appended(log: seq<Io>, a: Io, b: Io)
    ensures log + [a] + [b] == log + [a, b]
    ensures forall c :: log + [a] + [c] + [b] == log + [a, c, b]
  {
  }

  class Consumer {
    var log: seq<Io>

    constructor ()
      ensures log == []
    {
      log := [];
    }

    /** The onReceived handler; an exception of stoi or of the callback leaves it. */
    method OnReceived(body: string, tag: nat, callback: string -> ConsumeResult) returns (ended: Ended)
      modifies this
      ensures log == old(log) + Reaction(body, tag, callback)
      ensures ended.Returned? ==> Parse(body).Some? && |log| >= |old(log)| + 2
      ensures ended.Returned? ==> log[|old(log)|] == Called(Parse(body).value.payload) && log[|log| - 1] == Acked(tag)
      ensures ended.Threw? <==> Parse(body).None? || callback(Parse(body).value.payload) == Raises
      ensures ended.Overflowed? <==>
        Parse(body).Some? && Parse(body).value.count == INT_MAX && callback(Parse(body).value.payload) == Retry
    {
      var retryCount, payload := 0, body;
      var pos := Find(body, '|');
      if pos.Some? {
        var count := Stoi(body[..pos.value]);
        if count.None? {
          return Threw;
        }
        retryCount, payload := count.value, body[pos.value + 1..];
      }
      ghost var read := Body(retryCount, payload);
      assert Parse(body) == Some(read);
      ghost var before := log;
      log := log + [Called(payload)];
      var result := callback(payload);
      HandlingByAnswer(read, tag, result);
      Appended(before, Called(payload), Acked(tag));
      if result == Raises {
        return Threw;
      }
      if result == Success {
        log := log + [Acked(tag)];
        return Returned;
      }
      if result == Retry {
        if retryCount == INT_MAX {
          return Overflowed;
        }
        retryCount := retryCount + 1;
        if retryCount > MAX_RETRY {
          log := log + [Acked(tag)];
          return Returned;
        }
        log := log + [Published(BuildBody(retryCount, payload))];
        log := log + [Acked(tag)];
        return Returned;
      }
      log := log + [Acked(tag)];
      return Returned;
    }
  }

  /**
   What each answer of the callback leads to. Success, Fatal and values outside the enumeration are
   acked; Retry is published again with the next count and acked while that count is at most 5,
   acked alone after that; an exception, of the callback or of reading the count, does neither.
   */
  lemma HandlingByAnswer(read: Body, tag: nat, answer: ConsumeResult)
    ensures Handling(read, tag, answer) ==
      match answer
      case Success => [Called(read.payload), Acked(tag)]
      case Fatal => [Called(read.payload), Acked(tag)]
      case Other => [Called(read.payload), Acked(tag)]
      case Raises => [Called(read.payload)]
      case Retry =>
        if read.count <= 4 then [Called(read.payload), Published(BuildBody(read.count + 1, read.payload)), Acked(tag)]
        else if read.count != 0x7fff_ffff then [Called(read.payload), Acked(tag)]
        else [Called(read.payload)]
  {
  }

  /** The same of a whole delivery: nothing at all if its count cannot be read. */
  lemma ReactionByAnswer(body: string, tag: nat, callback: string -> ConsumeResult)
    ensures Parse(body).None? ==> Reaction(body, tag, callback) == []
    ensures Parse(body).Some? ==>
      var n, p, io := Parse(body).value.count, Parse(body).value.payload, Reaction(body, tag, callback);
      && (callback(p) == Success || callback(p) == Fatal || callback(p) == Other ==> io == [Called(p), Acked(tag)])
      && (callback(p) == Raises ==> io == [Called(p)])
      && (callback(p) == Retry && n <= 4 ==> io == [Called(p), Published(BuildBody(n + 1, p)), Acked(tag)])
      && (callback(p) == Retry && 5 <= n < 0x7fff_ffff ==> io == [Called(p), Acked(tag)])
      && (callback(p) == Retry && n == 0x7fff_ffff ==> io == [Called(p)])
  {
    if Parse(body).Some? {
      HandlingByAnswer(Parse(body).value, tag, callback(Parse(body).value.payload));
    }
  }

  /** A delivery is acked exactly once, after everything else, if its count can be read and raised and the callback returns; else never. */
  lemma AckedOnceAndLast(body: string, tag: nat, result: string -> ConsumeResult)
    ensures var io := Reaction(body, tag, result);
      var acked := Parse(body).Some? && !Stops(Parse(body).value.count, result(Parse(body).value.payload));
      && (forall i :: 0 <= i < |io| ==> (io[i].Acked? <==> acked && i == |io| - 1))
      && (acked ==> |io| > 0 && io[|io| - 1] == Acked(tag))
  {
  }

  // ---------------------------------------------------------------- the deliveries of one message

  function Room(body: string): nat {
    var parsed := Parse(body);
    if parsed.None? || parsed.value.count > MAX_RETRY then 0 else MAX_RETRY + 1 - parsed.value.count
  }

  /** What the callback is given, delivery after delivery, when the k-th answer is results(k) and nobody crashes. */
  function Deliveries(body: string, results: nat -> ConsumeResult, k: nat): seq<Body>
    decreases Room(body)
  {
    var parsed := Parse(body);
    if parsed.None? then []
    else if !Again(parsed.value.count, results(k)) then [parsed.value]
    else
      ParseGivesPayload(body);
      HeaderRoundTrip(parsed.value.count + 1, parsed.value.payload);
      [parsed.value] + Deliveries(BuildBody(parsed.value.count + 1, parsed.value.payload), results, k + 1)
  }

  /** From a message read as (n, p): counts n, n+1, ..., the same payload, until an answer other than Retry or count 5. */
  lemma {:induction false} DeliveriesCountUp(body: string, results: nat -> ConsumeResult, k: nat)
    requires Parse(body).Some?
    ensures CountsUp(Parse(body).value, Deliveries(body, results, k), results, k)
    decreases Room(body)
  {
    var parsed := Parse(body).value;
    if Again(parsed.count, results(k)) {
      ParseGivesPayload(body);
      HeaderRoundTrip(parsed.count + 1, parsed.payload);
      var next := BuildBody(parsed.count + 1, parsed.payload);
      DeliveriesCountUp(next, results, k + 1);
      Prepended(parsed, Deliveries(next, results, k + 1), results, k);
    }
  }

  /** The counts of `ds` run up from `first`, and exactly the last delivery is not followed by another. */
  predicate CountsUp(first: Body, ds: seq<Body>, results: nat -> ConsumeResult, k: nat) {
    && |ds| >= 1
    && (forall i :: 0 <= i < |ds| ==> ds[i] == Body(first.count + i, first.payload))
    && (forall i :: 0 <= i < |ds| ==> (Again(ds[i].count, results(k + i)) <==> i < |ds| - 1))
  }

  lemma Prepended(first: Body, rest: seq<Body>, results: nat -> ConsumeResult, k: nat)
    requires Again(first.count, results(k)) && CountsUp(Body(first.count + 1, first.payload), rest, results, k + 1)
    ensures CountsUp(first, [first] + rest, results, k)
  {
    var ds := [first] + rest;
    forall i | 0 <= i < |ds|
      ensures ds[i] == Body(first.count + i, first.payload) && (Again(ds[i].count, results(k + i)) <==> i < |ds| - 1)
    {
      if i > 0 {
        assert ds[i] == rest[i - 1] && k + 1 + (i - 1) == k + i;
      }
    }
  }

  /** A message first published without '|' is delivered unchanged, at most six times, stopping early only on an answer other than Retry. */
  lemma AtMostSixDeliveries(raw: string, results: nat -> ConsumeResult)
    requires '|' !in raw
    ensures var ds := Deliveries(raw, results, 0);
      && 1 <= |ds| <= 6
      && (forall i :: 0 <= i < |ds| ==> ds[i] == Body(i, raw))
      && (forall i :: 0 <= i < |ds| - 1 ==> results(i) == Retry)
      && (|ds| == 6 || results(|ds| - 1) != Retry)
  {
    RawIsReadWholeIff(raw);
    DeliveriesCountUp(raw, results, 0);
    SixAtMost(raw, Deliveries(raw, results, 0), results);
  }

  lemma SixAtMost(raw: string, ds: seq<Body>, results: nat -> ConsumeResult)
    requires CountsUp(Body(0, raw), ds, results, 0)
    ensures |ds| <= 6 && (forall i :: 0 <= i < |ds| - 1 ==> results(i) == Retry) && (|ds| == 6 || results(|ds| - 1) != Retry)
  {
    assert !Again(ds[|ds| - 1].count, results(0 + (|ds| - 1)));
    assert |ds| >= 2 ==> Again(ds[|ds| - 2].count, results(0 + (|ds| - 2)));
    forall i | 0 <= i < |ds| - 1 ensures results(i) == Retry {
      assert Again(ds[i].count, results(0 + i));
    }
  }

  // ---------------------------------------------------------------- the broker

  /** Where a message in the broker is; all but Ready are unacked at some consumer. */
  datatype Place =
    | Ready
    | Received
    | Decided(result: ConsumeResult)  // the callback ended
    | Republished                     // the retry copy is out, the ack is not

  datatype Message = Message(body: string, place: Place)

  datatype State = State(
    messages: seq<Message>,
    submitted: multiset<string>,   // payloads, by first publish
    finished: multiset<string>,    // by ack after Success, Fatal, Other or retry exhaustion
    calls: multiset<string>,       // by callback call
    crashes: multiset<string>,     // by redelivery of an unacked message
    duplicated: multiset<string>)  // by crash between the retry publish and the ack

  datatype Action =
    | Submit(body: string)
    | Deliver(i: nat)
    | Call(i: nat, result: ConsumeResult)
    | Publish(i: nat)
    | Ack(i: nat)
    | Crash(i: nat)

  function Init(): State { State([], multiset{}, multiset{}, multiset{}, multiset{}, multiset{}) }

  predicate Retries(m: Message) {
    m.place.Decided? && Parse(m.body).Some? && Again(Parse(m.body).value.count, m.place.result)
  }

  /** The handler is stuck after the callback: only a crash moves the message on. */
  predicate Stuck(m: Message) {
    m.place.Decided? && Parse(m.body).Some? && Stops(Parse(m.body).value.count, m.place.result)
  }

  function RetryCopy(body: string): Message {
    if Parse(body).None? then Message(body, Ready)
    else Message(BuildBody(Parse(body).value.count + 1, Parse(body).value.payload), Ready)
  }

  function Step(s: State, a: Action): State {
    if a.Submit? then Submitted(s, a.body)
    else if a.i >= |s.messages| then s
    else
      match a
      case Deliver(i) => Delivered(s, i)
      case Call(i, result) => CalledBack(s, i, result)
      case Publish(i) => SentAgain(s, i)
      case Ack(i) => AckedOff(s, i)
      case Crash(i) => Crashed(s, i)
  }

  function Submitted(s: State, body: string): State {
    s.(messages := s.messages + [Message(body, Ready)], submitted := s.submitted + multiset{Payload(body)})
  }

  function Delivered(s: State, i: nat): State
    requires i < |s.messages|
  {
    var m := s.messages[i];
    if m.place.Ready? then s.(messages := s.messages[i := m.(place := Received)]) else s
  }

  /** The callback runs, unless stoi throws first. */
  function CalledBack(s: State, i: nat, result: ConsumeResult): State
    requires i < |s.messages|
  {
    var m := s.messages[i];
    if m.place.Received? && Parse(m.body).Some? then
      s.(messages := s.messages[i := m.(place := Decided(result))], calls := s.calls + multiset{Payload(m.body)})
    else s
  }

  function SentAgain(s: State, i: nat): State
    requires i < |s.messages|
  {
    var m := s.messages[i];
    if Retries(m) then s.(messages := s.messages[i := m.(place := Republished)] + [RetryCopy(m.body)]) else s
  }

  /** The ack removes the message; an answer that asks for a retry is acked only after the publish. */
  function AckedOff(s: State, i: nat): State
    requires i < |s.messages|
  {
    var m := s.messages[i];
    if m.place.Republished? then s.(messages := Without(s.messages, i))
    else if m.place.Decided? && !Retries(m) && !Stuck(m) then
      s.(messages := Without(s.messages, i), finished := s.finished + multiset{Payload(m.body)})
    else s
  }

  /** The consumer holding the message dies and the broker takes the message back. */
  function Crashed(s: State, i: nat): State
    requires i < |s.messages|
  {
    var m := s.messages[i];
    if m.place.Ready? then s
    else
      var t := s.(messages := s.messages[i := m.(place := Ready)], crashes := s.crashes + multiset{Payload(m.body)});
      if m.place.Republished? then t.(duplicated := t.duplicated + multiset{Payload(m.body)}) else t
  }

  function Without(ms: seq<Message>, i: nat): seq<Message>
    requires i < |ms|
  {
    ms[..i] + ms[i + 1..]
  }

  function Run(s: State, actions: seq<Action>): State
    decreases |actions|
  {
    if actions == [] then s else Run(Step(s, actions[0]), actions[1..])
  }

  /** What each message adds: a delivery still owed to payload p, or calls still possible for p. */
  datatype Measure = Owed(p: string) | CallsLeft(p: string)

  function Weight(m: Message, k: Measure): nat {
    if Payload(m.body) != k.p || m.place.Republished? then 0
    else if k.Owed? then 1
    else if m.place.Decided? then if Retries(m) then Room(RetryCopy(m.body).body) else 0
    else Room(m.body)
  }

  function Total(ms: seq<Message>, k: Measure): nat {
    if ms == [] then 0 else Weight(ms[0], k) + Total(ms[1..], k)
  }

  lemma {:induction false} TotalConcat(a: seq<Message>, b: seq<Message>, k: Measure)
    ensures Total(a + b, k) == Total(a, k) + Total(b, k)
  {
    if a == [] {
      assert a + b == b;
    } else {
      assert (a + b)[1..] == a[1..] + b;
      TotalConcat(a[1..], b, k);
    }
  }

  lemma TotalOne(m: Message, k: Measure)
    ensures Total([m], k) == Weight(m, k)
  {
    assert [m][1..] == [];
    assert Total([], k) == 0;
  }

  lemma TotalWithout(ms: seq<Message>, i: nat, k: Measure)
    requires i < |ms|
    ensures Total(ms, k) == Total(Without(ms, i), k) + Weight(ms[i], k)
  {
    assert ms == ms[..i] + ([ms[i]] + ms[i + 1..]);
    TotalConcat(ms[..i], [ms[i]] + ms[i + 1..], k);
    TotalConcat([ms[i]], ms[i + 1..], k);
    TotalConcat(ms[..i], ms[i + 1..], k);
    TotalOne(ms[i], k);
  }

  lemma TotalUpdate(ms: seq<Message>, i: nat, m: Message, k: Measure)
    requires i < |ms|
    ensures Total(ms[i := m], k) + Weight(ms[i], k) == Total(ms, k) + Weight(m, k)
  {
    TotalWithout(ms, i, k);
    TotalWithout(ms[i := m], i, k);
    assert Without(ms[i := m], i) == Without(ms, i);
  }

  lemma TotalAdd(ms: seq<Message>, m: Message, k: Measure)
    ensures Total(ms + [m], k) == Total(ms, k) + Weight(m, k)
  {
    TotalConcat(ms, [m], k);
    TotalOne(m, k);
  }

  lemma RetryCopyRead(m: Message)
    requires Retries(m)
    ensures Parse(RetryCopy(m.body).body) == Some(Body(Parse(m.body).value.count + 1, Payload(m.body)))
    ensures Payload(RetryCopy(m.body).body) == Payload(m.body)
  {
    ParseGivesPayload(m.body);
    HeaderRoundTrip(Parse(m.body).value.count + 1, Payload(m.body));
    ParseGivesPayload(RetryCopy(m.body).body);
  }

  /** Every first publish, and every duplicate a crash made, is finished or still owed. */
  predicate Conserved(s: State, p: string) {
    s.submitted[p] + s.duplicated[p] == s.finished[p] + Total(s.messages, Owed(p))
  }

  lemma StepConserves(s: State, a: Action, p: string)
    requires Conserved(s, p)
    ensures Conserved(Step(s, a), p)
  {
    if a.Submit? {
      TotalAdd(s.messages, Message(a.body, Ready), Owed(p));
    } else if a.i < |s.messages| {
      match a
      case Deliver(i) => DeliveredWeighs(s, i, Owed(p));
      case Call(i, result) => TotalUpdate(s.messages, i, s.messages[i].(place := Decided(result)), Owed(p));
      case Publish(i) => SentAgainWeighs(s, i, Owed(p));
      case Ack(i) => AckedOffConserves(s, i, p);
      case Crash(i) => CrashedConserves(s, i, p);
    }
  }

  lemma AckedOffConserves(s: State, i: nat, p: string)
    requires i < |s.messages| && Conserved(s, p)
    ensures Conserved(AckedOff(s, i), p)
  {
    TotalWithout(s.messages, i, Owed(p));
  }

  lemma CrashedConserves(s: State, i: nat, p: string)
    requires i < |s.messages| && Conserved(s, p)
    ensures Conserved(Crashed(s, i), p)
  {
    TotalUpdate(s.messages, i, s.messages[i].(place := Ready), Owed(p));
  }

  lemma DeliveredWeighs(s: State, i: nat, k: Measure)
    requires i < |s.messages|
    ensures Total(Delivered(s, i).messages, k) == Total(s.messages, k)
  {
    TotalUpdate(s.messages, i, s.messages[i].(place := Received), k);
  }

  /** The retry copy takes over whatever its original still stood for. */
  lemma SentAgainWeighs(s: State, i: nat, k: Measure)
    requires i < |s.messages|
    ensures Total(SentAgain(s, i).messages, k) == Total(s.messages, k)
  {
    var m := s.messages[i];
    if Retries(m) {
      RetryCopyRead(m);
      TotalUpdate(s.messages, i, m.(place := Republished), k);
      TotalAdd(s.messages[i := m.(place := Republished)], RetryCopy(m.body), k);
    }
  }

  lemma {:induction false} RunConserves(s: State, actions: seq<Action>, p: string)
    requires Conserved(s, p)
    ensures Conserved(Run(s, actions), p)
    decreases |actions|
  {
    if actions != [] {
      StepConserves(s, actions[0], p);
      RunConserves(Step(s, actions[0]), actions[1..], p);
    }
  }

  lemma {:induction false} OwedIsHeld(ms: seq<Message>, p: string)
    requires Total(ms, Owed(p)) > 0
    ensures exists i :: 0 <= i < |ms| && Payload(ms[i].body) == p
    decreases |ms|
  {
    if Weight(ms[0], Owed(p)) == 0 {
      OwedIsHeld(ms[1..], p);
      var i :| 0 <= i < |ms[1..]| && Payload(ms[1..][i].body) == p;
      assert Payload(ms[i + 1].body) == p;
    }
  }

  /** No loss: over every run, a payload whose deliveries have not all ended has a copy in the broker. */
  lemma NoLoss(actions: seq<Action>, p: string)
    ensures var s := Run(Init(), actions);
      s.finished[p] < s.submitted[p] ==> exists i :: 0 <= i < |s.messages| && Payload(s.messages[i].body) == p
  {
    RunConserves(Init(), actions, p);
    if Run(Init(), actions).finished[p] < Run(Init(), actions).submitted[p] {
      OwedIsHeld(Run(Init(), actions).messages, p);
    }
  }

  /** Deliveries end more often than messages were published only for crashes between retry publish and ack. */
  lemma FinishedOncePerCopy(actions: seq<Action>, p: string)
    ensures var s := Run(Init(), actions);
      && s.finished[p] <= s.submitted[p] + s.duplicated[p]
      && (s.messages == [] ==> s.finished[p] == s.submitted[p] + s.duplicated[p])
  {
    RunConserves(Init(), actions, p);
  }

  // ---------------------------------------------------------------- how often the callback runs

  /** Every message can be read, with a count from 0 to 5. */
  predicate Readable(ms: seq<Message>) { forall i :: 0 <= i < |ms| ==> InRange(ms[i].body) }

  predicate InRange(body: string) { Parse(body).Some? && 0 <= Parse(body).value.count <= MAX_RETRY }

  predicate Plain(a: Action) { a.Submit? ==> '|' !in a.body }

  predicate AllPlain(actions: seq<Action>) { forall i :: 0 <= i < |actions| ==> Plain(actions[i]) }

  lemma StepReadable(s: State, a: Action)
    requires Readable(s.messages) && Plain(a)
    ensures Readable(Step(s, a).messages)
  {
    if a.Submit? {
      SubmittedReadable(s, a.body);
    } else if a.i < |s.messages| {
      match a
      case Deliver(i) => MovedReadable(s.messages, i, Received);
      case Call(i, result) => MovedReadable(s.messages, i, Decided(result));
      case Publish(i) => SentAgainReadable(s, i);
      case Ack(i) => WithoutReadable(s.messages, i);
      case Crash(i) => MovedReadable(s.messages, i, Ready);
    }
  }

  lemma SubmittedReadable(s: State, raw: string)
    requires Readable(s.messages) && '|' !in raw
    ensures Readable(Submitted(s, raw).messages)
  {
    RawIsReadWholeIff(raw);
  }

  lemma MovedReadable(ms: seq<Message>, i: nat, place: Place)
    requires Readable(ms) && i < |ms|
    ensures Readable(ms[i := ms[i].(place := place)])
  {
  }

  lemma WithoutReadable(ms: seq<Message>, i: nat)
    requires Readable(ms) && i < |ms|
    ensures Readable(Without(ms, i))
  {
  }

  lemma SentAgainReadable(s: State, i: nat)
    requires Readable(s.messages) && i < |s.messages|
    ensures Readable(SentAgain(s, i).messages)
  {
    var m := s.messages[i];
    assert InRange(m.body);
    if Retries(m) {
      RetryCopyRead(m);
      MovedReadable(s.messages, i, Republished);
    }
  }

  /** Each publish or crash pays for six calls. */
  predicate Bounded(s: State, p: string) {
    s.calls[p] + Total(s.messages, CallsLeft(p)) <= 6 * (s.submitted[p] + s.crashes[p])
  }

  lemma StepBounded(s: State, a: Action, p: string)
    requires Readable(s.messages) && Plain(a) && Bounded(s, p)
    ensures Bounded(Step(s, a), p)
  {
    if a.Submit? {
      SubmittedBounded(s, a.body, p);
    } else if a.i < |s.messages| {
      assert InRange(s.messages[a.i].body);
      match a
      case Deliver(i) => DeliveredWeighs(s, i, CallsLeft(p));
      case Call(i, result) => CalledBackBounded(s, i, result, p);
      case Publish(i) => SentAgainWeighs(s, i, CallsLeft(p));
      case Ack(i) => TotalWithout(s.messages, i, CallsLeft(p));
      case Crash(i) => CrashedBounded(s, i, p);
    }
  }

  lemma SubmittedBounded(s: State, raw: string, p: string)
    requires '|' !in raw && Bounded(s, p)
    ensures Bounded(Submitted(s, raw), p)
  {
    RawIsReadWholeIff(raw);
    ParseGivesPayload(raw);
    TotalAdd(s.messages, Message(raw, Ready), CallsLeft(p));
  }

  /** A call uses up one of the calls its message still had. */
  lemma CalledBackBounded(s: State, i: nat, result: ConsumeResult, p: string)
    requires i < |s.messages| && InRange(s.messages[i].body) && Bounded(s, p)
    ensures Bounded(CalledBack(s, i, result), p)
  {
    var m := s.messages[i];
    if m.place.Received? {
      CallWeighs(m, result, p);
      TotalUpdate(s.messages, i, m.(place := Decided(result)), CallsLeft(p));
    }
  }

  lemma CallWeighs(m: Message, result: ConsumeResult, p: string)
    requires m.place.Received? && InRange(m.body)
    ensures Weight(m.(place := Decided(result)), CallsLeft(p)) + (if Payload(m.body) == p then 1 else 0) <= Weight(m, CallsLeft(p))
  {
    if Retries(m.(place := Decided(result))) {
      RetryCopyRead(m.(place := Decided(result)));
    }
  }

  lemma CrashedBounded(s: State, i: nat, p: string)
    requires i < |s.messages| && InRange(s.messages[i].body) && Bounded(s, p)
    ensures Bounded(Crashed(s, i), p)
  {
    TotalUpdate(s.messages, i, s.messages[i].(place := Ready), CallsLeft(p));
  }

  lemma {:induction false} RunBounded(s: State, actions: seq<Action>, p: string)
    requires Readable(s.messages) && AllPlain(actions) && Bounded(s, p)
    ensures Bounded(Run(s, actions), p) && Readable(Run(s, actions).messages)
    decreases |actions|
  {
    if actions != [] {
      assert Plain(actions[0]);
      StepBounded(s, actions[0], p);
      StepReadable(s, actions[0]);
      RunBounded(Step(s, actions[0]), actions[1..], p);
    }
  }

  /** When first publishes carry no '|', the callback runs at most six times per publish or crash, and no count is ever unreadable. */
  lemma CallsAreBounded(actions: seq<Action>, p: string)
    requires AllPlain(actions)
    ensures var s := Run(Init(), actions);
      s.calls[p] <= 6 * (s.submitted[p] + s.crashes[p]) && Readable(s.messages)
  {
    RunBounded(Init(), actions, p);
  }

  // ---------------------------------------------------------------- the handler is those steps

  /** Uninterrupted, the four steps of one message do to the broker what the handler's reaction says; a stuck handler leaves the message unacked. */
  lemma HandlerIsSteps(s: State, i: nat, tag: nat, callback: string -> ConsumeResult)
    requires i < |s.messages| && s.messages[i].place == Ready && Parse(s.messages[i].body).Some?
    ensures var body := s.messages[i].body;
      var p := Payload(body);
      var io := Reaction(body, tag, callback);
      Run(s, [Deliver(i), Call(i, callback(p)), Publish(i), Ack(i)])
        == if |io| == 1 then
             s.(messages := s.messages[i := Message(body, Decided(callback(p)))], calls := s.calls + multiset{p})
           else
             s.(messages := Without(s.messages, i) + if |io| == 3 then [Message(io[1].body, Ready)] else [],
                calls := s.calls + multiset{p},
                finished := s.finished + if |io| == 3 then multiset{} else multiset{p})
  {
    var m := s.messages[i];
    ParseGivesPayload(m.body);
    var answer := callback(Payload(m.body));
    HandledByAnswer(s, i, answer);
    ReactionByAnswer(m.body, tag, callback);
    assert Without(s.messages, i) + [] == Without(s.messages, i);
  }

  /** The message is gone and its delivery over. */
  function DeliveryOver(s: State, i: nat): State
    requires i < |s.messages|
  {
    var p := Payload(s.messages[i].body);
    s.(messages := Without(s.messages, i), calls := s.calls + multiset{p}, finished := s.finished + multiset{p})
  }

  /** The message is gone and this one ready in its stead. */
  function CopyReady(s: State, i: nat, copy: Message): State
    requires i < |s.messages|
  {
    s.(messages := Without(s.messages, i) + [copy], calls := s.calls + multiset{Payload(s.messages[i].body)})
  }

  /** The message is held by a consumer that does not go on. */
  function StillHeld(s: State, i: nat, answer: ConsumeResult): State
    requires i < |s.messages|
  {
    var m := s.messages[i];
    s.(messages := s.messages[i := Message(m.body, Decided(answer))], calls := s.calls + multiset{Payload(m.body)})
  }

  lemma Handled(s: State, i: nat, answer: ConsumeResult)
    requires i < |s.messages| && s.messages[i].place == Ready && Parse(s.messages[i].body).Some?
    ensures var m := Message(s.messages[i].body, Decided(answer));
      Run(s, [Deliver(i), Call(i, answer), Publish(i), Ack(i)]) ==
        if Retries(m) then CopyReady(s, i, RetryCopy(m.body)) else if Stuck(m) then StillHeld(s, i, answer) else DeliveryOver(s, i)
  {
    RunFour(s, Deliver(i), Call(i, answer), Publish(i), Ack(i));
    assert CalledBack(Delivered(s, i), i, answer) == StillHeld(s, i, answer);
    HandledFrom(s, StillHeld(s, i, answer), i, answer);
  }

  /** What one uninterrupted handling does to the broker, by the callback's answer and the count. */
  lemma HandledByAnswer(s: State, i: nat, answer: ConsumeResult)
    requires i < |s.messages| && s.messages[i].place == Ready && Parse(s.messages[i].body).Some?
    ensures var n, p := Parse(s.messages[i].body).value.count, Payload(s.messages[i].body);
      Run(s, [Deliver(i), Call(i, answer), Publish(i), Ack(i)]) ==
        match answer
        case Success => DeliveryOver(s, i)
        case Fatal => DeliveryOver(s, i)
        case Other => DeliveryOver(s, i)
        case Raises => StillHeld(s, i, answer)
        case Retry =>
          if n <= 4 then CopyReady(s, i, Message(BuildBody(n + 1, p), Ready))
          else if n != 0x7fff_ffff then DeliveryOver(s, i)
          else StillHeld(s, i, answer)
  {
    Handled(s, i, answer);
    AnswerSorts(s.messages[i].body, answer);
  }

  lemma AnswerSorts(body: string, answer: ConsumeResult)
    requires Parse(body).Some?
    ensures var n, m := Parse(body).value.count, Message(body, Decided(answer));
      && (Retries(m) <==> answer == Retry && n <= 4)
      && (Stuck(m) <==> answer == Raises || (answer == Retry && n == 0x7fff_ffff))
      && RetryCopy(body) == Message(BuildBody(n + 1, Payload(body)), Ready)
  {
    ParseGivesPayload(body);
  }

  /** A first publish puts one message in the broker and takes none out. */
  lemma SubmitAdds(s: State, body: string)
    ensures Step(s, Submit(body)).messages == s.messages + [Message(body, Ready)]
    ensures Step(s, Submit(body)).submitted == s.submitted + multiset{Payload(body)}
    ensures Step(s, Submit(body)).finished == s.finished && Step(s, Submit(body)).calls == s.calls
  {
  }

  /** A message a dead consumer held, at whatever point, is delivered again with the same body; no other is touched. */
  lemma CrashRedelivers(s: State, i: nat)
    requires i < |s.messages| && !s.messages[i].place.Ready?
    ensures Step(s, Crash(i)).messages == s.messages[i := Message(s.messages[i].body, Ready)]
    ensures Step(Step(s, Crash(i)), Deliver(i)).messages == s.messages[i := Message(s.messages[i].body, Received)]
    ensures Step(s, Crash(i)).finished == s.finished
  {
  }

  lemma RunFour(s: State, a: Action, b: Action, c: Action, d: Action)
    ensures Run(s, [a, b, c, d]) == Step(Step(Step(Step(s, a), b), c), d)
  {
    var s1 := Step(s, a);
    var s2 := Step(s1, b);
    var s3 := Step(s2, c);
    assert Run(s3, [d]) == Step(s3, d);
    assert Run(s2, [c, d]) == Step(s3, d);
    assert Run(s1, [b, c, d]) == Step(s3, d);
  }

  /** From the callback's end: the retry copy, if any, goes out, and the message is acked unless the handler is stuck. */
  lemma HandledFrom(s: State, t: State, i: nat, result: ConsumeResult)
    requires i < |s.messages| && Parse(s.messages[i].body).Some?
    requires var m := s.messages[i].(place := Decided(result)); t.messages == s.messages[i := m]
    ensures var m := s.messages[i].(place := Decided(result));
      AckedOff(SentAgain(t, i), i)
        == if Retries(m) then t.(messages := Without(s.messages, i) + [RetryCopy(m.body)])
           else if Stuck(m) then t
           else t.(messages := Without(s.messages, i), finished := t.finished + multiset{Payload(m.body)})
  {
    var m := s.messages[i].(place := Decided(result));
    assert Without(t.messages, i) == Without(s.messages, i);
    if Retries(m) {
      assert Without(s.messages[i := m.(place := Republished)] + [RetryCopy(m.body)], i) == Without(s.messages, i) + [RetryCopy(m.body)];
    }
  }
}
