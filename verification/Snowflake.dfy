/**
 The snowflake id generator (common/snowflake.hpp). Times and ids are unsigned 64-bit numbers, and
 what wraps is written out. The clock is the list of readings still to come: a call consumes one,
 and more while it spins. Calls hold the mutex, so the calls of all threads of a process form one
 run over one list.
 */
module Snowflake {
  import opened Options

  const TWO64: nat := 0x1_0000_0000_0000_0000
  const TWO42: nat := 0x400_0000_0000
  const TWO22: nat := 0x40_0000

  type uint64 = x: int | 0 <= x < 0x1_0000_0000_0000_0000

  function Wrap(x: int): uint64 { x % TWO64 }

  const EPOCH: uint64 := 1700000000000

  datatype State = State(last: uint64, seqNo: nat, machine: nat)

  predicate Valid(g: State) { g.machine < 0x400 && g.seqNo < 0x1000 }

  function Init(machine: nat): State { State(0, 0, machine % 0x400) }

  /** Three bit fields side by side: 42 of time, 10 of machine, 12 of sequence number. */
  function Pack(time: uint64, machine: nat, seqNo: nat): uint64
    requires machine < 0x400 && seqNo < 0x1000
  {
    WrapShift(Wrap(time - EPOCH));
    Wrap(Wrap(time - EPOCH) * TWO22) + machine * 0x1000 + seqNo
  }

  /** Bitwise or of unsigned numbers. */
  function BitOr(a: nat, b: nat): nat {
    if a == 0 then b
    else if b == 0 then a
    else 2 * BitOr(a / 2, b / 2) + if a % 2 == 1 || b % 2 == 1 then 1 else 0
  }

  function Pow2(k: nat): nat { if k == 0 then 1 else 2 * Pow2(k - 1) }

  /** Or-ing a number below 2^k into a multiple of 2^k is adding it. */
  lemma {:induction false} OrIsSum(high: nat, low: nat, k: nat)
    requires low < Pow2(k)
    ensures BitOr(high * Pow2(k), low) == high * Pow2(k) + low
  {
    if k > 0 {
      Doubled(high, Pow2(k - 1));
      OrIsSum(high, low / 2, k - 1);
      OrOfEven(high * Pow2(k - 1), low);
    }
  }

  lemma Doubled(a: nat, b: nat)
    ensures a * (2 * b) == 2 * (a * b)
  {
  }

  lemma OrOfEven(half: nat, low: nat)
    ensures BitOr(2 * half, low) == 2 * BitOr(half, low / 2) + low % 2
  {
  }

  /** The source joins the fields with `|`; they do not overlap, so Pack, their sum, is the same number. */
  lemma FieldsDoNotOverlap(time: uint64, machine: nat, seqNo: nat)
    requires machine < 0x400 && seqNo < 0x1000
    ensures BitOr(BitOr(Wrap(Wrap(time - EPOCH) * TWO22), machine * 0x1000), seqNo) == Pack(time, machine, seqNo)
  {
    var high := Wrap(time - EPOCH) % TWO42;
    WrapShift(Wrap(time - EPOCH));
    PowersInPack();
    OrIsSum(high, machine * 0x1000, 22);
    OrIsSum(high * 0x400 + machine, seqNo, 12);
  }

  lemma PowersInPack()
    ensures Pow2(12) == 0x1000 && Pow2(22) == TWO22
  {
    assert Pow2(12) == 0x1000;
    assert Pow2(17) == 32 * Pow2(12);
    assert Pow2(22) == 32 * Pow2(17);
  }

  /** Shifting a 64-bit number left by 22 drops its 22 high bits. */
  lemma WrapShift(x: nat)
    ensures Wrap(x * TWO22) == (x % TWO42) * TWO22
    ensures Wrap(x * TWO22) <= TWO64 - TWO22
  {
    var q, r := x / TWO42, x % TWO42;
    assert x == q * TWO42 + r;
    WrapMultiple(q, r * TWO22);
    assert x * TWO22 == q * TWO64 + r * TWO22;
  }

  lemma WrapMultiple(q: nat, rest: nat)
    requires rest < TWO64
    ensures Wrap(q * TWO64 + rest) == rest
  {
  }

  function Id(g: State): uint64
    requires Valid(g)
  {
    Pack(g.last, g.machine, g.seqNo)
  }

  function TimeOf(id: uint64): nat { id / TWO22 + EPOCH }
  function MachineOf(id: uint64): nat { id / 0x1000 % 0x400 }
  function SeqOf(id: uint64): nat { id % 0x1000 }

  /** The times the 42 high bits can hold. */
  predicate InEra(time: uint64) { EPOCH <= time < EPOCH + TWO42 }

  // ---------------------------------------------------------------- one call

  /** The readings from the first one above last. */
  function After(readings: seq<uint64>, last: uint64): seq<uint64> {
    if readings != [] && readings[0] <= last then After(readings[1..], last) else readings
  }

  lemma {:induction false} AfterIsSuffix(readings: seq<uint64>, last: uint64)
    ensures var later := After(readings, last);
      && |later| <= |readings|
      && later == readings[|readings| - |later|..]
      && (forall i :: 0 <= i < |readings| - |later| ==> readings[i] <= last)
      && (later != [] ==> later[0] > last)
  {
    if readings != [] && readings[0] <= last {
      AfterIsSuffix(readings[1..], last);
      var later := After(readings, last);
      assert forall i :: 1 <= i < |readings| - |later| ==> readings[i] == readings[1..][i - 1];
    }
  }

  /** A call that returns, with the readings it leaves, or one still spinning when the readings end. */
  datatype Call = Returned(g: State, rest: seq<uint64>) | Spinning(g: State)

  /** What one call does: a new millisecond restarts the sequence, and the 4097th call of one waits for the next. */
  function Next(g: State, readings: seq<uint64>): (c: Call)
    requires readings != [] && Valid(g)
    ensures Valid(c.g) && c.g.machine == g.machine
    ensures c.Returned? ==> |c.rest| < |readings| && c.rest == readings[|readings| - |c.rest|..]
    ensures c.Returned? ==> c.g.last == readings[|readings| - |c.rest| - 1]
    ensures c.Returned? && c.g.last != g.last ==> c.g.seqNo == 0
    ensures c.Returned? && c.g.last == g.last ==> c.g.seqNo == g.seqNo + 1
    ensures c.Returned? && |c.rest| < |readings| - 1 ==> readings[0] == g.last < c.g.last && g.seqNo == 0xFFF
    ensures c.Spinning? <==> readings[0] == g.last && g.seqNo == 0xFFF && forall i :: 0 <= i < |readings| ==> readings[i] <= g.last
  {
    var now := readings[0];
    if now != g.last then Returned(State(now, 0, g.machine), readings[1..])
    else if g.seqNo == 0xFFF then
      var later := After(readings[1..], g.last);
      AfterIsSuffix(readings[1..], g.last);
      if later == [] then Spinning(State(g.last, 0, g.machine)) else Returned(State(later[0], 0, g.machine), later[1..])
    else Returned(State(now, g.seqNo + 1, g.machine), readings[1..])
  }

  class Generator {
    var lastTime: uint64
    var seqNo: nat
    const machineId: nat

    ghost function Value(): State reads this { State(lastTime, seqNo, machineId) }

    constructor (machine: nat)
      ensures Value() == Init(machine) && Valid(Value())
    {
      machineId := machine % 0x400;
      lastTime, seqNo := 0, 0;
    }

    /** The id and the readings left; None when the readings end while the call spins. */
    method NextId(readings: seq<uint64>) returns (id: Option<uint64>, rest: seq<uint64>)
      requires readings != [] && Valid(Value())
      modifies this
      ensures Valid(Value()) && Value() == Next(old(Value()), readings).g
      ensures id == if Next(old(Value()), readings).Returned? then Some(Id(Value())) else None
      ensures id.Some? ==> rest == Next(old(Value()), readings).rest
    {
      var now := readings[0];
      rest := readings[1..];
      if now == lastTime {
        seqNo := (seqNo + 1) % 0x1000;
        if seqNo == 0 {
          while rest != [] && rest[0] <= lastTime
            invariant After(rest, lastTime) == After(readings[1..], lastTime)
            decreases |rest|
          {
            rest := rest[1..];
          }
          if rest == [] {
            return None, [];
          }
          now, rest := rest[0], rest[1..];
        }
      } else {
        seqNo := 0;
      }
      lastTime := now;
      var bits := Assemble();
      id := Some(bits);
    }

    method Assemble() returns (id: uint64)
      requires Valid(Value())
      ensures id == Id(Value())
    {
      FieldsDoNotOverlap(lastTime, machineId, seqNo);
      id := BitOr(BitOr(Wrap(Wrap(lastTime - EPOCH) * TWO22), machineId * 0x1000), seqNo);
    }
  }

  // ---------------------------------------------------------------- one id

  /** An id reads back as its time, machine and sequence number; the last two whatever the clock says. */
  lemma PackDecodes(time: uint64, machine: nat, seqNo: nat)
    requires machine < 0x400 && seqNo < 0x1000
    ensures MachineOf(Pack(time, machine, seqNo)) == machine && SeqOf(Pack(time, machine, seqNo)) == seqNo
    ensures InEra(time) ==> TimeOf(Pack(time, machine, seqNo)) == time
  {
    var x := Wrap(time - EPOCH);
    WrapShift(x);
    FieldsDecode(x % TWO42, machine, seqNo);
    if InEra(time) {
      Small(x);
    }
  }

  lemma Small(x: nat)
    requires x < TWO42
    ensures x % TWO42 == x
  {
  }

  lemma FieldsDecode(high: nat, machine: nat, seqNo: nat)
    requires machine < 0x400 && seqNo < 0x1000
    ensures var id := high * TWO22 + machine * 0x1000 + seqNo;
      id / TWO22 == high && id / 0x1000 % 0x400 == machine && id % 0x1000 == seqNo
  {
    var id, upper := high * TWO22 + machine * 0x1000 + seqNo, high * 0x400 + machine;
    assert id == upper * 0x1000 + seqNo;
    assert id / 0x1000 == upper && id % 0x1000 == seqNo;
    assert upper % 0x400 == machine;
  }

  /** Ids of one machine are ordered as (time, seq). */
  lemma PackOrders(t1: uint64, s1: nat, t2: uint64, s2: nat, machine: nat)
    requires machine < 0x400 && s1 < 0x1000 && s2 < 0x1000 && InEra(t1) && InEra(t2)
    ensures Pack(t1, machine, s1) < Pack(t2, machine, s2) <==> t1 < t2 || (t1 == t2 && s1 < s2)
  {
    PackInEra(t1, machine, s1);
    PackInEra(t2, machine, s2);
  }

  lemma PackInEra(time: uint64, machine: nat, seqNo: nat)
    requires machine < 0x400 && seqNo < 0x1000 && InEra(time)
    ensures Pack(time, machine, seqNo) == (time - EPOCH) * TWO22 + machine * 0x1000 + seqNo
  {
    WrapShift(time - EPOCH);
  }

  // ---------------------------------------------------------------- one generator's run

  /** The states after each returned call of a run: the ids are their packings. */
  function Calls(g: State, readings: seq<uint64>): seq<State>
    requires Valid(g)
    decreases |readings|
  {
    if readings == [] then []
    else
      var c := Next(g, readings);
      if c.Returned? then [c.g] + Calls(c.g, c.rest) else []
  }

  function Ids(g: State, readings: seq<uint64>): seq<uint64>
    requires Valid(g)
    decreases |readings|
  {
    if readings == [] then []
    else
      var c := Next(g, readings);
      if c.Returned? then [Id(c.g)] + Ids(c.g, c.rest) else []
  }

  lemma {:induction false} IdsAreCalls(g: State, readings: seq<uint64>)
    requires Valid(g)
    ensures var cs, ids := Calls(g, readings), Ids(g, readings);
      |ids| == |cs| && forall i :: 0 <= i < |cs| ==> Valid(cs[i]) && cs[i].machine == g.machine && ids[i] == Id(cs[i])
    decreases |readings|
  {
    if readings != [] && Next(g, readings).Returned? {
      IdsAreCalls(Next(g, readings).g, Next(g, readings).rest);
    }
  }

  predicate NonDecreasing(xs: seq<uint64>) { forall i, j :: 0 <= i < j < |xs| ==> xs[i] <= xs[j] }
  predicate Increasing(xs: seq<uint64>) { forall i, j :: 0 <= i < j < |xs| ==> xs[i] < xs[j] }
  predicate AllInEra(xs: seq<uint64>) { forall i :: 0 <= i < |xs| ==> InEra(xs[i]) }

  /** No call's first reading is behind the last id's time. */
  predicate Steady(g: State, readings: seq<uint64>)
    requires Valid(g)
    decreases |readings|
  {
    readings == [] ||
    (readings[0] >= g.last && (Next(g, readings).Returned? ==> Steady(Next(g, readings).g, Next(g, readings).rest)))
  }

  /** What a returned call leaves of the readings is a suffix, and its time one of them. */
  lemma NextTakesAPrefix(g: State, readings: seq<uint64>) returns (k: nat)
    requires readings != [] && Valid(g) && Next(g, readings).Returned?
    ensures k < |readings| && Next(g, readings).rest == readings[k + 1..] && Next(g, readings).g.last == readings[k]
  {
    k := 0;
    if readings[0] == g.last && g.seqNo == 0xFFF {
      AfterIsSuffix(readings[1..], g.last);
      k := |readings| - |After(readings[1..], g.last)|;
    }
  }

  lemma {:induction false} NonDecreasingIsSteady(g: State, readings: seq<uint64>)
    requires Valid(g) && NonDecreasing(readings) && (readings != [] ==> g.last <= readings[0])
    ensures Steady(g, readings)
    decreases |readings|
  {
    if readings != [] && Next(g, readings).Returned? {
      var k := NextTakesAPrefix(g, readings);
      NonDecreasingIsSteady(Next(g, readings).g, readings[k + 1..]);
    }
  }

  /** One call rises above the id before it exactly when its first reading is not behind. */
  lemma CallRisesIff(g: State, readings: seq<uint64>)
    requires readings != [] && Valid(g) && AllInEra(readings) && InEra(g.last) && Next(g, readings).Returned?
    ensures Id(Next(g, readings).g) > Id(g) <==> readings[0] >= g.last
    ensures InEra(Next(g, readings).g.last) && AllInEra(Next(g, readings).rest)
  {
    var k := NextTakesAPrefix(g, readings);
    var h := Next(g, readings).g;
    AfterIsSuffix(readings[1..], g.last);
    PackOrders(g.last, g.seqNo, h.last, h.seqNo, g.machine);
  }

  lemma IncreasingCons(x: uint64, xs: seq<uint64>)
    ensures Increasing([x] + xs) <==> (xs != [] ==> x < xs[0]) && Increasing(xs)
  {
    var ys := [x] + xs;
    if Increasing(ys) {
      assert xs != [] ==> ys[0] < ys[1];
      forall i, j | 0 <= i < j < |xs| ensures xs[i] < xs[j] { assert ys[i + 1] < ys[j + 1]; }
    }
  }

  /** After an id, the ids of a run rise if and only if no call reads a time behind the last id's. */
  lemma {:induction false} IdsRiseIff(g: State, readings: seq<uint64>)
    requires Valid(g) && AllInEra(readings) && InEra(g.last)
    ensures Increasing([Id(g)] + Ids(g, readings)) <==> Steady(g, readings)
    decreases |readings|
  {
    IncreasingCons(Id(g), Ids(g, readings));
    if readings != [] && Next(g, readings).Returned? {
      var c := Next(g, readings);
      CallRisesIff(g, readings);
      IdsRiseIff(c.g, c.rest);
      IncreasingCons(Id(c.g), Ids(c.g, c.rest));
    }
  }

  /** The ids of a new generator rise if and only if no call reads a time behind the last id's. */
  lemma NewIdsRiseIff(machine: nat, readings: seq<uint64>)
    requires AllInEra(readings)
    ensures Increasing(Ids(Init(machine), readings)) <==> Steady(Init(machine), readings)
  {
    if readings != [] {
      var c := Next(Init(machine), readings);
      assert c.rest == readings[1..];
      IdsRiseIff(c.g, c.rest);
    }
  }

  /** Strictly rising ids from a new generator, when the clock never goes back. */
  lemma IdsRise(machine: nat, readings: seq<uint64>)
    requires AllInEra(readings) && NonDecreasing(readings)
    ensures Increasing(Ids(Init(machine), readings))
  {
    NonDecreasingIsSteady(Init(machine), readings);
    NewIdsRiseIff(machine, readings);
  }

  // ---------------------------------------------------------------- when ids repeat

  predicate Distinct(ids: seq<uint64>) { forall i, j :: 0 <= i < j < |ids| ==> ids[i] != ids[j] }

  predicate NoneIn(ids: seq<uint64>, issued: set<uint64>) { forall i :: 0 <= i < |ids| ==> ids[i] !in issued }

  /** Every call stays in the millisecond of the last id or ends in one that has no id yet. */
  predicate NeverReturns(used: set<uint64>, g: State, readings: seq<uint64>)
    requires Valid(g)
    decreases |readings|
  {
    readings == [] || (var c := Next(g, readings);
      c.Returned? ==> (c.g.last == g.last || c.g.last !in used) && NeverReturns(used + {c.g.last}, c.g, c.rest))
  }

  /** `used` are the milliseconds of the ids issued; each began at sequence number 0, the last one is at g's. */
  predicate Tracks(used: set<uint64>, issued: set<uint64>, g: State)
    requires Valid(g)
  {
    && (forall t :: t in used ==> InEra(t) && Pack(t, g.machine, 0) in issued)
    && (forall id :: id in issued ==> TimeOf(id) in used && (TimeOf(id) == g.last ==> SeqOf(id) <= g.seqNo))
    && (g.last in used || !InEra(g.last))
  }

  lemma DistinctCons(x: uint64, xs: seq<uint64>)
    ensures Distinct([x] + xs) <==> Distinct(xs) && x !in xs
  {
    var ys := [x] + xs;
    if Distinct(ys) {
      forall i, j | 0 <= i < j < |xs| ensures xs[i] != xs[j] { assert ys[i + 1] != ys[j + 1]; }
      forall i | 0 <= i < |xs| ensures xs[i] != x { assert ys[0] != ys[i + 1]; }
    }
  }

  lemma NoneInCons(x: uint64, xs: seq<uint64>, issued: set<uint64>)
    ensures NoneIn([x] + xs, issued) && x !in xs <==> x !in issued && NoneIn(xs, issued + {x})
  {
    var ys := [x] + xs;
    if NoneIn(ys, issued) {
      assert ys[0] !in issued;
      forall i | 0 <= i < |xs| ensures xs[i] !in issued { assert ys[i + 1] !in issued; }
    }
  }

  /** The next id is new exactly when its millisecond is the last one's or has no id yet. */
  lemma NextIdIsNewIff(used: set<uint64>, issued: set<uint64>, g: State, h: State)
    requires Valid(g) && Valid(h) && h.machine == g.machine && InEra(h.last) && Tracks(used, issued, g)
    requires h.seqNo == if h.last == g.last then g.seqNo + 1 else 0
    ensures Id(h) !in issued <==> h.last == g.last || h.last !in used
    ensures Id(h) !in issued ==> Tracks(used + {h.last}, issued + {Id(h)}, h)
  {
    PackDecodes(h.last, h.machine, h.seqNo);
  }

  lemma {:induction false} NewIdsIff(used: set<uint64>, issued: set<uint64>, g: State, readings: seq<uint64>)
    requires Valid(g) && AllInEra(readings) && Tracks(used, issued, g)
    ensures Distinct(Ids(g, readings)) && NoneIn(Ids(g, readings), issued) <==> NeverReturns(used, g, readings)
    decreases |readings|
  {
    if readings != [] && Next(g, readings).Returned? {
      var c := Next(g, readings);
      NextIdIsNewIff(used, issued, g, c.g);
      if Id(c.g) !in issued {
        NewIdsIff(used + {c.g.last}, issued + {Id(c.g)}, c.g, c.rest);
      }
      DistinctCons(Id(c.g), Ids(c.g, c.rest));
      NoneInCons(Id(c.g), Ids(c.g, c.rest), issued);
      assert Ids(g, readings)[0] == Id(c.g);
    }
  }

  /** No id repeats if and only if the clock never takes a call back to a millisecond that was left. */
  lemma UniqueIff(machine: nat, readings: seq<uint64>)
    requires AllInEra(readings)
    ensures Distinct(Ids(Init(machine), readings)) <==> NeverReturns({}, Init(machine), readings)
  {
    NewIdsIff({}, {}, Init(machine), readings);
  }

  /** The clock returns to a millisecond that was left, and an id repeats. */
  lemma SteppingBackRepeats(machine: nat, t: uint64)
    requires InEra(t) && t > EPOCH
    ensures var ids := Ids(Init(machine), [t, t - 1, t]); |ids| == 3 && ids[2] == ids[0]
  {
    var g0 := Init(machine);
    var g1 := State(t, 0, g0.machine);
    var g2 := State(t - 1, 0, g0.machine);
    assert Next(g0, [t, t - 1, t]) == Returned(g1, [t - 1, t]);
    assert Next(g1, [t - 1, t]) == Returned(g2, [t]);
    assert Next(g2, [t]) == Returned(g1, []);
    assert Ids(g2, [t]) == [Id(g1)];
    assert Ids(g1, [t - 1, t]) == [Id(g2), Id(g1)];
  }

  // ---------------------------------------------------------------- at most 4096 a millisecond

  /** A call in the same millisecond has the next sequence number. */
  lemma {:induction false} SameTimeCountsUp(g: State, readings: seq<uint64>, i: nat)
    requires Valid(g) && Steady(g, readings) && i < |Calls(g, readings)|
    ensures var h := Calls(g, readings)[i];
      Valid(h) && h.last >= g.last && (h.last == g.last ==> h.seqNo == g.seqNo + i + 1)
    decreases |readings|
  {
    var c := Next(g, readings);
    AfterIsSuffix(readings[1..], g.last);
    if i > 0 {
      assert Calls(g, readings)[i] == Calls(c.g, c.rest)[i - 1];
      SameTimeCountsUp(c.g, c.rest, i - 1);
    }
  }

  lemma {:induction false} FourThousandLater(g: State, readings: seq<uint64>, i: nat)
    requires Valid(g) && Steady(g, readings) && i + 4096 < |Calls(g, readings)|
    ensures Calls(g, readings)[i + 4096].last > Calls(g, readings)[i].last
    decreases |readings|
  {
    var c := Next(g, readings);
    if i == 0 {
      assert Calls(g, readings)[4096] == Calls(c.g, c.rest)[4095];
      SameTimeCountsUp(c.g, c.rest, 4095);
    } else {
      assert Calls(g, readings)[i + 4096] == Calls(c.g, c.rest)[i - 1 + 4096];
      FourThousandLater(c.g, c.rest, i - 1);
    }
  }

  /** The time an id carries is its call's, in the era. */
  lemma {:induction false} CallsInEra(g: State, readings: seq<uint64>)
    requires Valid(g) && AllInEra(readings)
    ensures forall i :: 0 <= i < |Calls(g, readings)| ==> InEra(Calls(g, readings)[i].last)
    decreases |readings|
  {
    if readings != [] && Next(g, readings).Returned? {
      var k := NextTakesAPrefix(g, readings);
      CallsInEra(Next(g, readings).g, readings[k + 1..]);
    }
  }

  /** At most 4096 ids carry the same millisecond. */
  lemma AtMost4096PerMillisecond(machine: nat, readings: seq<uint64>, i: nat)
    requires AllInEra(readings) && NonDecreasing(readings) && i + 4096 < |Ids(Init(machine), readings)|
    ensures TimeOf(Ids(Init(machine), readings)[i + 4096]) > TimeOf(Ids(Init(machine), readings)[i])
  {
    var g := Init(machine);
    NonDecreasingIsSteady(g, readings);
    IdsAreCalls(g, readings);
    CallsInEra(g, readings);
    FourThousandLater(g, readings, i);
    var a, b := Calls(g, readings)[i], Calls(g, readings)[i + 4096];
    PackDecodes(a.last, a.machine, a.seqNo);
    PackDecodes(b.last, b.machine, b.seqNo);
  }

  // ---------------------------------------------------------------- several machines

  /** Machines whose numbers differ mod 1024 never share an id, whatever their clocks do. */
  lemma MachinesNeverShareAnId(m: nat, n: nat, readings: seq<uint64>, others: seq<uint64>)
    requires m % 0x400 != n % 0x400
    ensures var a, b := Ids(Init(m), readings), Ids(Init(n), others);
      forall i, j :: 0 <= i < |a| && 0 <= j < |b| ==> a[i] != b[j]
  {
    var a, b := Ids(Init(m), readings), Ids(Init(n), others);
    IdsAreCalls(Init(m), readings);
    IdsAreCalls(Init(n), others);
    forall i, j | 0 <= i < |a| && 0 <= j < |b| ensures a[i] != b[j] {
      var g, h := Calls(Init(m), readings)[i], Calls(Init(n), others)[j];
      PackDecodes(g.last, g.machine, g.seqNo);
      PackDecodes(h.last, h.machine, h.seqNo);
    }
  }

  /** Every id of a generator carries the machine number it was made with, mod 1024, whatever the clock does. */
  lemma IdsCarryMachine(machine: nat, readings: seq<uint64>, i: nat)
    requires i < |Ids(Init(machine), readings)|
    ensures MachineOf(Ids(Init(machine), readings)[i]) == machine % 1024
  {
    IdsAreCalls(Init(machine), readings);
    var g := Calls(Init(machine), readings)[i];
    PackDecodes(g.last, g.machine, g.seqNo);
  }

  /** The bits of an id, from the top: 42 of milliseconds since 1700000000000, 10 of machine, 12 of sequence number. */
  lemma BitsOfAnId(time: uint64, machine: nat, seqNo: nat)
    requires machine < 1024 && seqNo < 4096 && 1_700_000_000_000 <= time < 1_700_000_000_000 + 4_398_046_511_104
    ensures Pack(time, machine, seqNo) == (time - 1_700_000_000_000) * 4_194_304 + machine * 4_096 + seqNo
  {
    PackInEra(time, machine, seqNo);
  }
}
