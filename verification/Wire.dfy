/**
 The Protocol Buffers wire format that the generated code reads and writes (Protocol Buffers
 Encoding guide, "Base 128 Varints", "Message Structure", "Length-Delimited Records"). A read
 position is the part of the input that is still unread.
 */
module Wire {
  import opened Options

  type byte = b: nat | b < 256
  type bytes = seq<byte>

  const TWO_32: nat := 0x1_0000_0000
  const TWO_63: nat := 0x8000_0000_0000_0000
  const TWO_64: nat := 0x1_0000_0000_0000_0000

  // ---------------------------------------------------------------- varints

  function EncodeVarint(n: nat): (s: bytes)
    ensures s != []
  {
    if n < 128 then [n] else [128 + n % 128] + EncodeVarint(n / 128)
  }

  /** Reads a varint of at most `k` bytes. */
  function ReadGroups(s: bytes, k: nat): (r: Option<(nat, bytes)>)
    ensures r.Some? ==> |r.value.1| < |s|
    decreases |s|
  {
    if k == 0 || s == [] then None
    else if s[0] < 128 then Some((s[0], s[1..]))
    else
      match ReadGroups(s[1..], k - 1)
      case None => None
      case Some((n, rest)) => Some((s[0] - 128 + 128 * n, rest))
  }

  /** A varint has at most ten bytes, and bits beyond the 64th are dropped. */
  function ReadVarint(s: bytes): (r: Option<(nat, bytes)>)
    ensures r.Some? ==> r.value.0 < TWO_64 && |r.value.1| < |s|
  {
    match ReadGroups(s, 10)
    case None => None
    case Some((n, rest)) => Some((n % TWO_64, rest))
  }

  /** Field tags are kept in 32 bits. */
  function ReadTag(s: bytes): (r: Option<(nat, bytes)>)
    ensures r.Some? ==> |r.value.1| < |s|
  {
    match ReadVarint(s)
    case None => None
    case Some((n, rest)) => Some((n % TWO_32, rest))
  }

  /** A length and that many bytes. */
  function ReadDelimited(s: bytes): (r: Option<(bytes, bytes)>)
    ensures r.Some? ==> |r.value.1| < |s|
  {
    match ReadVarint(s)
    case None => None
    case Some((n, rest)) => if n <= |rest| then Some((rest[..n], rest[n..])) else None
  }

  function VarintSize(n: nat): (k: nat)
    ensures k >= 1
  {
    if n < 128 then 1 else 1 + VarintSize(n / 128)
  }

  function Pow128(k: nat): nat { if k == 0 then 1 else 128 * Pow128(k - 1) }

  lemma {:induction false} VarintRoundTrip(n: nat, rest: bytes, k: nat)
    requires k > 0 && n < Pow128(k)
    ensures ReadGroups(EncodeVarint(n) + rest, k) == Some((n, rest))
    decreases k
  {
    var s := EncodeVarint(n) + rest;
    if n < 128 {
      assert s[1..] == rest;
    } else {
      assert k > 1 && n / 128 < Pow128(k - 1);
      VarintRoundTrip(n / 128, rest, k - 1);
      assert s[1..] == EncodeVarint(n / 128) + rest;
    }
  }

  lemma TenGroupsHold64Bits()
    ensures TWO_64 <= Pow128(10)
  {
    assert Pow128(5) == 0x8_0000_0000;
    assert Pow128(9) == 128 * 128 * 128 * 128 * Pow128(5);
  }

  lemma ReadEncoded(n: nat, rest: bytes)
    requires n < TWO_64
    ensures ReadVarint(EncodeVarint(n) + rest) == Some((n, rest))
  {
    TenGroupsHold64Bits();
    VarintRoundTrip(n, rest, 10);
    KeepsAllBits(EncodeVarint(n) + rest, n, rest);
  }

  lemma KeepsAllBits(s: bytes, n: nat, rest: bytes)
    requires ReadGroups(s, 10) == Some((n, rest)) && n < TWO_64
    ensures ReadVarint(s) == Some((n, rest))
  {
  }

  lemma {:induction false} VarintSizeIsLength(n: nat)
    ensures VarintSize(n) == |EncodeVarint(n)|
  {
    if n >= 128 {
      VarintSizeIsLength(n / 128);
    }
  }

  /** Each extra byte holds seven more bits; in particular a negative int64 takes ten bytes. */
  lemma {:induction false} VarintSizeBounds(n: nat, k: nat)
    requires k > 0
    ensures VarintSize(n) <= k <==> n < Pow128(k)
  {
    if n < 128 {
      Pow128AtLeast(k);
    } else if k == 1 {
      assert Pow128(1) == 128;
    } else {
      VarintSizeBounds(n / 128, k - 1);
      assert n / 128 < Pow128(k - 1) <==> n < 128 * Pow128(k - 1);
    }
  }

  lemma {:induction false} Pow128AtLeast(k: nat)
    requires k > 0
    ensures Pow128(k) >= 128
  {
    if k > 1 { Pow128AtLeast(k - 1); }
  }

  // ---------------------------------------------------------------- two's complement

  type int64 = i: int | -0x8000_0000_0000_0000 <= i < 0x8000_0000_0000_0000
  type int32 = i: int | -0x8000_0000 <= i < 0x8000_0000

  function ToUint64(i: int64): (u: nat)
    ensures u < TWO_64
  {
    if i < 0 then i + TWO_64 else i
  }

  function ToInt64(u: nat): int64 { if u % TWO_64 < TWO_63 then u % TWO_64 else u % TWO_64 - TWO_64 }

  /** static_cast to a 32-bit enum keeps the low 32 bits. */
  function ToInt32(u: nat): int32 { if u % TWO_32 < 0x8000_0000 then u % TWO_32 else u % TWO_32 - TWO_32 }

  lemma IntsRoundTrip(i: int64)
    ensures ToInt64(ToUint64(i)) == i && ToUint64(i) == if i < 0 then 0x1_0000_0000_0000_0000 + i else i
    ensures -0x8000_0000 <= i < 0x8000_0000 ==> ToInt32(ToUint64(i)) == i
  {
    if -0x8000_0000 <= i < 0 {
      assert i + TWO_64 == 0xFFFF_FFFF * TWO_32 + (i + TWO_32);
    }
  }

  lemma NegativeTakesTenBytes(i: int64)
    requires i < 0
    ensures |EncodeVarint(ToUint64(i))| == 10
  {
    TenGroupsHold64Bits();
    assert Pow128(5) == 0x8_0000_0000;
    assert Pow128(9) == 128 * 128 * 128 * 128 * Pow128(5) == TWO_63;
    VarintSizeBounds(ToUint64(i), 9);
    VarintSizeBounds(ToUint64(i), 10);
    VarintSizeIsLength(ToUint64(i));
  }

  // ---------------------------------------------------------------- fields

  /** One field as it stands on the wire; `Skipped` is one of a wire type no message here declares. */
  datatype Item =
    | Varint(num: nat, value: nat)
    | Bytes(num: nat, body: bytes)
    | Skipped(num: nat)

  /** The unread input after an unknown field of wire type `wire`. */
  function Skip(wire: nat, num: nat, s: bytes): (r: Option<bytes>)
    ensures r.Some? ==> |r.value| <= |s|
    decreases |s|, 1
  {
    match wire
    case 0 => (match ReadVarint(s) case None => None case Some((_, rest)) => Some(rest))
    case 1 => if |s| >= 8 then Some(s[8..]) else None
    case 2 => (match ReadDelimited(s) case None => None case Some((_, rest)) => Some(rest))
    case 3 => SkipGroup(num, s)
    case 5 => if |s| >= 4 then Some(s[4..]) else None
    case _ => None
  }

  /** Skips fields up to the end tag of group `num`. */
  function SkipGroup(num: nat, s: bytes): (r: Option<bytes>)
    ensures r.Some? ==> |r.value| <= |s|
    decreases |s|, 0
  {
    match ReadTag(s)
    case None => None
    case Some((tag, rest)) =>
      if tag % 8 == 4 then (if tag / 8 == num then Some(rest) else None)
      else if tag / 8 == 0 then None
      else
        match Skip(tag % 8, tag / 8, rest)
        case None => None
        case Some(after) => SkipGroup(num, after)
  }

  datatype Read = Got(item: Item, rest: bytes) | End(tag: nat, rest: bytes) | Bad

  /** A zero tag or an end-group tag stops the message that is being read. */
  predicate Ends(tag: nat) { tag == 0 || tag % 8 == 4 }

  function ReadItem(s: bytes): (r: Read)
    ensures r.Got? ==> |r.rest| < |s|
  {
    match ReadTag(s)
    case None => Bad
    case Some((tag, rest)) => if Ends(tag) then End(tag, rest) else ReadValue(tag, rest)
  }

  function ReadValue(tag: nat, s: bytes): (r: Read)
    ensures r.Got? ==> |r.rest| <= |s|
    ensures !r.End?
  {
    var num := tag / 8;
    if num == 0 then Bad
    else if tag % 8 == 0 then (match ReadVarint(s) case None => Bad case Some((v, rest)) => Got(Varint(num, v), rest))
    else if tag % 8 == 2 then (match ReadDelimited(s) case None => Bad case Some((b, rest)) => Got(Bytes(num, b), rest))
    else (match Skip(tag % 8, num, s) case None => Bad case Some(rest) => Got(Skipped(num), rest))
  }

  /** Fields that can be written: a proper field number and a value that fits. */
  predicate Writable(item: Item) {
    && 0 < item.num < 0x2000_0000
    && match item
       case Varint(_, v) => v < TWO_64
       case Bytes(_, b) => |b| < TWO_64
       case Skipped(_) => false
  }

  function Encode(item: Item): bytes {
    match item
    case Varint(num, v) => EncodeVarint(num * 8) + EncodeVarint(v)
    case Bytes(num, b) => EncodeVarint(num * 8 + 2) + EncodeVarint(|b|) + b
    case Skipped(_) => []
  }

  lemma ReadEncodedTag(num: nat, wire: nat, rest: bytes)
    requires 0 < num < 0x2000_0000 && wire < 8
    ensures ReadTag(EncodeVarint(num * 8 + wire) + rest) == Some((num * 8 + wire, rest))
    ensures (num * 8 + wire) / 8 == num && (num * 8 + wire) % 8 == wire
  {
    ReadEncoded(num * 8 + wire, rest);
  }

  lemma ReadEncodedBody(b: bytes, rest: bytes)
    requires |b| < TWO_64
    ensures ReadDelimited(EncodeVarint(|b|) + b + rest) == Some((b, rest))
  {
    assert EncodeVarint(|b|) + b + rest == EncodeVarint(|b|) + (b + rest);
    ReadEncoded(|b|, b + rest);
    assert (b + rest)[..|b|] == b && (b + rest)[|b|..] == rest;
  }

  lemma ReadEncodedNumber(tag: nat, v: nat, rest: bytes)
    requires tag % 8 == 0 && tag / 8 > 0 && v < TWO_64
    ensures ReadValue(tag, EncodeVarint(v) + rest) == Got(Varint(tag / 8, v), rest)
  {
    ReadEncoded(v, rest);
  }

  lemma ReadEncodedVarint(num: nat, v: nat, rest: bytes)
    requires 0 < num < 0x2000_0000 && v < TWO_64
    ensures ReadItem(Encode(Varint(num, v)) + rest) == Got(Varint(num, v), rest)
  {
    var tag, value := num * 8, EncodeVarint(v);
    assert Encode(Varint(num, v)) + rest == EncodeVarint(tag) + (value + rest);
    ReadEncodedTag(num, 0, value + rest);
    ReadEncodedNumber(tag, v, rest);
  }

  lemma ReadEncodedText(tag: nat, b: bytes, rest: bytes)
    requires tag % 8 == 2 && tag / 8 > 0 && |b| < TWO_64
    ensures ReadValue(tag, EncodeVarint(|b|) + b + rest) == Got(Bytes(tag / 8, b), rest)
  {
    ReadEncodedBody(b, rest);
  }

  lemma ReadEncodedBytes(num: nat, b: bytes, rest: bytes)
    requires 0 < num < 0x2000_0000 && |b| < TWO_64
    ensures ReadItem(Encode(Bytes(num, b)) + rest) == Got(Bytes(num, b), rest)
  {
    var tag, length := num * 8 + 2, EncodeVarint(|b|);
    assert Encode(Bytes(num, b)) + rest == EncodeVarint(tag) + (length + b + rest);
    ReadEncodedTag(num, 2, length + b + rest);
    ReadEncodedText(tag, b, rest);
  }

  lemma ReadEncodedItem(item: Item, rest: bytes)
    requires Writable(item)
    ensures ReadItem(Encode(item) + rest) == Got(item, rest)
  {
    match item
    case Varint(num, v) => ReadEncodedVarint(num, v, rest);
    case Bytes(num, b) => ReadEncodedBytes(num, b, rest);
  }

  // ---------------------------------------------------------------- every varint there is

  /** Groups of seven bits, least significant first; all bytes but the last have the high bit set. */
  function WireGroups(groups: seq<nat>): bytes
    requires groups != [] && forall i :: 0 <= i < |groups| ==> groups[i] < 128
  {
    if |groups| == 1 then [groups[0]] else [0x80 + groups[0]] + WireGroups(groups[1..])
  }

  function SumGroups(groups: seq<nat>): nat {
    if groups == [] then 0 else groups[0] + 128 * SumGroups(groups[1..])
  }

  lemma {:induction false} ReadsGroups(groups: seq<nat>, rest: bytes, k: nat)
    requires groups != [] && forall i :: 0 <= i < |groups| ==> groups[i] < 128
    ensures ReadGroups(WireGroups(groups) + rest, k) == if |groups| <= k then Some((SumGroups(groups), rest)) else None
    decreases |groups|
  {
    var s := WireGroups(groups) + rest;
    if k > 0 {
      if |groups| == 1 {
        assert s[1..] == rest;
        assert SumGroups(groups[1..]) == 0;
      } else {
        assert s[1..] == WireGroups(groups[1..]) + rest;
        ReadsGroups(groups[1..], rest, k - 1);
      }
    }
  }

  /** Any varint of up to ten bytes, shortest or not, reads as its 64 low bits; a longer one is refused. */
  lemma ReadsAnyVarint(groups: seq<nat>, rest: bytes)
    requires groups != [] && forall i :: 0 <= i < |groups| ==> groups[i] < 128
    ensures ReadVarint(WireGroups(groups) + rest) ==
      if |groups| <= 10 then Some((SumGroups(groups) % 0x1_0000_0000_0000_0000, rest)) else None
  {
    ReadsGroups(groups, rest, 10);
  }

  /** What is written is the shortest of them. */
  lemma {:induction false} WritesShortest(n: nat) returns (groups: seq<nat>)
    ensures groups != [] && forall i :: 0 <= i < |groups| ==> groups[i] < 128
    ensures EncodeVarint(n) == WireGroups(groups) && SumGroups(groups) == n
    ensures |groups| > 1 ==> groups[|groups| - 1] > 0
  {
    if n < 128 {
      groups := [n];
      assert SumGroups(groups[1..]) == 0;
    } else {
      var more := WritesShortest(n / 128);
      groups := [n % 128] + more;
      assert groups[1..] == more;
      assert |more| == 1 ==> more[0] == n / 128 by {
        assert |more| == 1 ==> SumGroups(more[1..]) == 0;
      }
    }
  }

  // ---------------------------------------------------------------- parsing a message

  /** How a parse loop ends: at the end of the input, at a stopping tag, or in error. */
  datatype Outcome<+M> = Done(message: M) | Stopped(message: M, tag: nat, rest: bytes) | Failed

  /** `apply` sets one field of a message; None is an error, such as text that is not UTF-8. */
  function ParseLoop<M>(apply: (M, Item) -> Option<M>, m: M, s: bytes): Outcome<M>
    decreases |s|
  {
    if s == [] then Done(m)
    else
      match ReadItem(s)
      case Bad => Failed
      case End(tag, rest) => Stopped(m, tag, rest)
      case Got(item, rest) =>
        match apply(m, item)
        case None => Failed
        case Some(m') => ParseLoop(apply, m', rest)
  }

  /** A whole buffer parses only if it ends where the message ends. */
  function Parse<M>(apply: (M, Item) -> Option<M>, m: M, s: bytes): Option<M> {
    var r := ParseLoop(apply, m, s);
    if r.Done? then Some(r.message) else None
  }

  /** What `pick` takes from each field of `s`, in order, wherever it stands. */
  function Collect<E>(pick: Item -> seq<E>, s: bytes): seq<E>
    decreases |s|
  {
    var r := ReadItem(s);
    if s == [] || !r.Got? then [] else pick(r.item) + Collect(pick, r.rest)
  }

  /** The loop takes one field and goes on. */
  lemma ParseStep<M>(apply: (M, Item) -> Option<M>, m: M, s: bytes)
    requires s != [] && ReadItem(s).Got? && !ParseLoop(apply, m, s).Failed?
    ensures var r := ReadItem(s);
      apply(m, r.item).Some? && ParseLoop(apply, m, s) == ParseLoop(apply, apply(m, r.item).value, r.rest)
  {
  }

  lemma Regroup<T>(a: seq<T>, b: seq<T>, c: seq<T>)
    ensures a + b + c == a + (b + c)
  {
  }

  /** A parser whose every field appends its pick to a list has at the end appended what all of `s` gives. */
  lemma {:induction false} CollectedInOrder<M, E>(apply: (M, Item) -> Option<M>, list: M -> seq<E>, pick: Item -> seq<E>, m: M, s: bytes)
    requires forall m, item :: apply(m, item).Some? ==> list(apply(m, item).value) == list(m) + pick(item)
    requires !ParseLoop(apply, m, s).Failed?
    ensures list(ParseLoop(apply, m, s).message) == list(m) + Collect(pick, s)
    decreases |s|
  {
    var r := ReadItem(s);
    if s != [] && r.Got? {
      ParseStep(apply, m, s);
      CollectedInOrder(apply, list, pick, apply(m, r.item).value, r.rest);
      Regroup(list(m), pick(r.item), Collect(pick, r.rest));
    }
  }

  // ---------------------------------------------------------------- the fields of a message

  /** The fields a message type may write, in order, each with whether this message has it. */
  datatype Fields = NoMore | Field(present: bool, item: Item, more: Fields)

  /** Every field number is below 16, so that its tag is one byte, and every number fits 64 bits. */
  predicate Plain(fields: Fields) {
    fields.NoMore?
    || (0 < fields.item.num < 16 && !fields.item.Skipped? && (fields.item.Varint? ==> fields.item.value < TWO_64)
        && Plain(fields.more))
  }

  function EncodeFields(fields: Fields): bytes {
    match fields
    case NoMore => []
    case Field(present, item, more) => (if present then Encode(item) else []) + EncodeFields(more)
  }

  function ApplyFields<M>(apply: (M, Item) -> Option<M>, m: M, fields: Fields): Option<M> {
    match fields
    case NoMore => Some(m)
    case Field(present, item, more) =>
      if !present then ApplyFields(apply, m, more)
      else
        match apply(m, item)
        case None => None
        case Some(m') => ApplyFields(apply, m', more)
  }

  /** The first field, if present, turns m into m1. */
  predicate StepsTo<M(==)>(apply: (M, Item) -> Option<M>, m: M, fields: Fields, m1: M)
    requires fields.Field?
  {
    if fields.present then apply(m, fields.item) == Some(m1) else m1 == m
  }

  lemma AppliesOne<M>(apply: (M, Item) -> Option<M>, m: M, m1: M, f: Fields)
    requires f.Field? && StepsTo(apply, m, f, m1)
    ensures ApplyFields(apply, m, f) == ApplyFields(apply, m1, f.more)
  {
  }

  lemma AppliesThree<M>(apply: (M, Item) -> Option<M>, m: M, m1: M, m2: M, m3: M, f: Fields)
    requires f.Field? && f.more.Field? && f.more.more.Field?
    requires StepsTo(apply, m, f, m1) && StepsTo(apply, m1, f.more, m2) && StepsTo(apply, m2, f.more.more, m3)
    ensures ApplyFields(apply, m, f) == ApplyFields(apply, m3, f.more.more.more)
  {
    AppliesOne(apply, m, m1, f);
    AppliesOne(apply, m1, m2, f.more);
    AppliesOne(apply, m2, m3, f.more.more);
  }

  function ItemSize(item: Item): nat {
    match item
    case Varint(_, v) => 1 + VarintSize(v)
    case Bytes(_, b) => 1 + VarintSize(|b|) + |b|
    case Skipped(_) => 0
  }

  function TotalSize(fields: Fields): nat {
    match fields
    case NoMore => 0
    case Field(present, item, more) => (if present then ItemSize(item) else 0) + TotalSize(more)
  }

  /** A repeated field: one record for each body. */
  function Repeated(num: nat, bodies: seq<bytes>): (fields: Fields)
    requires 0 < num < 16
    ensures Plain(fields)
  {
    if bodies == [] then NoMore else Field(true, Bytes(num, bodies[0]), Repeated(num, bodies[1..]))
  }

  /** Applying a repeated field goes through the states that its records lead to, one by one. */
  lemma {:induction false} ApplyRepeated<M>(apply: (M, Item) -> Option<M>, num: nat, bodies: seq<bytes>, states: seq<M>)
    requires 0 < num < 16 && |states| == |bodies| + 1
    requires forall i :: 0 <= i < |bodies| ==> apply(states[i], Bytes(num, bodies[i])) == Some(states[i + 1])
    ensures ApplyFields(apply, states[0], Repeated(num, bodies)) == Some(states[|bodies|])
    decreases |bodies|
  {
    if bodies != [] {
      assert apply(states[0], Bytes(num, bodies[0])) == Some(states[1]);
      forall i | 0 <= i < |bodies[1..]| ensures apply(states[1..][i], Bytes(num, bodies[1..][i])) == Some(states[1..][i + 1]) {
        assert apply(states[i + 1], Bytes(num, bodies[i + 1])) == Some(states[i + 2]);
      }
      ApplyRepeated(apply, num, bodies[1..], states[1..]);
    }
  }

  lemma {:induction false} TotalSizeIsLength(fields: Fields)
    requires Plain(fields)
    ensures |EncodeFields(fields)| == TotalSize(fields)
  {
    match fields
    case NoMore =>
    case Field(_, item, more) =>
      match item {
        case Varint(_, v) => VarintSizeIsLength(v);
        case Bytes(_, b) => VarintSizeIsLength(|b|);
      }
      TotalSizeIsLength(more);
  }

  lemma PresentIsWritable(fields: Fields)
    requires Plain(fields) && TotalSize(fields) < TWO_64 && fields.Field? && fields.present
    ensures Writable(fields.item)
  {
  }

  /** Parsing one written field is applying it and going on. */
  lemma ParseItem<M>(apply: (M, Item) -> Option<M>, m: M, item: Item, rest: bytes)
    requires Writable(item)
    ensures ParseLoop(apply, m, Encode(item) + rest) ==
      match apply(m, item) case None => Failed case Some(m') => ParseLoop(apply, m', rest)
  {
    ReadEncodedItem(item, rest);
    assert Encode(item) + rest != [];
  }

  /** Parsing written fields, followed by anything, is applying them and going on. */
  lemma {:induction false} ParseFields<M>(apply: (M, Item) -> Option<M>, m: M, fields: Fields, rest: bytes)
    requires Plain(fields) && TotalSize(fields) < TWO_64
    ensures ParseLoop(apply, m, EncodeFields(fields) + rest) ==
      match ApplyFields(apply, m, fields) case None => Failed case Some(m') => ParseLoop(apply, m', rest)
  {
    match fields
    case NoMore =>
      assert EncodeFields(fields) + rest == rest;
    case Field(present, item, more) =>
      if !present {
        assert EncodeFields(fields) == EncodeFields(more);
        ParseFields(apply, m, more, rest);
      } else {
        PresentIsWritable(fields);
        ParseItem(apply, m, item, EncodeFields(more) + rest);
        Regroup(Encode(item), EncodeFields(more), rest);
        if apply(m, item).Some? {
          ParseFields(apply, apply(m, item).value, more, rest);
        }
      }
  }

  /** When nothing follows, the whole buffer has been parsed. */
  lemma ParseWhole<M>(apply: (M, Item) -> Option<M>, m: M, s: bytes, m': M)
    requires ParseLoop(apply, m, s + []) == ParseLoop(apply, m', [])
    ensures Parse(apply, m, s) == Some(m')
  {
    assert s + [] == s;
  }

  // ---------------------------------------------------------------- one turn of a parse or write loop

  /** A length-delimited field is due: what the rest of the loop makes of it. */
  lemma TextTurn<M>(apply: (M, Item) -> Option<M>, m: M, s: bytes, tag: nat, rest: bytes)
    requires s != [] && ReadTag(s) == Some((tag, rest)) && tag % 8 == 2 && tag / 8 > 0
    ensures ParseLoop(apply, m, s) ==
      match ReadDelimited(rest)
      case None => Failed
      case Some((b, after)) =>
        match apply(m, Bytes(tag / 8, b))
        case None => Failed
        case Some(m') => ParseLoop(apply, m', after)
  {
  }

  lemma NumberTurn<M>(apply: (M, Item) -> Option<M>, m: M, s: bytes, tag: nat, rest: bytes)
    requires s != [] && ReadTag(s) == Some((tag, rest)) && tag % 8 == 0 && tag / 8 > 0
    ensures ParseLoop(apply, m, s) ==
      match ReadVarint(rest)
      case None => Failed
      case Some((v, after)) =>
        match apply(m, Varint(tag / 8, v))
        case None => Failed
        case Some(m') => ParseLoop(apply, m', after)
  {
  }

  /** `apply` has no case for what a field with this tag reads as. */
  ghost predicate Ignores<M>(apply: (M, Item) -> Option<M>, m: M, tag: nat) {
    forall item: Item :: item.num == tag / 8 && (item.Varint? <==> tag % 8 == 0) && (item.Bytes? <==> tag % 8 == 2) ==>
      apply(m, item) == Some(m)
  }

  lemma UnusualTurn<M>(apply: (M, Item) -> Option<M>, m: M, s: bytes, tag: nat, rest: bytes)
    requires s != [] && ReadTag(s) == Some((tag, rest)) && !Ends(tag) && Ignores(apply, m, tag)
    ensures ParseLoop(apply, m, s) ==
      match if tag / 8 == 0 then None else Skip(tag % 8, tag / 8, rest)
      case None => Failed
      case Some(after) => ParseLoop(apply, m, after)
  {
    var read := ReadItem(s);
    if read.Got? {
      assert apply(m, read.item) == Some(m);
    }
  }

  /** Writing the next field moves it from what is due to what is written. */
  lemma WriteTurn(out: bytes, fields: Fields)
    requires fields.Field?
    ensures out + EncodeFields(fields) == (if fields.present then out + Encode(fields.item) else out) + EncodeFields(fields.more)
  {
    var due := EncodeFields(fields.more);
    assert out + (Encode(fields.item) + due) == out + Encode(fields.item) + due;
    assert [] + due == due;
  }

  // ---------------------------------------------------------------- fields nobody declared

  /** A field as a later version of a message may send it: any number, any of the five wire types. */
  datatype Unknown =
    | AnyVarint(num: nat, value: nat)
    | AnyEight(num: nat, body: bytes)
    | AnyBytes(num: nat, body: bytes)
    | AnyGroup(num: nat, fields: Unknowns)
    | AnyFour(num: nat, body: bytes)

  datatype Unknowns = NoUnknown | Unknowns(first: Unknown, more: Unknowns)

  predicate Sendable(u: Unknown) {
    && 0 < u.num < 0x2000_0000
    && match u
       case AnyVarint(_, v) => v < TWO_64
       case AnyEight(_, b) => |b| == 8
       case AnyBytes(_, b) => |b| < TWO_64
       case AnyGroup(_, fields) => AllSendable(fields)
       case AnyFour(_, b) => |b| == 4
  }

  predicate AllSendable(us: Unknowns) {
    match us case NoUnknown => true case Unknowns(u, more) => Sendable(u) && AllSendable(more)
  }

  function WireType(u: Unknown): nat {
    match u case AnyVarint(_, _) => 0 case AnyEight(_, _) => 1 case AnyBytes(_, _) => 2 case AnyGroup(_, _) => 3 case AnyFour(_, _) => 5
  }

  function BodyOf(u: Unknown): bytes
    decreases u, 0
  {
    match u
    case AnyVarint(_, v) => EncodeVarint(v)
    case AnyEight(_, b) => b
    case AnyBytes(_, b) => EncodeVarint(|b|) + b
    case AnyGroup(num, fields) => EncodeUnknowns(fields) + EncodeVarint(num * 8 + 4)
    case AnyFour(_, b) => b
  }

  function EncodeUnknown(u: Unknown): bytes
    decreases u, 1
  {
    EncodeVarint(u.num * 8 + WireType(u)) + BodyOf(u)
  }

  function EncodeUnknowns(us: Unknowns): bytes
    decreases us, 2
  {
    match us case NoUnknown => [] case Unknowns(u, more) => EncodeUnknown(u) + EncodeUnknowns(more)
  }

  lemma {:induction false} SkipsBody(u: Unknown, rest: bytes)
    requires Sendable(u)
    ensures Skip(WireType(u), u.num, BodyOf(u) + rest) == Some(rest)
    decreases u, 1
  {
    match u
    case AnyVarint(_, v) => ReadEncoded(v, rest);
    case AnyEight(_, b) => assert (b + rest)[8..] == rest;
    case AnyBytes(_, b) => ReadEncodedBody(b, rest);
    case AnyGroup(num, fields) =>
      Regroup(EncodeUnknowns(fields), EncodeVarint(num * 8 + 4), rest);
      SkipsGroup(num, fields, rest);
    case AnyFour(_, b) => assert (b + rest)[4..] == rest;
  }

  /** The fields of a group, and groups in it, up to its own end tag. */
  lemma {:induction false} SkipsGroup(num: nat, us: Unknowns, rest: bytes)
    requires 0 < num < 0x2000_0000 && AllSendable(us)
    ensures SkipGroup(num, EncodeUnknowns(us) + (EncodeVarint(num * 8 + 4) + rest)) == Some(rest)
    decreases us, 0
  {
    var tail := EncodeVarint(num * 8 + 4) + rest;
    match us
    case NoUnknown =>
      assert EncodeUnknowns(us) + tail == tail;
      ReadEncodedTag(num, 4, rest);
    case Unknowns(u, more) =>
      var after := EncodeUnknowns(more) + tail;
      SkipsGroup(num, more, rest);
      SkipsBody(u, after);
      GroupTurn(num, u, EncodeUnknowns(us) + tail, after) by {
        Regroup(EncodeUnknown(u), EncodeUnknowns(more), tail);
        Regroup(EncodeVarint(u.num * 8 + WireType(u)), BodyOf(u), after);
      }
  }

  lemma GroupTurn(num: nat, u: Unknown, s: bytes, after: bytes)
    requires Sendable(u) && s == EncodeVarint(u.num * 8 + WireType(u)) + (BodyOf(u) + after)
    requires Skip(WireType(u), u.num, BodyOf(u) + after) == Some(after)
    ensures SkipGroup(num, s) == SkipGroup(num, after)
  {
    ReadEncodedTag(u.num, WireType(u), BodyOf(u) + after);
    GroupStep(num, s, u.num * 8 + WireType(u), BodyOf(u) + after, after);
  }

  lemma GroupStep(num: nat, s: bytes, tag: nat, rest: bytes, after: bytes)
    requires ReadTag(s) == Some((tag, rest)) && tag % 8 != 4 && tag / 8 > 0
    requires Skip(tag % 8, tag / 8, rest) == Some(after)
    ensures SkipGroup(num, s) == SkipGroup(num, after)
  {
  }

  /** A field that a message has no case for is passed by, whatever its wire type: the rest parses as if it were not there. */
  lemma UnknownIsPassedBy<M>(apply: (M, Item) -> Option<M>, m: M, u: Unknown, rest: bytes)
    requires Sendable(u) && Ignores(apply, m, u.num * 8 + WireType(u))
    ensures ParseLoop(apply, m, EncodeUnknown(u) + rest) == ParseLoop(apply, m, rest)
  {
    var tag, body := u.num * 8 + WireType(u), BodyOf(u) + rest;
    Regroup(EncodeVarint(tag), BodyOf(u), rest);
    ReadEncodedTag(u.num, WireType(u), body);
    SkipsBody(u, rest);
    UnusualTurn(apply, m, EncodeUnknown(u) + rest, tag, body);
  }

  // ---------------------------------------------------------------- where parsing stops

  /** A zero tag, or an end-group tag outside its group, stops the message and is left to the caller. */
  lemma StopsAtEnd<M>(apply: (M, Item) -> Option<M>, m: M, num: nat, rest: bytes)
    requires 0 < num < 0x2000_0000
    ensures ParseLoop(apply, m, EncodeVarint(num * 8 + 4) + rest) == Stopped(m, num * 8 + 4, rest)
    ensures ParseLoop(apply, m, [0] + rest) == Stopped(m, 0, rest)
  {
    ReadEncodedTag(num, 4, rest);
    StopTurn(apply, m, EncodeVarint(num * 8 + 4) + rest, num * 8 + 4, rest);
    ReadEncoded(0, rest);
    assert EncodeVarint(0) == [0];
    StopTurn(apply, m, [0] + rest, 0, rest);
  }

  lemma StopTurn<M>(apply: (M, Item) -> Option<M>, m: M, s: bytes, tag: nat, rest: bytes)
    requires s != [] && ReadTag(s) == Some((tag, rest)) && (tag == 0 || tag % 8 == 4)
    ensures ParseLoop(apply, m, s) == Stopped(m, tag, rest)
  {
  }

  /** A record cut short is an error: a length beyond the end, a fixed-width number with too few bytes, a varint without a last byte. */
  lemma CutShortIsRefused(n: nat, s: bytes)
    requires n < TWO_64
    ensures |s| < n ==> ReadDelimited(EncodeVarint(n) + s) == None
    ensures |s| < 8 ==> Skip(1, 0, s) == None
    ensures |s| < 4 ==> Skip(5, 0, s) == None
    ensures (forall i :: 0 <= i < |s| ==> s[i] >= 128) ==> ReadVarint(s) == None
  {
    ReadEncoded(n, s);
    if forall i :: 0 <= i < |s| ==> s[i] >= 128 {
      NoLastByte(s, 10);
    }
  }

  lemma {:induction false} NoLastByte(s: bytes, k: nat)
    requires forall i :: 0 <= i < |s| ==> s[i] >= 128
    ensures ReadGroups(s, k) == None
  {
    if k > 0 && s != [] {
      NoLastByte(s[1..], k - 1);
    }
  }

  /** A group is ended by its own number only. */
  lemma GroupNeedsItsOwnEnd(num: nat, other: nat, rest: bytes)
    requires 0 < other < 0x2000_0000
    ensures SkipGroup(num, EncodeVarint(other * 8 + 4) + rest) == if other == num then Some(rest) else None
  {
    ReadEncodedTag(other, 4, rest);
  }
}
