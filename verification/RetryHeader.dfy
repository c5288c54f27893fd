/**
 The attempt count that travels inside a message body (common/rabbitmq.hpp): `n|payload`.
 Characters stand for bytes. std::stoi is modelled whole: leading blanks, a sign, the longest
 run of digits, anything after it ignored, and an exception when there is no digit or the value
 does not fit an int.
 */
module RetryHeader {
  import opened Options

  const INT_MIN: int := -0x8000_0000
  const INT_MAX: int := 0x7fff_ffff

  predicate Fits(n: int) { INT_MIN <= n <= INT_MAX }

  predicate IsDigit(c: char) { '0' <= c <= '9' }

  predicate IsBlank(c: char) { c == ' ' || '\t' as int <= c as int <= '\r' as int }

  function DigitChar(d: int): (c: char)
    requires 0 <= d < 10
    ensures IsDigit(c) && c as int - '0' as int == d
  {
    ('0' as int + d) as char
  }

  function Digits(n: nat): string {
    if n < 10 then [DigitChar(n)] else Digits(n / 10) + [DigitChar(n % 10)]
  }

  /** std::to_string(int). */
  function ToString(n: int): string { if n < 0 then "-" + Digits(-n) else Digits(n) }

  /** The number a run of digits writes. */
  function Value(digits: string): nat
    requires forall i :: 0 <= i < |digits| ==> IsDigit(digits[i])
  {
    if digits == [] then 0
    else
      var last := digits[|digits| - 1];
      assert IsDigit(last);
      Value(digits[..|digits| - 1]) * 10 + (last as int - '0' as int)
  }

  /** The length of the longest run of digits that starts s. */
  function RunLength(s: string): (r: nat)
    ensures r <= |s| && (forall i :: 0 <= i < r ==> IsDigit(s[i])) && (r < |s| ==> !IsDigit(s[r]))
  {
    if s == [] || !IsDigit(s[0]) then 0 else 1 + RunLength(s[1..])
  }

  function SkipBlanks(s: string): string {
    if s != [] && IsBlank(s[0]) then SkipBlanks(s[1..]) else s
  }

  function Unsigned(s: string): Option<nat> {
    if RunLength(s) == 0 then None else Some(Value(s[..RunLength(s)]))
  }

  /** std::stoi; None is an exception. */
  function Stoi(text: string): Option<int> {
    var s := SkipBlanks(text);
    var negative := s != [] && s[0] == '-';
    var magnitude := Unsigned(if negative || (s != [] && s[0] == '+') then s[1..] else s);
    if magnitude.None? then None
    else
      var n: int := if negative then 0 - magnitude.value else magnitude.value;
      if Fits(n) then Some(n) else None
  }

  function Find(s: string, c: char): (r: Option<nat>)
    ensures r.None? <==> c !in s
    ensures r.Some? ==> r.value < |s| && s[r.value] == c && c !in s[..r.value]
  {
    if s == [] then None
    else if s[0] == c then Some(0)
    else
      var rest := Find(s[1..], c);
      if rest.None? then None else
        assert s[..rest.value + 1] == [s[0]] + s[1..][..rest.value];
        Some(rest.value + 1)
  }

  datatype Body = Body(count: int, payload: string)

  function BuildBody(count: int, payload: string): string { ToString(count) + "|" + payload }

  /** What the consumer reads from a body; None when stoi throws. */
  function Parse(body: string): Option<Body> {
    var pos := Find(body, '|');
    if pos.None? then Some(Body(0, body))
    else
      var count := Stoi(body[..pos.value]);
      if count.None? then None else Some(Body(count.value, body[pos.value + 1..]))
  }

  /** The payload part alone, whether or not the count can be read. */
  function Payload(body: string): string {
    var pos := Find(body, '|');
    if pos.None? then body else body[pos.value + 1..]
  }

  lemma {:induction false} DigitsReadBack(n: nat)
    ensures Digits(n) != [] && (forall i :: 0 <= i < |Digits(n)| ==> IsDigit(Digits(n)[i]))
    ensures Value(Digits(n)) == n
  {
    if n >= 10 {
      DigitsReadBack(n / 10);
      var ds := Digits(n);
      assert ds[..|ds| - 1] == Digits(n / 10);
    } else {
      assert [DigitChar(n)][..0] == [];
    }
  }

  lemma UnsignedReadsDigits(n: nat)
    ensures Unsigned(Digits(n)) == Some(n)
  {
    DigitsReadBack(n);
    var r := RunLength(Digits(n));
    assert r == |Digits(n)|;
    assert Digits(n)[..r] == Digits(n);
  }

  lemma SignedReadsBack(n: nat)
    ensures Digits(n) != [] && '|' !in Digits(n) && SkipBlanks(Digits(n)) == Digits(n) && Digits(n)[0] != '-' && Digits(n)[0] != '+'
    ensures SkipBlanks("-" + Digits(n)) == "-" + Digits(n) && ("-" + Digits(n))[1..] == Digits(n)
  {
    DigitsReadBack(n);
  }

  lemma StoiToString(n: int)
    requires Fits(n)
    ensures Stoi(ToString(n)) == Some(n) && '|' !in ToString(n)
  {
    var magnitude := if n < 0 then -n else n;
    SignedReadsBack(magnitude);
    UnsignedReadsDigits(magnitude);
  }

  lemma {:induction false} FindAfter(a: string, b: string, c: char)
    requires c !in a
    ensures Find(a + [c] + b, c) == Some(|a|)
  {
    if a != [] {
      assert (a + [c] + b)[0] == a[0] && (a + [c] + b)[1..] == a[1..] + [c] + b;
      assert c !in a[1..];
      FindAfter(a[1..], b, c);
    }
  }

  /** The count and the payload come back, whatever bytes the payload holds. */
  lemma HeaderRoundTrip(count: int, payload: string)
    requires Fits(count)
    ensures Parse(BuildBody(count, payload)) == Some(Body(count, payload))
  {
    StoiToString(count);
    var head := ToString(count);
    FindAfter(head, payload, '|');
    var body := head + "|" + payload;
    assert body[..|head|] == head;
    assert body[|head| + 1..] == payload;
  }

  /** A first publish without a header reaches the callback as it is exactly when it has no '|'. */
  lemma RawIsReadWholeIff(raw: string)
    ensures Parse(raw) == Some(Body(0, raw)) <==> '|' !in raw
  {
    if '|' in raw && Parse(raw).Some? {
      assert |Parse(raw).value.payload| < |raw|;
    }
  }

  lemma ParseGivesPayload(body: string)
    requires Parse(body).Some?
    ensures Parse(body).value.payload == Payload(body) && Fits(Parse(body).value.count)
  {
  }

  // ---------------------------------------------------------------- which headers can be read

  predicate AllDigits(s: string) { forall i :: 0 <= i < |s| ==> '0' <= s[i] <= '9' }

  /** Decimal, most significant digit first, on the writing and on the reading side. */
  lemma DigitsAreDecimal(n: nat, d: nat)
    requires d < 10
    ensures Digits(d) == [('0' as int + d) as char]
    ensures n > 0 ==> Digits(10 * n + d) == Digits(n) + [('0' as int + d) as char]
  {
    assert n > 0 ==> (10 * n + d) / 10 == n && (10 * n + d) % 10 == d;
  }

  lemma ValueIsDecimal(digits: string, c: char)
    requires AllDigits(digits) && '0' <= c <= '9'
    ensures Value([]) == 0 && Value(digits + [c]) == 10 * Value(digits) + (c as int - '0' as int)
  {
    assert (digits + [c])[..|digits|] == digits;
  }

  /** Blanks, an optional sign, digits, and a rest that does not go on with a digit. */
  predicate IsNumeral(text: string, blanks: string, sign: string, digits: string, rest: string) {
    && text == blanks + sign + digits + rest
    && (forall i :: 0 <= i < |blanks| ==> IsBlank(blanks[i]))
    && (sign == "" || sign == "+" || sign == "-")
    && digits != [] && AllDigits(digits)
    && (rest == [] || !('0' <= rest[0] <= '9'))
  }

  function Signed(sign: string, digits: string): int
    requires AllDigits(digits)
  {
    if sign == "-" then 0 - Value(digits) else Value(digits)
  }

  lemma {:induction false} BlanksSkipped(blanks: string, s: string)
    requires forall i :: 0 <= i < |blanks| ==> IsBlank(blanks[i])
    requires s == [] || !IsBlank(s[0])
    ensures SkipBlanks(blanks + s) == s
  {
    if blanks == [] {
      assert blanks + s == s;
    } else {
      assert (blanks + s)[1..] == blanks[1..] + s;
      BlanksSkipped(blanks[1..], s);
    }
  }

  lemma {:induction false} SkippedAreBlanks(s: string) returns (blanks: string)
    ensures s == blanks + SkipBlanks(s) && forall i :: 0 <= i < |blanks| ==> IsBlank(blanks[i])
  {
    if s != [] && IsBlank(s[0]) {
      var more := SkippedAreBlanks(s[1..]);
      blanks := [s[0]] + more;
      assert s == [s[0]] + s[1..];
    } else {
      blanks := "";
    }
  }

  lemma {:induction false} RunOf(digits: string, rest: string)
    requires AllDigits(digits) && (rest == [] || !IsDigit(rest[0]))
    ensures RunLength(digits + rest) == |digits|
  {
    if digits == [] {
      assert digits + rest == rest;
    } else {
      assert (digits + rest)[0] == digits[0] && (digits + rest)[1..] == digits[1..] + rest;
      RunOf(digits[1..], rest);
    }
  }

  lemma NumeralIsRead(text: string, blanks: string, sign: string, digits: string, rest: string)
    requires IsNumeral(text, blanks, sign, digits, rest)
    ensures Stoi(text) == if Fits(Signed(sign, digits)) then Some(Signed(sign, digits)) else None
  {
    var tail := digits + rest;
    var s := sign + tail;
    assert text == blanks + s && s != [] && s[0] == if sign == "" then digits[0] else sign[0];
    BlanksSkipped(blanks, s);
    RunOf(digits, rest);
    assert sign != "" ==> s[1..] == tail;
    assert sign == "" ==> s == tail;
    assert tail[..|digits|] == digits;
  }

  lemma Regroup(a: string, b: string, c: string, d: string)
    ensures a + (b + (c + d)) == a + b + c + d
  {
  }

  function SignOf(s: string): string { if s != [] && (s[0] == '-' || s[0] == '+') then [s[0]] else "" }

  lemma ReadIsNumeral(text: string) returns (blanks: string, sign: string, digits: string, rest: string)
    requires Stoi(text).Some?
    ensures IsNumeral(text, blanks, sign, digits, rest)
  {
    StoiReadsARun(text);
    blanks, sign, digits, rest := Parts(text);
  }

  lemma Parts(text: string) returns (blanks: string, sign: string, digits: string, rest: string)
    requires var s := SkipBlanks(text); RunLength(s[|SignOf(s)|..]) > 0
    ensures IsNumeral(text, blanks, sign, digits, rest)
  {
    blanks := SkippedAreBlanks(text);
    var s := SkipBlanks(text);
    sign := SignOf(s);
    var tail := s[|sign|..];
    digits, rest := tail[..RunLength(tail)], tail[RunLength(tail)..];
    assert s == sign + tail;
    assert text == blanks + (sign + tail);
    Assembled(blanks, sign, tail);
  }

  lemma Assembled(blanks: string, sign: string, tail: string)
    requires forall i :: 0 <= i < |blanks| ==> IsBlank(blanks[i])
    requires (sign == "" || sign == "+" || sign == "-") && RunLength(tail) > 0
    ensures IsNumeral(blanks + (sign + tail), blanks, sign, tail[..RunLength(tail)], tail[RunLength(tail)..])
  {
    var run := RunLength(tail);
    assert tail == tail[..run] + tail[run..];
    Regroup(blanks, sign, tail[..run], tail[run..]);
  }

  lemma StoiReadsARun(text: string)
    requires Stoi(text).Some?
    ensures var s := SkipBlanks(text); RunLength(s[|SignOf(s)|..]) > 0
  {
  }

  /** stoi gives n exactly for texts that begin, after blanks, with a numeral of that value, if it fits an int; otherwise it throws. */
  lemma StoiIff(text: string, n: int)
    ensures Stoi(text) == Some(n) <==>
      Fits(n) && exists blanks, sign, digits, rest :: IsNumeral(text, blanks, sign, digits, rest) && Signed(sign, digits) == n
  {
    if Stoi(text).Some? {
      var blanks, sign, digits, rest := ReadIsNumeral(text);
      NumeralIsRead(text, blanks, sign, digits, rest);
    }
    forall blanks, sign, digits, rest | IsNumeral(text, blanks, sign, digits, rest)
      ensures Fits(Signed(sign, digits)) ==> Stoi(text) == Some(Signed(sign, digits))
    {
      NumeralIsRead(text, blanks, sign, digits, rest);
    }
  }

  /** A plain message with a '|' whose part before it begins with no number, such as "a|b", makes the consumer throw. */
  lemma TextBeforeBarThrows(head: string, payload: string)
    requires '|' !in head
    requires head == "" || !(IsBlank(head[0]) || IsDigit(head[0]) || head[0] == '+' || head[0] == '-')
    ensures Parse(head + "|" + payload) == None
  {
    FindAfter(head, payload, '|');
    assert (head + "|" + payload)[..|head|] == head;
  }
}
