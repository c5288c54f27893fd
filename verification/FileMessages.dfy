/**
 GetMultiFileReq of file.proto: a repeated field whose parser (qps_test_login/file.pb.cc) has a
 fast path, an inner loop that swallows a run of records with the same tag.
 */
module FileMessages {
  import opened Options
  import opened Wire
  import opened Utf8
  import opened BaseObjects
  import B = BaseMessages

  datatype MultiReq = MultiReq(requestId: bytes, userId: Option<bytes>, sessionId: Option<bytes>, fileIds: seq<bytes>)

  function ReqFields(x: MultiReq): (fields: Fields)
    ensures Plain(fields)
  {
    B.Text(1, x.requestId, B.Opt(2, x.userId, B.Opt(3, x.sessionId, Repeated(4, x.fileIds))))
  }

  function Serialize(x: MultiReq): bytes { EncodeFields(ReqFields(x)) }

  function Apply(m: MultiReq, item: Item): Option<MultiReq> {
    match item
    case Bytes(1, b) => if ValidUtf8(b) then Some(m.(requestId := b)) else None
    case Bytes(2, b) => if ValidUtf8(b) then Some(m.(userId := Some(b))) else None
    case Bytes(3, b) => if ValidUtf8(b) then Some(m.(sessionId := Some(b))) else None
    case Bytes(4, b) => if ValidUtf8(b) then Some(m.(fileIds := m.fileIds + [b])) else None
    case _ => Some(m)
  }

  function Merge(m: MultiReq, x: MultiReq): MultiReq {
    MultiReq(B.Keep(m.requestId, x.requestId), B.Prefer(m.userId, x.userId), B.Prefer(m.sessionId, x.sessionId), m.fileIds + x.fileIds)
  }

  predicate AllUtf8(list: seq<bytes>) { forall i :: 0 <= i < |list| ==> ValidUtf8(list[i]) }

  predicate ReqUtf8(x: MultiReq) {
    ValidUtf8(x.requestId) && B.OptUtf8(x.userId) && B.OptUtf8(x.sessionId) && AllUtf8(x.fileIds)
  }

  lemma ApplyList(m: MultiReq, list: seq<bytes>)
    requires AllUtf8(list)
    ensures ApplyFields(Apply, m, Repeated(4, list)) == Some(m.(fileIds := m.fileIds + list))
  {
    var states := seq(|list| + 1, i requires 0 <= i <= |list| => m.(fileIds := m.fileIds + list[..i]));
    forall i | 0 <= i < |list| ensures Apply(states[i], Bytes(4, list[i])) == Some(states[i + 1]) {
      assert m.fileIds + list[..i] + [list[i]] == m.fileIds + list[..i + 1];
    }
    assert m.fileIds + list[..0] == m.fileIds && list[..|list|] == list;
    ApplyRepeated(Apply, 4, list, states);
  }

  /** One record with tag 34 for each element, in order. */
  function Records(list: seq<bytes>): bytes {
    if list == [] then [] else B.Record(0x22, list[0]) + Records(list[1..])
  }

  lemma {:induction false} RepeatedLayout(list: seq<bytes>)
    ensures EncodeFields(Repeated(4, list)) == Records(list)
  {
    if list != [] {
      B.EncodedRecord(4, list[0]);
      RepeatedLayout(list[1..]);
    }
  }

  /** Each field of file.proto under its own number and wire type, in order. */
  lemma ReqLayout(x: MultiReq)
    ensures Serialize(x) == B.TextRecord(0x0A, x.requestId) + B.OptRecord(0x12, x.userId)
      + (B.OptRecord(0x1A, x.sessionId) + Records(x.fileIds))
  {
    B.EncodedRecord(1, x.requestId);
    B.EncodedRecord(2, if x.userId.Some? then x.userId.value else []);
    B.EncodedRecord(3, if x.sessionId.Some? then x.sessionId.value else []);
    B.TwoFields(ReqFields(x));
    RepeatedLayout(x.fileIds);
  }

  /** A record sets its own field and no other, if it is UTF-8; the list gets one more element. */
  lemma ReqRecordSets(m: MultiReq, b: bytes)
    ensures ValidUtf8(b) ==>
      && Apply(m, Bytes(1, b)) == Some(MultiReq(b, m.userId, m.sessionId, m.fileIds))
      && Apply(m, Bytes(2, b)) == Some(MultiReq(m.requestId, Some(b), m.sessionId, m.fileIds))
      && Apply(m, Bytes(3, b)) == Some(MultiReq(m.requestId, m.userId, Some(b), m.fileIds))
      && Apply(m, Bytes(4, b)) == Some(MultiReq(m.requestId, m.userId, m.sessionId, m.fileIds + [b]))
    ensures !ValidUtf8(b) ==> forall num :: 1 <= num <= 4 ==> Apply(m, Bytes(num, b)) == None
  {
  }

  /** Parsing a serialized request into a request is merging: the lists are appended. */
  lemma ParseReqIsMerge(m: MultiReq, x: MultiReq, rest: bytes)
    requires ReqUtf8(x) && TotalSize(ReqFields(x)) <= B.INT_MAX
    ensures ParseLoop(Apply, m, Serialize(x) + rest) == ParseLoop(Apply, Merge(m, x), rest)
  {
    var f := ReqFields(x);
    var m1 := m.(requestId := B.Keep(m.requestId, x.requestId));
    var m2 := m1.(userId := B.Prefer(m.userId, x.userId));
    var m3 := m2.(sessionId := B.Prefer(m.sessionId, x.sessionId));
    assert ApplyFields(Apply, m, f) == ApplyFields(Apply, m1, f.more);
    assert ApplyFields(Apply, m1, f.more) == ApplyFields(Apply, m2, f.more.more);
    assert ApplyFields(Apply, m2, f.more.more) == ApplyFields(Apply, m3, f.more.more.more);
    ApplyList(m3, x.fileIds);
    ParseFields(Apply, m, f, rest);
  }

  function FourthBody(item: Item): seq<bytes> { if item.Bytes? && item.num == 4 then [item.body] else [] }

  /** For every input that parses, the list is what it was plus every record of field 4, in order, whatever stands between them. */
  lemma ListIsEveryRecord(m: MultiReq, s: bytes)
    requires !ParseLoop(Apply, m, s).Failed?
    ensures ParseLoop(Apply, m, s).message.fileIds == m.fileIds + Collect(FourthBody, s)
  {
    CollectedInOrder(Apply, (m: MultiReq) => m.fileIds, FourthBody, m, s);
  }

  /** Sum of the sizes of a list of strings with their length prefixes. */
  function SumSizes(list: seq<bytes>): nat {
    if list == [] then 0 else SumSizes(list[..|list| - 1]) + B.StringSize(list[|list| - 1])
  }

  lemma {:induction false} SumSizesHead(list: seq<bytes>)
    requires list != []
    ensures SumSizes(list) == B.StringSize(list[0]) + SumSizes(list[1..])
  {
    if |list| > 1 {
      SumSizesHead(list[..|list| - 1]);
      assert list[..|list| - 1][1..] == list[1..][..|list| - 2];
    }
  }

  lemma {:induction false} RepeatedSize(list: seq<bytes>)
    ensures TotalSize(Repeated(4, list)) == |list| + SumSizes(list)
  {
    if list != [] {
      SumSizesHead(list);
      RepeatedSize(list[1..]);
    }
  }

  lemma {:induction false} EachInSum(list: seq<bytes>, i: nat)
    requires i < |list|
    ensures |list[i]| <= SumSizes(list)
  {
    if i < |list| - 1 {
      EachInSum(list[..|list| - 1], i);
    }
  }

  class GetMultiFileReq {
    var hasBits: bv32
    var fileIdList: seq<bytes>
    var requestId: bytes
    var userId: bytes
    var sessionId: bytes

    constructor ()
      ensures View() == MultiReq([], None, None, [])
    {
      hasBits, fileIdList, requestId, userId, sessionId := 0, [], [], [], [];
    }

    ghost function View(): MultiReq
      reads this
    {
      MultiReq(requestId, if hasBits & 1 != 0 then Some(userId) else None, if hasBits & 2 != 0 then Some(sessionId) else None, fileIdList)
    }

    method Clear()
      modifies this
      ensures View() == MultiReq([], None, None, [])
    {
      fileIdList := [];
      requestId := [];
      if hasBits & 3 != 0 {
        if hasBits & 1 != 0 { userId := []; }
        if hasBits & 2 != 0 { sessionId := []; }
      }
      hasBits := 0;
    }

    method MergeFrom(from: GetMultiFileReq)
      requires from != this
      modifies this
      ensures View() == Merge(old(View()), from.View())
    {
      fileIdList := fileIdList + from.fileIdList;
      if |from.requestId| > 0 { requestId := from.requestId; }
      var bits := from.hasBits;
      if bits & 3 != 0 {
        if bits & 1 != 0 { hasBits, userId := hasBits | 1, from.userId; }
        if bits & 2 != 0 { hasBits, sessionId := hasBits | 2, from.sessionId; }
      }
    }

    method ByteSizeLong() returns (total: nat)
      ensures total == |Serialize(View())|
    {
      total := |fileIdList|;
      for i := 0 to |fileIdList|
        invariant total == |fileIdList| + SumSizes(fileIdList[..i])
      {
        total := total + B.StringSize(fileIdList[i]);
        assert fileIdList[..i + 1][..i] == fileIdList[..i];
      }
      assert fileIdList[..|fileIdList|] == fileIdList;
      if |requestId| > 0 { total := total + 1 + B.StringSize(requestId); }
      if hasBits & 3 != 0 {
        if hasBits & 1 != 0 { total := total + 1 + B.StringSize(userId); }
        if hasBits & 2 != 0 { total := total + 1 + B.StringSize(sessionId); }
      }
      RepeatedSize(fileIdList);
      ReqSize(View());
    }

    method InternalSerialize(target: bytes) returns (out: bytes)
      ensures out == target + Serialize(View())
    {
      ghost var f := ReqFields(View());
      out := target;
      WriteTurn(out, f);
      if |requestId| > 0 { out := out + Encode(Bytes(1, requestId)); }
      WriteTurn(out, f.more);
      if hasBits & 1 != 0 { out := out + Encode(Bytes(2, userId)); }
      WriteTurn(out, f.more.more);
      if hasBits & 2 != 0 { out := out + Encode(Bytes(3, sessionId)); }
      out := WriteList(out);
    }

    method WriteList(target: bytes) returns (out: bytes)
      ensures out == target + EncodeFields(Repeated(4, fileIdList))
    {
      out := target;
      assert fileIdList[0..] == fileIdList;
      for i := 0 to |fileIdList|
        invariant out + EncodeFields(Repeated(4, fileIdList[i..])) == target + EncodeFields(Repeated(4, fileIdList))
      {
        WriteTurn(out, Repeated(4, fileIdList[i..]));
        assert fileIdList[i..][1..] == fileIdList[i + 1..];
        out := out + Encode(Bytes(4, fileIdList[i]));
      }
    }

    method InternalParse(input: bytes) returns (end: ParseEnd)
      modifies this
      ensures Agrees(ParseLoop(Apply, old(View()), input), end, View())
    {
      var ptr := input;
      while ptr != []
        invariant ParseLoop(Apply, View(), ptr) == ParseLoop(Apply, old(View()), input)
        decreases |ptr|
      {
        var turn := ParseTurn(ptr);
        if turn.Halt? { return turn.end; }
        ptr := turn.rest;
      }
      end := AtEnd;
    }

    method ParseTurn(ptr: bytes) returns (turn: Turn)
      requires ptr != []
      modifies this
      ensures IsTurn(Apply, old(View()), ptr, turn, View())
    {
      var read := ReadTag(ptr);
      if read.None? { return Halt(Failure); }
      var tag, rest := read.value.0, read.value.1;
      if tag == 10 || tag == 18 || tag == 26 {
        TextTurn(Apply, View(), ptr, tag, rest);
        var text := ReadDelimited(rest);
        if text.None? { return Halt(Failure); }
        var b := text.value.0;
        if tag == 10 { requestId := b; }
        else if tag == 18 { hasBits, userId := hasBits | 1, b; }
        else { hasBits, sessionId := hasBits | 2, b; }
        turn := if ValidUtf8(b) then Next(text.value.1) else Halt(Failure);
      } else if tag == 34 {
        TextTurn(Apply, View(), ptr, tag, rest);
        turn := ParseRun(rest);
        TextTurn(Apply, old(View()), [34] + rest, 34, rest) by { ReadOneByteTag(34, rest); }
      } else if Ends(tag) {
        turn := Halt(AtTag(tag, rest));
      } else {
        UnusualTurn(Apply, View(), ptr, tag, rest);
        var skipped := Unusual(tag, rest);
        turn := if skipped.Some? then Next(skipped.value) else Halt(Failure);
      }
    }

    /**
     The fast path, entered behind a first tag 34: take one element after another for as long as
     the next byte is 34 again. It leaves the list and the position where reading the same
     records one per turn of the outer loop would.
     */
    method ParseRun(afterTag: bytes) returns (turn: Turn)
      modifies this`fileIdList
      ensures turn.Next? ==> |turn.rest| < |afterTag|
      ensures IsTurn(Apply, old(View()), [34] + afterTag, turn, View())
      ensures turn.Next? ==> turn.rest == [] || turn.rest[0] != 34
    {
      var ptr := afterTag;
      ghost var spec := ParseLoop(Apply, View(), [34] + afterTag);
      while true
        invariant |ptr| <= |afterTag|
        invariant ParseLoop(Apply, View(), [34] + ptr) == spec
        decreases |ptr|
      {
        ElementTurn(View(), ptr);
        var text := ReadDelimited(ptr);
        if text.None? { return Halt(Failure); }
        fileIdList := fileIdList + [text.value.0];
        if !ValidUtf8(text.value.0) { return Halt(Failure); }
        ptr := text.value.1;
        if ptr == [] || ptr[0] != 34 {
          return Next(ptr);
        }
        assert [34] + ptr[1..] == ptr;
        ptr := ptr[1..];
      }
    }
  }

  /** A record of field 4 behind its tag: its body is appended, if it is text. */
  lemma ElementTurn(m: MultiReq, ptr: bytes)
    ensures ParseLoop(Apply, m, [34] + ptr) ==
      match ReadDelimited(ptr)
      case None => Failed
      case Some((b, after)) => if ValidUtf8(b) then ParseLoop(Apply, m.(fileIds := m.fileIds + [b]), after) else Failed
  {
    ReadOneByteTag(34, ptr);
    TextTurn(Apply, m, [34] + ptr, 34, ptr);
  }

  lemma ReadOneByteTag(tag: byte, rest: bytes)
    requires tag < 128
    ensures ReadTag([tag] + rest) == Some((tag, rest))
  {
    assert ([tag] + rest)[1..] == rest;
  }

  lemma ReqSize(x: MultiReq)
    ensures |Serialize(x)| == B.TextSize(x.requestId) + B.OptSize(x.userId) + B.OptSize(x.sessionId) + TotalSize(Repeated(4, x.fileIds))
  {
    var f := ReqFields(x);
    TotalSizeIsLength(f);
    assert TotalSize(f) == B.TextSize(x.requestId) + TotalSize(f.more);
    assert TotalSize(f.more) == B.OptSize(x.userId) + TotalSize(f.more.more);
    assert TotalSize(f.more.more) == B.OptSize(x.sessionId) + TotalSize(f.more.more.more);
  }
}
