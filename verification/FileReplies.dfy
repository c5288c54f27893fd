/**
 PutMultiFileRsp of file.proto: the fast path again (qps_test_login/file.pb.cc), here over a run of
 nested messages, each parsed into a fresh element of the list.
 */
module FileReplies {
  import opened Options
  import opened Wire
  import opened Utf8
  import opened BaseObjects
  import opened FileMessages
  import B = BaseMessages

  datatype MultiRsp = MultiRsp(requestId: bytes, success: bool, errmsg: bytes, files: seq<B.FileInfo>)

  const NO_RSP: MultiRsp := MultiRsp([], false, [], [])

  function Bodies(files: seq<B.FileInfo>): (bodies: seq<bytes>)
    ensures |bodies| == |files|
  {
    seq(|files|, i requires 0 <= i < |files| => B.SerializeFile(files[i]))
  }

  function RspFields(x: MultiRsp): (fields: Fields)
    ensures Plain(fields)
  {
    B.Text(1, x.requestId, B.Number(x.success, 2, 1, B.Text(3, x.errmsg, Repeated(4, Bodies(x.files)))))
  }

  function SerializeRsp(x: MultiRsp): bytes { EncodeFields(RspFields(x)) }

  function ApplyRsp(m: MultiRsp, item: Item): Option<MultiRsp> {
    match item
    case Bytes(1, b) => if ValidUtf8(b) then Some(m.(requestId := b)) else None
    case Varint(2, v) => Some(m.(success := v != 0))
    case Bytes(3, b) => if ValidUtf8(b) then Some(m.(errmsg := b)) else None
    case Bytes(4, b) =>
      (match Parse(B.ApplyFile, B.NO_FILE, b) case None => None case Some(x) => Some(m.(files := m.files + [x])))
    case _ => Some(m)
  }

  function MergeRsp(m: MultiRsp, x: MultiRsp): MultiRsp {
    MultiRsp(B.Keep(m.requestId, x.requestId), m.success || x.success, B.Keep(m.errmsg, x.errmsg), m.files + x.files)
  }

  predicate FilesUtf8(files: seq<B.FileInfo>) { forall i :: 0 <= i < |files| ==> B.FileUtf8(files[i]) }

  predicate RspUtf8(x: MultiRsp) { ValidUtf8(x.requestId) && ValidUtf8(x.errmsg) && FilesUtf8(x.files) }

  /** An element that comes back from the wire. */
  predicate Sound(x: B.FileInfo) { B.FileUtf8(x) && B.FileInfoSize(x) <= B.INT_MAX }

  predicate AllSound(files: seq<B.FileInfo>) { forall i :: 0 <= i < |files| ==> Sound(files[i]) }

  /** A serialized element is read back as a new element. */
  lemma ApplyElement(m: MultiRsp, x: B.FileInfo)
    requires Sound(x)
    ensures ApplyRsp(m, Bytes(4, B.SerializeFile(x))) == Some(m.(files := m.files + [x]))
  {
    B.ParseFileIsMerge(B.NO_FILE, x, []);
    assert B.MergeFile(B.NO_FILE, x) == x;
    ParseWhole(B.ApplyFile, B.NO_FILE, B.SerializeFile(x), x);
  }

  /** The message once the first i elements are in. */
  function Upto(m: MultiRsp, files: seq<B.FileInfo>, i: nat): MultiRsp
    requires i <= |files|
  {
    m.(files := m.files + files[..i])
  }

  lemma UptoNext(apply: (MultiRsp, Item) -> Option<MultiRsp>, m: MultiRsp, files: seq<B.FileInfo>, i: nat)
    requires i < |files|
    requires apply(Upto(m, files, i), Bytes(4, B.SerializeFile(files[i]))) == Some(Upto(m, files, i).(files := Upto(m, files, i).files + [files[i]]))
    ensures apply(Upto(m, files, i), Bytes(4, Bodies(files)[i])) == Some(Upto(m, files, i + 1))
  {
    assert files[..i + 1] == files[..i] + [files[i]];
    assert m.files + files[..i + 1] == m.files + files[..i] + [files[i]];
  }

  lemma ApplyFiles(m: MultiRsp, files: seq<B.FileInfo>)
    requires AllSound(files)
    ensures ApplyFields(ApplyRsp, m, Repeated(4, Bodies(files))) == Some(m.(files := m.files + files))
  {
    var states := seq(|files| + 1, i requires 0 <= i <= |files| => Upto(m, files, i));
    forall i | 0 <= i < |files| ensures ApplyRsp(states[i], Bytes(4, Bodies(files)[i])) == Some(states[i + 1]) {
      ApplyElement(Upto(m, files, i), files[i]);
      UptoNext(ApplyRsp, m, files, i);
    }
    assert files[..0] == [] && m.files + [] == m.files && files[..|files|] == files;
    ApplyRepeated(ApplyRsp, 4, Bodies(files), states);
  }

  /** No element is larger than the list it is in. */
  lemma EachFits(files: seq<B.FileInfo>)
    requires FilesUtf8(files) && SumSizes(Bodies(files)) <= B.INT_MAX
    ensures AllSound(files)
  {
    forall i | 0 <= i < |files| ensures Sound(files[i]) {
      EachInSum(Bodies(files), i);
      B.FileSizeIsLength(files[i]);
    }
  }

  /** Each field of file.proto under its own number and wire type, in order. */
  lemma RspLayout(x: MultiRsp)
    ensures SerializeRsp(x) == B.TextRecord(0x0A, x.requestId) + (if x.success then [0x10, 1] else [])
      + (B.TextRecord(0x1A, x.errmsg) + Records(Bodies(x.files)))
  {
    HeadLayout(x.requestId, x.success, RspFields(x).more.more);
    TailLayout(x.errmsg, Bodies(x.files));
  }

  lemma HeadLayout(requestId: bytes, success: bool, more: Fields)
    requires Plain(more)
    ensures EncodeFields(B.Text(1, requestId, B.Number(success, 2, 1, more))) ==
      B.TextRecord(0x0A, requestId) + (if success then [0x10, 1] else []) + EncodeFields(more)
  {
    var f := B.Text(1, requestId, B.Number(success, 2, 1, more));
    B.EncodedRecord(1, requestId);
    TrueOnTheWire();
    B.OneField(f);
    B.OneField(f.more);
    Regroup(B.TextRecord(0x0A, requestId), if success then [0x10, 1] else [], EncodeFields(more));
  }

  lemma TrueOnTheWire()
    ensures Encode(Varint(2, ToUint64(1))) == [0x10, 1]
  {
    assert EncodeVarint(0x10) == [0x10] && EncodeVarint(1) == [1];
  }

  lemma TailLayout(errmsg: bytes, bodies: seq<bytes>)
    ensures EncodeFields(B.Text(3, errmsg, Repeated(4, bodies))) == B.TextRecord(0x1A, errmsg) + Records(bodies)
  {
    B.EncodedRecord(3, errmsg);
    RepeatedLayout(bodies);
    B.OneField(B.Text(3, errmsg, Repeated(4, bodies)));
  }

  /** A record sets its own field and no other; any number but zero is true; a nested message becomes one more element. */
  lemma RspRecordSets(m: MultiRsp, b: bytes, v: nat)
    ensures ApplyRsp(m, Bytes(1, b)) == if ValidUtf8(b) then Some(MultiRsp(b, m.success, m.errmsg, m.files)) else None
    ensures ApplyRsp(m, Varint(2, v)) == Some(MultiRsp(m.requestId, v > 0, m.errmsg, m.files))
    ensures ApplyRsp(m, Bytes(3, b)) == if ValidUtf8(b) then Some(MultiRsp(m.requestId, m.success, b, m.files)) else None
    ensures ApplyRsp(m, Bytes(4, b)) ==
      var x := Parse(B.ApplyFile, B.NO_FILE, b);
      if x.Some? then Some(MultiRsp(m.requestId, m.success, m.errmsg, m.files + [x.value])) else None
  {
  }

  /** Parsing a serialized reply into a reply is merging: the lists are appended. */
  lemma ParseRspIsMerge(m: MultiRsp, x: MultiRsp, rest: bytes)
    requires RspUtf8(x) && TotalSize(RspFields(x)) <= B.INT_MAX
    ensures ParseLoop(ApplyRsp, m, SerializeRsp(x) + rest) == ParseLoop(ApplyRsp, MergeRsp(m, x), rest)
  {
    var f := RspFields(x);
    var m1 := m.(requestId := B.Keep(m.requestId, x.requestId));
    var m2 := m1.(success := m1.success || x.success);
    var m3 := m2.(errmsg := B.Keep(m2.errmsg, x.errmsg));
    assert ApplyFields(ApplyRsp, m, f) == ApplyFields(ApplyRsp, m1, f.more);
    assert ApplyFields(ApplyRsp, m1, f.more) == ApplyFields(ApplyRsp, m2, f.more.more);
    assert ApplyFields(ApplyRsp, m2, f.more.more) == ApplyFields(ApplyRsp, m3, f.more.more.more);
    RspFieldsSize(x);
    RepeatedSize(Bodies(x.files));
    EachFits(x.files);
    ApplyFiles(m3, x.files);
    ParseFields(ApplyRsp, m, f, rest);
  }

  /** What a record of field 4 adds. */
  function FourthFile(item: Item): seq<B.FileInfo> {
    if item.Bytes? && item.num == 4 then Element(item.body) else []
  }

  function Element(body: bytes): seq<B.FileInfo> {
    var x := Parse(B.ApplyFile, B.NO_FILE, body);
    if x.Some? then [x.value] else []
  }

  /** For every input that parses, the list is what it was plus one element for every record of field 4, in order. */
  lemma FilesAreEveryRecord(m: MultiRsp, s: bytes)
    requires !ParseLoop(ApplyRsp, m, s).Failed?
    ensures ParseLoop(ApplyRsp, m, s).message.files == m.files + Collect(FourthFile, s)
  {
    CollectedInOrder(ApplyRsp, (m: MultiRsp) => m.files, FourthFile, m, s);
  }

  lemma RspFieldsSize(x: MultiRsp)
    ensures TotalSize(RspFields(x)) == B.TextSize(x.requestId) + B.TextSize(x.errmsg) + (if x.success then 2 else 0) + TotalSize(Repeated(4, Bodies(x.files)))
  {
    var f := RspFields(x);
    assert TotalSize(f) == B.TextSize(x.requestId) + TotalSize(f.more);
    assert TotalSize(f.more) == (if x.success then 2 else 0) + TotalSize(f.more.more);
    assert TotalSize(f.more.more) == B.TextSize(x.errmsg) + TotalSize(f.more.more.more);
  }

  lemma RspSize(x: MultiRsp)
    ensures |SerializeRsp(x)| == |x.files| + SumSizes(Bodies(x.files)) + B.TextSize(x.requestId) + B.TextSize(x.errmsg) + if x.success then 2 else 0
  {
    TotalSizeIsLength(RspFields(x));
    RspFieldsSize(x);
    RepeatedSize(Bodies(x.files));
  }

  /** A record of field 4 behind its tag: its element is appended, if it parses. */
  lemma FileTurn(m: MultiRsp, ptr: bytes)
    ensures ParseLoop(ApplyRsp, m, [34] + ptr) ==
      match ReadDelimited(ptr)
      case None => Failed
      case Some((b, after)) =>
        if Element(b) == [] then Failed else ParseLoop(ApplyRsp, m.(files := m.files + Element(b)), after)
  {
    ReadOneByteTag(34, ptr);
    TextTurn(ApplyRsp, m, [34] + ptr, 34, ptr);
  }

  class PutMultiFileRsp {
    var fileInfo: seq<B.FileInfo>
    var requestId: bytes
    var errmsg: bytes
    var success: bool

    constructor ()
      ensures View() == NO_RSP
    {
      fileInfo, requestId, errmsg, success := [], [], [], false;
    }

    ghost function View(): MultiRsp
      reads this
    {
      MultiRsp(requestId, success, errmsg, fileInfo)
    }

    method Clear()
      modifies this
      ensures View() == NO_RSP
    {
      fileInfo := [];
      requestId := [];
      errmsg := [];
      success := false;
    }

    method MergeFrom(from: PutMultiFileRsp)
      requires from != this
      modifies this
      ensures View() == MergeRsp(old(View()), from.View())
    {
      fileInfo := fileInfo + from.fileInfo;
      if |from.requestId| > 0 { requestId := from.requestId; }
      if |from.errmsg| > 0 { errmsg := from.errmsg; }
      if from.success { success := from.success; }
    }

    /** Elements first, the bool last; one byte of tag for each. */
    method ByteSizeLong() returns (total: nat)
      ensures total == |SerializeRsp(View())|
    {
      total := |fileInfo|;
      for i := 0 to |fileInfo|
        invariant total == |fileInfo| + SumSizes(Bodies(fileInfo)[..i])
      {
        total := total + B.MessageSize(B.FileInfoSize(fileInfo[i]));
        B.FileSizeIsLength(fileInfo[i]);
        assert Bodies(fileInfo)[..i + 1][..i] == Bodies(fileInfo)[..i];
      }
      assert Bodies(fileInfo)[..|fileInfo|] == Bodies(fileInfo);
      if |requestId| > 0 { total := total + 1 + B.StringSize(requestId); }
      if |errmsg| > 0 { total := total + 1 + B.StringSize(errmsg); }
      if success { total := total + 1 + 1; }
      RspSize(View());
    }

    method InternalSerialize(target: bytes) returns (out: bytes)
      ensures out == target + SerializeRsp(View())
    {
      ghost var f := RspFields(View());
      out := target;
      WriteTurn(out, f);
      if |requestId| > 0 { out := out + Encode(Bytes(1, requestId)); }
      WriteTurn(out, f.more);
      if success { out := out + Encode(Varint(2, 1)); }
      WriteTurn(out, f.more.more);
      if |errmsg| > 0 { out := out + Encode(Bytes(3, errmsg)); }
      out := WriteFiles(out);
    }

    method WriteFiles(target: bytes) returns (out: bytes)
      ensures out == target + EncodeFields(Repeated(4, Bodies(fileInfo)))
    {
      ghost var bodies := Bodies(fileInfo);
      out := target;
      assert bodies[0..] == bodies;
      for i := 0 to |fileInfo|
        invariant out + EncodeFields(Repeated(4, bodies[i..])) == target + EncodeFields(Repeated(4, bodies))
      {
        WriteTurn(out, Repeated(4, bodies[i..]));
        assert bodies[i..][1..] == bodies[i + 1..];
        out := out + Encode(Bytes(4, B.SerializeFile(fileInfo[i])));
      }
    }

    method InternalParse(input: bytes) returns (end: ParseEnd)
      modifies this
      ensures Agrees(ParseLoop(ApplyRsp, old(View()), input), end, View())
    {
      var ptr := input;
      while ptr != []
        invariant ParseLoop(ApplyRsp, View(), ptr) == ParseLoop(ApplyRsp, old(View()), input)
        decreases |ptr|
      {
        var turn := ParseTurn(ptr);
        if turn.Halt? { return turn.end; }
        ptr := turn.rest;
      }
      end := AtEnd;
    }

    method ParseTurn(ptr: bytes) returns (turn: Turn)
      requires ptr != []
      modifies this
      ensures IsTurn(ApplyRsp, old(View()), ptr, turn, View())
    {
      var read := ReadTag(ptr);
      if read.None? { return Halt(Failure); }
      var tag, rest := read.value.0, read.value.1;
      if tag == 10 || tag == 26 {
        TextTurn(ApplyRsp, View(), ptr, tag, rest);
        var text := ReadDelimited(rest);
        if text.None? { return Halt(Failure); }
        var b := text.value.0;
        if tag == 10 { requestId := b; } else { errmsg := b; }
        turn := if ValidUtf8(b) then Next(text.value.1) else Halt(Failure);
      } else if tag == 16 {
        NumberTurn(ApplyRsp, View(), ptr, tag, rest);
        var number := ReadVarint(rest);
        if number.None? { return Halt(Failure); }
        success := number.value.0 != 0;
        turn := Next(number.value.1);
      } else if tag == 34 {
        TextTurn(ApplyRsp, View(), ptr, tag, rest);
        turn := ParseRun(rest);
        TextTurn(ApplyRsp, old(View()), [34] + rest, 34, rest) by { ReadOneByteTag(34, rest); }
      } else if Ends(tag) {
        turn := Halt(AtTag(tag, rest));
      } else {
        UnusualTurn(ApplyRsp, View(), ptr, tag, rest);
        var skipped := Unusual(tag, rest);
        turn := if skipped.Some? then Next(skipped.value) else Halt(Failure);
      }
    }

    /**
     The fast path, entered behind a first tag 34: add an element, parse it, and go on for as long
     as the next byte is 34 again. It leaves the list and the position where reading the same
     records one per turn of the outer loop would.
     */
    method ParseRun(afterTag: bytes) returns (turn: Turn)
      modifies this`fileInfo
      ensures turn.Next? ==> |turn.rest| < |afterTag|
      ensures IsTurn(ApplyRsp, old(View()), [34] + afterTag, turn, View())
      ensures turn.Next? ==> turn.rest == [] || turn.rest[0] != 34
    {
      var ptr := afterTag;
      ghost var spec := ParseLoop(ApplyRsp, View(), [34] + afterTag);
      while true
        invariant |ptr| <= |afterTag|
        invariant ParseLoop(ApplyRsp, View(), [34] + ptr) == spec
        decreases |ptr|
      {
        FileTurn(View(), ptr);
        var body := ReadDelimited(ptr);
        if body.None? { return Halt(Failure); }
        var element := Parse(B.ApplyFile, B.NO_FILE, body.value.0);
        if element.None? { return Halt(Failure); }
        fileInfo := fileInfo + [element.value];
        ptr := body.value.1;
        if ptr == [] || ptr[0] != 34 {
          return Next(ptr);
        }
        assert [34] + ptr[1..] == ptr;
        ptr := ptr[1..];
      }
    }
  }
}
