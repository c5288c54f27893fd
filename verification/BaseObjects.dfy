/**
 The generated message classes of qps_test_login/base.pb.cc, changed in place: fields, has-bit
 word, oneof. Each method is proved to do to `View()` what module BaseMessages says. A sub-message
 belongs to one parent only, so it is held here as a value.
 */
module BaseObjects {
  import opened Options
  import opened Wire
  import opened Utf8
  import B = BaseMessages

  /** Where a parse stopped: end of input, a stopping tag (kept by SetLastTag), or an error. */
  datatype ParseEnd = AtEnd | AtTag(tag: nat, rest: bytes) | Failure

  ghost predicate Agrees<M>(spec: Outcome<M>, end: ParseEnd, m: M) {
    match spec
    case Done(x) => end == AtEnd && m == x
    case Stopped(x, tag, rest) => end == AtTag(tag, rest) && m == x
    case Failed => end == Failure
  }

  /** One turn of a parse loop: go on from `rest`, or stop. */
  datatype Turn = Next(rest: bytes) | Halt(end: ParseEnd)

  /** `turn`, which left the message as `now`, is a faithful start of parsing `ptr` into `was`. */
  ghost predicate IsTurn<M>(apply: (M, Item) -> Option<M>, was: M, ptr: bytes, turn: Turn, now: M) {
    match turn
    case Next(rest) => |rest| < |ptr| && ParseLoop(apply, now, rest) == ParseLoop(apply, was, ptr)
    case Halt(end) => Agrees(ParseLoop(apply, was, ptr), end, now)
  }

  /** The end of a field nobody declared: skipped, or a stop. */
  method Unusual(tag: nat, s: bytes) returns (rest: Option<bytes>)
    requires !Ends(tag)
    ensures rest == if tag / 8 == 0 then None else Skip(tag % 8, tag / 8, s)
  {
    rest := if tag / 8 == 0 then None else Skip(tag % 8, tag / 8, s);
  }

  class UserInfo {
    var userId: bytes
    var nickname: bytes
    var description: bytes
    var phone: bytes
    var avatar: bytes

    constructor ()
      ensures View() == B.NO_USER
    {
      userId, nickname, description, phone, avatar := [], [], [], [], [];
    }

    function View(): B.UserInfo
      reads this
    {
      B.UserInfo(userId, nickname, description, phone, avatar)
    }

    method Clear()
      modifies this
      ensures View() == B.NO_USER
    {
      userId, nickname, description, phone, avatar := [], [], [], [], [];
    }

    method MergeFrom(from: UserInfo)
      requires from != this
      modifies this
      ensures View() == B.MergeUser(old(View()), from.View())
    {
      if |from.userId| > 0 { userId := from.userId; }
      if |from.nickname| > 0 { nickname := from.nickname; }
      if |from.description| > 0 { description := from.description; }
      if |from.phone| > 0 { phone := from.phone; }
      if |from.avatar| > 0 { avatar := from.avatar; }
    }

    method ByteSizeLong() returns (total: nat)
      ensures total == |B.SerializeUser(View())|
    {
      total := 0;
      if |userId| > 0 { total := total + 1 + B.StringSize(userId); }
      if |nickname| > 0 { total := total + 1 + B.StringSize(nickname); }
      if |description| > 0 { total := total + 1 + B.StringSize(description); }
      if |phone| > 0 { total := total + 1 + B.StringSize(phone); }
      if |avatar| > 0 { total := total + 1 + B.StringSize(avatar); }
      B.UserSizeIsLength(View());
    }

    method InternalSerialize(target: bytes) returns (out: bytes)
      ensures out == target + B.SerializeUser(View())
    {
      ghost var f1 := B.UserFields(View());
      ghost var f2, f3 := f1.more, f1.more.more;
      ghost var f4, f5 := f3.more, f3.more.more;
      out := target;
      WriteTurn(out, f1);
      if |userId| > 0 { out := out + Encode(Bytes(1, userId)); }
      WriteTurn(out, f2);
      if |nickname| > 0 { out := out + Encode(Bytes(2, nickname)); }
      WriteTurn(out, f3);
      if |description| > 0 { out := out + Encode(Bytes(3, description)); }
      WriteTurn(out, f4);
      if |phone| > 0 { out := out + Encode(Bytes(4, phone)); }
      WriteTurn(out, f5);
      if |avatar| > 0 { out := out + Encode(Bytes(5, avatar)); }
    }

    method InternalParse(input: bytes) returns (end: ParseEnd)
      modifies this
      ensures Agrees(ParseLoop(B.ApplyUser, old(View()), input), end, View())
    {
      var ptr := input;
      while ptr != []
        invariant ParseLoop(B.ApplyUser, View(), ptr) == ParseLoop(B.ApplyUser, old(View()), input)
        decreases |ptr|
      {
        var turn := ParseTurn(ptr);
        if turn.Halt? { return turn.end; }
        ptr := turn.rest;
      }
      end := AtEnd;
    }

    /** A whole buffer into a cleared message. */
    method ParseFromString(data: bytes) returns (ok: bool)
      modifies this
      ensures ok == Parse(B.ApplyUser, B.NO_USER, data).Some?
      ensures ok ==> View() == Parse(B.ApplyUser, B.NO_USER, data).value
    {
      Clear();
      var end := InternalParse(data);
      ok := end == AtEnd;
    }

    /** Refused when the message is larger than an int can say; never because of its text. */
    method SerializeToString() returns (data: Option<bytes>)
      ensures data == if B.UserSize(View()) <= B.INT_MAX then Some(B.SerializeUser(View())) else None
    {
      var size := ByteSizeLong();
      B.UserSizeIsLength(View());
      if size > B.INT_MAX { return None; }
      var out := InternalSerialize([]);
      assert [] + B.SerializeUser(View()) == B.SerializeUser(View());
      data := Some(out);
    }

    /** The switch on the next tag. */
    method ParseTurn(ptr: bytes) returns (turn: Turn)
      requires ptr != []
      modifies this
      ensures IsTurn(B.ApplyUser, old(View()), ptr, turn, View())
    {
      var read := ReadTag(ptr);
      if read.None? { return Halt(Failure); }
      var tag, rest := read.value.0, read.value.1;
      if tag == 10 || tag == 18 || tag == 26 || tag == 34 || tag == 42 {
        TextTurn(B.ApplyUser, View(), ptr, tag, rest);
        var body := ReadDelimited(rest);
        if body.None? { return Halt(Failure); }
        var ok := SetField(tag / 8, body.value.0);
        turn := if ok then Next(body.value.1) else Halt(Failure);
      } else if Ends(tag) {
        turn := Halt(AtTag(tag, rest));
      } else {
        UnusualTurn(B.ApplyUser, View(), ptr, tag, rest);
        var skipped := Unusual(tag, rest);
        turn := if skipped.Some? then Next(skipped.value) else Halt(Failure);
      }
    }

    method SetField(num: nat, b: bytes) returns (ok: bool)
      requires 1 <= num <= 5
      modifies this
      ensures ok == B.ApplyUser(old(View()), Bytes(num, b)).Some?
      ensures ok ==> View() == B.ApplyUser(old(View()), Bytes(num, b)).value
    {
      if num == 1 { userId := b; }
      else if num == 2 { nickname := b; }
      else if num == 3 { description := b; }
      else if num == 4 { phone := b; }
      else { avatar := b; }
      ok := num == 5 || ValidUtf8(b);
    }
  }

  class FileMessageInfo {
    var hasBits: bv32
    var fileId: bytes
    var fileName: bytes
    var fileContents: bytes
    var fileSize: int64

    constructor ()
      ensures View() == B.NO_FILE
    {
      hasBits, fileId, fileName, fileContents, fileSize := 0, [], [], [], 0;
    }

    /** The message as it will be once `bits`, still held by a running parse, are or-ed in. */
    ghost function ViewWith(bits: bv32): B.FileInfo
      reads this
    {
      var all := hasBits | bits;
      B.FileInfo(if all & 1 != 0 then Some(fileId) else None,
                 if all & 8 != 0 then Some(fileSize) else None,
                 if all & 2 != 0 then Some(fileName) else None,
                 if all & 4 != 0 then Some(fileContents) else None)
    }

    ghost function View(): B.FileInfo
      reads this
    {
      ViewWith(0)
    }

    method Clear()
      modifies this
      ensures View() == B.NO_FILE
      ensures fileSize == 0 && (old(hasBits) & 1 != 0 ==> fileId == []) && (old(hasBits) & 2 != 0 ==> fileName == [])
      ensures old(hasBits) & 4 != 0 ==> fileContents == []
    {
      if hasBits & 7 != 0 {
        if hasBits & 1 != 0 { fileId := []; }
        if hasBits & 2 != 0 { fileName := []; }
        if hasBits & 4 != 0 { fileContents := []; }
      }
      fileSize := 0;
      hasBits := 0;
    }

    method MergeFrom(from: FileMessageInfo)
      requires from != this
      modifies this
      ensures View() == B.MergeFile(old(View()), from.View())
    {
      var bits := from.hasBits;
      if bits & 15 != 0 {
        if bits & 1 != 0 { fileId := from.fileId; }
        if bits & 2 != 0 { fileName := from.fileName; }
        if bits & 4 != 0 { fileContents := from.fileContents; }
        if bits & 8 != 0 { fileSize := from.fileSize; }
        hasBits := hasBits | bits;
      }
    }

    method ByteSizeLong() returns (total: nat)
      ensures total == |B.SerializeFile(View())|
    {
      total := 0;
      if hasBits & 15 != 0 {
        if hasBits & 1 != 0 { total := total + 1 + B.StringSize(fileId); }
        if hasBits & 2 != 0 { total := total + 1 + B.StringSize(fileName); }
        if hasBits & 4 != 0 { total := total + 1 + B.StringSize(fileContents); }
        if hasBits & 8 != 0 { total := total + 1 + VarintSize(ToUint64(fileSize)); }
      }
      B.FileSizeIsLength(View());
    }

    method InternalSerialize(target: bytes) returns (out: bytes)
      ensures out == target + B.SerializeFile(View())
    {
      ghost var f := B.FileFields(View());
      out := target;
      WriteTurn(out, f);
      if hasBits & 1 != 0 { out := out + Encode(Bytes(1, fileId)); }
      WriteTurn(out, f.more);
      if hasBits & 8 != 0 { out := out + Encode(Varint(2, ToUint64(fileSize))); }
      WriteTurn(out, f.more.more);
      if hasBits & 2 != 0 { out := out + Encode(Bytes(3, fileName)); }
      WriteTurn(out, f.more.more.more);
      if hasBits & 4 != 0 { out := out + Encode(Bytes(4, fileContents)); }
    }

    /** The bit of file_size is kept in a local word and or-ed in at the end; the other bits are set at once. */
    method InternalParse(input: bytes) returns (end: ParseEnd)
      modifies this
      ensures Agrees(ParseLoop(B.ApplyFile, old(View()), input), end, View())
    {
      var ptr, bits := input, 0 as bv32;
      end := AtEnd;
      while ptr != []
        invariant ParseLoop(B.ApplyFile, ViewWith(bits), ptr) == ParseLoop(B.ApplyFile, old(View()), input)
        decreases |ptr|
      {
        var turn;
        turn, bits := ParseTurn(ptr, bits);
        if turn.Halt? {
          hasBits := hasBits | bits;
          return turn.end;
        }
        ptr := turn.rest;
      }
      hasBits := hasBits | bits;
    }

    method ParseTurn(ptr: bytes, bits: bv32) returns (turn: Turn, newBits: bv32)
      requires ptr != []
      modifies this
      ensures IsTurn(B.ApplyFile, old(ViewWith(bits)), ptr, turn, ViewWith(newBits))
    {
      newBits := bits;
      var read := ReadTag(ptr);
      if read.None? { return Halt(Failure), bits; }
      var tag, rest := read.value.0, read.value.1;
      if tag == 10 || tag == 26 || tag == 34 {
        TextTurn(B.ApplyFile, ViewWith(bits), ptr, tag, rest);
        var text := ReadDelimited(rest);
        if text.None? { return Halt(Failure), bits; }
        var ok := SetText(tag / 8, text.value.0, bits);
        turn := if ok then Next(text.value.1) else Halt(Failure);
      } else if tag == 16 {
        NumberTurn(B.ApplyFile, ViewWith(bits), ptr, tag, rest);
        newBits := bits | 8;
        var number := ReadVarint(rest);
        if number.None? { return Halt(Failure), newBits; }
        fileSize := ToInt64(number.value.0);
        turn := Next(number.value.1);
      } else if Ends(tag) {
        turn := Halt(AtTag(tag, rest));
      } else {
        UnusualTurn(B.ApplyFile, ViewWith(bits), ptr, tag, rest);
        var skipped := Unusual(tag, rest);
        turn := if skipped.Some? then Next(skipped.value) else Halt(Failure);
      }
    }

    /** The string and bytes cases of the switch: the has-bit is set with the field. */
    method SetText(num: nat, b: bytes, ghost bits: bv32) returns (ok: bool)
      requires num in {1, 3, 4}
      modifies this`hasBits, this`fileId, this`fileName, this`fileContents
      ensures ok == B.ApplyFile(old(ViewWith(bits)), Bytes(num, b)).Some?
      ensures ok ==> ViewWith(bits) == B.ApplyFile(old(ViewWith(bits)), Bytes(num, b)).value
    {
      if num == 1 {
        hasBits, fileId := hasBits | 1, b;
        ok := ValidUtf8(b);
      } else if num == 3 {
        hasBits, fileName := hasBits | 2, b;
        ok := ValidUtf8(b);
      } else {
        hasBits, fileContents := hasBits | 4, b;
        ok := true;
      }
    }
  }

  class MessageContent {
    var messageType: int32
    var content: B.Content  // the union and its case word

    constructor ()
      ensures View() == B.NO_CONTENT
    {
      messageType, content := 0, B.NotSet;
    }

    ghost function View(): B.MessageContent
      reads this
    {
      B.MessageContent(messageType, content)
    }

    method Clear()
      modifies this
      ensures View() == B.NO_CONTENT
    {
      messageType := 0;
      content := B.NotSet;
    }

    /** Make file_message the member that is set: clear any other member and start from a fresh one. */
    method MutableFile() returns (file: B.FileInfo)
      modifies this`content
      ensures file == B.MutableFile(old(content)) && content == B.FileMessage(file)
    {
      if !content.FileMessage? {
        content := B.NotSet;
        content := B.FileMessage(B.NO_FILE);
      }
      file := content.file;
    }

    method MergeFrom(from: MessageContent)
      requires from != this
      modifies this
      ensures View() == B.MergeContent(old(View()), from.View())
    {
      if from.messageType != 0 { messageType := from.messageType; }
      match from.content
      case NotSet =>
      case StringMessage(s) => content := B.StringMessage(B.MergeString(B.MutableString(content), s));
      case FileMessage(f) =>
        var mine := MutableFile();
        content := B.FileMessage(B.MergeFile(mine, f));
      case SpeechMessage(s) => content := B.SpeechMessage(B.MergeMedia(B.MutableSpeech(content), s));
      case ImageMessage(i) => content := B.ImageMessage(B.MergeMedia(B.MutableImage(content), i));
    }

    method ByteSizeLong() returns (total: nat)
      ensures total == |B.SerializeContent(View())|
    {
      total := 0;
      if messageType != 0 { total := total + 1 + VarintSize(ToUint64(messageType)); }
      match content {
        case NotSet =>
        case StringMessage(s) => total := total + 1 + B.MessageSize(B.StringInfoSize(s));
        case FileMessage(f) => total := total + 1 + B.MessageSize(B.FileInfoSize(f));
        case SpeechMessage(s) => total := total + 1 + B.MessageSize(B.MediaSize(s));
        case ImageMessage(i) => total := total + 1 + B.MessageSize(B.MediaSize(i));
      }
      B.ContentSizeIsLength(View());
    }

    method InternalSerialize(target: bytes) returns (out: bytes)
      ensures out == target + B.SerializeContent(View())
    {
      ghost var f := B.ContentFields(View());
      out := target;
      WriteTurn(out, f);
      if messageType != 0 { out := out + Encode(Varint(1, ToUint64(messageType))); }
      WriteTurn(out, f.more);
      if content.StringMessage? { out := out + Encode(Bytes(2, B.SerializeString(content.text))); }
      if content.FileMessage? { out := out + Encode(Bytes(3, B.SerializeFile(content.file))); }
      if content.SpeechMessage? { out := out + Encode(Bytes(4, B.SerializeMedia(content.speech))); }
      if content.ImageMessage? { out := out + Encode(Bytes(5, B.SerializeMedia(content.image))); }
    }

    method InternalParse(input: bytes) returns (end: ParseEnd)
      modifies this
      ensures Agrees(ParseLoop(B.ApplyContent, old(View()), input), end, View())
    {
      var ptr := input;
      while ptr != []
        invariant ParseLoop(B.ApplyContent, View(), ptr) == ParseLoop(B.ApplyContent, old(View()), input)
        decreases |ptr|
      {
        var turn := ParseTurn(ptr);
        if turn.Halt? { return turn.end; }
        ptr := turn.rest;
      }
      end := AtEnd;
    }

    /** The switch on the next tag. */
    method ParseTurn(ptr: bytes) returns (turn: Turn)
      requires ptr != []
      modifies this
      ensures IsTurn(B.ApplyContent, old(View()), ptr, turn, View())
    {
      var read := ReadTag(ptr);
      if read.None? { return Halt(Failure); }
      var tag, rest := read.value.0, read.value.1;
      if tag == 18 || tag == 26 || tag == 34 || tag == 42 {
        TextTurn(B.ApplyContent, View(), ptr, tag, rest);
        var body := ReadDelimited(rest);
        if body.None? { return Halt(Failure); }
        var ok := SetField(tag / 8, body.value.0);
        turn := if ok then Next(body.value.1) else Halt(Failure);
      } else if tag == 8 {
        NumberTurn(B.ApplyContent, View(), ptr, tag, rest);
        var number := ReadVarint(rest);
        if number.None? { return Halt(Failure); }
        messageType := ToInt32(number.value.0);
        turn := Next(number.value.1);
      } else if Ends(tag) {
        turn := Halt(AtTag(tag, rest));
      } else {
        UnusualTurn(B.ApplyContent, View(), ptr, tag, rest);
        var skipped := Unusual(tag, rest);
        turn := if skipped.Some? then Next(skipped.value) else Halt(Failure);
      }
    }

    /** ParseMessage into the oneof member with this number, which becomes the one that is set. */
    method SetField(num: nat, body: bytes) returns (ok: bool)
      requires 2 <= num <= 5
      modifies this`content
      ensures ok == B.ApplyContent(old(View()), Bytes(num, body)).Some?
      ensures ok ==> View() == B.ApplyContent(old(View()), Bytes(num, body)).value
    {
      if num == 2 {
        var x := Parse(B.ApplyString, B.MutableString(content), body);
        ok := x.Some?;
        if ok { content := B.StringMessage(x.value); }
      } else if num == 3 {
        var mine := MutableFile();
        var x := Parse(B.ApplyFile, mine, body);
        ok := x.Some?;
        if ok { content := B.FileMessage(x.value); }
      } else if num == 4 {
        var x := Parse(B.ApplyMedia, B.MutableSpeech(content), body);
        ok := x.Some?;
        if ok { content := B.SpeechMessage(x.value); }
      } else {
        var x := Parse(B.ApplyMedia, B.MutableImage(content), body);
        ok := x.Some?;
        if ok { content := B.ImageMessage(x.value); }
      }
    }
  }

  class MessageInfo {
    var messageId: bytes
    var chatSessionId: bytes
    var sender: Option<B.UserInfo>
    var message: Option<B.MessageContent>
    var timestamp: int64

    constructor ()
      ensures View() == B.NO_MESSAGE
    {
      messageId, chatSessionId, sender, message, timestamp := [], [], None, None, 0;
    }

    ghost function View(): B.MessageInfo
      reads this
    {
      B.MessageInfo(messageId, chatSessionId, timestamp, sender, message)
    }

    method Clear()
      modifies this
      ensures View() == B.NO_MESSAGE
    {
      messageId, chatSessionId := [], [];
      sender, message := None, None;
      timestamp := 0;
    }

    method MergeFrom(from: MessageInfo)
      requires from != this
      modifies this
      ensures View() == B.MergeMessage(old(View()), from.View())
    {
      if |from.messageId| > 0 { messageId := from.messageId; }
      if |from.chatSessionId| > 0 { chatSessionId := from.chatSessionId; }
      if from.sender.Some? {
        if sender.None? { sender := Some(B.NO_USER); }
        sender := Some(B.MergeUser(sender.value, from.sender.value));
      }
      if from.message.Some? {
        if message.None? { message := Some(B.NO_CONTENT); }
        message := Some(B.MergeContent(message.value, from.message.value));
      }
      if from.timestamp != 0 { timestamp := from.timestamp; }
    }

    method ByteSizeLong() returns (total: nat)
      ensures total == |B.SerializeMessage(View())|
    {
      total := 0;
      if |messageId| > 0 { total := total + 1 + B.StringSize(messageId); }
      if |chatSessionId| > 0 { total := total + 1 + B.StringSize(chatSessionId); }
      if sender.Some? { total := total + 1 + B.MessageSize(B.UserSize(sender.value)); }
      if message.Some? { total := total + 1 + B.MessageSize(B.ContentSize(message.value)); }
      if timestamp != 0 { total := total + 1 + VarintSize(ToUint64(timestamp)); }
      B.MessageSizeIsLength(View());
    }

    method InternalSerialize(target: bytes) returns (out: bytes)
      ensures out == target + B.SerializeMessage(View())
    {
      ghost var f := B.MessageFields(View());
      out := target;
      WriteTurn(out, f);
      if |messageId| > 0 { out := out + Encode(Bytes(1, messageId)); }
      WriteTurn(out, f.more);
      if |chatSessionId| > 0 { out := out + Encode(Bytes(2, chatSessionId)); }
      WriteTurn(out, f.more.more);
      if timestamp != 0 { out := out + Encode(Varint(3, ToUint64(timestamp))); }
      WriteTurn(out, f.more.more.more);
      if sender.Some? { out := out + Encode(Bytes(4, B.SerializeUser(sender.value))); }
      WriteTurn(out, f.more.more.more.more);
      if message.Some? { out := out + Encode(Bytes(5, B.SerializeContent(message.value))); }
    }

    method InternalParse(input: bytes) returns (end: ParseEnd)
      modifies this
      ensures Agrees(ParseLoop(B.ApplyMessage, old(View()), input), end, View())
    {
      var ptr := input;
      while ptr != []
        invariant ParseLoop(B.ApplyMessage, View(), ptr) == ParseLoop(B.ApplyMessage, old(View()), input)
        decreases |ptr|
      {
        var turn := ParseTurn(ptr);
        if turn.Halt? { return turn.end; }
        ptr := turn.rest;
      }
      end := AtEnd;
    }

    /** The switch on the next tag. */
    method ParseTurn(ptr: bytes) returns (turn: Turn)
      requires ptr != []
      modifies this
      ensures IsTurn(B.ApplyMessage, old(View()), ptr, turn, View())
    {
      var read := ReadTag(ptr);
      if read.None? { return Halt(Failure); }
      var tag, rest := read.value.0, read.value.1;
      if tag == 10 || tag == 18 || tag == 34 || tag == 42 {
        TextTurn(B.ApplyMessage, View(), ptr, tag, rest);
        var body := ReadDelimited(rest);
        if body.None? { return Halt(Failure); }
        var ok := SetField(tag / 8, body.value.0);
        turn := if ok then Next(body.value.1) else Halt(Failure);
      } else if tag == 24 {
        NumberTurn(B.ApplyMessage, View(), ptr, tag, rest);
        var number := ReadVarint(rest);
        if number.None? { return Halt(Failure); }
        timestamp := ToInt64(number.value.0);
        turn := Next(number.value.1);
      } else if Ends(tag) {
        turn := Halt(AtTag(tag, rest));
      } else {
        UnusualTurn(B.ApplyMessage, View(), ptr, tag, rest);
        var skipped := Unusual(tag, rest);
        turn := if skipped.Some? then Next(skipped.value) else Halt(Failure);
      }
    }

    /** The length-delimited cases of the switch: two texts and two sub-messages, made when absent. */
    method SetField(num: nat, body: bytes) returns (ok: bool)
      requires num in {1, 2, 4, 5}
      modifies this
      ensures ok == B.ApplyMessage(old(View()), Bytes(num, body)).Some?
      ensures ok ==> View() == B.ApplyMessage(old(View()), Bytes(num, body)).value
    {
      if num == 1 {
        messageId := body;
        ok := ValidUtf8(body);
      } else if num == 2 {
        chatSessionId := body;
        ok := ValidUtf8(body);
      } else if num == 4 {
        if sender.None? { sender := Some(B.NO_USER); }
        var x := Parse(B.ApplyUser, sender.value, body);
        ok := x.Some?;
        if ok { sender := x; }
      } else {
        if message.None? { message := Some(B.NO_CONTENT); }
        var x := Parse(B.ApplyContent, message.value, body);
        ok := x.Some?;
        if ok { message := x; }
      }
    }
  }
}
