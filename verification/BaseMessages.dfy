/**
 The messages of base.proto as values, with what qps_test_login/base.pb.cc does to them: the
 fields each writes, how a field read back is applied, how two messages merge, and their sizes.
 Fields with presence are options; the others count as absent when empty or zero.
 */
module BaseMessages {
  import opened Options
  import opened Wire
  import opened Utf8

  /** Largest message SerializeToString accepts. */
  const INT_MAX: nat := 0x7FFF_FFFF

  // ---------------------------------------------------------------- single fields

  function Text(num: nat, b: bytes, more: Fields): (fields: Fields)
    requires 0 < num < 16 && Plain(more)
    ensures Plain(fields)
  {
    Field(b != [], Bytes(num, b), more)
  }

  function Opt(num: nat, b: Option<bytes>, more: Fields): (fields: Fields)
    requires 0 < num < 16 && Plain(more)
    ensures Plain(fields)
  {
    Field(b.Some?, Bytes(num, if b.Some? then b.value else []), more)
  }

  function Number(present: bool, num: nat, i: int64, more: Fields): (fields: Fields)
    requires 0 < num < 16 && Plain(more)
    ensures Plain(fields)
  {
    Field(present, Varint(num, ToUint64(i)), more)
  }

  function Nested(present: bool, num: nat, body: bytes, more: Fields): (fields: Fields)
    requires 0 < num < 16 && Plain(more)
    ensures Plain(fields)
  {
    Field(present, Bytes(num, body), more)
  }

  /** Later text replaces earlier text unless it is empty; a later option unless it is absent. */
  function Keep(was: bytes, now: bytes): bytes { if now == [] then was else now }
  function Prefer<T>(was: Option<T>, now: Option<T>): Option<T> { if now.Some? then now else was }

  predicate OptUtf8(b: Option<bytes>) { b.Some? ==> ValidUtf8(b.value) }

  function StringSize(b: bytes): nat { VarintSize(|b|) + |b| }
  function MessageSize(size: nat): nat { VarintSize(size) + size }
  function TextSize(b: bytes): nat { if b == [] then 0 else 1 + StringSize(b) }
  function OptSize(b: Option<bytes>): nat { if b.Some? then 1 + StringSize(b.value) else 0 }

  // ---------------------------------------------------------------- UserInfo

  datatype UserInfo = UserInfo(userId: bytes, nickname: bytes, description: bytes, phone: bytes, avatar: bytes)

  const NO_USER: UserInfo := UserInfo([], [], [], [], [])

  function UserFields(x: UserInfo): (fields: Fields)
    ensures Plain(fields)
  {
    Text(1, x.userId, Text(2, x.nickname, Text(3, x.description, Text(4, x.phone, Text(5, x.avatar, NoMore)))))
  }

  function ApplyUser(m: UserInfo, item: Item): Option<UserInfo> {
    match item
    case Bytes(1, b) => if ValidUtf8(b) then Some(m.(userId := b)) else None
    case Bytes(2, b) => if ValidUtf8(b) then Some(m.(nickname := b)) else None
    case Bytes(3, b) => if ValidUtf8(b) then Some(m.(description := b)) else None
    case Bytes(4, b) => if ValidUtf8(b) then Some(m.(phone := b)) else None
    case Bytes(5, b) => Some(m.(avatar := b))
    case _ => Some(m)
  }

  function MergeUser(m: UserInfo, x: UserInfo): UserInfo {
    UserInfo(Keep(m.userId, x.userId), Keep(m.nickname, x.nickname), Keep(m.description, x.description),
             Keep(m.phone, x.phone), Keep(m.avatar, x.avatar))
  }

  predicate UserUtf8(x: UserInfo) {
    ValidUtf8(x.userId) && ValidUtf8(x.nickname) && ValidUtf8(x.description) && ValidUtf8(x.phone)
  }

  function SerializeUser(x: UserInfo): bytes { EncodeFields(UserFields(x)) }

  function UserSize(x: UserInfo): nat {
    TextSize(x.userId) + TextSize(x.nickname) + TextSize(x.description) + TextSize(x.phone) + TextSize(x.avatar)
  }

  lemma UserSizeIsLength(x: UserInfo)
    ensures UserSize(x) == TotalSize(UserFields(x)) == |SerializeUser(x)|
  {
    var f := UserFields(x);
    assert TotalSize(f) == TextSize(x.userId) + TextSize(x.nickname) + TotalSize(f.more.more);
    assert TotalSize(f.more.more) == TextSize(x.description) + TextSize(x.phone) + TotalSize(f.more.more.more.more);
    assert TotalSize(f.more.more.more.more) == TextSize(x.avatar) + TotalSize(NoMore);
    TotalSizeIsLength(f);
  }

  lemma ApplyUserFields(m: UserInfo, x: UserInfo)
    requires UserUtf8(x)
    ensures ApplyFields(ApplyUser, m, UserFields(x)) == Some(MergeUser(m, x))
  {
    var f := UserFields(x);
    var m1 := m.(userId := Keep(m.userId, x.userId));
    var m2 := m1.(nickname := Keep(m.nickname, x.nickname));
    var m3 := m2.(description := Keep(m.description, x.description));
    var m4 := m3.(phone := Keep(m.phone, x.phone));
    assert ApplyFields(ApplyUser, m, f) == ApplyFields(ApplyUser, m1, f.more);
    assert ApplyFields(ApplyUser, m1, f.more) == ApplyFields(ApplyUser, m2, f.more.more);
    assert ApplyFields(ApplyUser, m2, f.more.more) == ApplyFields(ApplyUser, m3, f.more.more.more);
    assert ApplyFields(ApplyUser, m3, f.more.more.more) == ApplyFields(ApplyUser, m4, f.more.more.more.more);
    assert ApplyFields(ApplyUser, m4, f.more.more.more.more) == ApplyFields(ApplyUser, MergeUser(m, x), NoMore);
  }

  lemma ParseUserIsMerge(m: UserInfo, x: UserInfo, rest: bytes)
    requires UserUtf8(x) && UserSize(x) <= INT_MAX
    ensures ParseLoop(ApplyUser, m, SerializeUser(x) + rest) == ParseLoop(ApplyUser, MergeUser(m, x), rest)
  {
    UserSizeIsLength(x);
    ApplyUserFields(m, x);
    ParseFields(ApplyUser, m, UserFields(x), rest);
  }

  // ---------------------------------------------------------------- StringMessageInfo

  datatype StringInfo = StringInfo(content: bytes)

  const NO_STRING: StringInfo := StringInfo([])

  function StringFields(x: StringInfo): (fields: Fields)
    ensures Plain(fields)
  {
    Text(1, x.content, NoMore)
  }

  function ApplyString(m: StringInfo, item: Item): Option<StringInfo> {
    match item
    case Bytes(1, b) => if ValidUtf8(b) then Some(m.(content := b)) else None
    case _ => Some(m)
  }

  function MergeString(m: StringInfo, x: StringInfo): StringInfo { StringInfo(Keep(m.content, x.content)) }

  function SerializeString(x: StringInfo): bytes { EncodeFields(StringFields(x)) }

  function StringInfoSize(x: StringInfo): nat { TextSize(x.content) }

  lemma StringSizeIsLength(x: StringInfo)
    ensures StringInfoSize(x) == TotalSize(StringFields(x)) == |SerializeString(x)|
  {
    TotalSizeIsLength(StringFields(x));
  }

  lemma ParseStringIsMerge(m: StringInfo, x: StringInfo, rest: bytes)
    requires ValidUtf8(x.content) && StringInfoSize(x) <= INT_MAX
    ensures ParseLoop(ApplyString, m, SerializeString(x) + rest) == ParseLoop(ApplyString, MergeString(m, x), rest)
  {
    StringSizeIsLength(x);
    ParseFields(ApplyString, m, StringFields(x), rest);
  }

  // ---------------------------------------------------------------- ImageMessageInfo and SpeechMessageInfo

  /** Both are a file id (text) and contents (bytes), fields 1 and 2, each with a has-bit. */
  datatype MediaInfo = MediaInfo(fileId: Option<bytes>, contents: Option<bytes>)

  const NO_MEDIA: MediaInfo := MediaInfo(None, None)

  function MediaFields(x: MediaInfo): (fields: Fields)
    ensures Plain(fields)
  {
    Opt(1, x.fileId, Opt(2, x.contents, NoMore))
  }

  function ApplyMedia(m: MediaInfo, item: Item): Option<MediaInfo> {
    match item
    case Bytes(1, b) => if ValidUtf8(b) then Some(m.(fileId := Some(b))) else None
    case Bytes(2, b) => Some(m.(contents := Some(b)))
    case _ => Some(m)
  }

  function MergeMedia(m: MediaInfo, x: MediaInfo): MediaInfo {
    MediaInfo(Prefer(m.fileId, x.fileId), Prefer(m.contents, x.contents))
  }

  function SerializeMedia(x: MediaInfo): bytes { EncodeFields(MediaFields(x)) }

  function MediaSize(x: MediaInfo): nat { OptSize(x.fileId) + OptSize(x.contents) }

  lemma MediaSizeIsLength(x: MediaInfo)
    ensures MediaSize(x) == TotalSize(MediaFields(x)) == |SerializeMedia(x)|
  {
    TotalSizeIsLength(MediaFields(x));
  }

  lemma ParseMediaIsMerge(m: MediaInfo, x: MediaInfo, rest: bytes)
    requires OptUtf8(x.fileId) && MediaSize(x) <= INT_MAX
    ensures ParseLoop(ApplyMedia, m, SerializeMedia(x) + rest) == ParseLoop(ApplyMedia, MergeMedia(m, x), rest)
  {
    var m1 := m.(fileId := Prefer(m.fileId, x.fileId));
    MediaSizeIsLength(x);
    assert ApplyFields(ApplyMedia, m, MediaFields(x)) == ApplyFields(ApplyMedia, m1, MediaFields(x).more);
    assert ApplyFields(ApplyMedia, m1, MediaFields(x).more) == ApplyFields(ApplyMedia, MergeMedia(m, x), NoMore);
    ParseFields(ApplyMedia, m, MediaFields(x), rest);
  }

  // ---------------------------------------------------------------- FileMessageInfo

  datatype FileInfo = FileInfo(fileId: Option<bytes>, fileSize: Option<int64>, fileName: Option<bytes>, fileContents: Option<bytes>)

  const NO_FILE: FileInfo := FileInfo(None, None, None, None)

  function FileFields(x: FileInfo): (fields: Fields)
    ensures Plain(fields)
  {
    Opt(1, x.fileId,
        Number(x.fileSize.Some?, 2, if x.fileSize.Some? then x.fileSize.value else 0,
               Opt(3, x.fileName, Opt(4, x.fileContents, NoMore))))
  }

  function ApplyFile(m: FileInfo, item: Item): Option<FileInfo> {
    match item
    case Bytes(1, b) => if ValidUtf8(b) then Some(m.(fileId := Some(b))) else None
    case Varint(2, v) => Some(m.(fileSize := Some(ToInt64(v))))
    case Bytes(3, b) => if ValidUtf8(b) then Some(m.(fileName := Some(b))) else None
    case Bytes(4, b) => Some(m.(fileContents := Some(b)))
    case _ => Some(m)
  }

  function MergeFile(m: FileInfo, x: FileInfo): FileInfo {
    FileInfo(Prefer(m.fileId, x.fileId), Prefer(m.fileSize, x.fileSize), Prefer(m.fileName, x.fileName), Prefer(m.fileContents, x.fileContents))
  }

  predicate FileUtf8(x: FileInfo) { OptUtf8(x.fileId) && OptUtf8(x.fileName) }

  function SerializeFile(x: FileInfo): bytes { EncodeFields(FileFields(x)) }

  /** The size code goes by has-bit, so file_size comes last. */
  function FileInfoSize(x: FileInfo): nat {
    OptSize(x.fileId) + OptSize(x.fileName) + OptSize(x.fileContents)
    + if x.fileSize.Some? then 1 + VarintSize(ToUint64(x.fileSize.value)) else 0
  }

  lemma FileSizeIsLength(x: FileInfo)
    ensures FileInfoSize(x) == TotalSize(FileFields(x)) == |SerializeFile(x)|
  {
    var f := FileFields(x);
    assert TotalSize(f.more.more) == OptSize(x.fileName) + TotalSize(f.more.more.more);
    assert TotalSize(f.more.more.more) == OptSize(x.fileContents) + TotalSize(NoMore);
    TotalSizeIsLength(f);
  }

  lemma ParseFileIsMerge(m: FileInfo, x: FileInfo, rest: bytes)
    requires FileUtf8(x) && FileInfoSize(x) <= INT_MAX
    ensures ParseLoop(ApplyFile, m, SerializeFile(x) + rest) == ParseLoop(ApplyFile, MergeFile(m, x), rest)
  {
    var f := FileFields(x);
    var m1 := m.(fileId := Prefer(m.fileId, x.fileId));
    var m2 := m1.(fileSize := Prefer(m.fileSize, x.fileSize));
    var m3 := m2.(fileName := Prefer(m.fileName, x.fileName));
    if x.fileSize.Some? { IntsRoundTrip(x.fileSize.value); }
    assert ApplyFields(ApplyFile, m, f) == ApplyFields(ApplyFile, m1, f.more);
    assert ApplyFields(ApplyFile, m1, f.more) == ApplyFields(ApplyFile, m2, f.more.more);
    assert ApplyFields(ApplyFile, m2, f.more.more) == ApplyFields(ApplyFile, m3, f.more.more.more);
    assert ApplyFields(ApplyFile, m3, f.more.more.more) == ApplyFields(ApplyFile, MergeFile(m, x), NoMore);
    FileSizeIsLength(x);
    ParseFields(ApplyFile, m, f, rest);
  }

  // ---------------------------------------------------------------- MessageContent

  datatype Content = NotSet | StringMessage(text: StringInfo) | FileMessage(file: FileInfo) | SpeechMessage(speech: MediaInfo) | ImageMessage(image: MediaInfo)

  datatype MessageContent = MessageContent(messageType: int32, content: Content)

  const NO_CONTENT: MessageContent := MessageContent(0, NotSet)

  /** The member of the oneof that is about to be written: kept if it is the one set, else a fresh one. */
  function MutableString(c: Content): StringInfo { if c.StringMessage? then c.text else NO_STRING }
  function MutableFile(c: Content): FileInfo { if c.FileMessage? then c.file else NO_FILE }
  function MutableSpeech(c: Content): MediaInfo { if c.SpeechMessage? then c.speech else NO_MEDIA }
  function MutableImage(c: Content): MediaInfo { if c.ImageMessage? then c.image else NO_MEDIA }

  /** The field that carries the oneof: its number and body; absent when no member is set. */
  function OneofNum(c: Content): (num: nat)
    ensures 0 < num < 16
  {
    match c
    case NotSet => 2
    case StringMessage(_) => 2
    case FileMessage(_) => 3
    case SpeechMessage(_) => 4
    case ImageMessage(_) => 5
  }

  function OneofBody(c: Content): bytes {
    match c
    case NotSet => []
    case StringMessage(x) => SerializeString(x)
    case FileMessage(x) => SerializeFile(x)
    case SpeechMessage(x) => SerializeMedia(x)
    case ImageMessage(x) => SerializeMedia(x)
  }

  function ContentFields(x: MessageContent): (fields: Fields)
    ensures Plain(fields)
  {
    Number(x.messageType != 0, 1, x.messageType, Nested(!x.content.NotSet?, OneofNum(x.content), OneofBody(x.content), NoMore))
  }

  function ApplyContent(m: MessageContent, item: Item): Option<MessageContent> {
    match item
    case Varint(1, v) => Some(m.(messageType := ToInt32(v)))
    case Bytes(2, b) =>
      (match Parse(ApplyString, MutableString(m.content), b) case None => None case Some(x) => Some(m.(content := StringMessage(x))))
    case Bytes(3, b) =>
      (match Parse(ApplyFile, MutableFile(m.content), b) case None => None case Some(x) => Some(m.(content := FileMessage(x))))
    case Bytes(4, b) =>
      (match Parse(ApplyMedia, MutableSpeech(m.content), b) case None => None case Some(x) => Some(m.(content := SpeechMessage(x))))
    case Bytes(5, b) =>
      (match Parse(ApplyMedia, MutableImage(m.content), b) case None => None case Some(x) => Some(m.(content := ImageMessage(x))))
    case _ => Some(m)
  }

  function MergeOneof(m: Content, x: Content): Content {
    match x
    case NotSet => m
    case StringMessage(s) => StringMessage(MergeString(MutableString(m), s))
    case FileMessage(f) => FileMessage(MergeFile(MutableFile(m), f))
    case SpeechMessage(s) => SpeechMessage(MergeMedia(MutableSpeech(m), s))
    case ImageMessage(i) => ImageMessage(MergeMedia(MutableImage(m), i))
  }

  function MergeContent(m: MessageContent, x: MessageContent): MessageContent {
    MessageContent(if x.messageType != 0 then x.messageType else m.messageType, MergeOneof(m.content, x.content))
  }

  predicate ContentUtf8(x: MessageContent) {
    match x.content
    case NotSet => true
    case StringMessage(s) => ValidUtf8(s.content)
    case FileMessage(f) => FileUtf8(f)
    case SpeechMessage(s) => OptUtf8(s.fileId)
    case ImageMessage(i) => OptUtf8(i.fileId)
  }

  function SerializeContent(x: MessageContent): bytes { EncodeFields(ContentFields(x)) }

  function OneofSize(c: Content): nat {
    match c
    case NotSet => 0
    case StringMessage(s) => 1 + MessageSize(StringInfoSize(s))
    case FileMessage(f) => 1 + MessageSize(FileInfoSize(f))
    case SpeechMessage(s) => 1 + MessageSize(MediaSize(s))
    case ImageMessage(i) => 1 + MessageSize(MediaSize(i))
  }

  function ContentSize(x: MessageContent): nat {
    (if x.messageType != 0 then 1 + VarintSize(ToUint64(x.messageType)) else 0) + OneofSize(x.content)
  }

  lemma OneofSizeIsLength(c: Content)
    ensures !c.NotSet? ==> OneofSize(c) == 1 + StringSize(OneofBody(c))
  {
    match c
    case NotSet =>
    case StringMessage(s) => StringSizeIsLength(s);
    case FileMessage(f) => FileSizeIsLength(f);
    case SpeechMessage(s) => MediaSizeIsLength(s);
    case ImageMessage(i) => MediaSizeIsLength(i);
  }

  lemma ContentSizeIsLength(x: MessageContent)
    ensures ContentSize(x) == TotalSize(ContentFields(x)) == |SerializeContent(x)|
  {
    OneofSizeIsLength(x.content);
    assert TotalSize(ContentFields(x).more) == OneofSize(x.content) + TotalSize(NoMore);
    TotalSizeIsLength(ContentFields(x));
  }

  /** Reading back the member of the oneof that was written: same member, merged; other member, replaced. */
  lemma ApplyOneof(m: MessageContent, x: MessageContent)
    requires ContentUtf8(x) && !x.content.NotSet? && OneofSize(x.content) <= INT_MAX
    ensures ApplyContent(m, Bytes(OneofNum(x.content), OneofBody(x.content))) == Some(m.(content := MergeOneof(m.content, x.content)))
  {
    match x.content
    case StringMessage(s) =>
      ParseStringIsMerge(MutableString(m.content), s, []);
      ParseWhole(ApplyString, MutableString(m.content), SerializeString(s), MergeString(MutableString(m.content), s));
    case FileMessage(f) =>
      ParseFileIsMerge(MutableFile(m.content), f, []);
      ParseWhole(ApplyFile, MutableFile(m.content), SerializeFile(f), MergeFile(MutableFile(m.content), f));
    case SpeechMessage(s) =>
      ParseMediaIsMerge(MutableSpeech(m.content), s, []);
      ParseWhole(ApplyMedia, MutableSpeech(m.content), SerializeMedia(s), MergeMedia(MutableSpeech(m.content), s));
    case ImageMessage(i) =>
      ParseMediaIsMerge(MutableImage(m.content), i, []);
      ParseWhole(ApplyMedia, MutableImage(m.content), SerializeMedia(i), MergeMedia(MutableImage(m.content), i));
  }

  lemma ParseContentIsMerge(m: MessageContent, x: MessageContent, rest: bytes)
    requires ContentUtf8(x) && ContentSize(x) <= INT_MAX
    ensures ParseLoop(ApplyContent, m, SerializeContent(x) + rest) == ParseLoop(ApplyContent, MergeContent(m, x), rest)
  {
    var f := ContentFields(x);
    var m1 := m.(messageType := MergeContent(m, x).messageType);
    IntsRoundTrip(x.messageType);
    assert ApplyFields(ApplyContent, m, f) == ApplyFields(ApplyContent, m1, f.more);
    if !x.content.NotSet? {
      ApplyOneof(m1, x);
    }
    assert ApplyFields(ApplyContent, m1, f.more) == ApplyFields(ApplyContent, MergeContent(m, x), NoMore);
    ContentSizeIsLength(x);
    ParseFields(ApplyContent, m, f, rest);
  }

  // ---------------------------------------------------------------- MessageInfo

  datatype MessageInfo = MessageInfo(messageId: bytes, chatSessionId: bytes, timestamp: int64, sender: Option<UserInfo>, message: Option<MessageContent>)

  const NO_MESSAGE: MessageInfo := MessageInfo([], [], 0, None, None)

  function MutableSender(m: MessageInfo): UserInfo { if m.sender.Some? then m.sender.value else NO_USER }
  function MutableMessage(m: MessageInfo): MessageContent { if m.message.Some? then m.message.value else NO_CONTENT }

  function MessageFields(x: MessageInfo): (fields: Fields)
    ensures Plain(fields)
  {
    Text(1, x.messageId, Text(2, x.chatSessionId, Number(x.timestamp != 0, 3, x.timestamp,
      Nested(x.sender.Some?, 4, SerializeUser(MutableSender(x)),
        Nested(x.message.Some?, 5, SerializeContent(MutableMessage(x)), NoMore)))))
  }

  function ApplyMessage(m: MessageInfo, item: Item): Option<MessageInfo> {
    match item
    case Bytes(1, b) => if ValidUtf8(b) then Some(m.(messageId := b)) else None
    case Bytes(2, b) => if ValidUtf8(b) then Some(m.(chatSessionId := b)) else None
    case Varint(3, v) => Some(m.(timestamp := ToInt64(v)))
    case Bytes(4, b) => (match Parse(ApplyUser, MutableSender(m), b) case None => None case Some(x) => Some(m.(sender := Some(x))))
    case Bytes(5, b) => (match Parse(ApplyContent, MutableMessage(m), b) case None => None case Some(x) => Some(m.(message := Some(x))))
    case _ => Some(m)
  }

  function MergeMessage(m: MessageInfo, x: MessageInfo): MessageInfo {
    MessageInfo(Keep(m.messageId, x.messageId), Keep(m.chatSessionId, x.chatSessionId),
                if x.timestamp != 0 then x.timestamp else m.timestamp,
                if x.sender.Some? then Some(MergeUser(MutableSender(m), x.sender.value)) else m.sender,
                if x.message.Some? then Some(MergeContent(MutableMessage(m), x.message.value)) else m.message)
  }

  predicate MessageUtf8(x: MessageInfo) {
    ValidUtf8(x.messageId) && ValidUtf8(x.chatSessionId)
    && (x.sender.Some? ==> UserUtf8(x.sender.value)) && (x.message.Some? ==> ContentUtf8(x.message.value))
  }

  function SerializeMessage(x: MessageInfo): bytes { EncodeFields(MessageFields(x)) }

  /** The size code takes the sub-messages before the timestamp. */
  function MessageInfoSize(x: MessageInfo): nat {
    TextSize(x.messageId) + TextSize(x.chatSessionId)
    + (if x.sender.Some? then 1 + MessageSize(UserSize(x.sender.value)) else 0)
    + (if x.message.Some? then 1 + MessageSize(ContentSize(x.message.value)) else 0)
    + if x.timestamp != 0 then 1 + VarintSize(ToUint64(x.timestamp)) else 0
  }

  lemma MessageSizeIsLength(x: MessageInfo)
    ensures MessageInfoSize(x) == TotalSize(MessageFields(x)) == |SerializeMessage(x)|
  {
    var f := MessageFields(x);
    UserSizeIsLength(MutableSender(x));
    ContentSizeIsLength(MutableMessage(x));
    assert TotalSize(f) == TextSize(x.messageId) + TextSize(x.chatSessionId) + TotalSize(f.more.more);
    assert TotalSize(f.more.more.more) ==
      (if x.sender.Some? then 1 + MessageSize(UserSize(x.sender.value)) else 0) + TotalSize(f.more.more.more.more);
    assert TotalSize(f.more.more.more.more) ==
      (if x.message.Some? then 1 + MessageSize(ContentSize(x.message.value)) else 0) + TotalSize(NoMore);
    TotalSizeIsLength(f);
  }

  lemma ApplySender(m: MessageInfo, x: MessageInfo)
    requires x.sender.Some? && UserUtf8(x.sender.value) && UserSize(x.sender.value) <= INT_MAX
    ensures ApplyMessage(m, Bytes(4, SerializeUser(MutableSender(x)))) == Some(m.(sender := Some(MergeUser(MutableSender(m), x.sender.value))))
  {
    ParseUserIsMerge(MutableSender(m), x.sender.value, []);
    ParseWhole(ApplyUser, MutableSender(m), SerializeUser(x.sender.value), MergeUser(MutableSender(m), x.sender.value));
  }

  lemma ApplyBody(m: MessageInfo, x: MessageInfo)
    requires x.message.Some? && ContentUtf8(x.message.value) && ContentSize(x.message.value) <= INT_MAX
    ensures ApplyMessage(m, Bytes(5, SerializeContent(MutableMessage(x)))) == Some(m.(message := Some(MergeContent(MutableMessage(m), x.message.value))))
  {
    ParseContentIsMerge(MutableMessage(m), x.message.value, []);
    ParseWhole(ApplyContent, MutableMessage(m), SerializeContent(x.message.value), MergeContent(MutableMessage(m), x.message.value));
  }

  /** The two sub-messages of a message, which are its last fields. */
  function NestedFields(x: MessageInfo): (fields: Fields)
    ensures Plain(fields)
  {
    Nested(x.sender.Some?, 4, SerializeUser(MutableSender(x)), Nested(x.message.Some?, 5, SerializeContent(MutableMessage(x)), NoMore))
  }

  function WithSender(m: MessageInfo, x: MessageInfo): MessageInfo {
    if x.sender.Some? then m.(sender := Some(MergeUser(MutableSender(m), x.sender.value))) else m
  }

  function WithMessage(m: MessageInfo, x: MessageInfo): MessageInfo {
    if x.message.Some? then m.(message := Some(MergeContent(MutableMessage(m), x.message.value))) else m
  }

  lemma NestedSteps(m: MessageInfo, x: MessageInfo)
    requires MessageUtf8(x) && MessageInfoSize(x) <= INT_MAX
    ensures StepsTo(ApplyMessage, m, NestedFields(x), WithSender(m, x))
    ensures StepsTo(ApplyMessage, WithSender(m, x), NestedFields(x).more, WithMessage(WithSender(m, x), x))
  {
    if x.sender.Some? { ApplySender(m, x); }
    if x.message.Some? { ApplyBody(WithSender(m, x), x); }
  }

  lemma ApplyNested(m: MessageInfo, x: MessageInfo)
    requires MessageUtf8(x) && MessageInfoSize(x) <= INT_MAX
    ensures ApplyFields(ApplyMessage, m, NestedFields(x)) == Some(WithMessage(WithSender(m, x), x))
  {
    NestedSteps(m, x);
    AppliesOne(ApplyMessage, m, WithSender(m, x), NestedFields(x));
    AppliesOne(ApplyMessage, WithSender(m, x), WithMessage(WithSender(m, x), x), NestedFields(x).more);
  }

  lemma MergeByParts(m: MessageInfo, x: MessageInfo)
    ensures MergeMessage(m, x) == WithMessage(WithSender(WithTime(WithSession(WithId(m, x), x), x), x), x)
  {
  }

  function WithId(m: MessageInfo, x: MessageInfo): MessageInfo { m.(messageId := Keep(m.messageId, x.messageId)) }
  function WithSession(m: MessageInfo, x: MessageInfo): MessageInfo { m.(chatSessionId := Keep(m.chatSessionId, x.chatSessionId)) }
  function WithTime(m: MessageInfo, x: MessageInfo): MessageInfo { if x.timestamp != 0 then m.(timestamp := x.timestamp) else m }

  lemma HeadSteps(m: MessageInfo, x: MessageInfo)
    requires ValidUtf8(x.messageId) && ValidUtf8(x.chatSessionId)
    ensures var f, m1 := MessageFields(x), WithId(m, x);
      var m2 := WithSession(m1, x);
      && StepsTo(ApplyMessage, m, f, m1) && StepsTo(ApplyMessage, m1, f.more, m2)
      && StepsTo(ApplyMessage, m2, f.more.more, WithTime(m2, x)) && f.more.more.more == NestedFields(x)
  {
    IntsRoundTrip(x.timestamp);
  }

  /** The texts and the timestamp applied, the sub-messages are left. */
  lemma ApplyHead(m: MessageInfo, x: MessageInfo)
    requires ValidUtf8(x.messageId) && ValidUtf8(x.chatSessionId)
    ensures ApplyFields(ApplyMessage, m, MessageFields(x)) ==
      ApplyFields(ApplyMessage, WithTime(WithSession(WithId(m, x), x), x), NestedFields(x))
  {
    HeadSteps(m, x);
    var m1 := WithId(m, x);
    var m2 := WithSession(m1, x);
    AppliesThree(ApplyMessage, m, m1, m2, WithTime(m2, x), MessageFields(x));
  }

  lemma ApplyMessageFields(m: MessageInfo, x: MessageInfo)
    requires MessageUtf8(x) && MessageInfoSize(x) <= INT_MAX
    ensures ApplyFields(ApplyMessage, m, MessageFields(x)) == Some(MergeMessage(m, x))
  {
    ApplyHead(m, x);
    ApplyNested(WithTime(WithSession(WithId(m, x), x), x), x);
    MergeByParts(m, x);
  }

  /**
   Parsing what was serialized into an existing message is merging: presence, has-bits, oneof
   switching and nested messages included. Whatever follows is then parsed into the result.
   */
  lemma ParseMessageIsMerge(m: MessageInfo, x: MessageInfo, rest: bytes)
    requires MessageUtf8(x) && MessageInfoSize(x) <= INT_MAX
    ensures ParseLoop(ApplyMessage, m, SerializeMessage(x) + rest) == ParseLoop(ApplyMessage, MergeMessage(m, x), rest)
  {
    MessageSizeIsLength(x);
    ApplyMessageFields(m, x);
    ParseFields(ApplyMessage, m, MessageFields(x), rest);
  }

  lemma MergeIntoEmpty(x: MessageInfo)
    ensures MergeMessage(NO_MESSAGE, x) == x
  {
    if x.message.Some? {
      assert MergeOneof(NotSet, x.message.value.content) == x.message.value.content;
    }
  }

  lemma MessageRoundTrip(x: MessageInfo)
    requires MessageUtf8(x) && MessageInfoSize(x) <= INT_MAX
    ensures Parse(ApplyMessage, NO_MESSAGE, SerializeMessage(x)) == Some(x)
  {
    ParseMessageIsMerge(NO_MESSAGE, x, []);
    MergeIntoEmpty(x);
    ParseWhole(ApplyMessage, NO_MESSAGE, SerializeMessage(x), x);
  }

  /** Two serialized messages back to back parse as the merge of the two. */
  lemma ConcatenationIsMerge(a: MessageInfo, b: MessageInfo)
    requires MessageUtf8(a) && MessageInfoSize(a) <= INT_MAX
    requires MessageUtf8(b) && MessageInfoSize(b) <= INT_MAX
    ensures Parse(ApplyMessage, NO_MESSAGE, SerializeMessage(a) + SerializeMessage(b)) == Some(MergeMessage(a, b))
  {
    var sa, sb := SerializeMessage(a), SerializeMessage(b);
    ParseMessageIsMerge(NO_MESSAGE, a, sb);
    MergeIntoEmpty(a);
    ParseMessageIsMerge(a, b, []);
    assert sa + sb + [] == sa + sb && sb + [] == sb;
    ParseWhole(ApplyMessage, NO_MESSAGE, sa + sb, MergeMessage(a, b));
  }

  lemma UserRoundTrip(x: UserInfo)
    requires UserUtf8(x) && UserSize(x) <= INT_MAX
    ensures Parse(ApplyUser, NO_USER, SerializeUser(x)) == Some(x)
  {
    ParseUserIsMerge(NO_USER, x, []);
    ParseWhole(ApplyUser, NO_USER, SerializeUser(x), x);
  }

  // ---------------------------------------------------------------- text that is not UTF-8

  /** Written fields that cannot all be applied do not parse. */
  lemma Rejected<M>(apply: (M, Item) -> Option<M>, m: M, fields: Fields)
    requires Plain(fields) && TotalSize(fields) < TWO_64 && ApplyFields(apply, m, fields).None?
    ensures Parse(apply, m, EncodeFields(fields)).None?
  {
    ParseFields(apply, m, fields, []);
    assert EncodeFields(fields) + [] == EncodeFields(fields);
  }

  lemma RejectUser(m: UserInfo, x: UserInfo)
    requires !UserUtf8(x) && UserSize(x) <= INT_MAX
    ensures Parse(ApplyUser, m, SerializeUser(x)).None?
  {
    var f := UserFields(x);
    var m1 := m.(userId := Keep(m.userId, x.userId));
    var m2 := m1.(nickname := Keep(m.nickname, x.nickname));
    var m3 := m2.(description := Keep(m.description, x.description));
    if ValidUtf8(x.userId) {
      assert ApplyFields(ApplyUser, m, f) == ApplyFields(ApplyUser, m1, f.more);
      if ValidUtf8(x.nickname) {
        assert ApplyFields(ApplyUser, m1, f.more) == ApplyFields(ApplyUser, m2, f.more.more);
        if ValidUtf8(x.description) {
          assert ApplyFields(ApplyUser, m2, f.more.more) == ApplyFields(ApplyUser, m3, f.more.more.more);
        }
      }
    }
    UserSizeIsLength(x);
    Rejected(ApplyUser, m, f);
  }

  lemma RejectString(m: StringInfo, x: StringInfo)
    requires !ValidUtf8(x.content) && StringInfoSize(x) <= INT_MAX
    ensures Parse(ApplyString, m, SerializeString(x)).None?
  {
    StringSizeIsLength(x);
    Rejected(ApplyString, m, StringFields(x));
  }

  lemma RejectMedia(m: MediaInfo, x: MediaInfo)
    requires !OptUtf8(x.fileId) && MediaSize(x) <= INT_MAX
    ensures Parse(ApplyMedia, m, SerializeMedia(x)).None?
  {
    MediaSizeIsLength(x);
    Rejected(ApplyMedia, m, MediaFields(x));
  }

  lemma RejectFile(m: FileInfo, x: FileInfo)
    requires !FileUtf8(x) && FileInfoSize(x) <= INT_MAX
    ensures Parse(ApplyFile, m, SerializeFile(x)).None?
  {
    var f := FileFields(x);
    if OptUtf8(x.fileId) {
      var m1 := m.(fileId := Prefer(m.fileId, x.fileId));
      var m2 := if x.fileSize.Some? then m1.(fileSize := Some(ToInt64(ToUint64(x.fileSize.value)))) else m1;
      assert ApplyFields(ApplyFile, m, f) == ApplyFields(ApplyFile, m1, f.more);
      assert ApplyFields(ApplyFile, m1, f.more) == ApplyFields(ApplyFile, m2, f.more.more);
    }
    FileSizeIsLength(x);
    Rejected(ApplyFile, m, f);
  }

  lemma RejectOneof(m: MessageContent, x: MessageContent)
    requires !ContentUtf8(x) && OneofSize(x.content) <= INT_MAX
    ensures ApplyContent(m, Bytes(OneofNum(x.content), OneofBody(x.content))).None?
  {
    match x.content
    case StringMessage(s) => RejectString(MutableString(m.content), s);
    case FileMessage(f) => RejectFile(MutableFile(m.content), f);
    case SpeechMessage(s) => RejectMedia(MutableSpeech(m.content), s);
    case ImageMessage(i) => RejectMedia(MutableImage(m.content), i);
  }

  lemma RejectContent(m: MessageContent, x: MessageContent)
    requires !ContentUtf8(x) && ContentSize(x) <= INT_MAX
    ensures Parse(ApplyContent, m, SerializeContent(x)).None?
  {
    var f := ContentFields(x);
    var m1 := if x.messageType != 0 then m.(messageType := ToInt32(ToUint64(x.messageType))) else m;
    assert ApplyFields(ApplyContent, m, f) == ApplyFields(ApplyContent, m1, f.more);
    RejectOneof(m1, x);
    ContentSizeIsLength(x);
    Rejected(ApplyContent, m, f);
  }

  lemma RejectSender(m: MessageInfo, x: MessageInfo)
    requires MessageInfoSize(x) <= INT_MAX && x.sender.Some? && !UserUtf8(x.sender.value)
    ensures ApplyMessage(m, Bytes(4, SerializeUser(x.sender.value))).None?
  {
    RejectUser(MutableSender(m), x.sender.value);
  }

  lemma RejectBody(m: MessageInfo, x: MessageInfo)
    requires MessageInfoSize(x) <= INT_MAX && x.message.Some? && !ContentUtf8(x.message.value)
    ensures ApplyMessage(m, Bytes(5, SerializeContent(x.message.value))).None?
  {
    RejectContent(MutableMessage(m), x.message.value);
  }

  lemma RejectNested(m: MessageInfo, x: MessageInfo)
    requires MessageInfoSize(x) <= INT_MAX
    requires (x.sender.Some? && !UserUtf8(x.sender.value)) || (x.message.Some? && !ContentUtf8(x.message.value))
    ensures ApplyFields(ApplyMessage, m, NestedFields(x)).None?
  {
    if x.sender.Some? && !UserUtf8(x.sender.value) {
      RejectSender(m, x);
    } else {
      var m1 := ApplyMessage(m, Bytes(4, SerializeUser(MutableSender(x))));
      RejectBody(if x.sender.Some? && m1.Some? then m1.value else m, x);
    }
  }

  lemma RejectMessageFields(m: MessageInfo, x: MessageInfo)
    requires !MessageUtf8(x) && MessageInfoSize(x) <= INT_MAX
    ensures ApplyFields(ApplyMessage, m, MessageFields(x)).None?
  {
    if ValidUtf8(x.messageId) && ValidUtf8(x.chatSessionId) {
      ApplyHead(m, x);
      RejectNested(WithTime(WithSession(WithId(m, x), x), x), x);
    } else {
      RejectTexts(m, x);
    }
  }

  lemma RejectTexts(m: MessageInfo, x: MessageInfo)
    requires !ValidUtf8(x.messageId) || !ValidUtf8(x.chatSessionId)
    ensures ApplyFields(ApplyMessage, m, MessageFields(x)).None?
  {
    var f, m1 := MessageFields(x), WithId(m, x);
    if ValidUtf8(x.messageId) {
      assert StepsTo(ApplyMessage, m, f, m1);
      assert ApplyFields(ApplyMessage, m, f) == ApplyFields(ApplyMessage, m1, f.more);
    }
  }

  /** Serializing never looks at the text, parsing does: a message comes back exactly when every string in it, nested ones included, is UTF-8. */
  lemma MessageParsesIffUtf8(x: MessageInfo)
    requires MessageInfoSize(x) <= INT_MAX
    ensures Parse(ApplyMessage, NO_MESSAGE, SerializeMessage(x)) == if MessageUtf8(x) then Some(x) else None
  {
    if MessageUtf8(x) {
      MessageRoundTrip(x);
    } else {
      MessageSizeIsLength(x);
      RejectMessageFields(NO_MESSAGE, x);
      Rejected(ApplyMessage, NO_MESSAGE, MessageFields(x));
    }
  }

  lemma UserParsesIffUtf8(x: UserInfo)
    requires UserSize(x) <= INT_MAX
    ensures Parse(ApplyUser, NO_USER, SerializeUser(x)) ==
      if ValidUtf8(x.userId) && ValidUtf8(x.nickname) && ValidUtf8(x.description) && ValidUtf8(x.phone) then Some(x) else None
  {
    if UserUtf8(x) {
      UserRoundTrip(x);
    } else {
      RejectUser(NO_USER, x);
    }
  }

  // ---------------------------------------------------------------- the bytes on the wire

  /** A length-delimited record with a one-byte tag; an absent or empty field is not written. */
  function Record(tag: byte, b: bytes): bytes { [tag] + EncodeVarint(|b|) + b }
  function TextRecord(tag: byte, b: bytes): bytes { if b == [] then [] else Record(tag, b) }
  function OptRecord(tag: byte, b: Option<bytes>): bytes { if b.Some? then Record(tag, b.value) else [] }

  lemma EncodedRecord(num: nat, b: bytes)
    requires 0 < num < 16
    ensures Encode(Bytes(num, b)) == Record(num * 8 + 2, b)
  {
  }

  lemma EncodedNumber(num: nat, v: nat)
    requires 0 < num < 16
    ensures Encode(Varint(num, v)) == [num * 8] + EncodeVarint(v)
  {
  }

  lemma OneField(f: Fields)
    requires f.Field?
    ensures EncodeFields(f) == (if f.present then Encode(f.item) else []) + EncodeFields(f.more)
    ensures f.more.NoMore? ==> EncodeFields(f) == if f.present then Encode(f.item) else []
  {
  }

  lemma TwoFields(f: Fields)
    requires f.Field? && f.more.Field?
    ensures EncodeFields(f) == (if f.present then Encode(f.item) else [])
      + (if f.more.present then Encode(f.more.item) else []) + EncodeFields(f.more.more)
  {
    Regroup(if f.present then Encode(f.item) else [], if f.more.present then Encode(f.more.item) else [], EncodeFields(f.more.more));
  }

  /** Each field of base.proto under its own number and wire type, in order. */
  lemma UserLayout(x: UserInfo)
    ensures SerializeUser(x) == TextRecord(0x0A, x.userId) + TextRecord(0x12, x.nickname)
      + (TextRecord(0x1A, x.description) + TextRecord(0x22, x.phone) + TextRecord(0x2A, x.avatar))
  {
    var f := UserFields(x);
    EncodedRecord(1, x.userId);
    EncodedRecord(2, x.nickname);
    EncodedRecord(3, x.description);
    EncodedRecord(4, x.phone);
    EncodedRecord(5, x.avatar);
    TwoFields(f);
    ThreeFields(f.more.more);
  }

  lemma StringLayout(x: StringInfo)
    ensures SerializeString(x) == TextRecord(0x0A, x.content)
  {
    EncodedRecord(1, x.content);
    OneField(StringFields(x));
  }

  lemma MediaLayout(x: MediaInfo)
    ensures SerializeMedia(x) == OptRecord(0x0A, x.fileId) + OptRecord(0x12, x.contents)
  {
    EncodedRecord(1, if x.fileId.Some? then x.fileId.value else []);
    EncodedRecord(2, if x.contents.Some? then x.contents.value else []);
    TwoFields(MediaFields(x));
  }

  lemma FileLayout(x: FileInfo)
    ensures SerializeFile(x) == OptRecord(0x0A, x.fileId)
      + (if x.fileSize.Some? then [0x10] + EncodeVarint(ToUint64(x.fileSize.value)) else [])
      + (OptRecord(0x1A, x.fileName) + OptRecord(0x22, x.fileContents))
  {
    EncodedRecord(1, if x.fileId.Some? then x.fileId.value else []);
    EncodedNumber(2, ToUint64(if x.fileSize.Some? then x.fileSize.value else 0));
    EncodedRecord(3, if x.fileName.Some? then x.fileName.value else []);
    EncodedRecord(4, if x.fileContents.Some? then x.fileContents.value else []);
    TwoFields(FileFields(x));
    TwoFields(FileFields(x).more.more);
  }

  lemma ContentLayout(x: MessageContent)
    ensures SerializeContent(x) == (if x.messageType != 0 then [0x08] + EncodeVarint(ToUint64(x.messageType)) else [])
      + match x.content
        case NotSet => []
        case StringMessage(s) => Record(0x12, SerializeString(s))
        case FileMessage(f) => Record(0x1A, SerializeFile(f))
        case SpeechMessage(s) => Record(0x22, SerializeMedia(s))
        case ImageMessage(i) => Record(0x2A, SerializeMedia(i))
  {
    EncodedNumber(1, ToUint64(x.messageType));
    EncodedRecord(OneofNum(x.content), OneofBody(x.content));
    TwoFields(ContentFields(x));
  }

  lemma MessageLayout(x: MessageInfo)
    ensures SerializeMessage(x) == TextRecord(0x0A, x.messageId) + TextRecord(0x12, x.chatSessionId)
      + ((if x.timestamp != 0 then [0x18] + EncodeVarint(ToUint64(x.timestamp)) else [])
         + (if x.sender.Some? then Record(0x22, SerializeUser(x.sender.value)) else [])
         + (if x.message.Some? then Record(0x2A, SerializeContent(x.message.value)) else []))
  {
    var f := MessageFields(x);
    EncodedRecord(1, x.messageId);
    EncodedRecord(2, x.chatSessionId);
    EncodedNumber(3, ToUint64(x.timestamp));
    EncodedRecord(4, SerializeUser(MutableSender(x)));
    EncodedRecord(5, SerializeContent(MutableMessage(x)));
    TwoFields(f);
    ThreeFields(f.more.more);
  }

  lemma ThreeFields(f: Fields)
    requires f.Field? && f.more.Field? && f.more.more.Field? && f.more.more.more.NoMore?
    ensures EncodeFields(f) == (if f.present then Encode(f.item) else [])
      + (if f.more.present then Encode(f.more.item) else [])
      + (if f.more.more.present then Encode(f.more.more.item) else [])
  {
    TwoFields(f);
    var last := f.more.more;
    assert EncodeFields(last) == (if last.present then Encode(last.item) else []) + [];
  }

  // ---------------------------------------------------------------- what one record does

  /** A record anywhere in the input is applied to what has been read so far, whatever follows. */
  lemma RecordTurn<M>(apply: (M, Item) -> Option<M>, m: M, num: nat, b: bytes, rest: bytes)
    requires 0 < num < 16 && |b| < TWO_64
    ensures ParseLoop(apply, m, Record(num * 8 + 2, b) + rest) ==
      match apply(m, Bytes(num, b)) case None => Failed case Some(m') => ParseLoop(apply, m', rest)
  {
    EncodedRecord(num, b);
    ParseItem(apply, m, Bytes(num, b), rest);
  }

  /** Likewise a number, in any of its varint forms. */
  lemma NumberTurnOf<M>(apply: (M, Item) -> Option<M>, m: M, num: nat, groups: seq<nat>, rest: bytes)
    requires 0 < num < 16 && 1 <= |groups| <= 10 && forall i :: 0 <= i < |groups| ==> groups[i] < 128
    ensures ParseLoop(apply, m, [num * 8] + WireGroups(groups) + rest) ==
      match apply(m, Varint(num, SumGroups(groups) % TWO_64)) case None => Failed case Some(m') => ParseLoop(apply, m', rest)
  {
    var tail := WireGroups(groups) + rest;
    Regroup([num * 8], WireGroups(groups), rest);
    ReadEncodedTag(num, 0, tail);
    ReadsAnyVarint(groups, rest);
    NumberTurn(apply, m, [num * 8] + tail, num * 8, tail);
  }

  /** The last one wins, even when it is empty: a text record sets its own field and no other, if it is UTF-8. */
  lemma UserRecordSets(m: UserInfo, b: bytes)
    ensures ApplyUser(m, Bytes(1, b)) == if ValidUtf8(b) then Some(UserInfo(b, m.nickname, m.description, m.phone, m.avatar)) else None
    ensures ApplyUser(m, Bytes(2, b)) == if ValidUtf8(b) then Some(UserInfo(m.userId, b, m.description, m.phone, m.avatar)) else None
    ensures ApplyUser(m, Bytes(3, b)) == if ValidUtf8(b) then Some(UserInfo(m.userId, m.nickname, b, m.phone, m.avatar)) else None
    ensures ApplyUser(m, Bytes(4, b)) == if ValidUtf8(b) then Some(UserInfo(m.userId, m.nickname, m.description, b, m.avatar)) else None
    ensures ApplyUser(m, Bytes(5, b)) == Some(UserInfo(m.userId, m.nickname, m.description, m.phone, b))
  {
  }

  /** A record of a field with presence makes it present; the size is the 64 bits as a signed number. */
  lemma FileRecordSets(m: FileInfo, b: bytes, v: nat)
    requires v < TWO_64
    ensures ApplyFile(m, Bytes(1, b)) == if ValidUtf8(b) then Some(FileInfo(Some(b), m.fileSize, m.fileName, m.fileContents)) else None
    ensures ApplyFile(m, Bytes(3, b)) == if ValidUtf8(b) then Some(FileInfo(m.fileId, m.fileSize, Some(b), m.fileContents)) else None
    ensures ApplyFile(m, Bytes(4, b)) == Some(FileInfo(m.fileId, m.fileSize, m.fileName, Some(b)))
    ensures ApplyFile(m, Varint(2, v)) ==
      Some(FileInfo(m.fileId, Some(if v < 0x8000_0000_0000_0000 then v else v - 0x1_0000_0000_0000_0000), m.fileName, m.fileContents))
  {
  }

  /** The type is the low 32 bits as a signed number; a sub-message is parsed into the member if it is set, else into a new one. */
  lemma ContentRecordSets(m: MessageContent, b: bytes, v: nat)
    ensures ApplyContent(m, Varint(1, v)) ==
      Some(MessageContent(var w := v % 0x1_0000_0000; if w < 0x8000_0000 then w else w - 0x1_0000_0000, m.content))
    ensures ApplyContent(m, Bytes(2, b)) ==
      var x := Parse(ApplyString, if m.content.StringMessage? then m.content.text else NO_STRING, b);
      if x.Some? then Some(MessageContent(m.messageType, StringMessage(x.value))) else None
    ensures ApplyContent(m, Bytes(3, b)) ==
      var x := Parse(ApplyFile, if m.content.FileMessage? then m.content.file else NO_FILE, b);
      if x.Some? then Some(MessageContent(m.messageType, FileMessage(x.value))) else None
    ensures ApplyContent(m, Bytes(4, b)) ==
      var x := Parse(ApplyMedia, if m.content.SpeechMessage? then m.content.speech else NO_MEDIA, b);
      if x.Some? then Some(MessageContent(m.messageType, SpeechMessage(x.value))) else None
    ensures ApplyContent(m, Bytes(5, b)) ==
      var x := Parse(ApplyMedia, if m.content.ImageMessage? then m.content.image else NO_MEDIA, b);
      if x.Some? then Some(MessageContent(m.messageType, ImageMessage(x.value))) else None
  {
  }

  lemma MessageRecordSets(m: MessageInfo, b: bytes, v: nat)
    requires v < TWO_64
    ensures ApplyMessage(m, Bytes(1, b)) ==
      if ValidUtf8(b) then Some(MessageInfo(b, m.chatSessionId, m.timestamp, m.sender, m.message)) else None
    ensures ApplyMessage(m, Bytes(2, b)) ==
      if ValidUtf8(b) then Some(MessageInfo(m.messageId, b, m.timestamp, m.sender, m.message)) else None
    ensures ApplyMessage(m, Varint(3, v)) ==
      Some(MessageInfo(m.messageId, m.chatSessionId, if v < 0x8000_0000_0000_0000 then v else v - 0x1_0000_0000_0000_0000, m.sender, m.message))
    ensures ApplyMessage(m, Bytes(4, b)) ==
      var x := Parse(ApplyUser, if m.sender.Some? then m.sender.value else NO_USER, b);
      if x.Some? then Some(MessageInfo(m.messageId, m.chatSessionId, m.timestamp, x, m.message)) else None
    ensures ApplyMessage(m, Bytes(5, b)) ==
      var x := Parse(ApplyContent, if m.message.Some? then m.message.value else NO_CONTENT, b);
      if x.Some? then Some(MessageInfo(m.messageId, m.chatSessionId, m.timestamp, m.sender, x)) else None
  {
  }

  // ---------------------------------------------------------------- what merging means, field by field

  /** Plain text is taken over unless it is empty; a field with presence is taken over when it is there. */
  lemma MergeLeaves(m: UserInfo, x: UserInfo, f: FileInfo, g: FileInfo, a: MediaInfo, b: MediaInfo)
    ensures var r := MergeUser(m, x);
      && r.userId == (if x.userId == [] then m.userId else x.userId)
      && r.nickname == (if x.nickname == [] then m.nickname else x.nickname)
      && r.description == (if x.description == [] then m.description else x.description)
      && r.phone == (if x.phone == [] then m.phone else x.phone)
      && r.avatar == (if x.avatar == [] then m.avatar else x.avatar)
    ensures var r := MergeFile(f, g);
      && r.fileId == (if g.fileId.Some? then g.fileId else f.fileId)
      && r.fileSize == (if g.fileSize.Some? then g.fileSize else f.fileSize)
      && r.fileName == (if g.fileName.Some? then g.fileName else f.fileName)
      && r.fileContents == (if g.fileContents.Some? then g.fileContents else f.fileContents)
    ensures var r := MergeMedia(a, b);
      && r.fileId == (if b.fileId.Some? then b.fileId else a.fileId)
      && r.contents == (if b.contents.Some? then b.contents else a.contents)
  {
  }

  /** The oneof: the same member is merged into, another one replaced, and nothing set leaves it alone. */
  lemma MergeOneofByCase(m: Content, x: Content)
    ensures x.NotSet? ==> MergeOneof(m, x) == m
    ensures m.StringMessage? && x.StringMessage? ==>
      MergeOneof(m, x) == StringMessage(StringInfo(if x.text.content == [] then m.text.content else x.text.content))
    ensures m.FileMessage? && x.FileMessage? ==> MergeOneof(m, x) == FileMessage(MergeFile(m.file, x.file))
    ensures m.SpeechMessage? && x.SpeechMessage? ==> MergeOneof(m, x) == SpeechMessage(MergeMedia(m.speech, x.speech))
    ensures m.ImageMessage? && x.ImageMessage? ==> MergeOneof(m, x) == ImageMessage(MergeMedia(m.image, x.image))
    ensures !x.NotSet? && OneofNum(m) != OneofNum(x) ==> MergeOneof(m, x) == x
    ensures m.NotSet? ==> MergeOneof(m, x) == x
  {
  }

  /** Sub-messages: the other's is taken over whole when this one has none, merged when both have one. */
  lemma MergeByField(m: MessageInfo, x: MessageInfo)
    ensures var r := MergeMessage(m, x);
      && r.messageId == (if x.messageId == [] then m.messageId else x.messageId)
      && r.chatSessionId == (if x.chatSessionId == [] then m.chatSessionId else x.chatSessionId)
      && r.timestamp == (if x.timestamp == 0 then m.timestamp else x.timestamp)
      && r.sender == (if x.sender.None? then m.sender
                      else if m.sender.None? then x.sender
                      else Some(MergeUser(m.sender.value, x.sender.value)))
      && r.message == (if x.message.None? then m.message
                       else if m.message.None? then x.message
                       else
                         var a, b := m.message.value, x.message.value;
                         Some(MessageContent(if b.messageType == 0 then a.messageType else b.messageType,
                                             MergeOneof(a.content, b.content))))
  {
    if x.message.Some? {
      MergeOneofByCase(NotSet, x.message.value.content);
    }
  }

  // ---------------------------------------------------------------- what a parsed message is like

  /** Whatever is parsed, the strings of a message are UTF-8 afterwards if they were before. */
  ghost predicate Kept<M(!new)>(apply: (M, Item) -> Option<M>, good: M -> bool) {
    forall m, item :: good(m) && apply(m, item).Some? ==> good(apply(m, item).value)
  }

  lemma {:induction false} ParseKeeps<M(!new)>(apply: (M, Item) -> Option<M>, good: M -> bool, m: M, s: bytes)
    requires Kept(apply, good) && good(m) && !ParseLoop(apply, m, s).Failed?
    ensures good(ParseLoop(apply, m, s).message)
    decreases |s|
  {
    var r := ReadItem(s);
    if s != [] && r.Got? {
      ParseStep(apply, m, s);
      ParseKeeps(apply, good, apply(m, r.item).value, r.rest);
    }
  }

  /** Which text is checked: every string field, nested ones included; never a bytes field. */
  lemma Utf8Means(x: MessageInfo)
    ensures MessageUtf8(x) <==>
      && ValidUtf8(x.messageId) && ValidUtf8(x.chatSessionId)
      && (x.sender.Some? ==> var u := x.sender.value;
            ValidUtf8(u.userId) && ValidUtf8(u.nickname) && ValidUtf8(u.description) && ValidUtf8(u.phone))
      && (x.message.Some? ==>
            match x.message.value.content
            case NotSet => true
            case StringMessage(s) => ValidUtf8(s.content)
            case FileMessage(f) => (f.fileId.Some? ==> ValidUtf8(f.fileId.value)) && (f.fileName.Some? ==> ValidUtf8(f.fileName.value))
            case SpeechMessage(s) => s.fileId.Some? ==> ValidUtf8(s.fileId.value)
            case ImageMessage(i) => i.fileId.Some? ==> ValidUtf8(i.fileId.value))
  {
  }

  /** Any bytes that parse into a user give one whose four strings are UTF-8; the avatar may be anything. */
  lemma ParsedUserIsUtf8(m: UserInfo, s: bytes)
    requires ValidUtf8(m.userId) && ValidUtf8(m.nickname) && ValidUtf8(m.description) && ValidUtf8(m.phone)
    requires Parse(ApplyUser, m, s).Some?
    ensures var x := Parse(ApplyUser, m, s).value;
      ValidUtf8(x.userId) && ValidUtf8(x.nickname) && ValidUtf8(x.description) && ValidUtf8(x.phone)
  {
    ParseKeeps(ApplyUser, UserUtf8, m, s);
  }

  /** Every field but those of base.proto, by number and wire type, is passed by: later versions' fields do not disturb a message. */
  lemma OtherFieldsArePassedBy(m: MessageInfo, u: Unknown, rest: bytes)
    requires Sendable(u)
    requires !(WireType(u) == 2 && u.num in {1, 2, 4, 5}) && !(WireType(u) == 0 && u.num == 3)
    ensures ParseLoop(ApplyMessage, m, EncodeUnknown(u) + rest) == ParseLoop(ApplyMessage, m, rest)
  {
    UnknownIsPassedBy(ApplyMessage, m, u, rest);
  }

  lemma OtherUserFieldsArePassedBy(m: UserInfo, u: Unknown, rest: bytes)
    requires Sendable(u) && !(WireType(u) == 2 && u.num <= 5)
    ensures ParseLoop(ApplyUser, m, EncodeUnknown(u) + rest) == ParseLoop(ApplyUser, m, rest)
  {
    UnknownIsPassedBy(ApplyUser, m, u, rest);
  }
}
