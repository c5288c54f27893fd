# Verified model of the chat back end's stateful core

A chat message passes through a few small stateful components on its way from sender to receivers.
This project models them in Dafny and proves what they are relied on for, over every input and every run.

- **Member-list cache** (`MemberList`, `SessionMemberCache`): the members of a session behind an
  in-process map (L1), Redis (L2) and a database loader. `TieredCache` is the protocol itself, run by any
  number of processes on one timeline; `SingleFlight` is the same `get` with every memory, Redis and lock
  operation a step of its own, for any number of threads. Results: how stale an answer can be, what an
  invalidation guarantees, at most one loader call per shard at a time and how far apart loads are, and
  exactly which member lists survive storage.
- **User cache and its codec** (`UserInfoCache`, `Wire`, `Utf8`, `BaseMessages`, `BaseObjects`,
  `FileMessages`, `FileReplies`): cached users are serialized protobuf messages, so the generated code is modelled down to
  tags, varints, has-bits and oneof switching. `BaseMessages` says what the messages mean as values;
  `BaseObjects`, `FileMessages` and `FileReplies` hold the generated classes, changed in place by parse loops, and each
  method is proved to do what the values say. Results: parsing into a message is merging, round trips,
  sizes equal lengths, exactly when a serialized message can be read back, and the fast path for runs
  of records.
- **RabbitMQ client** (`MqPublisher`, `MqThreads`, `RetryHeader`, `ConsumerRetry`): the publishing queue,
  drained by an event loop while other threads publish, and the consumer's retry protocol, whose attempt
  count travels in the body. Results: every task is in exactly one place, no wake-up is lost, an
  interleaved drain does exactly what a sequential one does, no payload is lost over any run with
  crashes, and how often a callback can be called.
- **Snowflake ids** (`Snowflake`): ids rise exactly when no call reads a time behind the last, repeat exactly when
  a call ends in a millisecond that was left, 4096 to the millisecond, never shared between machines.
- **Service registry** (`ServiceRegistry`, `RoundRobin`): channels and hosts that come and go. Results: the
  registry is a replay of each declared service's own events, vector and map agree exactly when no host
  came up while up, choices are live and fair.
- **Agent loop** (`ReactLoop`): five turns against a model that may answer anything. Results: the shape of
  the transcript, call for call, whose id the tools are given, and when a run raises.

## How the model is built

Code that changes state is a class or a method with the source's own loops and branches. Its contract ties
the new state to a function of the old one (`Requeued`, `LookLocked`, `ParseLoop`, `Append`, ...), and the
results are lemmas about those functions and about runs made of them. A run is a list of events or actions
in any order; an action that is not possible in a state changes nothing, so every list is a run and a lemma
over all lists is a lemma over all interleavings.

Clock readings, what Redis holds when a lock is granted, the loader, the publish attempts, the callbacks,
the language model, `json.loads` and the tools are parameters.

Where the code and its comments or intended use differ, the model follows the code:

- A re-queued publish waits for the next publish: nothing wakes the loop for it
  (`MqThreads.RetryCanBeStranded`; `MqThreads.NothingStrandedIff` says when nothing is left waiting).
- A first publish that carries `|` is read as having a retry header (`RetryHeader.RawIsReadWholeIff`).
- A user whose text is not UTF-8 is serialized and cached, but never read back
  (`BaseMessages.UserParsesIffUtf8`, and `BaseMessages.MessageParsesIffUtf8` for whole messages); a get that meets such bytes counts them as hits as well
  (`UserInfoCache.CountsOnceUnlessUnreadable`).
- A member list ending in an empty id, holding a comma, or equal to the sentinel does not survive storage
  (`MemberList.StoredListRoundTrip`).
- A host that comes up twice leaves a channel nobody can remove (`ServiceRegistry.AgreeIff`).
- Returning to a millisecond that was left repeats an id (`Snowflake.SteppingBackRepeats`); no id repeats if
  and only if no call ends in such a millisecond (`Snowflake.UniqueIff`).

## Model

| member | source | states |
|---|---|---|
| `MemberList.JoinLoop` | common/session_member_cache.hpp:134-142 | The appending loop builds the comma-joined text |
| `MemberList.SplitLoop` | common/session_member_cache.hpp:143-152 | The find loop cuts the text at every comma and drops an empty last piece |
| `MemberList.SplitJoin` | common/session_member_cache.hpp:134-152 | Splitting undoes joining for comma-free ids whose last is not empty |
| `MemberList.JoinSplit` | common/session_member_cache.hpp:134-152 | Joining what was split gives the text back, less one final comma |
| `MemberList.StoredListRoundTrip` | common/session_member_cache.hpp:83-88 | A list comes back from the cache if and only if its ids have no comma, its last id is not empty and it is not the sentinel alone; the empty list does |
| `SessionMemberCache.Cache.Look` | common/session_member_cache.hpp:39-63 | L1 with strict TTL and erasure, then L2 with copy-down: answer and whole new state |
| `SessionMemberCache.Cache.LookLocked` | common/session_member_cache.hpp:65-89 | Double-check, loader, TTL choice, fill of L2 and L1: answer, state and Redis |
| `SessionMemberCache.Cache.Get` | common/session_member_cache.hpp:38-89 | The two halves with anything happening to Redis between them; one count per call |
| `SessionMemberCache.Cache.Invalidate` | common/session_member_cache.hpp:94-97 | Removes this session from Redis and from this process, and nothing else |
| `SessionMemberCache.StaleForAtMost` | common/session_member_cache.hpp:38-89 | In any run of any number of processes a returned list was loaded less than 9 s before, 4 s if the loaded list was empty, and is the loaded list when that is storable |
| `SessionMemberCache.ServedFor` | common/session_member_cache.hpp:82-88 | After a load the list is answered again without the database: 2 s to this process, and to any without a copy exactly for 5 s and the jitter (2 s if empty) |
| `SessionMemberCache.InvalidatedListsAreGone` | common/session_member_cache.hpp:91-97 | After invalidate, that process at once and all processes 2 s later see only lists loaded afterwards, at that time or later |
| `SessionMemberCache.Counters` | common/session_member_cache.hpp:99-106 | Misses are loader calls, and hits plus misses are gets, in every run |
| `TieredCache.LookEffect` | common/user_info_cache.hpp:37-62 | The first half level by level: which bytes answer, what L1 holds afterwards with which date, and what counts as a hit |
| `TieredCache.LookLockedEffect` | common/user_info_cache.hpp:68-89 | The second half: answer, copy, fill of both levels and counters in each case |
| `TieredCache.AnswerIsExplained` | common/session_member_cache.hpp:38-89 | An answer from a state whose copies all come from loads comes from a load still within its lifetime |
| `TieredCache.StepKeepsSourced` | common/session_member_cache.hpp:38-97 | Every step of every process keeps "each copy comes from a load, dated within that load's TTL" |
| `TieredCache.InvalidateEffect` | common/user_info_cache.hpp:95-98 | Invalidating removes one entry of Redis and one of that process; other entries, processes and counters stay |
| `TieredCache.StalenessBound` | common/session_member_cache.hpp:38-89 | Staleness below stored TTL plus L1 TTL, because an L1 hit never renews its date |
| `TieredCache.InvalidationVisible` | common/session_member_cache.hpp:94-97 | The invalidation guarantee, by order and by time of the load, for any cache of this kind |
| `TieredCache.MissesAreLoads` | common/user_info_cache.hpp:78-80 | The miss counter is the number of loader calls, in every run |
| `TieredCache.CountersAreGets` | common/user_info_cache.hpp:36-90 | Every get counts once when all stored values decode |
| `TieredCache.FillIsServed` | common/session_member_cache.hpp:82-88 | A filled value is served from L1 for its TTL and to other processes from L2 for theirs |
| `TieredCache.RemoteHitIsServed` | common/session_member_cache.hpp:56-63 | An answer copied down from L2 is repeated from L1 for the L1 TTL whatever L2 holds |
| `SingleFlight.StepKeepsLocked` | common/session_member_cache.hpp:65-67 | The shard mutexes are held exactly by the threads past them |
| `SingleFlight.LoadedAgain` | common/session_member_cache.hpp:38-89 | A run in which the same get, ten seconds later, asks the database a second time |
| `SingleFlight.OneThreadPerShard` | common/session_member_cache.hpp:65-89 | In every interleaving at most one thread per shard is between double-check and fill |
| `SingleFlight.LoadsAreSeparated` | common/session_member_cache.hpp:65-88 | Two loads of one session without an invalidate between: the first was stored and its TTL (2 s empty, 5 to 7 s otherwise) had passed |
| `SingleFlight.TakesFreeLock` | common/session_member_cache.hpp:65-67 | A waiting thread whose shard is free becomes its owner and goes on to the double-check, and nothing else changes |
| `SingleFlight.AloneIsGet` | common/session_member_cache.hpp:38-89 | Undisturbed with its shard free, a get ends with the answer, L1 and Redis of the first half and, on a miss, of the second after it, and the lock is free again |
| `SingleFlight.DropsAreInvalidate` | common/session_member_cache.hpp:94-97 | The two steps of invalidate remove the session in Redis and in this process and nothing else |
| `SingleFlight.AloneIsLook` | common/session_member_cache.hpp:39-63 | Undisturbed, the steps before the lock are the first half of get, answer included |
| `SingleFlight.AloneIsLookLocked` | common/session_member_cache.hpp:65-89 | Undisturbed, the steps under the lock are the second half, answer included, and release it |
| `UserInfoCache.Cache.ParseUser` | common/user_info_cache.hpp:44-46 | The bytes parse, or nothing is returned |
| `UserInfoCache.Cache.Look` | common/user_info_cache.hpp:36-62 | L1 then L2 with unreadable bytes erased or passed by: answer and whole new state |
| `UserInfoCache.Cache.LookLocked` | common/user_info_cache.hpp:64-90 | Double-check, loader, absent user, refused serialization, fill |
| `UserInfoCache.Cache.Get` | common/user_info_cache.hpp:36-90 | The whole get, with anything happening to Redis between its halves |
| `UserInfoCache.Cache.Invalidate` | common/user_info_cache.hpp:95-98 | Removes this user from Redis and from this process, and nothing else |
| `UserInfoCache.LookAnswersIff` | common/user_info_cache.hpp:37-62 | The first half answers exactly when fresh L1 bytes or else visible L2 bytes parse, and leaves no readable L1 bytes otherwise |
| `UserInfoCache.ReplacedIsServed` | common/user_info_cache.hpp:78-89 | After a load, a user that fits and is UTF-8 is served from L1 for its TTL; any other leaves the answer to L2 |
| `UserInfoCache.BadBytesAreReplaced` | common/user_info_cache.hpp:36-90 | A whole get, whatever bytes L1 and L2 hold, then and when the lock is granted: the answer is the decoding of the first that parse, else the loader's; then L1 holds readable bytes if and only if the loaded user fits and is UTF-8, and one that fits leaves both levels holding its serialization |
| `UserInfoCache.CountsOnceUnlessUnreadable` | common/user_info_cache.hpp:43-79 | A whole get counts once, and once more for each unreadable value it meets |
| `UserInfoCache.ServedFor` | common/user_info_cache.hpp:83-88 | After a load the user is answered again without the user service: 10 s to this process, and to any without a copy exactly for 60 s and the jitter |
| `UserInfoCache.StaleForAtMost80s` | common/user_info_cache.hpp:36-90 | A returned user is what the loader gave less than 80 s before, unchanged by the codec |
| `UserInfoCache.Counters` | common/user_info_cache.hpp:100-104 | Misses are loader calls; hits plus misses are gets when all loaded users are UTF-8 |
| `Wire.VarintRoundTrip` | qps_test_login/base.pb.cc:1842-1845 | A written varint reads back, with what follows it untouched |
| `Wire.ReadsAnyVarint` | qps_test_login/base.pb.cc:1778-1783 | Any varint of up to ten bytes, shortest or not, reads as its 64 low bits; a longer one is refused |
| `Wire.WritesShortest` | qps_test_login/base.pb.cc:1842-1845 | What is written is the shortest varint: seven bits a byte, least first, high bit on all but the last |
| `Wire.VarintSizeIsLength` | qps_test_login/base.pb.cc:1904-1908 | The size of a varint is the length of its encoding |
| `Wire.NegativeTakesTenBytes` | qps_test_login/base.pb.cc:1904-1908 | A negative int64 takes ten bytes |
| `Wire.ReadEncodedItem` | qps_test_login/base.pb.cc:524-596 | A written field reads back as itself and leaves the rest |
| `Wire.StopsAtEnd` | qps_test_login/base.pb.cc:578-581 | A zero tag or an end-group tag stops the message there |
| `Wire.CutShortIsRefused` | qps_test_login/base.pb.cc:524-596 | A length beyond the end, a fixed-width number with too few bytes and a varint without a last byte are errors |
| `Wire.ParseFields` | qps_test_login/base.pb.cc:524-596 | Parsing written fields followed by anything is applying them in order and going on |
| `Wire.UnknownIsPassedBy` | qps_test_login/base.pb.cc:576-588 | A field without a case, of any of the five wire types, nested groups included, is passed by and the rest parses as if it were not there |
| `Wire.CollectedInOrder` | qps_test_login/file.pb.cc:1177-1248 | A parser whose fields each append to a list ends with every contribution in input order |
| `Wire.TotalSizeIsLength` | qps_test_login/base.pb.cc:658-708 | The sum of field sizes is the length written |
| `BaseMessages.UserSizeIsLength` | qps_test_login/base.pb.cc:658-708 | The size code of UserInfo gives the serialized length |
| `BaseMessages.FileSizeIsLength` | qps_test_login/base.pb.cc:1871-1917 | The size code of FileMessageInfo, in its own field order, gives the serialized length |
| `BaseMessages.ContentSizeIsLength` | qps_test_login/base.pb.cc:2589-2643 | Likewise for MessageContent, whose oneof member carries a length prefix |
| `BaseMessages.MessageSizeIsLength` | qps_test_login/base.pb.cc:2962-3012 | Likewise for MessageInfo, so each sub-message's prefix is its true length |
| `BaseMessages.ParseUserIsMerge` | qps_test_login/base.pb.cc:524-596 | Parsing a serialized UserInfo into a UserInfo is merging |
| `BaseMessages.ParseStringIsMerge` | qps_test_login/base.pb.cc:1240-1277 | Likewise for StringMessageInfo |
| `BaseMessages.ParseMediaIsMerge` | qps_test_login/base.pb.cc:1473-1520 | Likewise for ImageMessageInfo and SpeechMessageInfo, with has-bits |
| `BaseMessages.ParseFileIsMerge` | qps_test_login/base.pb.cc:1759-1823 | Likewise for FileMessageInfo, with has-bits and a signed size |
| `BaseMessages.RecordTurn` | qps_test_login/base.pb.cc:527-595 | A record anywhere in the input is applied to what has been read so far, whatever follows |
| `BaseMessages.UserRecordSets` | qps_test_login/base.pb.cc:532-573 | The last one wins, even empty: each text record sets its own field and no other, if it is UTF-8 |
| `BaseMessages.FileRecordSets` | qps_test_login/base.pb.cc:1768-1801 | Each record sets its own field and its presence; the size is a signed 64-bit number |
| `BaseMessages.ContentRecordSets` | qps_test_login/base.pb.cc:2477-2517 | The type is a signed 32-bit number; a sub-message is parsed into the member if set, else into a new one, which becomes the member |
| `BaseMessages.MessageRecordSets` | qps_test_login/base.pb.cc:2844-2883 | Each record sets its own field; sub-messages are parsed into the present one or a new one |
| `BaseMessages.MergeByField` | qps_test_login/base.pb.cc:3029-3051 | What merging two messages means, field by field |
| `BaseMessages.MergeOneofByCase` | qps_test_login/base.pb.cc:2670-2690 | Merging oneofs: same member merged, other member replaced, nothing set leaves it alone |
| `BaseMessages.MergeLeaves` | qps_test_login/base.pb.cc:725-747 | Merging users, files and media: non-empty or present fields are taken over |
| `BaseMessages.ApplyOneof` | qps_test_login/base.pb.cc:2487-2517 | Reading a oneof member merges into the same member and replaces any other |
| `BaseMessages.ParseContentIsMerge` | qps_test_login/base.pb.cc:2470-2534 | Parsing a serialized MessageContent is merging, oneof switching included |
| `BaseMessages.ParseMessageIsMerge` | qps_test_login/base.pb.cc:2837-2904 | Parsing a serialized MessageInfo is merging, nested presence included |
| `BaseMessages.MessageRoundTrip` | qps_test_login/base.pb.cc:2837-2960 | A serialized MessageInfo parses back to itself |
| `BaseMessages.ConcatenationIsMerge` | qps_test_login/base.pb.cc:3029-3051 | Two serialized messages back to back parse as their merge |
| `BaseMessages.UserParsesIffUtf8` | qps_test_login/base.pb.cc:524-596 | A serialized user parses back exactly when its four strings are UTF-8 |
| `BaseMessages.UserLayout` | qps_test_login/base.pb.cc:598-656 | The bytes written for a UserInfo, field by field with their tags |
| `BaseMessages.FileLayout` | qps_test_login/base.pb.cc:1825-1869 | The bytes written for a FileMessageInfo |
| `BaseMessages.MediaLayout` | qps_test_login/base.pb.cc:1522-1550 | The bytes written for an ImageMessageInfo or SpeechMessageInfo |
| `BaseMessages.ContentLayout` | qps_test_login/base.pb.cc:2536-2587 | The bytes written for a MessageContent, with the tag of the member that is set |
| `BaseMessages.MessageLayout` | qps_test_login/base.pb.cc:2906-2960 | The bytes written for a MessageInfo |
| `BaseMessages.Utf8Means` | qps_test_login/base.pb.cc:524-596 | Which text of a message is checked: every string field, nested ones included, never a bytes field |
| `BaseMessages.ParsedUserIsUtf8` | qps_test_login/base.pb.cc:532-573 | Whatever bytes parse into a user, its four strings are UTF-8 afterwards |
| `BaseMessages.OtherFieldsArePassedBy` | qps_test_login/base.pb.cc:2884-2898 | Every field whose number and wire type are not the message's own is passed by |
| `Utf8.ValidIff` | qps_test_login/base.pb.cc:535-538 | Text that is accepted is exactly an encoding of Unicode scalar values (RFC 3629) |
| `BaseMessages.MessageParsesIffUtf8` | qps_test_login/base.pb.cc:2837-2960 | A serialized message parses back exactly when every string in it, nested ones included, is UTF-8; otherwise it is refused |
| `BaseObjects.UserInfo.Clear` | qps_test_login/base.pb.cc:510-522 | Leaves the default message |
| `BaseObjects.UserInfo.MergeFrom` | qps_test_login/base.pb.cc:725-747 | The in-place merge is the merge of values |
| `BaseObjects.UserInfo.ByteSizeLong` | qps_test_login/base.pb.cc:658-708 | Equals the serialized length |
| `BaseObjects.UserInfo.InternalSerialize` | qps_test_login/base.pb.cc:598-656 | Appends exactly the serialized fields |
| `BaseObjects.UserInfo.InternalParse` | qps_test_login/base.pb.cc:524-596 | The parse loop ends as the parse of values does: end, stopping tag or error, with that message |
| `BaseObjects.UserInfo.ParseFromString` | common/user_info_cache.hpp:44-46 | Parses a whole buffer into a cleared message |
| `BaseObjects.UserInfo.SerializeToString` | common/user_info_cache.hpp:83-84 | Gives the serialized bytes unless they are longer than an int can say |
| `BaseObjects.FileMessageInfo.Clear` | qps_test_login/base.pb.cc:1736-1757 | Clears every field, also those behind has-bits, and all has-bits |
| `BaseObjects.FileMessageInfo.MergeFrom` | qps_test_login/base.pb.cc:1934-1957 | The has-bit merge is the merge of values |
| `BaseObjects.FileMessageInfo.ByteSizeLong` | qps_test_login/base.pb.cc:1871-1917 | Equals the serialized length |
| `BaseObjects.FileMessageInfo.InternalSerialize` | qps_test_login/base.pb.cc:1825-1869 | Appends exactly the fields whose has-bit is set, in field order |
| `BaseObjects.FileMessageInfo.InternalParse` | qps_test_login/base.pb.cc:1759-1823 | The parse loop, with the size's has-bit kept aside until the end, ends as the parse of values does |
| `BaseObjects.MessageContent.Clear` | qps_test_login/base.pb.cc:2459-2468 | Leaves the default message with no member set |
| `BaseObjects.MessageContent.MutableFile` | qps_test_login/base.pb.h:4047-4054 | Keeps the member if it is set, else clears the other and sets a fresh one |
| `BaseObjects.MessageContent.MergeFrom` | qps_test_login/base.pb.cc:2660-2691 | The in-place merge, member by member, is the merge of values |
| `BaseObjects.MessageContent.ByteSizeLong` | qps_test_login/base.pb.cc:2589-2643 | Equals the serialized length |
| `BaseObjects.MessageContent.InternalSerialize` | qps_test_login/base.pb.cc:2536-2587 | Appends the type and the one member that is set |
| `BaseObjects.MessageContent.InternalParse` | qps_test_login/base.pb.cc:2470-2534 | The parse loop ends as the parse of values does |
| `BaseObjects.MessageInfo.Clear` | qps_test_login/base.pb.cc:2817-2835 | Leaves the default message without sub-messages |
| `BaseObjects.MessageInfo.MergeFrom` | qps_test_login/base.pb.cc:3029-3051 | The in-place merge, sub-messages made when absent, is the merge of values |
| `BaseObjects.MessageInfo.ByteSizeLong` | qps_test_login/base.pb.cc:2962-3012 | Equals the serialized length |
| `BaseObjects.MessageInfo.InternalSerialize` | qps_test_login/base.pb.cc:2906-2960 | Appends exactly the serialized fields |
| `BaseObjects.MessageInfo.InternalParse` | qps_test_login/base.pb.cc:2837-2904 | The parse loop ends as the parse of values does |
| `FileMessages.ParseReqIsMerge` | qps_test_login/file.pb.cc:1177-1248 | Parsing a serialized request into a request is merging: lists are appended |
| `FileMessages.ReqLayout` | qps_test_login/file.pb.cc:1250-1302 | The bytes written for a request, one record for each element |
| `FileMessages.ListIsEveryRecord` | qps_test_login/file.pb.cc:1213-1226 | For every input that parses, the list gains every record of field 4 in order, whatever stands between them |
| `FileMessages.ReqRecordSets` | qps_test_login/file.pb.cc:1184-1226 | Each record sets its own field, if it is UTF-8; a list record adds one element |
| `FileMessages.GetMultiFileReq.ParseRun` | qps_test_login/file.pb.cc:1213-1226 | The inner loop over a run of same-tag records leaves the list and the position that one record per outer turn would |
| `FileMessages.GetMultiFileReq.InternalParse` | qps_test_login/file.pb.cc:1177-1248 | The parse loop with its fast path ends as the parse of values does |
| `FileMessages.GetMultiFileReq.Clear` | qps_test_login/file.pb.cc:1156-1175 | Leaves the default message |
| `FileMessages.GetMultiFileReq.MergeFrom` | qps_test_login/file.pb.cc:1368-1388 | The in-place merge is the merge of values |
| `FileMessages.GetMultiFileReq.ByteSizeLong` | qps_test_login/file.pb.cc:1304-1351 | The summing loop gives the serialized length |
| `FileMessages.GetMultiFileReq.InternalSerialize` | qps_test_login/file.pb.cc:1250-1302 | Appends exactly the serialized fields |
| `FileReplies.ParseRspIsMerge` | qps_test_login/file.pb.cc:2897-2962 | Parsing a serialized reply into a reply is merging: each nested message becomes a new element |
| `FileReplies.RspLayout` | qps_test_login/file.pb.cc:2964-3010 | The bytes written for a reply, one record for each nested message |
| `FileReplies.FilesAreEveryRecord` | qps_test_login/file.pb.cc:2930-2941 | For every input that parses, the list gains one parsed element for every record of field 4, in order |
| `FileReplies.RspRecordSets` | qps_test_login/file.pb.cc:2904-2941 | Each record sets its own field; any number but zero is true; a nested message becomes one more element |
| `FileReplies.PutMultiFileRsp.ParseRun` | qps_test_login/file.pb.cc:2930-2941 | The inner loop over a run of nested messages leaves the list and the position that one record per outer turn would |
| `FileReplies.PutMultiFileRsp.InternalParse` | qps_test_login/file.pb.cc:2897-2962 | The parse loop with its fast path ends as the parse of values does |
| `FileReplies.PutMultiFileRsp.MergeFrom` | qps_test_login/file.pb.cc:3070-3087 | The in-place merge is the merge of values |
| `FileReplies.PutMultiFileRsp.ByteSizeLong` | qps_test_login/file.pb.cc:3012-3053 | The summing loop, in its own field order, gives the serialized length |
| `FileReplies.PutMultiFileRsp.InternalSerialize` | qps_test_login/file.pb.cc:2964-3010 | Appends exactly the serialized fields |
| `MqPublisher.Client.Publish` | common/rabbitmq.hpp:165-196 | Puts the task at the end of the queue with no failures and signals the loop |
| `MqPublisher.Client.RunTask` | common/rabbitmq.hpp:124-157 | One attempt, by how it ended: sent, put back with one failure more, or dropped after the fourth failure |
| `MqPublisher.Client.DrainTasks` | common/rabbitmq.hpp:113-159 | The swap-and-drain loop: what it puts back, sends and drops, in order |
| `MqPublisher.AttemptDecides` | common/rabbitmq.hpp:127-157 | An attempt that returned true sends its task; one that returned false or threw puts it back with one failure more while it had fewer than three, else drops it |
| `MqPublisher.DrainDecides` | common/rabbitmq.hpp:122-158 | Of a drain, in order: sent are exactly the tasks whose attempt returned true, put back exactly the others with fewer than three failures, dropped the rest |
| `MqPublisher.DrainConserves` | common/rabbitmq.hpp:113-159 | Every drained task is put back, sent or dropped, exactly one of the three |
| `MqPublisher.RequeuedInOrder` | common/rabbitmq.hpp:142-151 | Tasks put back keep their order and carry one failure more, at most 3 |
| `MqPublisher.DrainMakesProgress` | common/rabbitmq.hpp:113-159 | The failures the queue can still absorb fall by at least one per drained task |
| `MqPublisher.DrainEmptiesIff` | common/rabbitmq.hpp:142-157 | A drain leaves an empty queue if and only if each attempt that fails is its task's fourth |
| `MqPublisher.FourDrainsEmptyTheQueue` | common/rabbitmq.hpp:142-157 | Four drains with no publishing leave nothing, whatever the attempts do |
| `MqThreads.StepMoves` | common/rabbitmq.hpp:113-196 | Every step of a publisher or of the loop moves tasks between places and makes or loses none |
| `MqThreads.EveryTaskIsSomewhere` | common/rabbitmq.hpp:113-159 | In every interleaving each published task is in exactly one place, retry counts its failures (at most 3 while waiting), sent tasks failed at most 3 times and dropped ones exactly 4 |
| `MqThreads.NoLostWakeup` | common/rabbitmq.hpp:160-196 | A never-attempted queued task has a wake-up pending, a callback about to swap, or a publisher about to signal |
| `MqThreads.AtRestOnlyRetriesWait` | common/rabbitmq.hpp:142-151 | When nothing is due to happen each task was sent, dropped after 4 failures, or waits after 1 to 3 |
| `MqThreads.RetryCanBeStranded` | common/rabbitmq.hpp:150-151 | A run in which a failed task waits with no wake-up on its way |
| `MqThreads.NothingStrandedIff` | common/rabbitmq.hpp:142-157 | From any reachable drain to the rest after it, whatever publishers do: the queue ends empty if and only if no failed task is back already and each attempt still to come that fails is its task's fourth |
| `MqThreads.InterleavedDrain` | common/rabbitmq.hpp:113-196 | However publishers interleave, a drain sends, drops and puts back what the sequential one does, in order |
| `RetryHeader.StoiToString` | common/rabbitmq.hpp:197-200 | Reading a written int gives it back, and its text has no separator |
| `RetryHeader.StoiIff` | common/rabbitmq.hpp:219 | The count is read exactly from texts that begin, after blanks, with a numeral whose value fits an int; otherwise stoi throws |
| `RetryHeader.TextBeforeBarThrows` | common/rabbitmq.hpp:215-220 | A body whose part before the separator is empty or begins with neither digit, sign nor blank makes the handler throw |
| `RetryHeader.DigitsAreDecimal` | common/rabbitmq.hpp:197-200 | The count is written in decimal |
| `RetryHeader.ValueIsDecimal` | common/rabbitmq.hpp:219 | The count is read in decimal, leading zeros included |
| `RetryHeader.HeaderRoundTrip` | common/rabbitmq.hpp:197-226 | Count and payload come back from a body, whatever the payload holds, for every int |
| `RetryHeader.RawIsReadWholeIff` | common/rabbitmq.hpp:215-226 | A body without header reaches the callback whole with count 0 if and only if it has no separator |
| `ConsumerRetry.Consumer.OnReceived` | common/rabbitmq.hpp:205-264 | The handler's callback, publish and ack, in order, on every path, and how it ends: an exception of stoi or of the callback, a count at the largest int, or a return, which always follows an ack |
| `ConsumerRetry.ReactionByAnswer` | common/rabbitmq.hpp:228-264 | Success, Fatal and other answers are acked; Retry is published again with the next count and acked, up to count 5, then acked alone; an exception does neither |
| `ConsumerRetry.AckedOnceAndLast` | common/rabbitmq.hpp:228-264 | A delivery is acked exactly once, after everything else, if its count can be read and raised and the callback returns, and never otherwise |
| `ConsumerRetry.DeliveriesCountUp` | common/rabbitmq.hpp:215-253 | From count n: counts n, n+1, ..., the same payload, going on exactly while the answer is Retry and the next count is at most 5 |
| `ConsumerRetry.AtMostSixDeliveries` | common/rabbitmq.hpp:236-253 | A plain message is delivered unchanged with counts 0, 1, 2, ..., one to six times |
| `ConsumerRetry.StepConserves` | common/rabbitmq.hpp:228-264 | Every step keeps: submitted plus duplicated equals finished plus still owed, per payload |
| `ConsumerRetry.SubmitAdds` | common/rabbitmq.hpp:165-196 | A first publish puts one message in the broker |
| `ConsumerRetry.CrashRedelivers` | common/rabbitmq.hpp:205-264 | A message held by a dead consumer at whatever point is delivered again with the same body |
| `ConsumerRetry.NoLoss` | common/rabbitmq.hpp:247-253 | Over every run with crashes, a payload with unfinished deliveries has a copy in the broker, because the retry copy goes out before the ack |
| `ConsumerRetry.FinishedOncePerCopy` | common/rabbitmq.hpp:247-253 | Deliveries end more often than messages were published only by crashes between retry publish and ack |
| `ConsumerRetry.CallsAreBounded` | common/rabbitmq.hpp:236-253 | Over every run the callback runs at most six times per publish or crash, and no count becomes unreadable |
| `ConsumerRetry.HandledByAnswer` | common/rabbitmq.hpp:228-264 | What one handling does to the broker by answer: delivery over, replaced by a copy with the next count, or still held |
| `ConsumerRetry.HandlerIsSteps` | common/rabbitmq.hpp:205-264 | Uninterrupted, the broker steps of one message are the handler's reaction; a handler that throws leaves it unacked |
| `Snowflake.Next` | common/snowflake.hpp:16-28 | A call ends at the last reading it used up; a new millisecond restarts the sequence at 0, the same one counts up, only a full sequence makes it skip readings, and it spins on exactly when none is later |
| `Snowflake.Generator.constructor` | common/snowflake.hpp:8-10 | Keeps ten bits of the machine number and starts before any time |
| `Snowflake.Generator.NextId` | common/snowflake.hpp:12-33 | The call with its spin loop: id, state and readings left, or still spinning when the readings end |
| `Snowflake.AfterIsSuffix` | common/snowflake.hpp:21-24 | The spin skips exactly the readings not above the last time |
| `Snowflake.FieldsDoNotOverlap` | common/snowflake.hpp:29-31 | The bitwise or of the three shifted fields is their sum, which is the packed id |
| `Snowflake.PackDecodes` | common/snowflake.hpp:30-32 | Each id gives back machine and sequence number for any clock, and the time within its 42 bits |
| `Snowflake.BitsOfAnId` | common/snowflake.hpp:29-31 | An id is milliseconds since 1700000000000 times 2^22, plus machine times 2^12, plus sequence number |
| `Snowflake.IdsCarryMachine` | common/snowflake.hpp:9-31 | Every id of a generator carries the machine number it was made with, mod 1024 |
| `Snowflake.PackOrders` | common/snowflake.hpp:30-32 | Ids of one machine are ordered as (time, sequence number) |
| `Snowflake.CallRisesIff` | common/snowflake.hpp:16-32 | One call's id is above the last if and only if its first reading is not behind the last time |
| `Snowflake.IdsRiseIff` | common/snowflake.hpp:12-33 | The ids of a run rise if and only if no call reads a time behind the last id's |
| `Snowflake.NewIdsRiseIff` | common/snowflake.hpp:12-33 | The ids of a new generator rise if and only if no call reads a time behind the last id's |
| `Snowflake.IdsRise` | common/snowflake.hpp:12-33 | With a clock that never goes back, all ids of a generator rise strictly |
| `Snowflake.SteppingBackRepeats` | common/snowflake.hpp:25-28 | One run: the clock returns to a millisecond that was left, and an id repeats |
| `Snowflake.UniqueIff` | common/snowflake.hpp:12-33 | The ids of a generator are distinct if and only if every call stays in the last id's millisecond or ends in one without ids |
| `Snowflake.AtMost4096PerMillisecond` | common/snowflake.hpp:18-24 | An id 4096 places later carries a later time |
| `Snowflake.MachinesNeverShareAnId` | common/snowflake.hpp:9-32 | Machines that differ mod 1024 never issue the same id, whatever their clocks do |
| `ServiceRegistry.ChannelManager.AppendHost` | common/brpc.hpp:28-42 | Adds a new channel at the end and makes it the host's |
| `ServiceRegistry.ChannelManager.RemoveHost` | common/brpc.hpp:44-62 | The search-and-erase loop takes out the host's first match and the map entry, or nothing for an unknown host |
| `ServiceRegistry.ChannelManager.ChooseChannel` | common/brpc.hpp:64-73 | The channel at the index modulo the length, and the index moved on; an index at the largest int overflows, an empty list divides by zero |
| `ServiceRegistry.RemoveTakesOne` | common/brpc.hpp:53-61 | Removing a live host takes out its channel and no other |
| `ServiceRegistry.ReplayIsSound` | common/brpc.hpp:28-62 | After every history channels are in order of coming up, without repeats, and hold every host's channel |
| `ServiceRegistry.HostsAreLive` | common/brpc.hpp:28-62 | The map knows exactly the hosts whose last event brought them up |
| `ServiceRegistry.ChannelsCounted` | common/brpc.hpp:28-62 | There are as many channels as hosts plus times a host came up while up |
| `ServiceRegistry.AgreeIff` | common/brpc.hpp:28-62 | Vector and map hold the same channels if and only if no host came up while up |
| `ServiceRegistry.ChannelsAreLiveInOrder` | common/brpc.hpp:28-62 | Then the vector is exactly the live hosts' latest channels in order of coming up |
| `ServiceRegistry.ServiceNameOf` | common/brpc.hpp:154-160 | The service name is the path before the last slash, or all of it |
| `ServiceRegistry.ServiceManager.Declared` | common/brpc.hpp:91-95 | Adds the service to those cared for |
| `ServiceRegistry.ServiceManager.OnServiceOnline` | common/brpc.hpp:97-128 | Ignores services not declared, makes a manager on first use, appends the host, touches no other service |
| `ServiceRegistry.ServiceManager.OnServiceOffline` | common/brpc.hpp:129-151 | Ignores services not declared or without manager, removes the host, touches no other service |
| `ServiceRegistry.ServiceManager.ChooseFor` | common/brpc.hpp:79-89 | No manager, or that manager's choice; only its index moves |
| `ServiceRegistry.RegistryIsReplay` | common/brpc.hpp:91-151 | For every history each service's manager is the replay of its own events after its declaration |
| `ServiceRegistry.ChoiceIsLive` | common/brpc.hpp:64-89 | With hosts coming up only while down: a choice is a live host's latest channel; no manager means no host ever came up, a division by zero that all went down, and an overflow that the index is at the largest int |
| `ServiceRegistry.ChosensAreChoices` | common/brpc.hpp:64-73 | Choices in a row go round the list from the index, until it reaches the largest int |
| `ServiceRegistry.FairChoice` | common/brpc.hpp:64-73 | Any m choices in a row give each of n channels floor(m/n) or ceil(m/n) turns |
| `ServiceRegistry.IndexIsPicked` | common/brpc.hpp:71 | For every history a service's index counts its choices that gave a channel, and nothing else moves it |
| `ServiceRegistry.AnswersGoRound` | common/brpc.hpp:64-89 | After any history the k-th answer in a row is the channel k places on from there |
| `ServiceRegistry.FairAnswers` | common/brpc.hpp:64-89 | After any history, of the next m answers each of n channels gets floor(m/n) or ceil(m/n), while the index fits an int |
| `RoundRobin.Fair` | common/brpc.hpp:71-72 | The counting behind fairness, from any starting index |
| `ReactLoop.ChatWithTools` | agent_service/llm_client.py:78-118 | Decoded calls and echoed calls match the reply call for call; a failed request, no calls, or a call with a missing key or arguments that are not text gives exactly the source's text |
| `ReactLoop.DecodedByForm` | agent_service/llm_client.py:87-91 | Valid JSON arguments are passed on as they are, absent or empty ones are an empty object, other text is kept under "raw" |
| `ReactLoop.CallsKeepPlaces` | agent_service/llm_client.py:92-106 | Id, name and arguments stand in their own places in the call run and in the call echoed |
| `ReactLoop.AskedIff` | agent_service/llm_client.py:84-110 | A response asks for calls exactly when it has some and each has id, name and text or empty arguments |
| `ReactLoop.InjectByForm` | agent_service/agent/react_loop.py:52-55 | An object keeps its keys and all values but user_id, which becomes the caller's; when other arguments raise, and that they stay as they are otherwise |
| `ReactLoop.RunCalls` | agent_service/agent/react_loop.py:49-63 | The inner loop runs the calls in order until one raises |
| `ReactLoop.Run` | agent_service/agent/react_loop.py:25-69 | The bounded loop: messages, names, executed calls, how it ended and the reply text |
| `ReactLoop.CallsRunIff` | agent_service/agent/react_loop.py:49-63 | A reply's calls run to the end if and only if no arguments make the user_id test or assignment raise |
| `ReactLoop.Transcript` | agent_service/agent/react_loop.py:33-69 | Whatever the model answers: system, user, at most five turns, each an assistant message with calls and one answer per call in order; names match; each turn is what the model asked for on the transcript so far, the reply its text on all of it; time-out exactly after five turns |
| `ReactLoop.ExecutedAsAsked` | agent_service/agent/react_loop.py:49-61 | In every run the i-th execution is of the i-th call of the transcript with its decoded arguments changed at user_id only, and the i-th tool message gives its result |
| `ReactLoop.AnswersMatch` | agent_service/agent/react_loop.py:59-63 | The answers of a turn carry its calls' ids and names, in order |
| `ReactLoop.StepsAreOwned` | agent_service/agent/react_loop.py:52-58 | In every run, a call with a user_id argument is executed with the caller's id |
| `ReactLoop.ObjectsNeverRaise` | agent_service/agent/react_loop.py:52-58 | Arguments that are objects or not JSON never make a run raise |

## Left out

- Caches: `_local` is taken to be read and written atomically (the source does not synchronise it); a `get` is the two atomic halves before and under the lock in `TieredCache`, and single steps in `SingleFlight`.
- Caches: all processes and Redis share one clock; a Redis entry may still be served at its expiry instant and may be evicted at any time, which covers both conventions.
- Caches: counters are unbounded, the string hash is a parameter, jitter is any value in its range.
- Caches: the threaded model assumes that only this process writes the session keys in Redis; a load in flight across an invalidate counts as one with an invalidate after it.
- Codec: a sub-message is held as a value in its parent, not behind a pointer, and string, image and speech sub-messages are values only; arenas, reflection, descriptors, swap, cached sizes and the keeping of unknown fields are not modelled (unknown fields are skipped).
- Codec: the runtime's five-byte limit on tags and lengths, its 2 GB limit on one field and its limit on nested groups are not modelled; inputs beyond them are accepted or skipped here.
- Codec: ImageMessageInfo and SpeechMessageInfo are one model, and ChatSessionInfo, FileDownloadData, FileUploadData, PutMultiFileReq and the remaining messages are left out: their loops repeat the ones modelled.
- Codec: results about serialized messages are for those whose size fits an int, which is what `SerializeToString` accepts.
- Publisher: what a task's closure does is the outcome of its attempt; exchange, routing key and channel are not modelled, nor are publisher confirms (their handler only logs).
- Consumer: the retry exchange and routing key are taken to reach the consumed queue, and publish to succeed (its result is ignored).
- Consumer: raising a count at the largest int is undefined in C++; the handler is taken to stop there, as it does at an exception.
- Consumer: the broker itself loses nothing and takes back what a dead consumer held.
- Snowflake: a call still spinning when the list of readings ends has no id; the clock is any list of readings.
- Snowflake: order and decoding of times are for readings in the 42 bits from the epoch on; outside them the high bits are lost.
- Registry: calls are atomic, although `append` pushes to the vector outside the lock; channel initialisation and its options are not modelled.
- Registry: raising an index at the largest int is undefined in C++; a choice there is an outcome of its own, after which nothing is promised.
- Agent loop: a reply's content is text or absent; an exception before the message is read is given by its text; prompts, tool descriptions, HTTP and logging are left out.
- Redis, MySQL, Elasticsearch, etcd, brpc and AMQP connections, the gateway, the services' request handlers, speech recognition, file storage and the load driver are left out: they are input and output, or delegate their meaning to code that is not shown.
