# A verified model of the redundancy protocol and of libjingle's base library

This project models the stateful cores of two programs: the primary/backup
negotiation of a telephony server (`redundancy/fool_redundancy.cpp`) and the
base library of libjingle 0.4.0 (`libjingle-0.4.0/talk/base`). Each core is one
module. Code that updates objects in place is a class whose methods are proved
against functions or predicates over plain values, and what the program is for
is proved about those.

| module | what it models | main results |
|---|---|---|
| `Redundancy` | two servers, each with a negotiate and a heartbeat thread, and one queue per direction | an inductive invariant over the messages in flight; never two primaries, decided servers are settled, running ones can settle in bounded time, the `inactive_quit` jump is unreachable, a survivor takes over after exactly so many silent rounds or missed heartbeats; all of it for two running objects |
| `HttpParser` | the incremental parser | the result is independent of fragmentation; no message that ends by itself can be cut short unnoticed |
| `HttpBase` | the chunked sender under partial writes, and the receiver | exact bytes on the wire, none lost or repeated; what is sent, leader, headers and body, is what is parsed; overflow only when an unfinished line fills the buffer |
| `TcpFraming` | packets over a byte stream | what is delivered is a prefix of what was accepted; exact condition for the 16-bit length |
| `DiskCache` | locks, accounting and eviction | an accounting invariant, down to the files on disk until a file resists deletion, kept by every operation; the exact result of eviction; exactly when the search of the source makes a lock go wrong |
| `Md5` | buffering, 64-bit counter and padding | any updates give the digest of the concatenation; padding is least and injective, and every byte of it and of the digest is where section 3 of RFC 1321 has it |
| `NatServer` | the two maps, the port search and the filters | the maps are one to one; exactly where the port search ends, port by port; the mapping and filtering rules of the four kinds of NAT, from the packet history |
| `MessageQueue` | posted, delayed, peeked and cleared messages | every accepted message is in exactly one place; exactly which message Get returns and what it leaves while other threads act; exact clearing; stop |
| `LinkedPtr` | the heap ring of smart pointers | in every program the pointers to an object are one ring, and the object is deleted once, after the last of them |
| `ByteBuffer` | the growing array | it refines a byte queue, and that refines a queue of typed values |
| `StrMap` | printed nested maps | printing and parsing are inverse exactly for closed entries, at any depth |
| `NetworkQuality` | running sums of a decaying average | they equal the weighted mean over all data points ever added |
| `Attributes` | attribute parsing and quoting | quoted attributes read back for every value, exactly for the names without white space that have equals signs only at their end |
| `WildMatch` | the proxy wildcard | it decides the declarative meaning of the pattern it reads; it is the glob exactly for patterns without adjacent stars |

`Prelude` holds a few shared definitions. `dafny verify dfyconfig.toml` checks
everything.

## What the code does that its names do not say

- A packet of 65536 bytes passes the check in `Send`, but its length is cut to
  16 bits: `TcpFraming.LongPacketIsLost` shows what the receiver then sees.
- `Purge` leaves `total_size_` as it was: `DiskCache.Cache.Purge` keeps the
  accounting exactly when there was nothing to purge.
- `LockResource` may evict the very entry it is about to lock, and then locks what
  is gone. With the search of the source and pairwise different times it does
  exactly if the entry is new or idle, it is over the limit even without the older
  idle entries, and all that must go can be found and deleted
  (`DiskCache.SearchDanglingIff`); `DanglingWitness` is a smallest case.
  `DanglingIff` bounds this from above, for any choice of victims.
- The search for the oldest entry also takes entries that are in use, and when
  the first idle entry is the last of the map it compares with the end of the map
  as if that were an entry: `DiskCache.SearchIs`, `DiskCache.PastEndWitness`.
- The sender compares the transfer coding with "chunked" letter by letter, the
  parser ignores case: `HttpBase.ChunkingAgrees` says when they agree, and
  `HttpBase.ChunkedCase` is a header for which they do not.
- The port search of the NAT passes port 0, where the system chooses another
  port than the maps record: exactly if all ports from the source's own up are
  taken (`NatServer.ZeroIff`).
- The empty map prints as `{}`, which parses to one entry with an empty key:
  `StrMap.EmptyMap`. So saving the state of no networks restores one.
- In `WildMatch` the character behind a star is a literal, even a second star:
  `WildMatch.TwoStars`.
- `MD5Final` clears only the first word of the context (the size of a pointer,
  here 32 bits): `Md5.Context.Final`.
- `HttpParseAttributes` accepts equals signs at the end of a name, so more names
  read back than the obvious ones: `Attributes.RoundTripIff`.

## Conventions

- Scheduling, partial reads and writes, failing files and ports in use are
  nondeterministic choices or parameters; results hold for all of them.
- Redundancy: queues are lossless and in order, a server starts once, a
  broadcast to a server that is not running is lost, and neither timeout
  promotion fires while the other server is running. Reading the role and
  acting on it are separate steps, between which the heartbeat thread may
  write the role. A server's own broadcasts, and those of other services,
  arrive as `Ignore` steps. A peer may also have quit or not have started.
- HTTP: `size_t` has 32 bits. Callbacks of the parser are functions of their
  arguments; a data sink takes between one byte and all it is offered, or refuses
  with an error that depends on the body it has taken.
- DiskCache: the field `exact` says that no file has resisted deletion so far;
  only then do the entries' sizes have to be the sizes of the files. Every
  operation says exactly when it is lost. The files that resist and the entry
  eviction picks in each state are parameters.
- MessageQueue: a history of what was accepted, became ready, was returned and
  was deleted is ghost state. Other threads act during a wait, and between the
  scan of the queues and the test for a stop.

## Model

| member | source | states |
|---|---|---|
| `Redundancy.StepKeepsInvariant` | redundancy/fool_redundancy.cpp:140-302 | every enabled step of either thread keeps the invariant on roles, mates, local copies of the role and messages in flight |
| `Redundancy.RunKeepsInvariant` | redundancy/fool_redundancy.cpp:123-376 | the invariant holds at every point of every run from two servers that are down |
| `Redundancy.NeverTwoPrimaries` | redundancy/fool_redundancy.cpp:140-302 | in no run are two running servers both primary, with or without backup, whatever the start and address order, ticks and quits |
| `Redundancy.DecidedMeansSettled` | redundancy/fool_redundancy.cpp:178-296 | two running servers that have left WHO_AM_I are PRIMARY_WITH_BACKUP and BACKUP_WITH_PRIMARY and each names the other as its mate |
| `Redundancy.NeverInactiveQuit` | redundancy/fool_redundancy.cpp:261-308 | the jump to inactive_quit is never taken |
| `Redundancy.Drive` | redundancy/fool_redundancy.cpp:123-376 | two server objects and two queues under any schedule of thread steps are where the step system is, keep its invariant, and are never both primary nor jump |
| `Redundancy.FollowIsRun` | redundancy/fool_redundancy.cpp:123-376 | every schedule is a run of the step system, so all its results hold for the objects |
| `Redundancy.RunningSettle` | redundancy/fool_redundancy.cpp:140-260 | from every state the invariant allows, two running servers with tries left settle under a schedule whose length is bounded by the messages in flight; one that leads stays the primary, and if none does the higher address decides |
| `Redundancy.NeverUndecided` | redundancy/fool_redundancy.cpp:136-302 | a server that has left WHO_AM_I never returns to it |
| `Redundancy.TakeoverOnlyAfterLoss` | redundancy/fool_redundancy.cpp:214-226 | a backup becomes primary only when the other server has stopped |
| `Redundancy.DrainedSurvivor` | redundancy/fool_redundancy.cpp:214-233 | a server that has read all that a stopped peer left behind is undecided or primary without backup, never stuck in a pair |
| `Redundancy.SurvivorServes` | redundancy/fool_redundancy.cpp:142-171 | a server left undecided and alone becomes primary in exactly the quiet round after its last try, whether each round ends by the timeout or by a broadcast of another service |
| `Redundancy.StaysPrimary` | redundancy/fool_redundancy.cpp:142-160 | and stays primary through any number of further quiet rounds |
| `Redundancy.AsksAgain` | redundancy/fool_redundancy.cpp:136-171 | an undecided server asks when it starts and after each receive timeout, a quit is announced, and no other round sends anything |
| `Redundancy.LossPromotes` | redundancy/fool_redundancy.cpp:310-376 | a paired server whose peer is gone is primary without backup after k rounds of an unanswered heartbeat exactly if its error count and k come to more than one over the limit, and keeps its role before that |
| `Redundancy.AnswerRestarts` | redundancy/fool_redundancy.cpp:345-348 | an answered heartbeat keeps the role and the misses are counted from the beginning |
| `Redundancy.BeatsAlone` | redundancy/fool_redundancy.cpp:322-327 | without a mate the heartbeat thread changes no role and the count is zero again |
| `Redundancy.RunLossPromotes` | redundancy/fool_redundancy.cpp:310-376 | at every point of every run, whoever is left of a pair serves alone after that many missed heartbeats |
| `Redundancy.ThirdServerGivesUp` | redundancy/fool_redundancy.cpp:178-276 | a third server that asks while there is a pair is answered with the paired role and gives up, and the pair is left as it was |
| `Redundancy.QuitFreesMate` | redundancy/fool_redundancy.cpp:214-226 | the announced quit of its mate makes a paired server serve alone, without a mate |
| `Redundancy.Node.Receive` | redundancy/fool_redundancy.cpp:162-296 | acting on a broadcast has exactly the effect and the answers of the step function the invariant is proved for, jump included |
| `Redundancy.Node.ReadRole` | redundancy/fool_redundancy.cpp:142-148 | reading the role, with the timeout promotion, is the step function's |
| `Redundancy.Node.ReceiveTimeout` | redundancy/fool_redundancy.cpp:150-160 | a round without a message counts and broadcasts only when undecided |
| `Redundancy.Node.ReceiveForeign` | redundancy/fool_redundancy.cpp:166-171 | a broadcast of another service, or the server's own, counts as a try only when undecided |
| `Redundancy.Node.Quit` | redundancy/fool_redundancy.cpp:300-302 | a normal quit announces itself and stops the thread |
| `Redundancy.Node.HeartbeatMissed` | redundancy/fool_redundancy.cpp:361-364 | a missed heartbeat has the effect of the step for which LossPromotes is proved |
| `HttpParser.RunSplit` | libjingle-0.4.0/talk/base/httpbase.cc:74-130 | parsing x and then the unconsumed rest with y behind it equals parsing x and y at once |
| `HttpParser.FeedIsRun` | libjingle-0.4.0/talk/base/httpbase.cc:74-130 | feeding fragments, re-presenting what was not consumed, gives the state, events, body, result and rest of one parse of the whole |
| `HttpParser.FragmentationIndependent` | libjingle-0.4.0/talk/base/httpbase.cc:74-211 | two fragmentations of the same bytes cannot be told apart |
| `HttpParser.RunLeftOver` | libjingle-0.4.0/talk/base/httpbase.cc:86-94 | what stays unconsumed while more is expected is an unfinished line |
| `HttpParser.RunTakes` | libjingle-0.4.0/talk/base/httpbase.cc:110-127 | a sink that takes any number of body bytes at a time, none of which it refuses, has the effect of taking them one by one |
| `HttpParser.BodyByLength` | libjingle-0.4.0/talk/base/httpbase.cc:103-127 | a body of declared length n is exactly the next n bytes, the rest is left alone, and fewer bytes are a lost connection |
| `HttpParser.BodyUntilClose` | libjingle-0.4.0/talk/base/httpbase.cc:213-220 | a body of undeclared length is everything up to the end of the stream, which is then no error |
| `HttpParser.BodyRefused` | libjingle-0.4.0/talk/base/httpbase.cc:117-122 | when the sink refuses, the parse ends with its error, what it took is the body, and what it refused is left |
| `HttpParser.TruncationIsNoticed` | libjingle-0.4.0/talk/base/httpbase.cc:213-220 | a proper prefix of a message that ends by itself never finishes and is reported as disconnected at the end of the stream |
| `HttpParser.Parser.Process` | libjingle-0.4.0/talk/base/httpbase.cc:74-130 | for every behaviour of the sink, refusals included, process consumes, reports and returns what the reference machine does on the same input |
| `HttpParser.Parser.ProcessLine` | libjingle-0.4.0/talk/base/httpbase.cc:132-211 | one line changes the state, and fails, as the reference machine says |
| `HttpParser.Parser.ProcessHeader` | libjingle-0.4.0/talk/base/httpbase.cc:141-170 | a header line is noted or refused as HeaderMeans says, and a length is the number ScanDecimalOf says |
| `HttpParser.HeaderMeans` | libjingle-0.4.0/talk/base/httpbase.cc:141-170 | what any header line with a colon does: name and value are reported, a length is noted, a coding sets or clears chunking; refused exactly for a length without a number, another coding, or by the callback |
| `HttpParser.ColonMissing` | libjingle-0.4.0/talk/base/httpbase.cc:142-146 | a header line without a colon ends the parse with a protocol error |
| `HttpParser.ScanDecimalOf` | libjingle-0.4.0/talk/base/httpbase.cc:153-160 | the decimal digits of every number below 2^32 are read as that number, whatever else follows, also behind a plus, and negated modulo 2^32 behind a minus |
| `HttpParser.ScanNothing` | libjingle-0.4.0/talk/base/httpbase.cc:155-158 | there is no number exactly if no digit stands first or behind a sign |
| `HttpParser.LeaderRefused` | libjingle-0.4.0/talk/base/httpbase.cc:135-138 | a leader that the callback refuses ends the parse with its error, and what follows is left |
| `HttpParser.FramingRefused` | libjingle-0.4.0/talk/base/httpbase.cc:186-197 | an empty line for a chunk size, or anything but an empty line behind a chunk, is a protocol error |
| `HttpParser.TrailersSkipped` | libjingle-0.4.0/talk/base/httpbase.cc:199-204 | behind the last chunk any lines up to the first empty one are skipped, and that one ends the message |
| `HttpParser.Parser.EndOfInput` | libjingle-0.4.0/talk/base/httpbase.cc:213-228 | completion is reported once at most, with success only for a body of unknown length |
| `HttpBase.Strtoul16OfHexPad` | libjingle-0.4.0/talk/base/httpbase.cc:177-185 | the eight hexadecimal digits the sender prints are read back as the same number, and all of them are used |
| `HttpBase.HexPadDigits` | libjingle-0.4.0/talk/base/httpbase.cc:410 | each of the padded digits is the lower case digit of its place |
| `HttpBase.ChunkText` | libjingle-0.4.0/talk/base/httpbase.cc:409-414 | the bytes of a short chunk, letter by letter |
| `HttpBase.Strtoul16OfHex` | libjingle-0.4.0/talk/base/httpbase.cc:177-181 | hexadecimal digits are read whole, as their number or as 2^32 - 1 if there are too many |
| `HttpBase.Strtoul16Reads` | libjingle-0.4.0/talk/base/httpbase.cc:177-181 | with or without 0x in front, the digits are read up to the first character that is none |
| `HttpBase.SignReads` | libjingle-0.4.0/talk/base/httpbase.cc:177-181 | a plus changes nothing and a minus negates modulo 2^32 |
| `HttpBase.ChunkSizeRefused` | libjingle-0.4.0/talk/base/httpbase.cc:180-184 | a chunk size with anything behind its digits ends the parse with a protocol error |
| `HttpBase.MessageText` | libjingle-0.4.0/talk/base/httpbase.cc:432-453 | the bytes of a message, letter by letter, one header after the other |
| `HttpBase.RunChunkedBody` | libjingle-0.4.0/talk/base/httpbase.cc:177-208 | a parser at the start of a chunked body takes the chunks of any pieces for their concatenation and ends without error, leaving nothing |
| `HttpBase.ChunkedRoundTrip` | libjingle-0.4.0/talk/base/httpbase.cc:401-421 | for any document the sink takes, cut into any pieces, chunked, and received in any fragments, the parser delivers exactly the document |
| `HttpBase.OpeningReadsBack` | libjingle-0.4.0/talk/base/httpbase.cc:432-453 | the leader and headers that are written, whatever the body, are the ones the parser reports, in order, with the length and coding they declare |
| `HttpBase.Sender.constructor` | libjingle-0.4.0/talk/base/httpbase.cc:298-326 | after send the buffer holds the beginning of the message, nothing is on the wire, and chunking is as the headers say |
| `HttpBase.ChunkingAgrees` | libjingle-0.4.0/talk/base/httpbase.cc:313-317 | with one transfer coding at most, sender and parser agree on chunking exactly if the value is "chunked" itself and fits, or nothing the parser takes for it |
| `HttpBase.AnnouncesIff` | libjingle-0.4.0/talk/base/httpbase.cc:313-317 | the headers announce the framing that is used exactly if both sides agree on chunking and, without it, the length is right or unknown |
| `HttpBase.ChunkedCase` | libjingle-0.4.0/talk/base/httpbase.cc:313-317 | the value "Chunked" is sent plain and read as chunks |
| `HttpBase.Sender.PrepareHeaders` | libjingle-0.4.0/talk/base/httpbase.cc:432-453 | whole headers are queued in order, only one that can never fit is dropped, and the empty line follows the last |
| `HttpBase.Sender.StoreChunk` | libjingle-0.4.0/talk/base/httpbase.cc:409-414 | writing the length in front of the data in place, and CR LF behind, makes the buffer one chunk |
| `HttpBase.Sender.WriteOut` | libjingle-0.4.0/talk/base/httpbase.cc:359-380 | the wire only grows, and with the buffer behind it stays what was queued: partial and blocked writes neither lose nor repeat a byte; it stops early only when the stream has taken all it had room for |
| `HttpBase.Sender.FlushData` | libjingle-0.4.0/talk/base/httpbase.cc:356-430 | the wire only grows and is always a prefix of what was queued; when it finishes the wire holds the message: leader, headers and the body, chunked or not; otherwise the stream has taken all it had room for, or the document could not be read |
| `HttpBase.Sender.SentReadsBack` | libjingle-0.4.0/talk/base/httpbase.cc:356-430 | for acceptable leader and headers on whose chunking both sides agree, any fragmentation of a finished message is parsed, from the start, to the leader, the headers that fit, in order, and exactly the document, whether the body ends by its chunks, by its length or with the stream |
| `HttpBase.Sender.PlainReadsBack` | libjingle-0.4.0/talk/base/httpbase.cc:356-430 | a document sent with its length in decimal digits and no coding is on the wire as it is, and any fragmentation is parsed to leader, headers, that length and the document, and ends with its last byte |
| `HttpBase.LengthFits` | libjingle-0.4.0/talk/base/httpbase.cc:434-447 | a Content-Length header of any 32-bit length is never dropped |
| `HttpBase.Receiver.OnReadEvent` | libjingle-0.4.0/talk/base/httpbase.cc:478-515 | parser and buffer are always at the parse of all bytes received; all that the stream holds is read unless the parse ends, more than 20 reads were made, or the buffer overflows, which means that no line ends in a full buffer; completion is reported exactly when the parse ends, with its result |
| `HttpBase.Receiver.OnCloseEvent` | libjingle-0.4.0/talk/base/httpbase.cc:535-537 | at the end of the stream the verdict is the one for all bytes received |
| `TcpFraming.RoundTrip` | libjingle-0.4.0/talk/base/asynctcpsocket.cc:75-143 | short packets are read back from their frames, with nothing left |
| `TcpFraming.HeaderOrder` | libjingle-0.4.0/talk/base/asynctcpsocket.cc:85-86 | the length is two bytes, the more significant one first, modulo 65536, and is read so |
| `TcpFraming.LongPacketIsLost` | libjingle-0.4.0/talk/base/asynctcpsocket.cc:76-88 | a packet of 65536 bytes arrives as an empty one, and its bytes as garbage frames |
| `TcpFraming.RoundTripIff` | libjingle-0.4.0/talk/base/asynctcpsocket.cc:76-88 | among the packets Send admits, all are read back exactly if none is longer than 65535 bytes |
| `TcpFraming.DeframeSplit` | libjingle-0.4.0/talk/base/asynctcpsocket.cc:122-143 | deframing what has arrived, and then the rest with the next bytes, is deframing everything |
| `TcpFraming.RestIsShort` | libjingle-0.4.0/talk/base/asynctcpsocket.cc:122-184 | an incomplete frame never fills the buffer |
| `TcpFraming.PrefixDelivered` | libjingle-0.4.0/talk/base/asynctcpsocket.cc:122-143 | from any prefix of the stream a prefix of the packets is delivered |
| `TcpFraming.Output.Send` | libjingle-0.4.0/talk/base/asynctcpsocket.cc:75-99 | for every answer of the stream the result, the bytes on the wire, the bytes left in the buffer and whether the packet is accepted are exact |
| `TcpFraming.Output.Flush` | libjingle-0.4.0/talk/base/asynctcpsocket.cc:145-160 | as many bytes as the stream takes move from the front of the buffer to the wire; an answer that is no number of bytes changes nothing |
| `TcpFraming.Input.ProcessInput` | libjingle-0.4.0/talk/base/asynctcpsocket.cc:122-143 | all whole frames are delivered in order, the rest is moved to the front, and the overflow branch of the next read is unreachable |
| `TcpFraming.EndToEnd` | libjingle-0.4.0/talk/base/asynctcpsocket.cc:75-195 | with anything in flight, delivered is a prefix of accepted, and equal once all has arrived |
| `TcpFraming.Link` | libjingle-0.4.0/talk/base/asynctcpsocket.cc:75-195 | two sockets over one stream are, under any schedule of sends, writes and reads, exactly where the events lead; what is delivered is a prefix of what was accepted, an in-order selection of what was offered, and all of it once drained |
| `TcpFraming.PacketArrives` | libjingle-0.4.0/talk/base/asynctcpsocket.cc:75-195 | on a quiet link a packet of which the stream takes any part is delivered behind all others once the rest is written and read |
| `DiskCache.SumReplace` | libjingle-0.4.0/talk/base/diskcache.cc:115-187 | changing one entry changes a total by exactly the difference |
| `DiskCache.PreviousSize` | libjingle-0.4.0/talk/base/diskcache.cc:134-140 | the entry is at least as large as the file about to be overwritten, which the source asserts |
| `DiskCache.OpenForWriting` | libjingle-0.4.0/talk/base/diskcache.cc:129-155 | taking the old size of a stream out when it is opened keeps entry sizes equal to the files not being written |
| `DiskCache.CloseWritten` | libjingle-0.4.0/talk/base/diskcache.cc:340-350 | adding the file's size when its writer is closed restores that |
| `DiskCache.DeleteKeepsFiles` | libjingle-0.4.0/talk/base/diskcache.cc:204-228 | deleting all files of an entry with it leaves no file without an entry |
| `DiskCache.Cache.LockResource` | libjingle-0.4.0/talk/base/diskcache.cc:115-127 | accounting is kept, and result, entries and disk are exactly those of eviction with the entry in place, for any search; granted means that the cache is within its limit and the entry is there, locked and was lockable; a lockable entry is refused only if the limit is exceeded or a file resisted, dangling only if it is gone, undefined only over the limit |
| `DiskCache.DanglingIff` | libjingle-0.4.0/talk/base/diskcache.cc:115-127 | over all choices of victims: some choice locks an evicted entry if and only if the total exceeds the limit, the entry is new or idle, and the sizes of the entries in use sum to at most the limit |
| `DiskCache.SearchDanglingIff` | libjingle-0.4.0/talk/base/diskcache.cc:115-127 | with the source's own search and pairwise different times, a lock dangles if and only if the entry is new or idle, the total without the older idle entries is still over the limit, and every entry that must go has an entry behind the first idle one, none in use there that is older, and no file that resists |
| `DiskCache.SearchTrim` | libjingle-0.4.0/talk/base/diskcache.cc:230-265 | with the source's own search and pairwise different times, eviction reaches the limit if and only if all that must go can go, and then exactly that is gone |
| `DiskCache.DanglingWitness` | libjingle-0.4.0/talk/base/diskcache.cc:115-127 | with the source's own search, an entry of ten bytes and a younger empty one in a cache for five |
| `DiskCache.SparedBySearch` | libjingle-0.4.0/talk/base/diskcache.cc:115-127 | a state in which the source's own search grants the lock although other victims would make it dangle |
| `DiskCache.PastEndWitness` | libjingle-0.4.0/talk/base/diskcache.cc:246-258 | with a single entry that has to go the search runs past the end of the map |
| `DiskCache.SearchIs` | libjingle-0.4.0/talk/base/diskcache.cc:246-258 | the search yields nothing exactly if no entry is idle, runs past the end exactly if the first idle entry is the last, and otherwise yields exactly the oldest entry from the first idle one on, in use or not, with the rule for equal times |
| `DiskCache.TrimEvicts` | libjingle-0.4.0/talk/base/diskcache.cc:230-265 | eviction removes idle entries only, reaches the limit when it succeeds, and leaves an orphaned file when one resisted |
| `DiskCache.TrimMeans` | libjingle-0.4.0/talk/base/diskcache.cc:230-265 | field by field: entries that stay are unchanged, those that go were idle, success means the limit, the search runs out only over the limit, and falling short within it means a file that resisted |
| `DiskCache.Cache.PickVictim` | libjingle-0.4.0/talk/base/diskcache.cc:246-258 | the loop over the map computes that search |
| `DiskCache.Cache.UnlockResource` | libjingle-0.4.0/talk/base/diskcache.cc:157-170 | accounting is kept; succeeds exactly when locked; waits in LS_UNLOCKING while streams are open, else entries, disk and exactness are exactly those after eviction |
| `DiskCache.Cache.WriteResource` | libjingle-0.4.0/talk/base/diskcache.cc:129-155 | accounting is kept; succeeds exactly for a locked entry whose file can be opened; the whole new entry is stated, without the old size of the stream, which leaves the total too |
| `DiskCache.Cache.ReadResource` | libjingle-0.4.0/talk/base/diskcache.cc:172-187 | accounting is kept; succeeds exactly for an unlocked entry's existing stream that can be opened; one accessor more |
| `DiskCache.Cache.ReleaseResource` | libjingle-0.4.0/talk/base/diskcache.cc:329-358 | accounting is kept; a closed writer's bytes enter both totals; a lock outlives its writers, and the last writer of an unlocking entry leaves it unlocked and stamped with the time, or evicted, after which entries and disk are exactly those after eviction |
| `DiskCache.Cache.DeleteResource` | libjingle-0.4.0/talk/base/diskcache.cc:204-228 | accounting is kept; only an idle entry is removed, with its size and with its files except those that resist; the result, and whether the files stay exact, say if there were any |
| `DiskCache.Cache.CheckLimit` | libjingle-0.4.0/talk/base/diskcache.cc:230-265 | terminates; succeeds only within the limit; never removes an entry that is locked, unlocking or open, whatever is picked; entries, disk, result and exactness are those of the recursive eviction, for any search, the source's among them |
| `DiskCache.Cache.Purge` | libjingle-0.4.0/talk/base/diskcache.cc:99-113 | succeeds exactly if nothing is open and no file resists; then all files and entries are gone, and the accounting holds if and only if the total was zero |
| `Md5.PadIsLeast` | libjingle-0.4.0/talk/base/md5c.c:118-140 | no smaller number of zeros reaches 56 modulo 64, as section 3.1 of RFC 1321 asks |
| `Md5.PadMeans` | libjingle-0.4.0/talk/base/md5c.c:122-141 | the padded message is the message, a byte 0x80 and zeros up to the last eight bytes, in whole blocks |
| `Md5.PadCountMeans` | libjingle-0.4.0/talk/base/md5c.c:144-146 | these eight bytes are the bit count modulo 2^64, least significant byte first |
| `Md5.FoldBlock` | libjingle-0.4.0/talk/base/md5c.c:95-101 | blocks are folded one after the other, each into the state the ones before it left |
| `Md5.KeptDigest` | libjingle-0.4.0/talk/base/md5c.c:46-56 | with a compression that keeps the state the digest of every message is the sixteen bytes 01 23 45 67 to 32 10 of section 3.3 of RFC 1321 |
| `Md5.LastBlockDigest` | libjingle-0.4.0/talk/base/md5c.c:148-150 | with a compression that keeps four of its sixteen words, at any place, the digest of every message is the bytes of these words in the last padded block |
| `Md5.PadIsInjective` | libjingle-0.4.0/talk/base/md5c.c:112-146 | messages below 2^64 bits with equal padding are equal |
| `Md5.CountAdds` | libjingle-0.4.0/talk/base/md5c.c:69-72 | the carry between the two count words computes eight times the length modulo 2^64 |
| `Md5.CountOffset` | libjingle-0.4.0/talk/base/md5c.c:74 | bits 3 to 8 of the low word are the length modulo 64 |
| `Md5.Context.Update` | libjingle-0.4.0/talk/base/md5c.c:62-106 | in all three cases the context stands for the message so far with the data appended |
| `Md5.Context.Final` | libjingle-0.4.0/talk/base/md5c.c:112-152 | the digest is the fold over the padded message, for short and long last blocks; only the first state word is cleared: the other three, the count and the last block stay in memory |
| `Md5.Hash` | libjingle-0.4.0/talk/base/md5c.c:46-152 | any sequence of updates and the final step give the digest of the concatenation |
| `NatServer.RouteCmpOrders` | libjingle-0.4.0/talk/base/natserver.cc:41-62 | the route comparator is a strict weak order that identifies exactly routes with the same source, and destination if symmetric |
| `NatServer.AddrCmpOrders` | libjingle-0.4.0/talk/base/natserver.cc:64-88 | the address comparator is a strict weak order that identifies exactly addresses equal in the parts the NAT filters on |
| `NatServer.Server.FindPort` | libjingle-0.4.0/talk/base/natserver.cc:171-194 | the first free port in cyclic order from the source's own; it fails exactly if none of the 65536 is free, and port 0 is told apart |
| `NatServer.ZeroIff` | libjingle-0.4.0/talk/base/natserver.cc:175-186 | the search comes to port 0 exactly if that can be bound and all ports from the source's own up are taken |
| `NatServer.FirstFreeIs` | libjingle-0.4.0/talk/base/natserver.cc:175-186 | the first free port is the one at which the search, in its order, first meets a free address |
| `NatServer.Successive` | libjingle-0.4.0/talk/base/natserver.cc:175-176 | the order of the search: from the source's own port on, one after the other, and 0 behind 65535 |
| `NatServer.Server.OnInternalPacket` | libjingle-0.4.0/talk/base/natserver.cc:116-131 | keeps the two maps one to one and the whitelists equal to the history; existing mappings never change; a new one is where the port search ends |
| `NatServer.Server.OnExternalPacket` | libjingle-0.4.0/talk/base/natserver.cc:133-155 | forwards, to the mapping's source, exactly when that mapping has sent to an address the NAT does not tell from the sender |
| `NatServer.Server.ExternalIffKey` | libjingle-0.4.0/talk/base/natserver.cc:116-131 | two packets leave from one external address exactly if the NAT does not tell their routes apart |
| `NatServer.Server.ConeMapping` | libjingle-0.4.0/talk/base/nattypes.cc:41-60 | a cone NAT sends two packets from one external address exactly if they have the same source |
| `NatServer.Server.SymmetricMapping` | libjingle-0.4.0/talk/base/nattypes.cc:34-39 | a symmetric NAT, exactly if they have the same source and destination |
| `NatServer.Server.FullCone` | libjingle-0.4.0/talk/base/nattypes.cc:41-46 | any host may send to a mapped address |
| `NatServer.Server.RestrictedCone` | libjingle-0.4.0/talk/base/nattypes.cc:48-53 | exactly the hosts the source has sent to may |
| `NatServer.Server.PortRestrictedCone` | libjingle-0.4.0/talk/base/nattypes.cc:55-60 | exactly the addresses and ports the source has sent to may |
| `NatServer.Server.SymmetricFilter` | libjingle-0.4.0/talk/base/nattypes.cc:34-39 | exactly the destination of the mapping may |
| `MessageQueue.Queue.Post` | libjingle-0.4.0/talk/base/messagequeue.cc:238-258 | a message is accepted at the end of the ready queue unless stopped |
| `MessageQueue.Queue.PostDelayed` | libjingle-0.4.0/talk/base/messagequeue.cc:260-277 | a message is accepted with its trigger time unless stopped |
| `MessageQueue.Queue.MoveTriggered` | libjingle-0.4.0/talk/base/messagequeue.cc:167-181 | exactly the messages whose time has come become ready, earliest trigger first, and the delay is the time to the next trigger |
| `MessageQueue.Queue.Get` | libjingle-0.4.0/talk/base/messagequeue.cc:144-233 | accounts are kept and nothing is cleared; the peeked message comes first, and otherwise result and queues are exactly those of the recursive meaning: scan, test for a stop, wait, test for the timeout |
| `MessageQueue.Queue.Scan` | libjingle-0.4.0/talk/base/messagequeue.cc:167-202 | one scan under the lock: what is due becomes ready, and the first message that is no disposal is taken, exactly |
| `MessageQueue.Queue.WaitTime` | libjingle-0.4.0/talk/base/messagequeue.cc:207-218 | a wait is asked for without end exactly if there is neither a limit nor a delayed message; otherwise it ends at the limit or the next trigger, whichever is first |
| `MessageQueue.ReadyIsGot` | libjingle-0.4.0/talk/base/messagequeue.cc:167-202 | if a message is ready or due when Get begins, Get returns the first one without waiting |
| `MessageQueue.GotIsNext` | libjingle-0.4.0/talk/base/messagequeue.cc:144-233 | a message that Get returns is the first one, disposals aside, of the old ready queue followed by what was due at the first scan, posted in the first wait, due at the second scan, and so on up to the last; the scans before found only disposals, no stop was seen and the time was not up; and what follows the message is left |
| `MessageQueue.NextIsGot` | libjingle-0.4.0/talk/base/messagequeue.cc:144-233 | conversely every message and rest of that kind is a possible result |
| `MessageQueue.FailsDrained` | libjingle-0.4.0/talk/base/messagequeue.cc:204-232 | Get fails only after a scan that left no message: the queues hold what other threads added since and what was not due; a timeout means that the time was up, and not before |
| `MessageQueue.StoppedDrains` | libjingle-0.4.0/talk/base/messagequeue.cc:204-205 | a Get that begins on a stopped queue does not wait, and fails only with the ready queue empty and nothing due |
| `MessageQueue.Queue.Peek` | libjingle-0.4.0/talk/base/messagequeue.cc:132-142 | the same, but the message is kept for the next Get and not counted as returned |
| `MessageQueue.Queue.Clear` | libjingle-0.4.0/talk/base/messagequeue.cc:295-346 | stated on handler and id: nothing left in peek slot, ready or delayed queue has the handler (any, if none is given) and the id (any, for MQID_ANY); what differs in one of them is in its place as often as before, and the ready queue in order |
| `MessageQueue.KeptMeans` | libjingle-0.4.0/talk/base/messagequeue.cc:309-324 | the same for the rotation of the ready queue alone |
| `MessageQueue.KeptIsExact` | libjingle-0.4.0/talk/base/messagequeue.cc:309-324 | rotating the ready queue once removes every match and no other message |
| `MessageQueue.KeptInOrder` | libjingle-0.4.0/talk/base/messagequeue.cc:309-324 | and keeps the others in order |
| `MessageQueue.ReturnedOnTime` | libjingle-0.4.0/talk/base/messagequeue.cc:144-233 | returned and ready messages are, in order, messages of the ready log, none of which became ready before its trigger |
| `LinkedPtr.LinkedPtr.Unique` | libjingle-0.4.0/talk/base/linked_ptr.h:65 | true exactly for a ring of size one |
| `LinkedPtr.LinkedPtr.Acquire` | libjingle-0.4.0/talk/base/linked_ptr.h:72-83 | four pointer assignments put this into the ring of the other, and no one else |
| `LinkedPtr.LinkedPtr.Release` | libjingle-0.4.0/talk/base/linked_ptr.h:100-109 | a pointer leaves its ring and the others still form one; the last one deletes the object |
| `LinkedPtr.LinkedPtr.Assign` | libjingle-0.4.0/talk/base/linked_ptr.h:39-46 | all rings stay intact, and the old object is deleted exactly if nothing refers to it after the assignment, also when both pointers shared it |
| `LinkedPtr.Run` | libjingle-0.4.0/talk/base/linked_ptr.h:33-46 | after any sequence of constructions, copies, assignments and destructions the pointers refer to the objects they should, and rings and deletions are as the invariant says |
| `LinkedPtr.DeletedOnce` | libjingle-0.4.0/talk/base/linked_ptr.h:100-109 | an object has been deleted once if no pointer refers to it, and not at all otherwise |
| `LinkedPtr.GoneForGood` | libjingle-0.4.0/talk/base/linked_ptr.h:33-46 | no later command makes a pointer refer to a deleted object |
| `LinkedPtr.RingIff` | libjingle-0.4.0/talk/base/linked_ptr.h:72-83 | two pointers are in one ring exactly if they refer to the same object |
| `LinkedPtr.UniqueIff` | libjingle-0.4.0/talk/base/linked_ptr.h:65 | the ring has size one exactly if no other pointer refers to the object |
| `ByteBuffer.ByteBuffer.Resize` | libjingle-0.4.0/talk/base/bytebuffer.cc:143-156 | growth by at least half keeps the contents; shrinking keeps their beginning |
| `ByteBuffer.ByteBuffer.WriteBytes` | libjingle-0.4.0/talk/base/bytebuffer.cc:135-141 | the bytes are appended, and the copy ends inside the array in every state |
| `ByteBuffer.ByteBuffer.ReadBytes` | libjingle-0.4.0/talk/base/bytebuffer.cc:107-115 | the oldest bytes are taken, or nothing if there are too few |
| `ByteBuffer.ByteBuffer.Shift` | libjingle-0.4.0/talk/base/bytebuffer.cc:158-165 | the oldest bytes are dropped in place, or nothing if there are too few |
| `ByteBuffer.ByteBuffer.Run` | libjingle-0.4.0/talk/base/bytebuffer.cc:73-165 | any interleaving of typed reads and writes, resizes and shifts answers and leaves what a plain byte queue does |
| `ByteBuffer.DecodeEncode` | libjingle-0.4.0/talk/base/bytebuffer.cc:77-133 | each kind of value is read back from its network order |
| `ByteBuffer.NetworkOrder` | libjingle-0.4.0/talk/base/bytebuffer.cc:117-133 | the bytes of each kind of value, the most significant first |
| `ByteBuffer.EncodeDecode` | libjingle-0.4.0/talk/base/bytebuffer.cc:77-105 | any bytes are the encoding of the value read from them |
| `ByteBuffer.TypedRun` | libjingle-0.4.0/talk/base/bytebuffer.cc:73-165 | in any interleaving with agreeing kinds the values read are the oldest written, in order and unaltered, and the rest is still there |
| `StrMap.BuildMap` | libjingle-0.4.0/talk/base/network.cc:71-82 | the printed text is appended |
| `StrMap.PrintText` | libjingle-0.4.0/talk/base/network.cc:71-82 | the text itself: braces, an equals sign in each entry, a comma between two |
| `StrMap.Stream.ParseString` | libjingle-0.4.0/talk/base/network.cc:89-106 | scans to a delimiter outside braces; at the end of the text one end-of-file character is appended; the brace count never becomes negative |
| `StrMap.ParseMap` | libjingle-0.4.0/talk/base/network.cc:108-126 | the entries the text means replace those of the map, on every text |
| `StrMap.EntriesIff` | libjingle-0.4.0/talk/base/network.cc:71-126 | printed entries read back, in order, exactly if in every key and value braces match and delimiters are inside braces |
| `StrMap.ClosedIff` | libjingle-0.4.0/talk/base/network.cc:89-106 | the condition in terms of braces: as many close as open, never more up to any point, and equals signs, commas and closing braces stand inside |
| `StrMap.AnyEntry` | libjingle-0.4.0/talk/base/network.cc:108-126 | on malformed text any of the three delimiters ends a key or a value, and only a comma behind the value makes the scan go on |
| `StrMap.AnyOpening` | libjingle-0.4.0/talk/base/network.cc:84-87 | and any character is taken for the opening brace |
| `StrMap.TextUnfinished` | libjingle-0.4.0/talk/base/network.cc:89-106 | without a delimiter all of the text is taken, and one character 255 for its end |
| `StrMap.MapRoundTrip` | libjingle-0.4.0/talk/base/network.cc:71-126 | a map of such entries is restored exactly if it is not empty, whatever order its iterator has |
| `StrMap.EmptyMap` | libjingle-0.4.0/talk/base/network.cc:71-82 | the empty map comes back with one entry |
| `StrMap.PrintIsClosed` | libjingle-0.4.0/talk/base/network.cc:71-82 | a printed map is itself a closed value |
| `StrMap.NodeRoundTrip` | libjingle-0.4.0/talk/base/network.cc:271-293 | a map of printed maps is restored, as the network manager needs it |
| `StrMap.NestedRoundTrip` | libjingle-0.4.0/talk/base/network.cc:71-126 | in maps nested to any depth, parsing along any path of keys gives the printed subtree at its end |
| `NetworkQuality.EstimateBetween` | libjingle-0.4.0/talk/base/network.cc:317-336 | the estimate is never outside the range of the data |
| `NetworkQuality.EstimateOfTwo` | libjingle-0.4.0/talk/base/network.cc:317-336 | the weights in numbers: half of each stays and half fades with its age |
| `NetworkQuality.HalfLives` | libjingle-0.4.0/talk/base/network.cc:61-64 | after k half-lives of 2000 ms the fading half is divided by 2^k |
| `NetworkQuality.FadingLater` | libjingle-0.4.0/talk/base/network.cc:347-356 | scaling two sums by one factor ages every data point in them |
| `NetworkQuality.SumsAreWeights` | libjingle-0.4.0/talk/base/network.cc:328-330 | the uniform and the fading sums add up to the weighted sums over all points |
| `NetworkQuality.EstimateFromSums` | libjingle-0.4.0/talk/base/network.cc:326-336 | the quotient of the running sums is the weighted mean; the epsilon test means that there is no data |
| `NetworkQuality.Network.AddDataPoint` | libjingle-0.4.0/talk/base/network.cc:347-356 | the sums stand for the log with the point appended |
| `NetworkQuality.Network.EstimateQuality` | libjingle-0.4.0/talk/base/network.cc:317-336 | adds a point per session with a quality and computes the weighted mean of the whole log |
| `Attributes.HttpParseAttributes` | libjingle-0.4.0/talk/base/httpcommon.cc:239-287 | terminates on every text and appends the attributes it means |
| `Attributes.IsEndOfAttributeName` | libjingle-0.4.0/talk/base/httpcommon.cc:222-235 | the end of the text, white space, or an equals sign before a value |
| `Attributes.quote` | libjingle-0.4.0/talk/base/httpcommon.cc:601-611 | the result is the escaped text between quotation marks |
| `Attributes.QuotePlain` | libjingle-0.4.0/talk/base/httpcommon.cc:601-611 | text without quotation marks and backslashes is put between marks unchanged |
| `Attributes.QuotedReadsBack` | libjingle-0.4.0/talk/base/httpcommon.cc:264-274 | every string is read back from its quoted form, whatever follows |
| `Attributes.QuotedMeans` | libjingle-0.4.0/talk/base/httpcommon.cc:264-274 | every text behind a mark: a backslash stands for the character behind it, whatever that is, the first bare mark ends the value, and without one the value is the rest |
| `Attributes.ItemReadsBack` | libjingle-0.4.0/talk/base/httpcommon.cc:252-285 | one written attribute is read back, behind a quoted value in front of anything, and exactly one comma is skipped |
| `Attributes.RoundTripIff` | libjingle-0.4.0/talk/base/httpcommon.cc:222-287 | a list of quoted attributes reads back as itself, for all values, exactly if no name has white space or an equals sign before another character |
| `Attributes.DigestReadsBack` | libjingle-0.4.0/talk/base/httpcommon.cc:732-747 | scheme and attributes of the answer to a Digest challenge read back, whatever user name, realm and the rest contain |
| `WildMatch.WildMatch` | libjingle-0.4.0/talk/base/proxydetect.cc:142-164 | terminates, and is true exactly if the target can be cut into parts that fit the tokens the code reads from the pattern |
| `WildMatch.AgreesIff` | libjingle-0.4.0/talk/base/proxydetect.cc:142-164 | these tokens match the same targets as the glob exactly if the pattern has no two adjacent stars |
| `WildMatch.SameReading` | libjingle-0.4.0/talk/base/proxydetect.cc:142-164 | without adjacent stars the tokens are those of the glob |
| `WildMatch.TwoStars` | libjingle-0.4.0/talk/base/proxydetect.cc:144-154 | two stars match exactly what ends in a star, where the glob matches anything |
| `Prelude.Letters` | libjingle-0.4.0/talk/base/proxydetect.cc:149-156 | each letter has its other case |
| `Prelude.NoLetter` | libjingle-0.4.0/talk/base/proxydetect.cc:149-156 | and every other character only itself |

## Left out

- Redundancy: message loss, partitions, a third server of the same service but for its first question to a pair, and a restart with old messages in flight; the code is not made for them.
- Redundancy: starting, acting on a message and quitting are atomic steps; the heartbeat connection itself and the contents of its messages are not modelled, so a quit on a PASSIVE_QUIT_STRING is only covered by the quit that may happen at any time.
- Redundancy: logging, OnRoleChanged and the thread and event handles.
- HttpParser.Parser.ProcessHeader: takes the decimal number of Content-Length modulo 2^32 where `%d` leaves an overflow undefined, and an empty value as no number where sscanf would read past the line.
- HttpParser.Parser.Process: a sink that takes part of the data and then reports an error in the same call is taken to have taken none of it.
- HttpBase.Sender.constructor: takes the leader line as given and needs it to fit the buffer; how it is formatted is not modelled.
- HttpBase.RunChunkedBody: a chunk of 2^32 - 1 bytes is excluded, since its length means an unknown length to the parser; the sender's chunks are never longer than its buffer.
- HttpBase: accepting and connecting, completion callbacks of the owner and the client and server classes above.
- TcpFraming: SendTo, SendRaw, connecting and closing; the socket's error codes other than a failed send or read.
- DiskCache: reading the folder at start, file names and their hashing, and the queries HasResource and HasResourceStream.
- DiskCache.Cache.CheckLimit: after the search ran past the end of the map nothing is defined in the source; the model stops there and says so.
- DiskCache.SearchDanglingIff: is about pairwise different times; which of several equally old entries goes first is said by DiskCache.SearchIs.
- DiskCache.Cache.WriteResource: needs that the same stream has no writer already, and a known id.
- Md5: the compression function is a parameter; the 64 steps of MD5Transform are not modelled.
- NatServer.Server.FindPort: a bind that fails for a reason other than EADDRINUSE is an assertion failure in the source and not modelled, nor is what follows once a socket was bound to port 0.
- NatServer.RouteCmpOrders: leaves out hostnames, which are compared when both addresses are zero; addresses that come with packets have none.
- NatServer: the encoding of addresses in the packets and the server's own sockets.
- MessageQueue.Queue.Get: during the call other threads post and stop, but do not clear or restart; the test for a stop in Post and its push are one step.
- MessageQueue.Queue.WaitTime: how long the socket server then really waits is not its concern; a wait may end at any time.
- MessageQueue: milliseconds do not wrap around at 2^32; the latency warning, the socket server's own work and Dispatch are not modelled.
- LinkedPtr.Run: an object is given to one pointer when it is made; handing the same raw pointer to two linked_ptrs is an error of the caller.
- ByteBuffer: sizes do not wrap around; the constructor that measures a C string.
- StrMap.BuildMap: takes the entries in the order of the map's iterator, which is any order here.
- NetworkQuality: arithmetic over the reals instead of doubles, time that does not wrap around or run backwards, and exp as any function with its laws; its half-life is a premise of HalfLives.
- Attributes: HttpAuthenticate's computation of the Digest response.
- WildMatch: the other rules of proxy detection.
