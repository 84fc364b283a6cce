# A verified model of the chat server and its client

A Dafny 4.11 model of a small instant messenger: a C++ server (`wx-server`) that keeps one reader
and one writer thread per connection, a SQLite store, and a Qt client (`wx-client`) that frames,
reassembles and reconnects. The project proves what the two ends promise each other over every
input, every interleaving and every run. `dafny verify dfyconfig.toml` checks all of it.

The code works by changing state, and so does the model where one object is concerned: `Session`,
`Server`, `Database` and `WeChatSocket` are classes, and the codec fills buffers index by index.
Each of their methods is proved equal to a function on values. Where threads or users interleave,
a transition system takes over whose steps are the code's critical sections, system calls and
database calls. Its steps share the value functions wherever there is one (`Enqueue`,
`Unregistered`, `Without`, `Feed`, everything in `Store`); one-line effects such as the writer's
swap, the kick and the compare-and-swap are written out in both places.

## The parts

**Bytes.** `Wire` fixes the layout of a frame. `ServerProtocol` proves that `htonl` and `memcpy`
on a host of either byte order produce it, `ClientCodec` that shifts and masks do. `Reassembly` is
the client's receive loop, `ServerStream` and `SessionObject` the server's. `Delivery` puts the
capped write queue, the writer's swaps and partial sends, the network and the client's reads
together and proves end-to-end delivery. Payloads are bytes; the JSON library is a printer and a
parser about which nothing is assumed, except in `EncodeDecode`, where parsing undoes printing.

**Sessions.** `Lifecycle` has the acceptor, both threads of every session, the login in five
critical sections and the shutdown in seven. `LifecycleSafety` says what holds always, and
`LifecycleProgress` what connections, logins and shutdowns lead to. Two
properties one would expect do not hold of the code, and for each there is a run of the transition
system that shows it and a theorem that says exactly when it does hold:

* Cleanup. The guard of `handleAuthLogin` looks for LOGGED_IN only, and `shutdown` has stored
  CLOSING, so a session can become another user while it shuts down; in `StaleEntry` it then stays
  registered after it has finished. `Cleanup.CleanupExactly`: a session that unregisters is gone for
  good if and only if it is registered under no user but its last. `OneLoginCleanup`: it is so if
  every session logs in at most once.
* Single login. `kickExisting` and `registerSession` are separate critical sections; in
  `OverlappingLogins` two logins of one user both kick before either registers.
  `SingleLoginExact.SingleLoginExactly`: a kick is harmless in all continuations if and only if no
  other login of that user is between its kick and its registration, or neither of the two sessions
  can be live any more.

**Store.** `Store` holds the tables as values, with the unique indexes and foreign keys, and one
function per writing method. `Messages` proves that turning pages reassembles a conversation,
`Conversations` that the aggregate query agrees with the pages, `Friends` and `Groups` their
invariants over every run. `Effects` says of every writing call exactly when it is refused and what
it brings about. A LIMIT of zero returns nothing and a negative one is none.

**Sends.** `Handlers` interleaves the chat and group handlers of all sessions with every other
database call, login, second login during a shutdown, and disconnect. `SendGuarantees` proves that
check-then-act is sound for group messages; that a message reaches a session twice only if that
session has logged in as two members of the group, and does so if it is registered under both; and
when a chat push matches the stored row: always if the handler runs as one step, and otherwise
exactly if the recipient was a user when the message was saved. `StragglerIsPushed` is a run with a
push that carries the id -1. (The acknowledgement says SUCCESS either way.) `SendDelivery` proves
that the sends deliver: which steps are possible, what each does, and that whoever is online at his
turn is pushed to, in every run.

**Reconnecting.** `Reconnect` is the client's automaton under every order of its signals, and
`ClientSocket` the class whose slots do what the automaton says.

Where the code and its documents disagree the model follows the code: `docs/protocol.md` line 188
announces at most 50 conversations, and the query has no limit.

## Model

| member | source | states |
|---|---|---|
| `Wire.HeaderRoundTrip` | protocol/common.h:19-20 | reading the eight bytes of any header gives it back |
| `Wire.ReadHeaderRoundTrip` | protocol/common.h:19-20 | any eight bytes are the header they spell, so no two headers share a spelling |
| `Wire.HeaderLayout` | protocol/common.h:19-20 | length in the first four bytes and version in the next two, most significant byte first, then type and flags |
| `ServerProtocol.NetworkOrderStoresBigEndian` | wx-server/src/protocol.cpp:7-16 | on a host of either byte order, `htonl` and `htons` followed by a copy store most significant byte first |
| `ServerProtocol.NetworkOrderLoadsBigEndian` | wx-server/src/protocol.cpp:18-28 | and the reverse when loading |
| `ServerProtocol.BuildHeader` | wx-server/src/protocol.cpp:7-16 | writes exactly the eight header bytes of the wire layout and nothing beyond them |
| `ServerProtocol.ParseHeader` | wx-server/src/protocol.cpp:18-42 | reads the header those bytes spell and accepts it if and only if version, size and type are in order |
| `ServerProtocol.SerializeFrame` | wx-server/src/protocol.cpp:44-53 | the wire layout of the frame, whatever its size |
| `ServerProtocol.BuildParseInverse` | wx-server/src/protocol.cpp:7-42 | building and parsing headers are inverse in both directions, for every length and type |
| `ClientCodec.PutHeader` | wx-client/network/FrameCodec.cpp:5-41 | the client's shifts and masks write the same bytes as the server's `htonl` |
| `ClientCodec.Encode` | wx-client/network/FrameCodec.cpp:5-41 | the wire layout of the frame, or the empty refusal exactly if the payload exceeds 1 MiB |
| `ClientCodec.DecodeFrame` | wx-client/network/FrameCodec.cpp:43-87 | the three-way verdict with frame and byte count is the meaning of the front of the buffer |
| `ClientCodec.Decode` | wx-client/network/FrameCodec.cpp:43-87 | a decoded frame takes at least its eight header bytes and no more than there are |
| `ClientCodec.DecodeStable` | wx-client/network/FrameCodec.cpp:43-87 | once the verdict is Ok or Malformed, more bytes do not change it |
| `ClientCodec.DecodeSerialized` | wx-client/network/FrameCodec.cpp:43-87 | a serialised frame is decoded to itself whatever follows if it is deliverable, and is Malformed otherwise |
| `ClientCodec.DecodePartial` | wx-client/network/FrameCodec.cpp:43-87 | every proper prefix of a deliverable frame is Incomplete |
| `ClientCodec.EncodeDecode` | wx-client/network/FrameCodec.cpp:5-87 | given a JSON library that parses what it prints, decoding undoes encoding for every frame of a known type, and rejects the others |
| `ClientCodec.HeaderAcceptance` | wx-server/src/protocol.cpp:18-42 | the server accepts a header if and only if it has version 1 and the client takes it too, which then consumes 8 + length bytes |
| `Reassembly.ReassembleAppend` | wx-client/network/WeChatSocket.cpp:97-128 | parsing now and parsing the residue with later bytes is parsing everything at once, or both abort |
| `Reassembly.ResidueIsIncomplete` | wx-client/network/WeChatSocket.cpp:97-128 | what stays in the buffer is never a complete or a malformed frame |
| `Reassembly.FeedAllReassembled` | wx-client/network/WeChatSocket.cpp:97-128 | any sequence of reads ends where the one-shot parser ends on all bytes |
| `Reassembly.ChunkingIndependence` | wx-client/network/WeChatSocket.cpp:97-128 | for any byte stream, well-formed or not, any two ways of cutting it give the same frames and residue, or both abort |
| `Reassembly.ReassembleAll` | wx-client/network/WeChatSocket.cpp:97-128 | a stream of deliverable frames is shown frame by frame, heartbeats swallowed, with the rest parsed after it |
| `Reassembly.WholeSplits` | wx-client/network/WeChatSocket.cpp:97-128 | a prefix of the stream is its whole frames followed by a proper prefix of the next one |
| `Reassembly.ReassemblePrefix` | wx-client/network/WeChatSocket.cpp:97-128 | a prefix of the stream shows exactly the frames complete in it and keeps exactly the remaining bytes |
| `Reassembly.AbortsExactly` | wx-client/network/WeChatSocket.cpp:113-118 | on a complete stream the client aborts if and only if some frame is not deliverable, after showing all frames before it |
| `ServerStream.ParseAppend` | wx-server/src/session.cpp:113-168 | frames read from a clean stream stay the same when more bytes follow |
| `ServerStream.ParseSerialized` | wx-server/src/session.cpp:113-168 | a stream of encoded client frames is parsed back into exactly those frames |
| `ServerStream.ClientStream` | wx-server/src/session.cpp:113-168 | of any stream of client frames every request and notification is dispatched with its payload in order, every empty heartbeat is answered, and nothing else |
| `ServerStream.HeartbeatUnanswered` | wx-server/src/session.cpp:153-157 | the client's own heartbeat carries an object and so is never answered |
| `SessionObject.TornFrame` | wx-server/src/session.cpp:135-150 | an incomplete frame or a refused header at the end adds no frame, and which of the two it is can be told |
| `SessionObject.OneMoreFrame` | wx-server/src/session.cpp:135-150 | an accepted header and its payload add exactly one frame |
| `SessionObject.Socket.Recv` | wx-server/src/session.cpp:174-175 | `recv`: any number of bytes up to n, in order, none lost |
| `SessionObject.Socket.Send` | wx-server/src/session.cpp:858-859 | `send`: any prefix of the data, or a failure |
| `SessionObject.Session.ReadExact` | wx-server/src/session.cpp:170-180 | exactly n bytes in order whatever the sizes of the partial reads, or a failure with fewer |
| `SessionObject.Session.ReadFrame` | wx-server/src/session.cpp:135-150 | one more frame of the pure parser, or an ending that tells a refused header from an end of stream |
| `SessionObject.Session.ReadLoop` | wx-server/src/session.cpp:113-168 | for any sizes of partial reads, the actions taken are those for exactly the frames complete in the bytes read |
| `SessionObject.Session.BeginShutdown` | wx-server/src/session.cpp:74-79 | the compare-and-swap succeeds exactly for the first caller |
| `SessionObject.Session.SendBytes` | wx-server/src/session.cpp:44-60 | accepted if and only if the data is empty or fits into what is left of 4 MiB; then all of it is queued and counted, and otherwise nothing |
| `SessionObject.Session.TakeChunk` | wx-server/src/session.cpp:845-854 | the whole queue is taken and the counter reset, unless the session stops |
| `SessionObject.Session.SendChunk` | wx-server/src/session.cpp:856-864 | what went out is a prefix of the chunk, in order, and all of it unless it failed or the session stopped |
| `Delivery.OfferKeeps` | wx-server/src/session.cpp:44-60 | `sendBytes` keeps queue, chunk and wire a partition of the accepted frames |
| `Delivery.SwapKeeps` | wx-server/src/session.cpp:845-854 | so does the writer's swap |
| `Delivery.SendKeeps` | wx-server/src/session.cpp:856-864 | so does a partial send of any size |
| `Delivery.NextKeeps` | wx-server/src/session.cpp:841-865 | every step keeps the partition, and the client's state remains the one-shot parse of all it has read |
| `Delivery.NothingLost` | wx-server/src/session.cpp:44-60 | bytes read, on the wire, unsent and queued together are all accepted frames, in order |
| `Delivery.WriteQueueRefinement` | wx-server/src/session.cpp:841-865 | in every reachable state the counter is the queue length and at most 4 MiB, queue and chunk are whole accepted frames, together at most 8 MiB, and no byte is lost, doubled or reordered |
| `Delivery.OfferExactly` | wx-server/src/session.cpp:44-60 | in every reachable state a frame is accepted if and only if queue and frame together are at most 4 MiB, and otherwise nothing changes |
| `Delivery.StepsPossible` | wx-server/src/session.cpp:841-865 | the writer can swap exactly when its chunk is out and the queue is not empty, and send or receive any amount there is |
| `Delivery.EndToEnd` | wx-client/network/WeChatSocket.cpp:97-128 | for every interleaving and chunking the client shows exactly the non-heartbeat frames of a prefix of the accepted ones, and all of them once every byte has arrived |
| `Delivery.EverythingArrives` | wx-client/network/WeChatSocket.cpp:97-128 | nothing accepted is stuck: from every reachable state with deliverable frames, writer and reader alone can make the client show all of them |
| `Reassembly.RejectedExactly` | wx-client/network/FrameCodec.cpp:43-87 | of a frame that is not deliverable, the header decides if it is too long, and otherwise exactly the whole frame |
| `Reassembly.AbortsAfter` | wx-client/network/WeChatSocket.cpp:113-118 | after any number of bytes the client has aborted if and only if they hold all frames before the first undeliverable one and enough of that |
| `Delivery.AbortedExactly` | wx-server/src/protocol.cpp:44-53 | without any hypothesis on payloads, in every reachable state: the client has aborted if and only if what it has read tells that some accepted frame is not deliverable |
| `Delivery.AbortOnlyIfUndeliverable` | wx-server/src/protocol.cpp:44-53 | once every byte has arrived: aborted exactly if some accepted frame is not deliverable, after showing all before it |
| `Delivery.OversizeFrameAborts` | wx-server/src/protocol.cpp:44-53 | any frame above 1 MiB that fits the queue is accepted by the server and makes its client abort |
| `Registry.WithoutKeepsOthers` | wx-server/src/server.cpp:180-188 | removing a session removes it and nothing else |
| `Registry.WithoutOne` | wx-server/src/server.cpp:180-188 | a listed session is removed once, so the list shrinks by exactly one |
| `ServerObject.Server.UnregisterSession` | wx-server/src/server.cpp:132-138 | the entry goes only if it is this very session; entries of other sessions stay |
| `ServerObject.Server.FindSession` | wx-server/src/server.cpp:141-146 | the entry of the user, or none exactly if there is none |
| `ServerObject.Server.KickExisting` | wx-server/src/server.cpp:148-163 | the entry is gone and the socket of the session it named is closed |
| `Lifecycle.AddKeeps` | wx-server/src/server.cpp:174-178 | a session that is listed but not yet counted or started keeps the list and counter invariant |
| `ServerObject.Server.RemoveSession` | wx-server/src/server.cpp:180-191 | exactly this session goes from the list; if it was listed once, list and counter go down together |
| `ServerObject.Server.GetSession` | wx-server/src/server.cpp:193-202 | the session itself exactly if it is listed |
| `ServerObject.Server.Admit` | wx-server/src/server.cpp:96-116 | refused exactly at the limit, otherwise listed and counted |
| `Lifecycle.NextKeeps` | wx-server/src/session.cpp:72-103 | every critical section of acceptor, login and shutdown keeps the session, list and counter invariant |
| `Lifecycle.RunKeeps` | wx-server/src/session.cpp:72-103 | so does every run |
| `LifecycleProgress.ConnectionServed` | wx-server/src/server.cpp:96-117 | a connection is turned away at the limit, and below it ends up listed, counted and with both threads running |
| `LifecycleProgress.AuthenticateExactly` | wx-server/src/session.cpp:299-318 | a login starts exactly for a stored user on a session that is not LOGGED_IN |
| `LifecycleProgress.LoginCompletes` | wx-server/src/session.cpp:320-327 | an uninterrupted login ends with the session LOGGED_IN and registered, the one registered before closed, and nothing else changed |
| `LifecycleProgress.ShutdownCompletes` | wx-server/src/session.cpp:72-103 | whichever thread begins it, a shutdown can be finished: both threads ended, socket closed, CLOSING, off the list, uncounted, its own entry gone |
| `Lifecycle.RemoveKeeps` | wx-server/src/server.cpp:180-188 | a session is removed from the list once, while its uncounting is still owed |
| `Lifecycle.UncountKeeps` | wx-server/src/server.cpp:189-190 | the decrement pays that debt |
| `LifecycleSafety.ConnectionAccounting` | wx-server/src/server.cpp:96-117 | in every reachable state the counter is the length of the list minus an add not yet counted plus removals not yet uncounted, never negative, and both are at most 256 |
| `LifecycleSafety.ExactlyOneShutdown` | wx-server/src/session.cpp:72-79 | only the winner of the compare-and-swap does the work, and when both threads have ended one has won |
| `LifecycleSafety.NextKeepsWinner` | wx-server/src/session.cpp:72-79 | the winner never changes and a finished shutdown stays finished |
| `LifecycleSafety.FinishedForever` | wx-server/src/session.cpp:72-103 | a finished session is never listed again, in any later state |
| `LifecycleSafety.SetUserCoherence` | wx-server/src/session.cpp:299-321 | `setLoggedIn` leaves the registry coherent if and only if the session was registered under no other user |
| `LifecycleSafety.NextKeepsCoherence` | wx-server/src/session.cpp:295-336 | under loyal logins every step keeps each entry a session of that user not yet unregistered by its shutdown |
| `LifecycleSafety.RegistryCoherence` | wx-server/src/server.cpp:126-146 | in every state a loyal run reaches, every entry is a session of that user, who exists |
| `Cleanup.UnregisterExactly` | wx-server/src/server.cpp:132-138 | the step leaves no entry of the session if and only if it was registered under no user but its last |
| `Cleanup.GoneForEver` | wx-server/src/session.cpp:85-102 | once gone, no step of anybody brings an entry of the session back, since only its own joined thread could register it |
| `Cleanup.CleanupExactly` | wx-server/src/session.cpp:72-103 | in every run, from its `unregisterSession` on no entry ever refers to the session again if and only if it was registered under no user but its last |
| `Cleanup.WasUnregistered` | wx-server/src/session.cpp:101 | every session past that point has gone through that step |
| `Cleanup.FinishedIsGone` | wx-server/src/session.cpp:72-103 | in every run a finished session is never listed again, and never registered again if it met that condition |
| `Cleanup.LoyalCleanup` | wx-server/src/session.cpp:72-103 | under loyal logins every session meets it |
| `Cleanup.OneLoginCleanup` | wx-server/src/session.cpp:297-306 | so it does in every run in which sessions log in at most once |
| `LifecycleSafety.NoForeignEviction` | wx-server/src/server.cpp:132-138 | an entry goes or changes hands only by a login of that user or the shutdown of the very session it names, whatever the rules |
| `LifecycleSafety.OnceIsLoyal` | wx-server/src/session.cpp:297-306 | a run in which every session logs in at most once is a loyal run |
| `SingleLogin.KickExactly` | wx-server/src/server.cpp:148-163 | the kick keeps the single-login invariant if and only if it does not overlap with another login of the user one of whose sessions can be live |
| `SingleLogin.PriorIsClosed` | wx-server/src/server.cpp:159-162 | after the socket of the kicked session is closed, no live session waits to be closed |
| `SingleLogin.NobodyElseLive` | wx-server/src/session.cpp:320-321 | when `setLoggedIn` makes a session live, no other session of the user is |
| `SingleLogin.RegisterKeeps` | wx-server/src/server.cpp:126-130 | registering never overwrites the entry of a live session |
| `SingleLogin.NextKeepsSingle` | wx-server/src/session.cpp:295-336 | every step keeps each live session registered, about to be, or about to be closed |
| `SingleLogin.SingleLoginPerUser` | wx-server/src/session.cpp:295-336 | if logins of one user do not overlap, two live logged-in sessions never share a user, and outside logins a live session is the registered one |
| `SingleLoginExact.FinishLogin` | wx-server/src/session.cpp:320-327 | a login that has kicked can always be completed, and exactly its own session, the kicked one and the entry change |
| `SingleLoginExact.OverlapBreaks` | wx-server/src/session.cpp:320-327 | after a kick during another login of the user, with either session able to be live, some continuation without further kicks breaks single login |
| `SingleLoginExact.SingleLoginExactly` | wx-server/src/session.cpp:320-327 | wherever a run without overlaps has led, the next kick keeps single login in all continuations without overlaps if and only if it does not overlap itself |
| `LifecycleRuns.OverlappingLogins` | wx-server/src/session.cpp:320-327 | a run of the transition system with overlapping logins in which two live sessions share a user |
| `LifecycleRuns.StaleEntry` | wx-server/src/session.cpp:297-306 | a run of the transition system with a second login during the shutdown, after which the finished session stays registered |
| `Store.StoredWhole` | wx-server/src/database.cpp:353-371 | a text bound with length -1 is stored whole if and only if it holds no NUL |
| `Store.StoredIsPrefix` | wx-server/src/database.cpp:353-371 | what is stored is the longest part of the text from its start without a NUL |
| `Store.Find` | wx-server/src/database.cpp:481-491 | the row found meets the condition, and none is found only if no row does |
| `Store.ApplyGrows` | wx-server/src/database.cpp:353-371 | no write loses a row, and a request leaves the pending state at most once |
| `Store.ApplyAllGrows` | wx-server/src/database.cpp:454-521 | the same over every run of writes |
| `Store.GrowsKeeps` | wx-server/src/database.cpp:612-670 | users, groups and memberships are for ever |
| `Effects.RegisterExactly` | wx-server/src/database.cpp:300-328 | refused exactly for a taken name or a failed hash; otherwise a new id of a user with these names |
| `Effects.NamesStayUnique` | wx-server/src/database.cpp:300-328 | over every run no two users have the same name |
| `Effects.SaveExactly` | wx-server/src/database.cpp:353-371 | refused exactly for an unknown party; otherwise one new row with a greater id, both parties, the text, the type and the time |
| `Effects.RequestExactly` | wx-server/src/database.cpp:454-473 | refused exactly for an unknown party or while this request is pending; otherwise stored, pending, from the one to the other |
| `Effects.HandleRequestExactly` | wx-server/src/database.cpp:475-521 | decided exactly if pending; only this row changes, and two users become friends exactly if they are its parties and it was accepted |
| `Effects.CreateGroupExactly` | wx-server/src/database.cpp:579-610 | refused exactly for an unknown owner; otherwise a new group of that name and owner |
| `Effects.JoinExactly` | wx-server/src/database.cpp:612-637 | true exactly if group and user exist, and exactly if the user is a member afterwards; a new member has role 0 |
| `Effects.PostExactly` | wx-server/src/database.cpp:711-749 | refused exactly for an unknown group or author; otherwise one new row with the next number and everything given |
| `Effects.ApplyExactly` | wx-server/src/database.cpp:794-813 | refused exactly for an unknown group or user; otherwise stored, pending |
| `Effects.HandleApplyExactly` | wx-server/src/database.cpp:815-851 | decided exactly if pending; only this row changes; a rejection makes nobody a member and an acceptance exactly the applicant |
| `Effects.DecidedForGood` | wx-server/src/database.cpp:815-851 | a decided application stays as decided in every run |
| `Effects.MembersExactly` | wx-server/src/database.cpp:579-637 | after any call a user is a member if and only if he was before or the call creates the group for him, joins him, or accepts his application |
| `Effects.MembershipHasReason` | wx-server/src/database.cpp:815-851 | whoever becomes a member during a run did so by one of these three calls in that run |
| `Cursor.Select` | wx-server/src/database.cpp:395-411 | the step loop yields the matching rows, newest first, up to the limit |
| `Cursor.SuffixIsEnd` | wx-server/src/database.cpp:395-397 | a negative limit is none, and any other takes the last rows, as many as there are up to the limit |
| `Cursor.PageIsSuffix` | wx-server/src/database.cpp:395-414 | after the reversal a page is the last matching rows, oldest first |
| `Messages.HistoryPageMeaning` | wx-server/src/database.cpp:373-414 | a page is the newest messages of the pair before the bound, in ascending order |
| `Messages.HistorySymmetric` | wx-server/src/database.cpp:373-414 | the two users see the same pages |
| `Messages.NoBound` | wx-server/src/database.cpp:383-385 | a bound of zero or less means the newest messages of the whole conversation |
| `Messages.PagesBeforeKth` | wx-server/src/database.cpp:373-414 | paging on from a message yields exactly the conversation before it |
| `Messages.PagingReassembles` | wx-server/src/database.cpp:373-414 | for any limit but zero the pages, joined oldest first, are the conversation as of the first fetch, whatever is saved in between |
| `Messages.PagingThroughRun` | wx-server/src/database.cpp:353-414 | the same while arbitrary database calls run between the fetches |
| `Messages.ZeroLimit` | wx-server/src/database.cpp:373-414 | with limit zero every page is empty |
| `Messages.ApplyAllKeepsMessages` | wx-server/src/database.cpp:353-371 | message ids ascend in insertion order and both parties are users, over every run |
| `Conversations.LastPerPeer` | wx-server/src/database.cpp:416-450 | the inner query: per peer exactly the newest message shared with him |
| `Conversations.SelectConversations` | wx-server/src/database.cpp:416-450 | one row per peer and only for peers, each showing what the newest one-row history page shows, latest conversation first |
| `Conversations.RunKeepsTimes` | wx-server/src/database.cpp:353-371 | if the clock does not run backwards, stored times do not either |
| `Conversations.LatestFirst` | wx-server/src/database.cpp:421-434 | and then the conversation with the latest message comes first, up to equal times |
| `Friends.ApplyKeepsFriends` | wx-server/src/database.cpp:454-521 | every database call keeps the friendship invariant |
| `Friends.FriendshipInvariant` | wx-server/src/database.cpp:454-521 | over every run: friends are stored once, smaller id first, with an accepted request between them, and at most one request is pending per ordered pair |
| `Friends.FriendListMembers` | wx-server/src/database.cpp:523-546 | a friend list names exactly the known users on the other side of a row |
| `Friends.FriendListsAgree` | wx-server/src/database.cpp:523-546 | friend lists are symmetric and name nobody twice, also after crossing requests |
| `Friends.HandlingDecides` | wx-server/src/database.cpp:475-521 | handling succeeds exactly for a pending request and decides it for good; accepting makes the two friends in both lists from then on |
| `Groups.CreateKeepsGroups` | wx-server/src/database.cpp:579-610 | a new group gets exactly one new row, its owner's with role 2 |
| `Groups.JoinKeepsGroups` | wx-server/src/database.cpp:612-637 | joining keeps the group invariant and changes no existing row |
| `Groups.Dense` | wx-server/src/database.cpp:711-749 | the numbers of a group are exactly 1..n in insertion order |
| `Groups.PostKeepsGroups` | wx-server/src/database.cpp:711-749 | a post gets number n + 1, and a refused one leaves no gap |
| `Groups.GroupInvariant` | wx-server/src/database.cpp:579-637 | roles, memberships and numbering over every run of database calls |
| `Groups.MemberIdsMeaning` | wx-server/src/database.cpp:639-656 | the member list names exactly the users with a membership row |
| `Groups.MemberIdsDistinct` | wx-server/src/database.cpp:639-656 | and each of them once |
| `Groups.GroupOwnerIsRow` | wx-server/src/database.cpp:672-687 | the owner in the group's row, or -1 exactly for an unknown group |
| `Groups.AuthorizedIsOwner` | wx-server/src/session.cpp:798-837 | the test for role 1 or more admits exactly the owner; no row has role 1 and one has role 2 |
| `Groups.OwnershipIsForEver` | wx-server/src/database.cpp:612-637 | no run changes an owner or an existing membership row |
| `Groups.AcceptedIsMember` | wx-server/src/database.cpp:815-851 | an accepted applicant is a member from then on |
| `Groups.GroupPageMeaning` | wx-server/src/database.cpp:751-792 | a page is the newest messages of the group before the bound; the join with users loses none |
| `Groups.PagesAreIntervals` | wx-server/src/database.cpp:751-792 | the page before k with limit l holds exactly the numbers max(1, k - l) to k - 1, in order |
| `Groups.FirstPage` | wx-server/src/database.cpp:751-792 | a bound of zero or less means the page before n + 1 |
| `DatabaseObject.Database.RegisterUser` | wx-server/src/database.cpp:300-328 | a new row, or -1 and no change if the name is taken or hashing failed |
| `DatabaseObject.Database.SaveMessage` | wx-server/src/database.cpp:353-371 | a new row, or -1 and no change if either user is unknown |
| `DatabaseObject.Database.GetHistory` | wx-server/src/database.cpp:373-414 | the newest messages of the pair before the bound, oldest first |
| `DatabaseObject.Database.GetConversations` | wx-server/src/database.cpp:416-450 | exactly the peers, each with the newest message, latest first |
| `DatabaseObject.Database.CreateFriendRequest` | wx-server/src/database.cpp:454-473 | a new pending row, or -1 and no change if one is pending or a user is unknown |
| `DatabaseObject.Database.HandleFriendRequest` | wx-server/src/database.cpp:475-521 | decides the pending request and, if accepted, stores the friendship unless it is there |
| `DatabaseObject.Database.GetFriendList` | wx-server/src/database.cpp:523-546 | the friends in row order, each with his nickname |
| `DatabaseObject.Database.CreateGroup` | wx-server/src/database.cpp:579-610 | the group and its owner's membership, or -1 and no change for an unknown owner |
| `DatabaseObject.Database.JoinGroup` | wx-server/src/database.cpp:612-637 | a plain membership, or none if there is one already or group or user is unknown |
| `DatabaseObject.Database.GetGroupMembers` | wx-server/src/database.cpp:639-656 | exactly the rows of the group |
| `DatabaseObject.Database.IsGroupMember` | wx-server/src/database.cpp:658-670 | whether the member list names the user |
| `DatabaseObject.Database.SendGroupMessage` | wx-server/src/database.cpp:711-749 | the row with the next number, or -1 and no change if group or author is unknown |
| `DatabaseObject.Database.GetGroupHistory` | wx-server/src/database.cpp:751-792 | the newest messages of the group before the bound, oldest first |
| `DatabaseObject.Database.CreateGroupApply` | wx-server/src/database.cpp:794-813 | a new pending application, or -1 and no change if group or user is unknown |
| `DatabaseObject.Database.HandleGroupApply` | wx-server/src/database.cpp:815-851 | decides the pending application and, if accepted, joins the applicant |
| `DatabaseObject.Database.GetGroupRequestGroupId` | wx-server/src/database.cpp:853-868 | negative if and only if no pending application has the id, and otherwise the existing group of the one that has |
| `DatabaseObject.Database.PerformAll` | wx-server/src/database.cpp:353-371 | any sequence of writing calls has the effect of the table functions applied in order |
| `DatabaseObject.OwnerDecides` | wx-server/src/session.cpp:818-831 | whatever other handlers did since the lookup, the role test admits exactly the owner of the application's group at the lookup |
| `DatabaseObject.HandleGroupApplyMessage` | wx-server/src/session.cpp:798-837 | with any calls of other handlers between its three: each answer code exactly when it is due, only the owner decides, and only what nobody has decided since |
| `DatabaseObject.EveryRun` | wx-server/src/database.cpp:133-257 | from an empty database on, every run of calls keeps the invariants of all tables |
| `HandlerSafety.ApplyKeepsDb` | wx-server/src/database.cpp:612-670 | any database call leaves the tables in order, given that new group messages are by members |
| `HandlerSafety.NumberBound` | wx-server/src/database.cpp:711-749 | numbers in use never exceed the number of messages, so the next one is new |
| `HandlerSafety.PostResult` | wx-server/src/session.cpp:662-668 | for a member the store cannot refuse: the result is the next number and the row is there |
| `HandlerSafety.ChatSaveKeeps` | wx-server/src/session.cpp:402-409 | the save with its acknowledgement keeps the invariant of all handlers |
| `HandlerSafety.ChatNotifyKeeps` | wx-server/src/session.cpp:411-423 | so does the lookup of the recipient with the push |
| `HandlerSafety.GroupStoreKeeps` | wx-server/src/session.cpp:662-675 | so does storing a group message, although other calls ran since the membership test |
| `HandlerSafety.GroupFetchKeeps` | wx-server/src/session.cpp:677 | so does fetching the member list, which names members only, each once |
| `HandlerSafety.EarlierIsSmaller` | wx-server/src/session.cpp:679-694 | whatever was pushed before on the way to the next member carries a smaller number |
| `HandlerSafety.GroupNotifyKeeps` | wx-server/src/session.cpp:679-694 | pushing to the next member keeps the invariant |
| `HandlerSafety.NextKeeps` | wx-server/src/session.cpp:382-424 | every step of any handler keeps the invariant |
| `HandlerSafety.RunKeeps` | wx-server/src/session.cpp:645-695 | so does every run |
| `SendGuarantees.AcksNameRows` | wx-server/src/session.cpp:668-675 | every group acknowledgement names a stored message of its sender, and no two name the same |
| `SendGuarantees.GroupPushesMatch` | wx-server/src/session.cpp:677-694 | every group push carries a stored message, was acknowledged to its sender, and goes to a session that has logged in as a member other than the sender |
| `SendGuarantees.GroupPushesOrdered` | wx-server/src/session.cpp:677-694 | from one session to another the numbers of a group never fall, and a message is pushed to a session twice only if that session has logged in as two members |
| `SendGuarantees.OneUserOrdered` | wx-server/src/session.cpp:677-694 | if every session logs in as one user only, the numbers strictly rise and no message is pushed to a session twice |
| `SendDelivery.GroupCheckExactly` | wx-server/src/session.cpp:662-666 | exactly members who are logged in can send |
| `SendDelivery.GroupStoreExactly` | wx-server/src/session.cpp:668-675 | after the test the message is always stored under the next number and acknowledged |
| `SendDelivery.GroupFetchExactly` | wx-server/src/session.cpp:677 | the fetched list names all members and nobody else |
| `SendDelivery.GroupNotifyExactly` | wx-server/src/session.cpp:678-694 | each turn of the loop pushes exactly if the member is registered and not the sender, and the loop ends exactly after the last |
| `SendDelivery.GroupRoundDelivers` | wx-server/src/session.cpp:677-694 | uninterrupted, the rest of the handler pushes the stored message to every member who is online except the sender, and to nobody else |
| `SendDelivery.GroupSendDelivers` | wx-server/src/session.cpp:645-695 | the whole handler: a member who can send has his message stored under the next number, acknowledged, and pushed to all other members online |
| `SendDelivery.TurnComes` | wx-server/src/session.cpp:678-694 | in any run in which the loop gets past a member there is the step of his turn |
| `SendDelivery.EveryMemberHasHisTurn` | wx-server/src/session.cpp:677-694 | in every run, whatever others do: when the handler is done, every member at the fetch has had his turn, and has been pushed to if he was registered then and is not the sender |
| `SendDelivery.RegisteredTwicePushedTwice` | wx-server/src/session.cpp:677-694 | a session registered under two members is pushed the message twice by an uninterrupted handler |
| `SendGuarantees.RegisteredTwice` | wx-server/src/session.cpp:297-306 | a session can come to be registered under two users, by a second login after `shutdown` has stored CLOSING |
| `SendGuarantees.AuthorsStayMembers` | wx-server/src/session.cpp:662-668 | the author of every stored group message is a member, then and in every later state |
| `SendGuarantees.ChatPushesMatch` | wx-server/src/session.cpp:382-424 | a chat push carries the id its sender was given and goes to a session that has logged in as the recipient; that id is a stored row with the same parties and type if and only if the recipient was a user at the save, with the same content if and only if it holds no NUL |
| `SendDelivery.LoginExactly` | wx-server/src/session.cpp:295-336 | a login is refused exactly to a session that is LOGGED_IN or busy; it makes the session ready and registered |
| `SendDelivery.ChatSaveExactly` | wx-server/src/session.cpp:382-409 | possible exactly for a logged-in sender with a recipient and a text; the message is stored with a new id and acknowledged with it, or acknowledged with -1 exactly if the recipient is unknown |
| `SendDelivery.ChatNotifyExactly` | wx-server/src/session.cpp:411-423 | always possible, and pushes exactly if the recipient is registered then |
| `SendDelivery.ChatSendDelivers` | wx-server/src/session.cpp:382-424 | whatever others do in between: a recipient who is registered at the lookup is pushed exactly the stored message, with the id the sender was given |
| `SendDelivery.ChatSendDeliversAtOnce` | wx-server/src/session.cpp:382-424 | the same at once, for any recipient who is registered |
| `SendGuarantees.AtOnce` | wx-server/src/session.cpp:402-423 | a recipient who can be found right after the save was a user at the save |
| `SendGuarantees.AtomicPushesAreStored` | wx-server/src/session.cpp:382-424 | if the handler runs as one step, every chat push carries the id and, without NUL, the content of a stored row |
| `SendGuarantees.StragglerIsPushed` | wx-server/src/session.cpp:402-423 | from every reachable state in which a session can send, a run of the transition system in which somebody new registers and logs in between save and lookup, and is pushed the id -1 |
| `SendGuarantees.SomebodyCanSend` | wx-server/src/session.cpp:295-336 | such a state is reached as soon as somebody has registered and logged in |
| `Reconnect.AttemptKeeps` | wx-client/network/WeChatSocket.cpp:176-201 | an attempt schedules the next delay or gives up, and keeps the automaton sound |
| `Reconnect.HandleKeeps` | wx-client/network/WeChatSocket.cpp:136-208 | every signal keeps it sound: while reconnecting the client either waits or dials, and an open connection is watched by both timers |
| `Reconnect.BackoffTotal` | wx-client/network/WeChatSocket.cpp:187-188 | n delays add up to 1000 * (2^n - 1) ms |
| `Reconnect.BackoffIsBounded` | wx-client/network/WeChatSocket.cpp:161-201 | over every sequence of signals the counter stays in 0..5, a running timer belongs to attempt 1..5, the k-th delay is 1000 * 2^(k-1) ms and all delays of an outage add up to at most 31000 ms |
| `Reconnect.FailureCounts` | wx-client/network/WeChatSocket.cpp:144-158 | an error while the timer runs changes nothing; every other failure lowers the rank by exactly one |
| `Reconnect.OutageEnds` | wx-client/network/WeChatSocket.cpp:144-201 | however many errors come in, the client gives up exactly when the rank is used up, after five delays and five dials |
| `Reconnect.OutageStarts` | wx-client/network/WeChatSocket.cpp:161-174 | every outage starts with attempt 1 and one second, whatever was left of the one before |
| `Reconnect.NoDialWithoutOutage` | wx-client/network/WeChatSocket.cpp:18-24 | without an error or a timeout nothing is dialed, and after giving up nothing happens before the next error or `connectToServer` |
| `Reconnect.ConnectDials` | wx-client/network/WeChatSocket.cpp:47-57 | a socket that is down starts to connect to the new target, outside any outage, and can be connected |
| `Reconnect.ConnectedIsUp` | wx-client/network/WeChatSocket.cpp:33-44 | a connection that succeeds leaves the client up, with no outage and both other timers running |
| `Reconnect.ConnectThenLose` | wx-client/network/WeChatSocket.cpp:47-57 | connecting, succeeding and losing the connection starts an outage towards the target given, if it is one |
| `Reconnect.WaitThenDial` | wx-client/network/WeChatSocket.cpp:18-24 | the wait over, the client dials its target once, and success ends the outage |
| `Reconnect.NinetySeconds` | wx-client/network/WeChatSocket.cpp:97-142 | after data the timeout can be signalled exactly from the ninetieth second of silence on, and then starts the outage; a malformed frame ends the connection silently, and only this timeout brings the client back |
| `ClientSocket.WeChatSocket.OnConnected` | wx-client/network/WeChatSocket.cpp:33-44 | ends an outage, starts both timers and begins with an empty buffer |
| `ClientSocket.WeChatSocket.ConnectToServer` | wx-client/network/WeChatSocket.cpp:47-57 | the new target, no outage, no timer, and a dial |
| `ClientSocket.WeChatSocket.OnReadyRead` | wx-client/network/WeChatSocket.cpp:97-128 | the loop signals and keeps exactly what the pure parser says of all bytes of this connection, and aborts exactly if it does |
| `ClientSocket.OneFrameLess` | wx-client/network/WeChatSocket.cpp:105-126 | one turn of the loop takes the front frame away and shows it unless it is a heartbeat |
| `ClientSocket.WeChatSocket.OnConnectionTimeout` | wx-client/network/WeChatSocket.cpp:136-142 | closes and starts an outage unless one is under way |
| `ClientSocket.WeChatSocket.OnSocketError` | wx-client/network/WeChatSocket.cpp:144-158 | starts an outage, goes on with it, or is ignored while the timer runs |
| `ClientSocket.WeChatSocket.OnReconnectTimer` | wx-client/network/WeChatSocket.cpp:18-24 | dials once |
| `ClientSocket.WeChatSocket.StartReconnect` | wx-client/network/WeChatSocket.cpp:161-174 | needs a target, and starts counting anew |
| `ClientSocket.WeChatSocket.AttemptReconnect` | wx-client/network/WeChatSocket.cpp:176-201 | the next delay with an emptied buffer, or the end of the outage |

## Left out

- All of `wx-client/ui`, `MainWindow`, styles and avatars: user interface.
- `MessageBuilder`, `buildResponse`, `buildNotification`, `buildError`, `dispatchMessage`: field copying over JSON libraries; message bodies are typed values here.
- `authenticate`, password hashing and salts: a login names any stored user; whether hashing succeeds is a parameter of `RegisterUser`.
- Descriptors: a socket has an open flag; numbers, reuse of numbers and the effect of a double `close` are not modelled.
- `start` is one step, taken before the session's own steps; what a thread does before both exist is not modelled.
- Liveness of the shutdown: `running_` is cleared and notified without `writeMutex_` (wx-server/src/session.cpp:74-83), so nothing is claimed about the join completing; `LifecycleProgress` says that a finishing continuation exists, not that it is taken.
- Heartbeat keep-alive: the client's PING carries an object, and the server answers only an empty one.
- Consent to friend requests: `handleFriendHandle` does not check who handles a request, so no such property is stated.
- The order of group pushes from different senders: the code promises none.
- A push offered to a full write queue is dropped by `sendBytes`; `Handlers` counts a push as made when it is offered, and takes `findSession` and the push as one step.
- Handlers that only read (`getPendingRequests`, `getUserGroups`, nicknames in notifications), length limits and the wording of error replies: easy members.
- `seedTestUsers`, database I/O errors, WAL mode and SQL parsing: queries are modelled by their relational meaning.
- The EINTR and EAGAIN retries are part of one poll or send; which of them happened is not visible.
- `sendFrame` on the client with its own write limit, and the signals `connectionFailed` and `reconnecting`: they change no state of the automaton.
- Qt's socket states between UnconnectedState and ConnectedState are one (`Dialing`), and an error always leaves the socket unconnected.
- DatabaseObject.Database.GetConversations: conversations with equal timestamps come in some order, as in the query.
- DatabaseObject.Database.GetFriendList: the order is that of the rows, since the query asks for none.
- SessionObject.Session.ReadLoop: the frames are dispatched in order as a list of actions; what `dispatchMessage` does with each is the subject of `Handlers`.
- ClientSocket.WeChatSocket.ConnectToServer: a dial on a socket that is in use is refused by Qt with an error, which is then a separate signal.
