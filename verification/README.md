# Verified model of boardproxy

boardproxy lets several users share a pool of boards: a daemon hands free boards to
connecting sessions, queues the others, runs a command for each session, and cleans up
after it.  It reads its configuration with a TOML parser and relays traffic to the boards
through byte-stream proxies.  This project models these three parts and proves what they
are there for, over all inputs and all runs.

| files | what they model |
|---|---|
| `Basics.dfy`, `Numerals.dfy` | octets, optional values, sums in machine arithmetic; digits and what rows of them are worth |
| `Allocator.dfy`, `AllocatorInvariant.dfy`, `AllocatorFairness.dfy`, `AllocatorClosing.dfy`, `AllocatorServing.dfy` | the board allocator and the closing protocol as a state machine over client, child and proxy events |
| `AllocatorOutcomes.dfy`, `AllocatorKills.dfy` | what every event leaves behind: boards, queue, sessions and log, without the functions that compute it; when processes are killed |
| `Daemon.dfy` | the daemon, session and board objects; each handler is proved to do what the state machine says |
| `TcpRelay.dfy`, `ConnectCommand.dfy`, `Framing.dfy`, `ProxyOutcomes.dfy` | the TCP relay, and the framing proxy with its command line |
| `Utf8.dfy`, `Utf8Reader.dfy`, `InputText.dfy`, `BufferedReader.dfy` | UTF-8 decoding, code points with bytes and positions, the look-back ring |
| `BasicString.dfy`, `StringGrammar.dfy`, `Integer.dfy`, `NumberValue.dfy`, `NumberGrammar.dfy`, `DateTime.dfy`, `Calendar.dfy` | strings, integers and date-times: parsing, printing, the round trips, and the grammars the parsers accept |
| `Flatten.dfy` | flattening nested arrays in place |
| `TableDefinition.dfy`, `TableLaws.dfy`, `TableRuns.dfy`, `TableValues.dfy` | how headers and key/value pairs define tables, line by line and over whole documents |
| `TableTree.dfy`, `TableCells.dfy`, `TableMeaning.dfy`, `TableOutline.dfy`, `TableSequences.dfy` | what a document says at every path, read off its lines alone, and that the parser accepts and builds exactly that |

Code that works on values is modelled by functions.  Code that updates fields, buffers and
lists is modelled by classes and loops whose contracts tie the new state to those
functions.  System calls (accept, read, send, fork, kill) appear as parameters that may
have any result, or as events that may come in any possible order.

## What the proofs found

Where the code does not keep a property, the model follows the code; one lemma gives an
input that shows the failure and another says exactly when the property holds.

- A client that sends a second setup message can take a second board, and the first one
  is then never given back (`SecondSetupLosesABoard`, `LostForGood`).
  `SetupKeepsInvariantIff` says which setup messages are harmless.
- A client that hangs up while the close command runs frees the board before the command
  has ended (`HangUpReleasesEarly`).  `ReleaseFollowsCloseCommand` says that the command's
  exit comes first exactly when there was no such hang-up.
- `\u` escapes for U+0800 to U+FFFF lose bit 0x800: `"\u0800"` gives other bytes (`LostBit`).
  `EscapedStringComesBackIff` says which escapes are kept.
- The scan for the kind of a value may look ahead 72 characters while the ring keeps 71.
  Stepping back over 72 shows the last character scanned instead of the first
  (`OneStepTooFar`, `StepBackShowsTheCursorIff`), unless the assertion of `step_back` is
  compiled in and stops the program.  Decimal numbers of that length are refused anyway.
  Binary numbers with many underscores get that long while still in range; they are refused
  (`LongBinaryIsRefused`) exactly when their 72nd character is not a zero
  (`PrefixedValuesIff`).
- A base prefix without digits is read as zero (`BarePrefixIsZero`), exactly when something
  follows it (`BarePrefixIff`).
- Superfluous zeros behind a prefix count as digits: `0x00000000000000001` is refused although
  it is one (`ZerosAreCounted`).  A prefixed number in range is refused exactly when it has more
  than 63, 21 or 16 digits (`PrefixedAreRead`), which needs such zeros (`ManyDigitsAreTooLarge`).
- A frame of more than 65532 bytes blocks the framing proxy for good (`BlockingRun`,
  `BlockedForGood`); smaller ones always leave room (`EveryRunLeavesRoom`).
- Two frames in one read: the framing proxy forwards the first one only, and the second
  waits until something else is read (`SecondFrameWaits`).  Nothing ever waits exactly when
  no read completes two frames (`PromptIff`).
- The framing proxy does not look at the result of writing a frame's length, so the client can
  get a datagram without it (`LengthWriteIsNotChecked`).  It gets a whole frame exactly when
  both writes are complete (`FrameForwardedIff`).
- A header may add tables to an inline table, which section "Inline Table" of TOML v1.0.0
  forbids (`InlineTableIsExtended`); `HeaderExtendsIff` says when a header extends a table.
  Key/value pairs never do that (`PairsLeaveValuesAlone`).
- Trailing zero bytes are trimmed, but a single zero byte stays (`OneZeroIsLeft`), as does any
  input of zero bytes only and nothing else (`ZerosAreLeftIff`).

The TCP relay would take a full buffer for the end of its connection, but its buffer is
full exactly after a send that took nothing of a full buffer (`FullIff`, `FillingRun`).
Stream sockets report that as an error instead, and as long as sends take something there
is always room (`SendsKeepRoom`).

## Model

| member | source | states |
|---|---|---|
| `Allocator.FirstReserved` | src/daemon.cpp:131-134 | the first free board reserved for that user, or that there is none |
| `Allocator.FirstUnreserved` | src/daemon.cpp:136-139 | the first free board without reservation, or that there is none |
| `Allocator.FindAvailable` | src/daemon.cpp:128-141 | a free board reserved for the user comes before any unreserved one; no result exactly when no free board fits |
| `Allocator.FirstServable` | src/daemon.cpp:150-157 | the first waiting session that some free board fits; nobody before it could be served |
| `Allocator.FirstByPpid` | src/daemon.cpp:120-126 | the oldest session with that parent process, or that there is none |
| `Allocator.StepKeepsWellFormed` | src/daemon.cpp:79-163 | every event, repeated setups included, keeps the board of each session owned by that session, and the queue made of live sessions |
| `AllocatorInvariant.ServeOneLeavesNoneIdle` | src/daemon.cpp:149-157 | serving one waiter is enough when at most one board was freed: afterwards no waiting session fits a free board, and the waiter got exactly the freed board |
| `AllocatorInvariant.DaemonCloseKeepsInvariant` | src/daemon.cpp:144-157 | removing a session frees at most one board and re-establishes the whole invariant |
| `AllocatorInvariant.SessionCloseKeepsInvariant` | src/session.cpp:300-312 | closing keeps the invariant whether it kills, starts the close command or removes the session |
| `AllocatorInvariant.StepKeepsInvariant` | src/daemon.cpp:79-163 | every event with at most one setup per session keeps ownership, queue and no-idle-board invariants |
| `AllocatorInvariant.RunKeepsInvariant` | src/daemon.cpp:79-163 | the invariant holds after every possible run |
| `AllocatorInvariant.OwnershipIsABijection` | src/daemon.cpp:79-163 | in every reachable state a board is owned by a session exactly when that session points to it; holders are those with a board or closing one; a session is queued once exactly when it awaits a board; free boards and holders add up to all boards |
| `AllocatorInvariant.NoBoardIsIdle` | src/daemon.cpp:128-157 | in every reachable state a free board is reserved for somebody else than each waiting user |
| `AllocatorInvariant.BoardsAreExclusive` | src/session.cpp:217-227 | no two sessions ever hold the same board, even with repeated setups |
| `AllocatorInvariant.SetupKeepsInvariantIff` | src/session.cpp:196-215 | a setup message keeps the invariant if and only if it is harmless, a condition on the state before it |
| `AllocatorInvariant.LostForGood` | src/session.cpp:53-56 | a board whose owner is gone or holds another board stays lost in every continuation |
| `AllocatorInvariant.SecondSetupLosesABoard` | src/session.cpp:196-227 | a concrete run: with its second setup a client loses its first board |
| `AllocatorFairness.HandOverIsFair` | src/daemon.cpp:128-157 | whenever a board is handed over, nobody queued earlier fits it, reserved boards go to their user only, and a reserved free board is preferred |
| `AllocatorFairness.NobodyIsOvertaken` | src/daemon.cpp:79-157 | the same at every point of every run from the start |
| `AllocatorFairness.ReleaseServesTheHead` | src/daemon.cpp:144-157 | releasing an unreserved board with a nonempty queue gives that board to the head of the queue |
| `AllocatorFairness.StepMovesUp` | src/daemon.cpp:87-157 | no event increases position plus releases so far: each unreserved release moves a waiter up |
| `AllocatorFairness.LeavingTheQueueServes` | src/daemon.cpp:144-157 | a waiting session leaves the queue holding a board it has just acquired, unless it hangs up |
| `AllocatorFairness.LeavingTheQueueIsFinal` | src/daemon.cpp:144-157 | who leaves the queue never waits again, and is gone exactly when the event was its own hang-up |
| `AllocatorFairness.RunStaysDone` | src/daemon.cpp:79-157 | over every run, who is done waiting stays so: with a board, closing it, or gone |
| `AllocatorFairness.WaitingIsBounded` | src/daemon.cpp:79-157 | over every run a session with k others ahead that still waits has seen at most k unreserved releases, and its position never grew |
| `AllocatorServing.ServedInTime` | src/daemon.cpp:79-157 | over every run in which a session with k others ahead does not hang up and more than k unreserved boards are released, that session acquires a board |
| `AllocatorServing.BoardIsKept` | src/session.cpp:217-227 | a session that was served keeps that very board as long as it exists |
| `AllocatorClosing.RunTracks` | src/session.cpp:263-312 | the log of every run keeps to the phases of the closing protocol |
| `AllocatorClosing.PhaseIsExplained` | src/session.cpp:300-312 | what each phase says about the order of the logged actions |
| `AllocatorClosing.ReleaseFollowsCloseCommand` | src/session.cpp:122-132 | a board with a close command is released only after the main process was reaped and the command started, exactly once; the command has also exited exactly when no hang-up came in between, and always when the client hung up before the main process ended |
| `AllocatorClosing.HangUpReleasesEarly` | src/session.cpp:127-132 | a concrete run: connect, setup, exit and hang-up release the board while nobody has reaped the close command |
| `AllocatorClosing.CloseCommandStartsOnce` | src/session.cpp:270-291 | no session starts two close commands, and none before its main process is reaped |
| `AllocatorClosing.ReleaseIsFinal` | src/session.cpp:53-56 | a session releases at most once and is gone from then on |
| `AllocatorClosing.GoneWithinTwoExits` | src/session.cpp:263-312 | a session with a board that is still there has seen fewer exits than it has children left, at most two |
| `AllocatorClosing.GoneStaysGone` | src/daemon.cpp:144-147 | a removed session never comes back |
| `AllocatorOutcomes.FindAvailableIsBest` | src/daemon.cpp:128-141 | the board chosen is the best of those that suit: boards reserved for the user before others, and then the one listed first; none exactly when none suits |
| `AllocatorOutcomes.ConnectIsServed` | src/session.cpp:197-210 | a first connect with a suitable free board has the best one at once, with its process started and one `Acquire` logged; queue and other sessions stay |
| `AllocatorOutcomes.ConnectWaits` | src/daemon.cpp:86-88 | a first connect without a suitable board that may wait is the last of the queue and awaits a board; boards, log and other sessions stay |
| `AllocatorOutcomes.ConnectIsRefused` | src/session.cpp:202-209 | a first connect without a suitable board that may not wait is gone; queue, boards, log and other sessions stay |
| `AllocatorOutcomes.ListEndsTheSession` | src/session.cpp:211-213 | a first list ends its session and changes nothing else |
| `AllocatorOutcomes.HangUpWithoutBoard` | src/session.cpp:122-132 | a client without a board that hangs up is gone and leaves its place in the queue; the others keep their order |
| `AllocatorOutcomes.HangUpKills` | src/session.cpp:303-305 | a hang-up while the main process runs logs the hang-up and the kill, keeps session and board, and changes nothing else |
| `AllocatorOutcomes.ExitStartsCloseCommand` | src/session.cpp:306-309 | the exit of the main process on a board with a close command starts that command and keeps the board |
| `AllocatorOutcomes.ExitGivesBack` | src/session.cpp:311 | the exit of the main process on a board without a close command: the session is gone and the board goes to the first in the queue that may use it, or is free |
| `AllocatorOutcomes.CloseCommandGivesBack` | src/session.cpp:293-298 | the same when the close command exits |
| `AllocatorOutcomes.HangUpGivesBack` | src/session.cpp:127-132 | the same when the client hangs up while the close command runs |
| `AllocatorOutcomes.ClientArrives` | src/daemon.cpp:91-94 | a new client has the next number and its account name, and nothing else changes |
| `AllocatorOutcomes.SocketGoesToTheOldest` | src/daemon.cpp:109-126 | a proxy connection is counted for the oldest session with that parent process, exactly if that session has a board |
| `AllocatorOutcomes.SocketOfNobody` | src/daemon.cpp:114-117 | a proxy connection from any other process changes nothing |
| `AllocatorKills.HangingUpKills` | src/session.cpp:300-312 | over every run: a hang-up behind an `Acquire` and before the `ReapMain` of its session is followed at once by the `Kill`, and every `Kill` stands right behind such a hang-up |
| `AllocatorKills.PhaseTellsRuns` | src/session.cpp:300-312 | the phase of a session in the closing protocol tells whether its process runs |
| `AllocatorKills.SecondUserWaits` | src/daemon.cpp:79-89 | a concrete run with one board and two users, after which the second one is queued |
| `AllocatorKills.SecondUserIsServed` | src/daemon.cpp:144-157 | the same run continued: hang-up, kill, reap, release, and the second user has the board |
| `BoardproxyDaemon.Board.Acquire` | src/board.hpp:38 | the session becomes the owner |
| `BoardproxyDaemon.Board.Release` | src/board.hpp:39 | nobody owns the board |
| `BoardproxyDaemon.Session.constructor` | src/session.cpp:39-51 | a session without a board, child or setup data |
| `BoardproxyDaemon.Session.AssignBoard` | src/session.cpp:217-227 | session, board and log change as `Give` says, everything else stays |
| `BoardproxyDaemon.Session.CloseSession` | src/session.cpp:300-312 | the daemon changes as `SessionClose` says in all three branches, and stays valid; `HangUpKills`, `ExitStartsCloseCommand`, `ExitGivesBack` and `CloseCommandGivesBack` say what that is |
| `BoardproxyDaemon.Session.StartCloseCommand` | src/session.cpp:270-291 | the session is closing and watches the close command |
| `BoardproxyDaemon.Session.OnChildExit` | src/session.cpp:263-268 | the exit of either child is the `ChildExits` step |
| `BoardproxyDaemon.Session.OnClientHangsUp` | src/session.cpp:122-132 | end of file or a read error is the `ClientHangsUp` step |
| `BoardproxyDaemon.Session.OnConnect` | src/session.cpp:197-210 | asking, assigning or queueing and the no-wait refusal are the `Connect` setup; `ConnectIsServed`, `ConnectWaits` and `ConnectIsRefused` say what that is |
| `BoardproxyDaemon.Session.OnList` | src/session.cpp:211-214 | listing is a setup that only closes the session |
| `BoardproxyDaemon.Session.OnSetupMsg` | src/session.cpp:158-215 | a decoded setup message is the `Setup` step |
| `BoardproxyDaemon.Session.NewSocketConnection` | src/session.cpp:68-75 | one proxy more, exactly when the session has a board and is not closing |
| `BoardproxyDaemon.Session.OnProxyClose` | src/socket_proxy.cpp:29-32 | a proxy that closes is the `ProxyCloses` step: one proxy less, nothing else |
| `BoardproxyDaemon.Daemon.FindAvailableBoard` | src/daemon.cpp:128-141 | the two search loops find the board of `FindAvailable` |
| `BoardproxyDaemon.Daemon.AssignBoard` | src/daemon.cpp:79-89 | the session gets the board found or goes to the end of the queue |
| `BoardproxyDaemon.Daemon.Destruct` | src/session.cpp:53-56 | the board of a removed session is free again |
| `BoardproxyDaemon.Daemon.FirstServable` | src/daemon.cpp:150-152 | the loop over the queue stops at the first session that some board fits |
| `BoardproxyDaemon.Daemon.ServeOne` | src/daemon.cpp:149-157 | one waiter at most is dequeued and given its board |
| `BoardproxyDaemon.Daemon.CloseSession` | src/daemon.cpp:144-157 | dequeue, remove, release and serve are `DaemonClose` |
| `BoardproxyDaemon.Daemon.OnClientConnecting` | src/daemon.cpp:91-94 | a new session is the `ClientConnects` step |
| `BoardproxyDaemon.Daemon.FindSessionByPpid` | src/daemon.cpp:120-126 | the list is searched in order of arrival, so the oldest match is found |
| `BoardproxyDaemon.Daemon.OnSocketConnecting` | src/daemon.cpp:109-118 | a proxy connection is the `SocketConnects` step |
| `TcpRelay.Relay.OnData` | src/tcpproxy.cpp:94-111 | one read and one send change the buffer as `Relayed` says, with errors, end of file and short sends; the result tells whether the proxy goes on |
| `TcpRelay.TcpProxy.OnClientData` | src/tcpproxy.hpp:46 | data from the client touches only the buffer towards the target; a failure closes the whole proxy |
| `TcpRelay.TcpProxy.OnTargetData` | src/tcpproxy.hpp:47 | data from the target touches only the buffer towards the client; a failure closes the whole proxy |
| `TcpRelay.RelayConserves` | src/tcpproxy.cpp:94-111 | for every interleaving of reads and short sends in both directions, bytes sent and then buffered are the bytes received from that side, in order; the count sent is the sum of the sends; the buffer stays within its capacity |
| `TcpRelay.FullIff` | src/tcpproxy.cpp:96-110 | a run leaves an open proxy with a full buffer exactly when the last event of that side read to capacity and its send took nothing |
| `TcpRelay.SendsKeepRoom` | src/tcpproxy.cpp:96-110 | over every run in which each send takes something, no buffer is ever full |
| `TcpRelay.FillingRun` | src/tcpproxy.cpp:96-110 | a concrete run that fills a buffer |
| `TcpRelay.FullBufferEndsTheConnection` | src/tcpproxy.cpp:96-102 | a full buffer ends the proxy at the next event of its side, with the buffer unsent |
| `ProxyOutcomes.OpenIff` | src/tcpproxy.cpp:94-111 | over every run the relay is open exactly when every read brought bytes and every send worked; only the last event can fail |
| `ProxyOutcomes.NetworkOrder` | src/wrproxy.cpp:73-79 | a frame's length is four digits to base 256, most significant first, in both directions |
| `ProxyOutcomes.DataModeIff` | src/wrproxy.cpp:119-172 | over every run data mode is entered exactly when some read completes a wanted connect command and port, board, address and connection are all right |
| `ProxyOutcomes.LastOneCounts` | src/wrproxy.cpp:150-166 | of several parameters with one key the last one counts |
| `ProxyOutcomes.MissingIsEmpty` | src/wrproxy.cpp:150-166 | a parameter that is not given is empty |
| `Framing.FramesDetermine` | src/wrproxy.cpp:73-88 | a stream of frames determines the datagrams: framing is injective, also on prefixes |
| `ConnectCommand.SplitIsJoined` | src/wrproxy.cpp:150-152 | the parts of a parameter list hold no semicolon and join to the list |
| `ConnectCommand.SplitOfJoin` | src/wrproxy.cpp:150-152 | joining parts without semicolons and splitting gives them back |
| `ConnectCommand.CommandMeaning` | src/wrproxy.cpp:119-141 | a command is read exactly when the buffer holds an end of line; it is wanted exactly when the line is the word `connect`, spaces and wanted arguments |
| `ConnectCommand.ConnectIsRead` | src/wrproxy.cpp:119-172 | a connect command written with any supported parameters is read as those: the last type, mode and port decide |
| `ConnectCommand.HandleConnect` | src/wrproxy.cpp:143-172 | the parameter loop keeps the last value of each key and refuses unsupported parameters, whichever they are |
| `Framing.WrProxy.OnClientData` | src/wrproxy.cpp:56-92 | one read event changes mode, buffer and datagrams as `ClientData` says |
| `Framing.WrProxy.OnTargetData` | src/wrproxy.cpp:94-117 | what of a datagram and its length reaches the client for any results of the two writes, and that only the second one can close the proxy |
| `Framing.FrameForwardedIff` | src/wrproxy.cpp:107-116 | the client gets a whole frame exactly when both writes are complete |
| `Framing.LengthWriteIsNotChecked` | src/wrproxy.cpp:107-116 | a concrete failed write of a length after which the proxy stays open and the frame is broken |
| `Framing.DatagramsReachTheClient` | src/wrproxy.cpp:94-117 | with complete writes the client gets the frames of the target's datagrams, in order |
| `Framing.RunHolds` | src/wrproxy.cpp:56-92 | for any chunking, the bytes read since entering data mode are the frames already forwarded followed by the buffer, which stays within its capacity |
| `Framing.DatagramsArriveInOrder` | src/wrproxy.cpp:73-88 | fed a stream of frames, in any chunks, the proxy forwards a prefix of those datagrams unchanged |
| `Framing.DeframeFrames` | src/wrproxy.cpp:73-88 | deframing a stream gives back the datagrams framed in it |
| `Framing.DeliveredInTime` | src/wrproxy.cpp:73-88 | after any n further reads, in any chunks, all complete frames received before are forwarded, or n more of them |
| `Framing.FramesAreDelivered` | src/wrproxy.cpp:56-92 | the same at any cut of any run from a new proxy, with the contents: enough reads bring out exactly the payloads of the frames received, fewer bring out one each |
| `Framing.PromptIff` | src/wrproxy.cpp:73-88 | after every read of a run everything complete is forwarded exactly when no read completes more than one frame |
| `Framing.SecondFrameWaits` | src/wrproxy.cpp:73-88 | a concrete run: of two frames in one read only the first is forwarded |
| `Framing.EveryRunLeavesRoom` | src/wrproxy.cpp:56-92 | with datagrams of at most 65532 bytes the buffer is never full after a read, so reading never stalls |
| `Framing.BlockingRun` | src/wrproxy.cpp:73-88 | a concrete run from a new proxy: a connect command and a longer frame's header |
| `Framing.BlockedForGood` | src/wrproxy.cpp:73-88 | a longer frame stops all forwarding for ever |
| `Utf8.DecodeEncode` | include/toml.hpp:5886-5899 | decoding the encoding of any scalar values gives them back (the grammar of section 4 of RFC 3629) |
| `Utf8.EncodeDecode` | include/toml.hpp:5886-5899 | well-formed bytes are the encoding of what they decode to, so no encoding is accepted twice |
| `Utf8.NextMeaning` | include/toml.hpp:5842-5884 | what each state of the table accepts: which continuation ranges are still due |
| `Utf8Reader.ValueOfChar` | include/toml.hpp:5886-5899 | the masks and shifts over a whole character give its scalar value |
| `Utf8Reader.AfterByte` | include/toml.hpp:5886-5899 | after each byte the automaton accepts exactly at a complete character, rejects exactly an ill-formed one, and is in progress otherwise |
| `Utf8Reader.TrimmedLength` | include/toml.hpp:6760-6780 | exactly the trailing zero bytes are cut, unless there is nothing else |
| `Utf8Reader.ZerosAreLeftIff` | include/toml.hpp:6760-6780 | zero bytes are left at the end exactly when there is nothing else |
| `Utf8Reader.OneZeroIsLeft` | include/toml.hpp:6760-6780 | a concrete input whose trailing zero byte stays |
| `InputText.TextIsRead` | include/toml.hpp:6760-6780 | a text in UTF-8, with or without U+FEFF in front and any number of zero bytes behind, is read as just that text |
| `Utf8Reader.Reader.constructor` | include/toml.hpp:6760-6780 | what remains to be read is the input without trailing zeros and byte order mark |
| `Utf8Reader.Reader.Feed` | include/toml.hpp:5886-5899 | one call of the decoder |
| `Utf8Reader.Reader.Finish` | include/toml.hpp:7027-7043 | a complete character is delivered with its bytes and position, and the other slot is ready for the next |
| `Utf8Reader.Reader.ReadNext` | include/toml.hpp:6961-7047 | end of file, an error, or the next character with value, bytes and position; never more bytes than the character has |
| `Utf8Reader.ReadAll` | include/toml.hpp:6961-7047 | for every input the reader delivers exactly the code points of the decoded input, and fails exactly when it is ill-formed or truncated; none of them is a surrogate |
| `Utf8Reader.PositionCounts` | include/toml.hpp:7034-7041 | a position is the count of line breaks and of code points since the last one, modulo 2^16 |
| `Utf8Reader.PositionsCount` | include/toml.hpp:6961-7043 | the same for every code point of every input |
| `Utf8Reader.ViewOfChar` | include/toml.hpp:6878-6883 | the view of a character is its bytes, except that U+0000 has none |
| `Utf8Reader.ViewsGiveBackTheInput` | include/toml.hpp:6878-6883 | the views put together are the input without its zero bytes |
| `Utf8Reader.NulFreeInputComesBack` | include/toml.hpp:6878-6883 | an input without zero bytes comes back unchanged |
| `BufferedReader.Reader.ReadNext` | include/toml.hpp:8659-8692 | the item shown is the one at the cursor, also after stepping back, around the end and after the ring has wrapped |
| `BufferedReader.Reader.StepBack` | include/toml.hpp:8694-8708 | stepping back within the asserted bound shows the item at the cursor |
| `BufferedReader.Replay` | include/toml.hpp:8659-8708 | any feasible interleaving of reads and steps back shows what a plain cursor over the stream shows |
| `BufferedReader.StepBackShowsTheCursorIff` | include/toml.hpp:9143-9150 | stepping back by up to 72 shows the item at the cursor exactly when it is at most 71 or the item before the head is the same |
| `BufferedReader.OneStepTooFar` | include/toml.hpp:10720-10727 | a concrete stream for which stepping back by 72 shows another item |
| `BasicString.HexDigitsAreTheRows` | include/toml.hpp:5050-5067 | the hexadecimal digits are exactly the characters of `0123456789abcdef` and `0123456789ABCDEF`, each worth its place |
| `BasicString.AddUpPlaces` | include/toml.hpp:9421-9433 | the place-value loop in 32 bits does not wrap |
| `BasicString.ParseHex` | include/toml.hpp:9421-9433 | the result is the positional value of the four or eight digits that the characters write, small or capital, and there is none exactly when they write none |
| `BasicString.EscapesComeBackIff` | include/toml.hpp:9435-9460 | for every sequence of scalar values, the bytes appended for their escapes decode back to them if and only if none lies in U+0800 to U+FFFF with bit 0x800 set |
| `BasicString.EscapedStringComesBackIff` | include/toml.hpp:9349-9583 | the same through the parser: a string spelled with any mix of `\u` and `\U` escapes is accepted, and its bytes decode to the scalar values under the same condition |
| `BasicString.LostBit` | include/toml.hpp:9448-9453 | the text `"\u0800"`, read and parsed, gives bytes that are not those of U+0800 |
| `BasicString.ParseEscaped` | include/toml.hpp:9391-9470 | the escape at a position: letter, number, surrogate and range errors |
| `BasicString.ParseBasicString` | include/toml.hpp:9349-9583 | the single-line loop returns the body up to the closing quote, or the error |
| `StringGrammar.StringsArePieces` | include/toml.hpp:9349-9583 | a string is accepted exactly when it consists of raw characters, short escapes and unicode escapes up to a closing quote; its bytes are those of the pieces in order |
| `BasicString.PrintWithEscapes` | include/toml.hpp:2051-2067 | the loop prints the escape of each byte in turn |
| `BasicString.EscapingCommutes` | include/toml.hpp:2051-2067 | escaping bytes is escaping characters: multi-byte characters pass through whole |
| `BasicString.BodyComesBack` | include/toml.hpp:9349-9583 | parsing from any point of a printed string appends exactly the characters still to come |
| `BasicString.PrintedStringParsesBack` | include/toml.hpp:2051-2067 | for every well-formed string, the quoted printed form is well formed, parses to the same bytes and is used up |
| `BasicString.RoundTrip` | include/toml.hpp:9349-9583 | the same through printer, reader and parser |
| `Integer.ScanDigits` | include/toml.hpp:10205-10238 | the scan succeeds exactly when digits and underscores are in place and the digits fit the buffer, and returns the digits alone |
| `Integer.SkipZeros` | include/toml.hpp:10259-10264 | skipping leading zeros keeps the value |
| `Integer.SumDigits` | include/toml.hpp:10265-10274 | the sum from the last digit on is the positional value and does not wrap in 64 bits |
| `Integer.Evaluation` | include/toml.hpp:10240-10286 | range checks, sign and cast of the digits |
| `Integer.ParseInteger` | include/toml.hpp:10167-10286 | the whole parser: prefix, scan and evaluation |
| `Integer.ValueCons` | include/toml.hpp:10265-10274 | a first digit counts as many powers of the base as digits follow |
| `Integer.DecimalsAreInt64` | include/toml.hpp:10167-10286 | a decimal of two or more digits without leading zero, of any length and with any underscores, is accepted exactly in the int64 range and then gives its value |
| `Integer.PrefixedNumbers` | include/toml.hpp:10167-10286 | binary, octal and hexadecimal numbers give their positional value, zero without digits; only hexadecimal ones can be out of range |
| `NumberValue.Scan` | include/toml.hpp:10645-10729 | the look-ahead loop collects the traits and characters of a value, up to 72 characters |
| `NumberValue.RereadIsShown` | include/toml.hpp:10773-10774 | character by character, what the typed parser sees after the scan is what the look-back ring shows |
| `NumberValue.ParseNumber` | include/toml.hpp:10645-10881 | single digits are read at once, other integers go to the parser of their base, other values are left alone |
| `NumberValue.DecimalValues` | include/toml.hpp:10778-10881 | every decimal, of any length, with any sign and underscores, is read as its value; it is refused exactly for a superfluous zero or a value outside the int64 range |
| `NumberValue.PrintedNumberParsesBack` | include/toml.hpp:10778-10881 | every 64-bit number, printed and read as a value, is itself |
| `NumberValue.PrefixedValuesIff` | include/toml.hpp:10720-10820 | a number with a prefix is read as its value exactly when it has fewer than 72 characters, or its 72nd is a zero, or it is an error anyway |
| `NumberValue.LongBinaryIsRefused` | include/toml.hpp:10720-10820 | a concrete binary number in range that is refused |
| `NumberGrammar.ValueIsPositional` | include/toml.hpp:10265-10274 | a row of digits, written in any case, has its positional value |
| `NumberGrammar.JoinedIsSeparated` | include/toml.hpp:10205-10238 | groups of digits joined by single underscores are taken, and the underscores dropped |
| `NumberGrammar.SeparatedIsJoined` | include/toml.hpp:10205-10238 | nothing else is taken: every token accepted consists of such groups |
| `NumberGrammar.WrittenOf` | include/toml.hpp:10205-10238 | every token accepted is groups of written digits, so the next two rows cover them all |
| `NumberGrammar.DecimalsAreRead` | include/toml.hpp:10778-10881 | every decimal with any sign and groups is read as the number its digits stand for, and refused exactly for a superfluous zero or outside the 64-bit range |
| `NumberGrammar.PrefixedAreRead` | include/toml.hpp:10167-10286 | every number with prefix `0b`, `0o` or `0x` below 72 characters is read as the number its digits stand for, and refused exactly outside the range or with more than 63, 21 or 16 digits |
| `NumberGrammar.ManyDigitsAreTooLarge` | include/toml.hpp:8770-8801 | without superfluous zeros, more digits than that are out of range anyway |
| `NumberGrammar.ZerosAreCounted` | include/toml.hpp:10205-10238 | a concrete number that is refused for its zeros |
| `NumberValue.BarePrefixIff` | include/toml.hpp:10805-10820 | a prefix without digits is read as zero exactly when something follows it |
| `NumberValue.BarePrefixIsZero` | include/toml.hpp:10805-10820 | a concrete hexadecimal prefix at the end of a line, read as zero |
| `Calendar.FourHundredYears` | include/toml.hpp:10304-10324 | with the accepted days of each month, any four hundred years have 146097 days, as in the Gregorian calendar |
| `Calendar.DaysOfAYear` | include/toml.hpp:10304-10324 | a year has 365 days, or 366 in every fourth year but of the centuries only every fourth |
| `Calendar.DateTimeIsIso` | include/toml.hpp:1949-2045 | a date-time is printed as RFC 3339 writes it, character by character, with the shortest fraction and `Z` for no offset |
| `DateTime.PrintPadded` | include/toml.hpp:1949-1970 | zeros are printed in front up to the width |
| `DateTime.DropZeros` | include/toml.hpp:1994-2003 | the loop drops exactly the trailing zeros of the fraction and keeps its value |
| `DateTime.PrintTimeText` | include/toml.hpp:1985-2005 | hours, minutes, seconds and the shortest fraction |
| `DateTime.ConsumeDigits` | include/toml.hpp:9308-9324 | succeeds exactly when that many digits stand there, and returns them |
| `DateTime.ConsumeVariable` | include/toml.hpp:9326-9345 | the longest run of digits up to the limit |
| `DateTime.SumDigits` | include/toml.hpp:10442-10448 | the digits of a fraction give their value in 32 bits without wrapping |
| `DateTime.FractionNumber` | include/toml.hpp:10442-10451 | the implicit zeros are filled in without wrapping |
| `DateTime.DateAcceptedIff` | include/toml.hpp:10289-10351 | a date is accepted exactly when the text is the printed form of a real Gregorian date up to year 9999 |
| `DateTime.ParseDate` | include/toml.hpp:10289-10351 | the parser returns that date or fails |
| `DateTime.TimeAcceptedIff` | include/toml.hpp:10354-10453 | a time is accepted exactly when the text is hours, minutes and seconds of a day and, behind a dot, one to nine digits of fraction; the fraction is the value of those digits filled up with zeros |
| `DateTime.ParseTime` | include/toml.hpp:10354-10453 | the time at a position, with or without fraction, or a failure |
| `DateTime.OffsetAcceptedIff` | include/toml.hpp:10480-10519 | an offset is accepted exactly when it is `Z` or a sign, hours and minutes up to 23:59 |
| `DateTime.ParseOffset` | include/toml.hpp:10480-10519 | `Z` or a signed offset up to 23:59, or a failure |
| `DateTime.DateTimeAcceptedIff` | include/toml.hpp:10456-10525 | a date-time is accepted exactly when it is a real date, `T` or a space, a time and, unless the value ends there, an offset |
| `DateTime.ParseDateTime` | include/toml.hpp:10456-10525 | date, separator, time and optional offset, or a failure |
| `DateTime.TimeParsesBack` | include/toml.hpp:1985-2005 | every valid time printed and parsed is itself, down to the nanosecond |
| `DateTime.OffsetParsesBack` | include/toml.hpp:2008-2034 | every offset from -23:59 to 23:59 printed and parsed is itself |
| `DateTime.DateTimeParsesBack` | include/toml.hpp:2037-2045 | every valid date-time printed and parsed is itself, whatever ends the value |
| `Flatten.LeavesOfConcat` | include/toml.hpp:7901-7964 | the leaves of a list are those of its parts, in order |
| `Flatten.LeavesOfOne` | include/toml.hpp:7901-7964 | a single node has its own leaves |
| `Flatten.TotalLeafCount` | include/toml.hpp:7889-7898 | the number of leaves at any depth |
| `Flatten.Array.PreinsertionResize` | include/toml.hpp:7714-7727 | a gap of empty slots opens and nothing is lost or reordered |
| `Flatten.Array.FlattenChild` | include/toml.hpp:7901-7915 | the leaves of the child fill exactly as many slots, in order; other slots stay |
| `Flatten.Array.Prune` | include/toml.hpp:7923-7939 | arrays without leaves go, the rest stays in order, and the size counted is the number of leaves |
| `Flatten.Array.Spread` | include/toml.hpp:7946-7961 | every gap opened is filled exactly |
| `Flatten.Array.FlattenInPlace` | include/toml.hpp:7918-7964 | the result is exactly the leaves in order, every slot full, and the reserved size is the final size |
| `Flatten.FlatStaysFlat` | include/toml.hpp:7918-7964 | only leaves are left, and flattening again changes nothing |
| `TableDefinition.Enter` | include/toml.hpp:11240-11279 | one parent of a header or dotted key: created, entered or refused; the document only grows and its lists stay consistent, and `TableCells.WalkMeans` says where it leads |
| `TableDefinition.Walk` | include/toml.hpp:11240-11279 | the same for the whole descent |
| `TableDefinition.Header` | include/toml.hpp:11240-11352 | an accepted header keeps every node and entry, and returns a table that was new or implicit and is now neither implicit nor dotted; tracked arrays stay nonempty with a table last |
| `TableDefinition.Build` | include/toml.hpp:10576-11130 | a value adds new nodes only and keeps the document consistent |
| `TableDefinition.Insert` | include/toml.hpp:11355-11409 | an accepted pair keeps every node and entry |
| `TableLaws.WalkFollowsLook` | include/toml.hpp:11240-11279 | the descent fails exactly on a blocked path and otherwise ends where the path leads |
| `TableLaws.HeaderAcceptedIff` | include/toml.hpp:11240-11352 | a header is accepted exactly when nothing is at its path yet, or a tracked array for `[[ ]]`, or an implicit table for `[ ]` |
| `TableLaws.HeaderTouches` | include/toml.hpp:11240-11352 | a header changes at most one earlier node: one key at the edge of its path, or one more table in the array at its path |
| `TableLaws.HeaderReaches` | include/toml.hpp:11280-11352 | afterwards the path leads to the table returned, or to a new array holding just that table |
| `TableLaws.BuildTouchesNothing` | include/toml.hpp:11615-11696 | parsing a value, inline tables with dotted keys included, changes no earlier node |
| `TableLaws.PairAcceptedIff` | include/toml.hpp:11364-11408 | a pair is accepted exactly when its value is and nothing is at its key, or in the way, yet |
| `TableLaws.PairTouches` | include/toml.hpp:11364-11408 | a pair adds one key at the edge of its path and changes nothing else |
| `TableLaws.PairReaches` | include/toml.hpp:11364-11408 | the value is found at its key, in this and every later document |
| `TableRuns.Run` | include/toml.hpp:11411-11462 | no accepted run of lines removes or overwrites a node |
| `TableRuns.RunHeadsOnce` | include/toml.hpp:11240-11352 | no table is returned by two headers, and none of those returned is implicit or dotted |
| `TableRuns.DocumentsDefineTablesOnce` | include/toml.hpp:11411-11462 | wherever an accepted document is cut, the rest keeps every node, heads no table again, promotes none again and heads no dotted-key table |
| `TableRuns.PairsStay` | include/toml.hpp:11411-11462 | a value stays at its key of its table until the end of the document |
| `TableRuns.HeaderExtendsIff` | include/toml.hpp:11240-11352 | a header extends a table exactly when its path first runs out there |
| `TableRuns.InlineTableIsExtended` | include/toml.hpp:11255-11258 | a concrete document in which a header extends an inline table |
| `TableValues.InsertSealed` | include/toml.hpp:11364-11408 | a pair changes no node that earlier values made, and keeps dotted keys out of them |
| `TableValues.HeaderSealed` | include/toml.hpp:11240-11352 | a header never makes a table inside a value the current one |
| `TableValues.PairsLeaveValuesAlone` | include/toml.hpp:11411-11462 | in every document no pair changes a node that an earlier value made, inline tables and the tables inside them included |
| `TableTree.PathsAreUnique` | include/toml.hpp:11240-11352 | in a document that is a tree each node is reached by one path only |
| `TableTree.HeaderTree` | include/toml.hpp:11240-11352 | a header keeps the document a tree |
| `TableTree.InsertTree` | include/toml.hpp:11355-11409 | so does a pair |
| `TableCells.WalkMeans` | include/toml.hpp:11240-11279 | the descent goes where the path says: into tables, into the last table of a table array, or on to what is missing |
| `TableCells.WalkCells` | include/toml.hpp:11240-11279 | it adds the missing tables on its way, marked as implied or dotted, and nothing else |
| `TableMeaning.BuildMeans` | include/toml.hpp:11550-11696 | a value is accepted exactly when no inline table in it has keys of which one goes through the other, and its nodes are what is written: every element at its position, every value at its key, nothing else |
| `TableMeaning.KeyFitsIff` | include/toml.hpp:11364-11408 | a key fits into an inline table exactly when it goes through no earlier one and no earlier one through it |
| `TableMeaning.InsertMeans` | include/toml.hpp:11364-11408 | a pair is accepted exactly when its value is and its key fits |
| `TableOutline.HeaderAccepted` | include/toml.hpp:11240-11352 | a header is accepted exactly when its outline is, and the table it returns is at the path the outline says |
| `TableOutline.HeaderCells` | include/toml.hpp:11240-11352 | afterwards every path shows what the outline says |
| `TableOutline.StepOutlined` | include/toml.hpp:11411-11462 | one line does to the nodes and lists what it does to the outline |
| `TableOutline.DocumentsAreOutlined` | include/toml.hpp:11411-11462 | the parser accepts exactly the documents that have an outline, read off their lines alone, and builds at every path what the outline says and nothing else |
| `TableSequences.ChildOfNewElement` | include/toml.hpp:11258-11265 | after `[[key]]`, `[key.k]` is accepted for every k, and the table returned by the first then has k as its only key, for the table returned by the second |
| `TableSequences.ChildOfSecondElement` | include/toml.hpp:11258-11265 | after two `[[key]]` the second table gets the key, the first stays empty, and they are the last two of one array in this order |
| `TableSequences.TableHeaderOnce` | include/toml.hpp:11318-11352 | after `[key]` neither `[key]` nor `[[key]]` is accepted |
| `TableSequences.ArrayHeaderAgain` | include/toml.hpp:11318-11352 | after `[[key]]` another one is accepted and `[key]` is not |
| `TableSequences.ParentAfterChild` | include/toml.hpp:11329-11335 | a parent that a header implied may be headed afterwards, as a table only, and holds just that child |
| `TableSequences.DottedTableIsNotHeaded` | include/toml.hpp:11318-11352 | a table that a dotted key made is never headed |
| `TableSequences.PairOnce` | include/toml.hpp:11364-11408 | a key is given a value once |
| `TableSequences.DocumentsAreSane` | include/toml.hpp:11411-11462 | every document that lines lead to is a tree |
| `TableRuns.Parser.EnterParents` | include/toml.hpp:11240-11279 | the loop over the parents is `Walk` |
| `TableRuns.Parser.EraseImplicit` | include/toml.hpp:11329-11335 | the promoted table leaves the list of implicit tables, the others keep their order |
| `TableRuns.Parser.ParseTableHeader` | include/toml.hpp:11240-11352 | the parser object changes as `Header` says, or the header is refused |
| `TableRuns.Parser.ParseArray` | include/toml.hpp:11550-11612 | the elements in order, or the error of the first bad one, as `BuildArray` says; by `TableMeaning.BuildMeans` the array node is what is written |
| `TableRuns.Parser.ParseInlineTable` | include/toml.hpp:11615-11696 | the pairs one after the other into a new table, or the error |
| `TableRuns.Parser.ParseKeyValuePairAndInsert` | include/toml.hpp:11355-11409 | the parser object changes as `Insert` says, or the pair is refused |
| `TableRuns.Parser.ParseLine` | include/toml.hpp:11411-11462 | one line is the `Step` of the document, or the error |
| `TableRuns.Parser.ParseDocument` | include/toml.hpp:11411-11462 | the whole document, and the tables its headers returned |

## Left out

- Sockets, event watchers, fork, exec and descriptor passing: they appear as events and parameters; only well-formed setup messages are modelled.
- Leaving the event loop when the last session of a socket-activated daemon ends, status lines and logging.
- Reading the configuration into boards and the template expansion of commands.
- Floating-point numbers, literal and multi-line strings, comments and whitespace; of the dispatch of `parse_value` only the routes to integers are modelled.
- The choice of a key's segments and the text of errors in table definitions: lines come as keys and values, and an error is the absence of a result.
- Addresses of nodes are numbers given out in order and never reused; source regions of nodes are not modelled.
- Node views, iterators, formatters and the other template code of the library.
- Assertions of the library are taken as compiled out: where one would stop the program, the model goes on as the code behind it does.
- EveryRunLeavesRoom: assumes that forwarding a datagram succeeds, because a failed write ends the connection.
- Finish: the error path for a character that ends in the middle is in `ReadNext`.
- ParseArray: the elements are collected before the array node is made, so the address order differs from the source.
