# SocketSpeak, modelled and proved in Dafny

SocketSpeak is a chat program in C. Its core is a group server: one thread polls a
growable array of connections, keeps a parallel array of members, relays chat, stores
and replays history, and runs a hangman game among the members. This project models
that server, the clients' receiving side and the algorithms beside them, and proves what
they are for.

`dafny verify dfyconfig.toml` checks everything.

## How the model is laid out

| module | what it is |
|---|---|
| `Collections`, `CText` | optional values and facts of sequences; C strings and `fgets` on values |
| `Framing` | LMP frames, `read_all` and the receive calls under arbitrary partial reads |
| `Participants` | the heap-linked participant list, refined to a sequence |
| `Hangman`, `WordChoice`, `HangmanMachine` | the game on values, the reservoir choice of its word, and the same game in its fixed buffers |
| `History` | history records, written through a zeroed structure and replayed by lines |
| `GroupServer`, `PollPass` | the server on values, and one pass of its poll loop |
| `Wire`, `GroupServerMachine` | client requests as bytes, and the server on sockets, arrays and objects |
| `GroupSystem` | server, FIFO channels and client views as one transition system, and its invariant |
| `Answers` | for each kind of frame, the new state in full and the packets each descriptor is sent |
| `GroupRuns`, `GameRuns`, `EndingRuns`, `GroupDelivery` | what whole runs do: messages and history, the game, which games can end, delivery |
| `PassRuns`, `FailingRuns` | the poll loop as runs of that system, and runs in which the program falls short |
| `GroupClient`, `LoadProtocol` | the client's handlers, and the load protocol interleaved at every read and write of its shared variable |
| `LoadRuns`, `LoadQueue` | the load protocol joined to whole runs of the group chat, over one and the same channel |
| `LoadProgress`, `JointProgress` | that loads do happen: each handler on its own, and runs that finish a load from every reachable state |
| `Registry` | command table, tokenising, dispatch |
| `StickerEditor`, `Stickers` | the keystroke editor and the sticker file |

Code that changes things in place is a class or a method over arrays, and is proved to
compute a function on values; the properties are proved of those functions and of runs.

A *legal run* (`GroupSystem.Legal`) lets connections be accepted, served and drained in
any order, under these assumptions about the environment: sends complete and arrive in
order; a connection's first frame is its INIT and INITs are handled in slot order; UIDs
have eight characters and differ; there are at most ten members; a hangup is handled
when at most ten connections are open and every one of them has registered, or when the
leaver is the last registered one; clients do not send group objects or history lines.
The slot order of INITs and the state of registration at a hangup are not chosen for
convenience: `InitAligned` and `HangupAligned` prove that outside them the arrays come
apart. With more than ten connections a hangup touches memory behind the member array. A connection is named by a number that is never reused.

## Where the code falls short of what one would expect

Each of these is proved as an exact condition, and a lemma shows an input or a legal run
that fails.

* A hangup while some connection has not registered misaligns `members` and `pfds`,
  unless the leaver is the last registered member (`GroupSystem.HangupAligned`, reached in
  `FailingRuns.MisaligningHangup`).
* A client resolves the sender of a relayed message correctly exactly when it has
  received some group object; between being accepted and the next broadcast it has none
  (`GroupSystem.RelayedPacketsAreAttributed`, `FailingRuns.EarlyMessageIsUnattributed`).
* A stored message of 1015 characters, or one with a newline inside, does not replay as
  it was saved (`History.HistoryReplays`, `History.LongestMessageSplits`).
* A frame cut inside its payload is noticed only if no payload byte arrived
  (`Framing.TruncatedPayloadNoticed`, which covers every such cut).
* The program's documentation says that `/hangman exit` returns a player to normal
  messaging; it does so only for a player listed at most once (`GroupRuns.ExitLeavesGame`,
  `FailingRuns.ExitKeepsPlaying`).
* A game can be brought to its end if and only if its word is not empty
  (`EndingRuns.ReachableGameCanEnd`, `Hangman.CanEnd`); without an eligible word in the
  file every game of a freshly started server has an empty one (`GameRuns.NoWordsNoWord`,
  `FailingRuns.WordlessGame`).
* A line of the word file longer than 1022 characters counts as several words
  (`WordChoice.LongLineTail`, which covers every such line).
* A sticker does not survive the file if a line of its body is a closing tag or its name
  holds a carriage return, and a body of 2047 characters, which the table can hold, no
  longer fits it with the newline that reloading adds (`Stickers.StickersRoundTrip`,
  `Stickers.ClosingBodyIsLost`, `Stickers.LongestBodyOverflows`). A closing tag in the
  middle of a line counts too if the line buffer happens to end just before it
  (`Stickers.TagAtCutCloses`).
* A plain line longer than 251 characters is refused or reported too long
  (`Registry.PlainLineReachesMsg`).
* A request of 4096 bytes or more is taken for a hangup (`Wire.RequestRoundTrip`).

## Model

| member | source | states |
|---|---|---|
| Framing.NetworkOrder | lmp.c:428 | the length survives the trip through network byte order |
| Framing.FrameLayout | lmp.c:421-433 | which byte of a frame is what, the length with its highest byte first |
| Framing.ReceiveEncoded | lmp.c:436-462 | one encoded frame is received exactly, the buffer gets its terminator, the bytes behind the frame stay on the wire |
| Framing.FramesRoundTrip | lmp.c:421-462 | any concatenation of encoded frames decodes to the same types, senders and payloads; the end of input gives -2 at a frame boundary and -3 inside a header |
| Framing.EncodingInjective | group_server_comms.c:217-231 | different frame lists never have the same bytes |
| Framing.TruncatedPayloadNoticed | lmp.c:455-457 | a cut inside the payload is reported (-5) if and only if no payload byte arrived; otherwise stale buffer content fills the reported payload |
| Framing.StatusExact | lmp.c:436-462 | the status of a receive call for every input, and what it leaves on the wire when it fails |
| Framing.FaultFails | lmp.c:140-163 | a real error before all bytes are there makes the series of reads fail |
| Framing.ReadAll | lmp.c:140-163 | however reads are split or interrupted, n bytes are taken, or all there are at end of file, and nothing else of the buffer changes; -1 exactly when a real error comes first |
| Framing.GroupLmpRecv | group_user_comms.c:144-171 | unless a real error comes first, status, header fields, buffer and remaining bytes are those of the chunking-free receive; if one does, the status is negative |
| Wire.MemberRoundTrip | group.h:10-14 | a member's UID and nickname survive the bytes of its structure, clipped to their fields, whatever lies behind |
| Wire.MemberLayout | group.h:10-14 | where UID and nickname are in the 41 bytes of a member |
| Wire.RequestsByType | group_server_comms.c:280-302 | which type number is which request, and from which bytes a registration is taken |
| Wire.RequestRoundTrip | group_server_comms.c:238-302 | a request arrives at the handler as its client sent it if and only if its payload is shorter than the handler's buffer; a longer one reads as a hangup |
| Wire.RequestsRoundTrip | group_server_comms.c:242-280 | all that a client sends on a connection is handled request by request, the last being its hangup |
| Framing.Receiver | group_user_comms.c:183-197 | the receive loop hands on exactly the frames the bytes decode to, then stops with the status |
| Participants.RemoveFirstCounts | group_server_comms.c:594-617 | a removal lowers the removed UID's multiplicity by one, if it is listed, and no other's |
| Participants.RemoveFirstAt | group_server_comms.c:594-617 | it is the first occurrence that goes, and the order of the rest stays |
| Participants.MultiplicityIsTally | group_server_comms.c:579-645 | over any run of the list each UID occurs as often as it was added less removed with effect since the last free |
| Participants.UserList.AddUser | group_server_comms.c:579-591 | the acyclic heap list gets the UID in front |
| Participants.UserList.RemoveUser | group_server_comms.c:594-617 | exactly the first occurrence is unlinked and the rest keeps its order |
| Participants.UserList.FreeUsers | group_server_comms.c:620-630 | the list is empty afterwards |
| Participants.UserList.UserInList | group_server_comms.c:633-645 | found if and only if the multiplicity is positive |
| Hangman.MissesExact | hangman.c:117-141 | the wrong-letter list holds each guessed letter outside the word once and nothing else |
| Hangman.MissesGrow | hangman.c:117-141 | further guesses only append to it, so it is in first-guess order |
| Hangman.ScoreExtendsHistory | hangman.c:93-142 | on a state shaped by a history, "already guessed" means guessed before, and scoring extends the history by one letter |
| Hangman.GameRefinesHistory | hangman.c:73-194 | after any guesses of an open round the display is the word masked by the letters guessed, the wrong letters and attempts follow from the guesses, and the round is over exactly when the word is out or five letters missed |
| Hangman.RepeatChangesNothing | hangman.c:89-142 | repeats, changes of case and non-letters leave a running round unchanged |
| Hangman.DistanceCountsFreshLetters | hangman.c:107-141 | hidden letters plus attempts left fall by one for each fresh letter and by nothing else |
| Hangman.RoundTerminates | hangman.c:166-194 | a round on any word of d distinct characters is over by its (d+4)-th fresh letter |
| Hangman.TwelveMoreEnd | hangman.c:166-194 | whatever was guessed before, twelve different letters more end a round |
| Hangman.CanEnd | hangman.c:73-76 | a round just opened can be played to its end if and only if its word is not empty |
| Hangman.VerdictsMatchHistory | hangman.c:166-244 | for any word, every reply's verdict read off the guesses ('_' in a word needs no guess); a win and a loss never coincide |
| Hangman.RepliesMatchHistory | hangman.c:166-194 | over a whole round on any word: won if and only if all its letters were guessed, lost if and only if five were missed, and the machine leaves the round exactly then |
| Hangman.GuessedExact | hangman.c:89-91 | a letter counts as guessed in either case, and nothing but the 26 letters does |
| Hangman.ReplyShows | hangman.c:144-244 | every reply shows the word with '_' at the places not guessed up to and including its own guess, a space between any two, the wrong letters so far and how many of five attempts are left |
| Hangman.RoundReplyShows | hangman.c:144-244 | the same over a whole round from its start |
| Hangman.WordlessReply | hangman.c:73-76 | a game without a word answers every guess in the same way and does not change |
| Hangman.ProcessByState | hangman.c:247-267 | in the initial state input opens a round and is not scored; while an answer is being sent it changes nothing |
| WordChoice.ReservoirStep | hangman.c:299-308 | keeping the newest eligible line on draw 0 maintains the choice described by all draws so far |
| WordChoice.WordOfLine | hangman.c:291-297 | the word of a line is the line without its newline |
| WordChoice.EligibleWords | hangman.c:289-309 | the words to choose from are the file's lines of at most seven characters, in order, whether or not the last has its newline |
| WordChoice.LongLineTail | hangman.c:289-309 | what is behind the first 1023 characters of a longer line counts as a line of its own |
| WordChoice.ChoiceIsUniform | hangman.c:289-309 | of the n! ideal draw vectors exactly (n-1)! end with line j, for every line |
| WordChoice.DrawsAreCounted | hangman.c:303 | every series of draws modulo the count is one of the counted vectors |
| WordChoice.DrawsAreAll | hangman.c:303 | and every counted vector comes of some draws |
| HangmanMachine.HangmanFsm.SetRandomWord | hangman.c:270-312 | the reservoir loop leaves the chosen word in its buffer |
| HangmanMachine.HangmanFsm.StartRound | hangman.c:80-87 | the first guess clears display, wrong letters and attempts |
| HangmanMachine.HangmanFsm.FindLetter | hangman.c:95-105 | the scan finds whether the letter is in the word and whether it shows |
| HangmanMachine.HangmanFsm.RevealLetter | hangman.c:107-116 | all places of the letter are uncovered, in bounds |
| HangmanMachine.HangmanFsm.NoteMiss | hangman.c:117-141 | a new wrong letter is appended within the buffer and costs one attempt |
| HangmanMachine.HangmanFsm.MaskedWord | hangman.c:144-153 | the displayed word has a space between any two places |
| HangmanMachine.HangmanFsm.Conclude | hangman.c:155-244 | the branch taken, the reply, and the reset at the end of a round |
| HangmanMachine.HangmanFsm.Update | hangman.c:16-245 | the buffers compute `UpdateHangman` |
| HangmanMachine.HangmanFsm.Process | hangman.c:247-267 | the buffers compute `ProcessHangmanState` |
| HangmanMachine.HangmanFsm.Finish | hangman.c:314-320 | an updating machine goes back to playing |
| History.SaveMessageToHistory | group_server.c:12-48 | a storable message is appended as UID, text and newline although the UID field has no terminator; any other leaves the file alone and reports failure |
| History.SavedExactly | group_server.c:12-48 | a message is stored, as UID, text and newline, if and only if the UID has eight characters and the message at most 1015 |
| History.RecordLines | group_server_comms.c:310-314 | a record is read as one line if and only if UID and message have no newline and the message has at most 1014 characters |
| History.HistoryReplays | group_commands.c:103-108 | a history comes back as saved, each message with its newline, if and only if every record is such a line |
| History.LongestMessageSplits | group_server.c:37-45 | the longest storable message is stored and does not replay |
| GroupServer.HandleKeepsGame | group_server_comms.c:321-433 | between events the machine is never updating, no game means no participants and no round, the busy reply is never sent, and the word changes only with a start |
| PollPass.HandleKeepsPass | group_server_comms.c:264-274 | an event shortens the rest of the pass by one slot, by removal or by moving on |
| PollPass.PassReadsReadyOnce | group_server_comms.c:459-483 | one pass reads the connections ready at its start, each exactly once, and no other |
| PollPass.EachReadyOnce | group_server_comms.c:459-483 | the same of a single connection; one accepted during the pass is not read |
| GroupServerMachine.GroupServerProcess.constructor | group_server_comms.c:534-557 | the server starts with the listener in slot 0 and nothing else |
| GroupServerMachine.GroupServerProcess.AddToPfds | group_server_comms.c:147-162 | a descriptor is appended, the array doubling when full, and nothing else changes |
| GroupServerMachine.GroupServerProcess.DelFromPfds | group_server_comms.c:167-174 | swap-removal in both arrays, as the C indices have it |
| GroupServerMachine.GroupServerProcess.SendToAll | group_server_comms.c:439-450 | one packet to each descriptor outside the skipped ones, in slot order |
| GroupServerMachine.GroupServerProcess.SendNewGroupToUsers | group_server_comms.c:176-196 | the group as it now is, to every connection |
| GroupServerMachine.GroupServerProcess.HandleNewConnection | group_server_comms.c:200-215 | an accepted connection joins the poll array; a failed accept changes nothing |
| GroupServerMachine.GroupServerProcess.HandleHangup | group_server_comms.c:251-275 | removal and broadcast |
| GroupServerMachine.GroupServerProcess.HandleNick | group_server_comms.c:282-291 | the clipped nickname is stored in the sender's slot and broadcast |
| GroupServerMachine.GroupServerProcess.HandleInit | group_server_comms.c:292-302 | the member is appended and broadcast |
| GroupServerMachine.GroupServerProcess.HandleLoad | group_server_comms.c:303-319 | the history's lines in order, then the end marker, to the sender |
| GroupServerMachine.GroupServerProcess.HangmanStart | group_server_comms.c:324-356 | a start opens a game or is told that one is on |
| GroupServerMachine.GroupServerProcess.HangmanExit | group_server_comms.c:357-363 | one listing of the sender is removed and confirmed |
| GroupServerMachine.GroupServerProcess.HangmanJoin | group_server_comms.c:364-376 | during a game the sender is listed and sent the latest text |
| GroupServerMachine.GroupServerProcess.SendReplies | group_server_comms.c:405-425 | the nested list and member loops send what `Replies` says |
| GroupServerMachine.GroupServerProcess.HandleGuess | group_server_comms.c:384-432 | busy, not a letter, or scored, answered and finished |
| GroupServerMachine.GroupServerProcess.HandleChat | group_server_comms.c:378-451 | game input, or stored and relayed |
| GroupServerMachine.GroupServerProcess.HandleClientData | group_server_comms.c:236-454 | one frame is read off the socket, however its bytes arrive, into a buffer of any former content, and `Handle` of what the bytes say is computed on arrays and objects; a read error is a hangup; the bytes behind the frame stay |
| GroupServerMachine.GroupServerProcess.HandleReceived | group_server_comms.c:251-453 | the branches on the status and the `switch` compute `Handle`, and tell the loop where to go on |
| GroupServerMachine.GroupServerProcess.ProcessConnections | group_server_comms.c:459-483 | the loop over the changing array, reading each ready client's own socket, computes `Pass` of what the sockets held at its start: final state, everything sent, descriptors read in order |
| GroupSystem.HangupAligned | group_server_comms.c:167-174 | swap-removal keeps slots and members aligned if and only if all connections have registered or the last registered one leaves |
| GroupSystem.InitAligned | group_server_comms.c:292-302 | a registration from any connection keeps alignment if and only if it comes from the first unregistered slot |
| GroupSystem.NickAligned | group_server_comms.c:282-291 | a nickname change lands at its sender |
| GroupSystem.AcceptAligned | group_server_comms.c:147-162 | an accepted connection joins the unregistered suffix |
| GroupSystem.HandleSends | group_server_comms.c:236-454 | every change of the group is broadcast, nothing else changes it, and relays carry the sender's own slot |
| GroupSystem.SenderIsMember | group_server_comms.c:279 | the array entry of a frame's slot is its true sender |
| Answers.HangupAnswered | group_server_comms.c:251-275 | who moves where in both arrays, what stays, and the group to everybody left |
| Answers.NickAnswered | group_server_comms.c:282-291 | at most 31 characters into the sender's entry, nothing else, and the group to everybody |
| Answers.InitAnswered | group_server_comms.c:292-302 | the member behind the others, nothing else, and the group to everybody |
| Answers.LoadAnswered | group_server_comms.c:303-319 | the history's lines and an end marker to the sender alone, and no change |
| Answers.StartAnswered | group_server_comms.c:324-356 | without a game, the new game, list and text, the sender told one thing and everybody else another; during one, the sender alone told so and no change |
| Answers.ExitAnswered | group_server_comms.c:357-363 | one listing less and the sender alone told |
| Answers.JoinAnswered | group_server_comms.c:364-376 | during a game one listing more and the kept text to the sender alone; without one nothing |
| Answers.UnknownCommandIgnored | group_server_comms.c:321-377 | any other word does nothing |
| Answers.LongGuessRefused | group_server_comms.c:395-400 | a participant's text that is not one character: he alone is told, and no change |
| Answers.EarlyGuessRefused | group_server_comms.c:387-393 | one that meets the game answering: he alone is told to wait, and no change |
| Answers.ChatAnswered | group_server_comms.c:434-451 | any other chat: what the history is then, and the relay once to everybody else |
| Answers.OtherAnswered | group_server_comms.c:438-451 | a frame of another type: relayed once to everybody else, and no change |
| GroupSystem.StepKeepsInvariant | group_server_comms.c:236-454 | every legal event keeps alignment, distinct UIDs, the game invariant, and for each client that all packets on its way will resolve and that draining them gives the server's group |
| GroupSystem.ReachableIsAligned | group_server_comms.c:147-174 | in every reachable state the listener is slot 0, the first member_count connections are exactly the registered ones with their own entries, and the game invariant holds |
| GroupSystem.RelayedPacketsAreAttributed | group_user_comms.c:185-194 | in every legal run a client resolves a relayed packet to the UID and nickname its real sender had when it was relayed, if and only if the client has received a group object |
| GroupSystem.DrainedViewIsCurrent | group_commands.c:24-37 | a registered client that takes in all that is on its way ends with the server's group |
| GroupRuns.ChatRelayedOnce | group_server_comms.c:438-451 | a chat message outside the game goes once to every other connection and not to its sender |
| GroupRuns.GameInputStaysInGame | group_server_comms.c:382-433 | a participant's message during a game is neither stored nor relayed |
| GroupRuns.RepliesPerListing | group_server_comms.c:405-425 | each connection gets the reply as often as its member is listed, unregistered ones and the listener never, and nothing goes elsewhere |
| GroupRuns.GuessAnswered | group_server_comms.c:402-431 | the same for a guess as a whole: the reply shows the game after all guesses up to this one, it is the text kept for joiners, the list is emptied when the round is over, and nothing else changes |
| GroupRuns.ExitLeavesGame | group_server_comms.c:357-363 | an exit ends its sender's part in the game if and only if he was listed at most once, and nobody else's |
| GroupRuns.HistoryGrowsByStored | group_server_comms.c:378-437 | over any legal run the history grows by exactly the storable chats not consumed as game input, in order, under their true senders |
| GroupRuns.LoadReplaysRun | group_server_comms.c:303-319 | a load in any legal run, of a server opened on any earlier records, gives its sender alone all that is stored, read back as stored if and only if every record is one line with a message of at most 1014 characters |
| GameRuns.GameFollowsGuesses | group_server_comms.c:382-432 | whatever else happens in a run, the server's game is the fresh game after exactly the participants' letters, on the word drawn at its start, and the text kept for joiners is the reply to the latest guess, or the start notice before there is one |
| GameRuns.JoinerSeesLatest | group_server_comms.c:364-371 | who joins at any later point of the round is shown that text, he alone, and is playing; it names the latest guesser and letter and shows the game as it is |
| GameRuns.WordlessGameNeverEnds | hangman.c:73-76 | a game without a word stays as it is in every run |
| GameRuns.NoWordsNoWord | hangman.c:289-309 | with no eligible word in the file the word never changes in any run |
| GameRuns.PlayersFollowRequests | group_server_comms.c:321-431 | over any legal run the participant list is what starts, joins, exits and round ends make it, so each UID's listings equal its tally |
| GameRuns.StartOpensRound | group_server_comms.c:324-348 | a start opens a round on one of the word file's lines of at most seven characters, or the old word if there is none, is announced to each connection once, and the round can be played to its end if and only if the word is not empty |
| EndingRuns.ReachableGameCanEnd | group_server_comms.c:364-431 | in every reachable state with a game on, some legal run of accepting, registering, joining and guessing brings it to its end if and only if its word is not empty |
| PassRuns.PassIsRun | group_server_comms.c:459-483 | a pass of the poll loop is a legal run, and each client's channel gets exactly the packets the loop sent to it, in order, so the theorems over runs hold of the program's loop |
| PassRuns.PolledThenRead | group_server_comms.c:558-575 | the connections `poll` reports ready are read in the pass that follows, each once, and no other |
| FailingRuns.MisaligningHangup | group_server_comms.c:167-174 | a reachable, aligned state and a hangup after which the registered client is connected and not counted |
| FailingRuns.EarlyMessageIsUnattributed | group_user_comms.c:185-189 | a legal run in which a client resolves a sender to nobody |
| FailingRuns.ExitKeepsPlaying | group_server_comms.c:357-363 | a legal run that starts, joins and exits, after which the player is still in the game |
| FailingRuns.WordlessGame | hangman.c:270-312 | without an eligible word, a legal run that starts a game no run ends |
| GroupDelivery.StepDelivers | group_server_comms.c:378-451 | one event adds to a client's channel exactly the relays it is due, and consuming takes the first |
| GroupDelivery.ChatDelivered | group_server_comms.c:438-451 | over any legal run a client hears every other connection's non-game message handled while it is connected exactly once, in handling order, under its true sender |
| GroupClient.NameIsCurrent | group_commands.c:110-125 | with distinct UIDs a loaded message is shown under its author's current nickname |
| GroupClient.OtherNames | group_commands.c:101-118 | one's own messages are shown as one's own, those of nobody in the group as unknown |
| GroupClient.ClientProcess.GrpObjRecv | group_commands.c:24-37 | the group copy is replaced; the first one welcomes |
| GroupClient.ClientProcess.LoadMsgSend | group_commands.c:60-77 | a request goes out exactly from the idle state |
| GroupClient.ClientProcess.LoadMsgRecv | group_commands.c:79-86 | the end marker leads to the idle state |
| GroupClient.ClientProcess.LoadingMsgRecv | group_commands.c:88-130 | a line is refused when idle, else shown under the name its UID resolves to |
| GroupClient.ClientProcess.ReceivePacket | group_user_comms.c:183-197 | the client's group copy follows `Receive`, and a relayed packet is shown under the entry of its slot |
| LoadProtocol.StepKeepsInvariant | group_commands.c:60-101 | each single read, write, send or receive keeps the accounting of requests, markers and lines |
| LoadProtocol.LoadsAreSafe | group_commands.c:60-101 | under every interleaving at most one load is in flight and none when idle, no line is unexpected, no marker ignored, and every finished load showed the whole reply |
| LoadProtocol.ServiceStep | group_commands.c:79-101 | a reply is under way from its request's being taken up to its end marker's being accepted, one at a time, and a finished load records that reply |
| LoadProgress.IdleLoadIsSent | group_commands.c:60-77 | /load typed in the idle state, undisturbed: its five steps set the state and send the request |
| LoadProgress.BusyLoadIsRefused | group_commands.c:62-71 | at any other time it changes nothing |
| LoadProgress.LineHandled | group_commands.c:88-101 | a line taken in, undisturbed: refused when idle, otherwise shown and the state loading |
| LoadProgress.EndHandled | group_commands.c:79-86 | an end marker taken in, undisturbed: the load finished and the state idle |
| LoadProgress.RequestAnswered | group_server_comms.c:303-319 | a request taken up is answered by all lines of the history and an end marker |
| LoadProgress.IdleCanBeReached | group_commands.c:60-101 | from every reachable state some interleaving brings the client back to the idle state with nothing on its way |
| LoadProgress.LoadCanFinish | group_commands.c:60-101 | in every reachable state in which the client is idle, a load can be asked for and, whatever the history, finished with exactly all of it shown |
| JointProgress.RegisteredLoadCanFinish | group_server_comms.c:303-319 | the same in the group chat as a whole, for any registered client and the history as it is, the server staying as it was |
| LoadRuns.FinishedLoadsShowStored | group_server_comms.c:303-319 | in any legal run, of a server opened on any earlier records, joined with every interleaving of the client's threads, its k-th finished load showed the lines of exactly what was stored when its k-th request was taken up, which split into the stored entries if and only if each is one line |
| LoadQueue.LoadsShareOneQueue | group_server_comms.c:310-318 | the lines and end markers on the client's channel are, in order, those its session has yet to receive, and what it takes in is the same in both |
| LoadRuns.GroupPartIsRun | group_server_comms.c:303-319 | leaving the client's own steps out gives a legal run that stores the same |
| Registry.RegisteredDistinct | lmp.c:60-85 | after any registrations codes and names are pairwise distinct within 32 entries |
| Registry.RegisterExactly | lmp.c:34-86 | exactly which registrations are accepted, and that a refused one leaves the table as it was |
| Registry.AllAccepted | lmp.c:34-86 | registrations that do not clash are all accepted, in order |
| Registry.LookupsAgree | lmp.c:113-136 | sending by an entry's name and receiving by its code reach that entry |
| Registry.OrderIrrelevant | lmp.c:113-136 | dispatch does not depend on the order of registration |
| Registry.PlainLineReachesMsg | group_user_comms.c:256-270 | a plain line reaches the msg handler byte for byte if and only if it has at most 251 characters |
| Registry.LongPlainLine | group_user_comms.c:256-270 | a longer one is refused by dispatch, from 1019 characters on reported too long |
| Registry.CommandTokens | lmp.c:102-111 | the name and the arguments of a command line, blanks kept as they are |
| Registry.CommandReachesHandler | lmp.c:88-123 | for every command line: the handler with its code and the arguments as typed, or which error |
| Registry.BlankLineUnrecognized | lmp.c:102-105 | a line of blanks is not recognized |
| Registry.FrameReachesHandler | lmp.c:125-138 | for every code: the handler with the payload, or which error |
| Registry.ProgramTable | commands_registry.c:8-16 | none of the program's thirteen registrations is refused, and plain lines go out as LMP_MSG |
| Registry.CommandTable.RegisterCommand | lmp.c:34-86 | the table becomes `Register` of it, duplicates and overlong names refused |
| Registry.CommandTable.DispatchSend | lmp.c:88-123 | the handler called, its code and its arguments, or the error |
| Registry.CommandTable.DispatchRecv | lmp.c:125-138 | the handler called for a code, or the error |
| Registry.StrTok | lmp.c:102-111 | cutting the copied line in place yields its first word and all behind the one space after it |
| Registry.PrefixPlainLine | group_user_comms.c:256-268 | shifting the line in its buffer puts the prefix in front of it unchanged, or reports it too long |
| StickerEditor.EraseUndoes | sticker_commands.c:60-69 | typing and erasing a character changes nothing |
| StickerEditor.EraseUndoesInside | sticker_commands.c:60-69 | ... whatever is typed before and afterwards |
| StickerEditor.EraseOfNothing | sticker_commands.c:60-69 | an erasing key does nothing when there is nothing to erase |
| StickerEditor.SpecialKeys | sticker_commands.c:57-61 | which keys erase and which end the text |
| StickerEditor.PlainKeys | sticker_commands.c:79-80 | keys that erase nothing spell themselves out |
| StickerEditor.Append | sticker_commands.c:71-80 | a character is appended with its terminator, in a doubled buffer if need be |
| StickerEditor.ReadMultilineOverlay | sticker_commands.c:38-91 | the buffer holds the stack reduction of the keys before ESC or end of input, terminated, within a capacity doubled from 1024 |
| Stickers.KeptStickerParses | sticker_commands.c:103-115 | a printed sticker without a closing line and carriage return comes back with one newline more and the rest of the file as without it |
| Stickers.UncleanStickerCut | sticker_commands.c:109-112 | a closing line inside a body cuts the sticker there |
| Stickers.CleanExactly | sticker_commands.c:109 | a body of lines of at most 510 characters is kept if and only if none of them is the closing tag |
| Stickers.TagAtCutCloses | sticker_commands.c:96-109 | a tag behind 511 other characters of a line closes the sticker |
| Stickers.NameEndsAtReturn | sticker_commands.c:106 | a name is cut at its first carriage return |
| Stickers.StrayTextSkipped | sticker_commands.c:102-103 | text between stickers without an opening line is passed over |
| Stickers.LastTagWithoutNewline | sticker_commands.c:109 | the last closing tag may lack its newline |
| Stickers.PrintedAs | sticker_commands.c:119-129 | the file's text for one sticker |
| Stickers.FileRoundTrip | sticker_commands.c:93-129 | as far as the file's text goes, stickers are recovered, one newline added to each body, if and only if all are such stickers |
| Stickers.ReloadedFits | sticker_commands.c:107-110 | stickers created in the table fit it again after reloading if and only if every body is at most 2046 characters long |
| Stickers.TableLimits | sticker_commands.c:11-21 | 64 entries, names of 31 and bodies of 2047 characters |
| Stickers.StickersRoundTrip | sticker_commands.c:93-129 | up to 64 stickers as created are recovered in the table if and only if both conditions hold |
| Stickers.LongestBodyOverflows | sticker_commands.c:110 | a body of 2047 characters is created and parsed back, and does not fit the table |
| Stickers.ClosingBodyIsLost | sticker_commands.c:109-112 | a body that is a closing tag comes back empty |
| Stickers.NoTagIsClean | sticker_commands.c:109 | a body without the closing tag anywhere is safe however long its lines |
| Stickers.StickerTable.LoadStickers | sticker_commands.c:93-117 | from any file: whether the loops end inside the table, and if so that it then holds what the file parses to |
| Stickers.StickerTable.CreateSticker | sticker_commands.c:141-154 | a known name changes nothing; a new sticker is appended to table and file if name, text and table leave room, and the result says whether the C code stays inside the table |
| Stickers.StickerTable.GetSticker | sticker_commands.c:131-139 | the body of the first sticker with the name, or none |

## Left out

- Socket set-up, UDP discovery, peer-to-peer role negotiation (`comms.c`, `main.c`, `gclient.c`, `gserver.c`): operating-system calls and timing.
- Failed or partial sends, failed allocation, failed file opening: faults of the environment. `accept` failing is modelled.
- Bytes of the group object: a group travels as a value. An INIT is modelled in bytes (`Wire`), except that a field without its terminator ends at its size.
- Wording of prompts, notices and ASCII art: replies carry their branch and their numbers. Sizes of the formatted reply buffers are not checked.
- Events outside legal runs that write past the ten-member array (an eleventh INIT, a frame from slot eleven): `GroupServer.InBounds` marks where the C code is defined.
- The group's own name and UID (`GroupInfo`): constant parts of every group object, set once at start-up.
- User-typed `/grpobj`: a client-originated group object would replace other clients' groups; legal runs exclude it.
- Client-to-server channels: the server may be handed any legal frame at any time, which covers every order in which queued frames can arrive.
- What the C code does once it writes past its sticker table, or appends the last line of a file cut inside an entry for ever: `LoadStickers` and `CreateSticker` report that it happens, and the table is unspecified then.
- NUL characters in a sticker file.
- A history line shorter than a UID (the tail of an overlong record): the client shows bytes left behind it; `History.Parse` takes them as empty.
- The sticker path, which `load_stickers` builds by changing the shared directory buffer: the file is one fixed sequence of characters.
- The P2P chat loop, `base_commands.c`, `uid.c`, `user_manager.c`, `meow_commands.c`, `directory_manager.c`: easy members.
- HangmanMachine.HangmanFsm.SetRandomWord: does not model an unreadable word file, or `srand`; `rand()` results are an input.
- LoadProtocol.LoadsAreSafe: does not model memory reordering of the unsynchronised variable, which the C standard leaves undefined; reads and writes are interleaved in program order.
