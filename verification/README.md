# Protocol models for go-protocols

This project models the stateful halves and the codecs of four protocol libraries, IRC, BitTorrent,
SFTP and FTP, and proves what they promise each other. `dafny verify dfyconfig.toml` checks all of it.

Code that works by changing things is modelled the same way: classes with fields, methods with loops,
arrays where the program has buffers. Each such method is proved against a function of its inputs or
of the old state, and the properties are proved about that function. Protocols between two parties
or several goroutines are state machines; their properties hold over every run.

What each group of files proves, hardest first:

- **Capability negotiation** (`CapList`, `CapClient`, `CapServer`, `CapSession`, `CapProgress`,
  `CapRegistration`, `CapHandlers`): an IRC client and server over FIFO links, with SASL, for every
  configuration and interleaving. The session is never registered before the server has processed
  the one CAP END the client sends; the two sides agree on the enabled set whenever no CAP message
  is in flight; the negotiation never gets stuck, every delivery brings its end nearer, and every
  fair infinite run reaches it; the one configuration in which the client panics is characterised
  exactly, and so is when a session is registered in the end.
- **Output queue** (`OutputQueue`, `QueueProgress`, `SessionWriter`): any number of threads
  appending, signalling and flushing against one writer. No wake-up is lost, bytes are accounted,
  lines leave in order, and a closed flush marker means everything accepted before it is on the
  wire. In every fair infinite run whatever is accepted is written while others keep appending, or
  the writer is gone.
- **Bencode** (`Bencode`, `BencodeGrammar`, `InfoHash`, `BencodeCodec`): round trip with any suffix;
  a grammar of what the lenient decoder reads, and of exactly the unfinished inputs on which it
  panics; an independent strict grammar accepts exactly the encodings, which are exactly the inputs
  that re-encode to themselves; for every torrent file, exactly when the bytes hashed as its info
  dictionary are the file's own.
- **IRC message** (`IrcMessage`, `IrcMessageCodec`): a message survives formatting and parsing, in
  every tag order, if and only if it is well formed.
- **Channel modes** (`Modes`, `ModeReplica`, `ModeBroadcast`, `ModeHandlers`): for every received
  MODE line, exactly when a replica that parses the broadcast line, with the tags it gets, ends in
  the server's state.
- **Chat history** (`ChatHistory`, `HistorySelectors`, `HistoryPaging`, `HistoryGrowth`): every
  request as a slice of the history by positions and times; paging in either direction
  yields every entry once and in order; BETWEEN is symmetric; AROUND is as full as it can be; over a
  history that grows and is trimmed, exactly when a client that catches up loses entries.
- **SASL framing** (`Sasl`): exactly which payloads are reassembled, and what decides a login.
- **SFTP listing** (`SftpWire`, `SftpServer`, `SftpClient`): OPENDIR, READDIR and CLOSE end to end
  over the wire format, with the server's handle table.
- **Labelled responses** (`LabeledResponse`), **bouncer history** (`RingBuffer`, `HistoryStore`),
  **FTP paths** (`FtpPath`), **piece assembly** (`PieceAssembly`) and **bitfields** (`Bitfield`).

`Text` and `Bytes` hold the Go string and byte functions the others use.

Where a promised property is false of the code, the model keeps the code, shows an input, and states
exactly when the property holds:

- The bencode decoder panics on a length `make` refuses, at `Bencode.LenientInputs` for one:
  `BencodeGrammar.PanicsIff` says on which inputs, `BencodeGrammar.SafeLengths` what a caller can
  check.
- The bytes hashed for an info dictionary are not always those in the file, at
  `InfoHash.LenientInfo`: `InfoHash.InfoBytesPreserved`.
- An argument that ends in a carriage return reaches a mode replica without it, at
  `ModeBroadcast.StrayReturnDiverges`: `ModeBroadcast.ReplicaAgreesOnWire`.
- Two networks can share a history key, at `HistoryStore.KeysCollide`: `HistoryStore.MeetIff` and
  `HistoryStore.NoInterferenceIff`.
- The SFTP server crashes on READDIR with a short file handle: `SftpServer.PanicsIff` and
  `SftpServer.NeverPanicsIff`. The file system backend in the repository names its handles h1, h2
  and so on, so each of its first 99 is one: OPEN and then READDIR on that handle ends the server
  (`SftpServer.ShippedBackendCrashes`).
- The SFTP client panics instead of reporting a lost link when a directory listing does not fit a
  packet, as at `SftpClient.CrowdedRootPanics` and with any 1398101 entries:
  `SftpClient.ListingPanicsIff`.
- An SFTP time before 1970 comes back as one after 2100, at `SftpWire.EarlyTimeLost`:
  `SftpWire.AttrSurvivesIff`.
- A client of version 302 that gives up cap-notify is told so and still gets notified, at
  `CapServer.NotifyKept`: `CapServer.GrantMeaning`.
- The IRC client panics on SASL asked for by name, at `CapProgress.PanicExample`:
  `CapSession.PanicsIff`.
- A client that asks AFTER an id the server has dropped is told that nothing is left, at
  `HistoryGrowth.FirstRequestLoses`: `HistoryGrowth.CatchUpGrowing` and `HistoryGrowth.LosesIff`.
- A block stored twice counts twice, at `PieceAssembly.DuplicateCompletes`:
  `PieceAssembly.CompleteTrueIff`.

Three more are facts about the functions alone, which the handlers do not reach.
`Modes.EmptyArgumentDiverges`: no parsed line has an empty argument before the last, by
`ModeBroadcast.ParsedParams`. `LabeledResponse.InnerBatchLost`: only the history answer sets a batch tag,
and it sends its opener first, which `LabeledResponse.HistoryOneBatch` covers.
`HistoryPaging.LoneReferencePanics`: the server and the bouncer insist on two references for BETWEEN;
`HistoryPaging.SelectPanicsIff` is the function's exact condition.

Inputs to the models: clocks, random batch identifiers, map iteration orders (any order), password
and account checks, SASL mechanism answers, the SFTP backend's answers, FTP authentication and stat.

## Model

| member | source | states |
|---|---|---|
| CapSession.Negotiation | irc/server/handlers.go:254-380 | after any run of client and server over their links: at most one CAP END was sent; a registered session means the server has seen it; with no CAP message in flight both sides have the same capabilities enabled; a client that is done holds, and so does the server, exactly cap-notify and what the client likes and the server offers, sasl only with the mechanism PLAIN, and cap-notify alone when the client likes an sts policy that is offered |
| CapSession.AuthenticatesIff | irc/client/client.go:385-417 | in every run the client begins an exchange at most once, and once it is done exactly when sasl is held |
| CapSession.NeverStuck | irc/client/client.go:347-452 | when nothing of the negotiation is in flight the client is done and the server has left the negotiation, unless the client has panicked |
| CapProgress.DeliveryDecreases | irc/client/client.go:347-452 | every delivery of a message of the negotiation, to either side, decreases a measure on the stage and what is in flight; no other step changes it |
| CapProgress.FairRunEnds | irc/server/handlers.go:254-466 | every infinite run in which each side keeps reading reaches a point from which the negotiation is over for good, with the client crashed exactly in the panicking configurations |
| CapRegistration.RegisteredIff | irc/server/handlers.go:165-294 | in every fair run without a dispute about the nick the session is registered from some point on exactly when the nick is valid, the cleaned user name is not empty and the client does not panic |
| CapRegistration.RegisteredOnlyIf | irc/server/handlers.go:240-294 | at no moment of such a run, fair or not, is it registered otherwise, and then under the names sent |
| CapRegistration.TildeNeverRegisters | irc/server/handlers.go:240-294 | a user name of one tilde is never registered |
| CapRegistration.WelcomeTaken | irc/server/handlers.go:254-294 | exactly when a session registers, and that the client takes the nick it is welcomed under |
| CapRegistration.RefusalRetried | irc/server/handlers.go:165-181 | a nick that is taken is refused in a way the client answers with another |
| CapRegistration.ValidNickTravels | irc/server/handlers.go:1861-1880 | a valid nick has up to thirty characters and survives a line as a parameter and as a source |
| CapRegistration.LettersValid | irc/server/handlers.go:1861-1880 | one to thirty letters make a valid nick, and a digit in front of them does not |
| CapSession.CrashOnlyIf | irc/client/client.go:541-594 | the client panics only when SASL is wished for without a mechanism and offered with a value; there it sends no CAP END, the session is never registered, and with nothing in flight it has panicked |
| CapSession.PanicsIff | irc/client/client.go:541-594 | building the request list panics in exactly those configurations |
| CapProgress.PanicRun | irc/client/client.go:541-594 | in each of those configurations some run crashes the client |
| CapProgress.PanicExample | irc/client/client.go:541-594 | one such configuration and its run: a client that lists sasl among its wishes and sets no mechanism |
| CapProgress.PanicReached | irc/client/client.go:541-594 | and every fair run does |
| CapSession.RunKeepsInv | irc/server/handlers.go:300-466 | every run stays in one of the stages of the negotiation, each of which fixes both sides' state and what is in flight |
| CapClient.WantMeaning | irc/client/client.go:541-594 | the request list is exactly the wished-for capabilities that are offered and not enabled, each once, or a panic in exactly one case |
| CapSession.WantIff | irc/client/client.go:541-594 | the request list by the two configurations alone: defaults that are not off, sasl with a mechanism, and what is requested, as far as they are offered |
| CapClient.OfferedMeaning | irc/client/client.go:579-588 | what is advertised is offered, but for sasl with a value that does not list the mechanism |
| CapClient.NewMeaning | irc/client/client.go:424-443 | what a client makes of CAP NEW: it notes the names and asks for those it wishes for and does not have, or panics in exactly one case |
| CapClient.DelMeaning | irc/client/client.go:445-451 | after CAP DEL those names, and no others, are neither advertised nor enabled |
| CapClient.AbortTold | irc/client/client.go:454-500 | a chunk the client cannot use ends the exchange on both sides |
| CapClient.SaslEndMeaning | irc/client/client.go:502-516 | however an exchange ends, nothing is left in hand and the negotiation is over |
| CapClient.ClientStepFacts | irc/client/client.go:347-538 | for any message from any server: at most one CAP END; the done phase is left only on a complete list; in the SASL phase CAP END only on a final numeric or a complete list |
| CapClient.DoneStaysQuiet | irc/client/client.go:353-452 | a client that is done sends no CAP END until a complete list, whatever the server sends |
| CapClient.OneEndPerList | irc/client/client.go:353-452 | between two complete lists at most one CAP END is sent, whatever the server sends |
| CapList.GroupsConcatenate | irc/server/handlers.go:577-604 | the lines of a list reply put together are the list |
| CapList.GroupsObey | irc/server/handlers.go:577-604 | every line is within the limit or holds one oversized entry |
| CapList.GreedyIsOptimal | irc/server/handlers.go:577-604 | no cut into lines that obey the limit has fewer lines |
| CapList.ReplyShape | irc/server/handlers.go:577-604 | there is at least one line and only the last lacks the continuation mark |
| CapList.JoinLength | irc/server/handlers.go:584-588 | the weight that is compared with the limit is the length of the line plus one |
| CapList.SendList | irc/server/handlers.go:577-604 | the loop sends exactly those lines |
| CapList.CountFitting | irc/server/handlers.go:584-588 | the inner loop finds the longest prefix that fits |
| CapList.MergeReply | irc/client/client.go:354-383 | merging the lines is merging the tokens they were made from |
| CapList.MergeRestoresTable | irc/client/client.go:354-383 | whatever the listing order, merging the reply into an empty table gives exactly the server's names and values |
| CapServer.SupportedClean | irc/server/server.go:1106-1142 | every advertised name and value passes unchanged through list and request lines |
| CapServer.SupportedSasl | irc/server/server.go:1106-1142 | sasl is advertised exactly on a secure connection with accounts, with the value PLAIN |
| CapServer.SupportedValues | irc/server/server.go:1106-1142 | only sasl and sts are advertised with a value |
| CapServer.GrantMeaning | irc/server/handlers.go:345-367 | after a granted request the last mention of a name decides, with a minus against it; cap-notify cannot be given up at version 302; what is not mentioned stays |
| CapServer.AckFollowsGrant | irc/server/handlers.go:345-367 | the client's reading of an acknowledgement follows the server's grant of the same words, for every name but cap-notify |
| CapServer.NotifyKept | irc/server/handlers.go:358-364 | giving up cap-notify is acknowledged at version 302 and not done |
| CapServer.RequestMeaning | irc/server/handlers.go:345-367 | a request is granted exactly when every name in it is supported and none is sts; the answer repeats it; a refused one changes nothing |
| CapServer.EndMeaning | irc/server/handlers.go:368-376 | CAP END leaves no exchange under way, tells about one that was, and registers exactly when nick and user are there |
| CapServer.CleanUsernameMeaning | irc/server/handlers.go:240-252 | a user name without one leading tilde, at most ten characters of it |
| CapHandlers.Conn.CapWantList | irc/client/client.go:541-594 | the loop computes the request list, or panics exactly when the function says |
| CapHandlers.Conn.HandleList | irc/client/client.go:354-383 | state and messages sent after a list line |
| CapHandlers.Conn.HandleAck | irc/client/client.go:385-417 | state and messages sent after an acknowledgement |
| CapHandlers.Conn.HandleCap | irc/client/client.go:347-452 | state and messages sent after any CAP message |
| CapHandlers.Conn.HandleAuthenticate | irc/client/client.go:454-500 | challenge collection and the chunks answered |
| CapHandlers.Conn.HandleSaslEnd | irc/client/client.go:502-516 | the exchange ends and so does the negotiation |
| CapHandlers.Peer.Register | irc/server/handlers.go:254-294 | registration happens only outside the negotiation with a nick and a user |
| CapHandlers.Peer.OnNick | irc/server/handlers.go:165-181 | nick and replies after a NICK, and registration tried |
| CapHandlers.Peer.OnUser | irc/server/handlers.go:240-252 | user name and replies after a USER, and registration tried |
| CapHandlers.Peer.OnList | irc/server/handlers.go:314-334 | version, capabilities and the lines sent for CAP LS |
| CapHandlers.Peer.OnRequest | irc/server/handlers.go:345-367 | a request is granted or refused as a whole |
| CapHandlers.Peer.OnEnd | irc/server/handlers.go:368-376 | an open exchange is aborted, then registration is tried |
| CapHandlers.Peer.OnAuthenticate | irc/server/handlers.go:384-466 | one AUTHENTICATE message of the exchange |
| CapHandlers.Peer.SendCapList | irc/server/handlers.go:577-604 | the list goes out as the lines of the reply, addressed to the session |
| OutputQueue.QueueSafe | irc/server/server.go:320-386 | in every run: the byte count is the size of the queue and within the limit; what is written is a prefix of what was accepted, which on an unbroken connection is everything offered, in order; a non-empty queue has a token, a pending signal or a busy writer; a closed marker has everything before it written |
| OutputQueue.NoneTurnedAway | irc/server/server.go:357-374 | from any state, while the connection is not broken, the accepted lines are the lines offered, in order |
| OutputQueue.RunKeepsInv | irc/server/server.go:320-374 | every run keeps accounting, order, attendance and markers |
| OutputQueue.MarkerAccepted | irc/server/server.go:357-386 | a flush marker is never refused for overflow |
| OutputQueue.QuiescentDone | irc/server/server.go:320-374 | with no step left to take the queue is empty, every accepted line is written and every flush can return |
| OutputQueue.FlushReturns | irc/server/server.go:376-386 | a flush returns only when everything accepted before it has been written, or the writer is gone |
| OutputQueue.WriterDrains | irc/server/server.go:320-355 | left alone after the last signal the writer empties the queue, without any further wake-up |
| QueueProgress.StepProgress | irc/server/server.go:320-374 | a measure of the way to an accepted item that no step raises; the writer's steps lower it, and a signal when the writer sleeps without a token |
| QueueProgress.EventuallyWritten | irc/server/server.go:320-386 | in every infinite run in which the writer moves when it can and appended items are signalled, everything accepted by a moment is on the wire in order from some point on and every flush begun by then has its marker closed, or the writer is gone |
| SessionWriter.Session.AppendItem | irc/server/server.go:357-374 | the locked section of enqueue is the model's append step |
| SessionWriter.Session.EnqueueLine | irc/server/server.go:357-374 | sending a line is the append step of the machine, refused exactly on overflow; the signal is a step of its own |
| SessionWriter.Session.EnqueueMarker | irc/server/server.go:357-386 | a flush begins with the append step for its marker, which is never refused |
| SessionWriter.Session.SignalWriter | irc/server/server.go:357-374 | the non-blocking send on the wake channel is the signal step, and a token that is there stays |
| SessionWriter.Session.NextItem | irc/server/server.go:325-334 | the writer takes the oldest item, or goes idle |
| SessionWriter.Session.DrainOnce | irc/server/server.go:320-355 | one wake-up of the writer loop is a run of the machine that empties the queue or loses the connection |
| Bencode.RoundTrip | torrent/bencode/bencode.go:34-188 | decoding an encoded value with anything behind it gives the value and leaves exactly that |
| Bencode.EncodeInjective | torrent/bencode/bencode.go:135-188 | encodings determine their values, even in a longer stream |
| Bencode.DecodeRepresentable | torrent/bencode/bencode.go:34-131 | whatever is decoded can be encoded |
| Bencode.ScanSound | torrent/bencode/bencode.go:34-188 | what the strict grammar accepts decodes, and re-encodes to the same bytes |
| Bencode.ScanComplete | torrent/bencode/bencode.go:135-188 | the strict grammar accepts every encoding |
| Bencode.CanonicalIffEncoding | torrent/bencode/bencode.go:135-188 | the canonical inputs are exactly the encodings of values |
| Bencode.CanonicalIffReencodes | torrent/bencode/bencode.go:34-188 | they are exactly the inputs that decode completely and re-encode to themselves |
| InfoHash.InfoBytesPreserved | torrent/metainfo/metainfo.go:104-137 | for every file that is hashed: where its last info entry stands, and that the bytes hashed are that text if and only if it is canonical, whatever else the file holds |
| InfoHash.InfoOutcome | torrent/metainfo/metainfo.go:104-137 | for every file that decodes, what is hashed or which error is returned: in a dictionary its last info entry alone decides, and nothing behind the value matters |
| InfoHash.HashedIff | torrent/metainfo/metainfo.go:104-137 | something is hashed exactly for a dictionary whose last info entry is one |
| InfoHash.CanonicalFile | torrent/metainfo/metainfo.go:127-137 | for a canonical file, with anything behind it, the bytes hashed are the file's own |
| InfoHash.LenientInfo | torrent/metainfo/metainfo.go:127-137 | a file of 17 bytes whose info holds a leading zero, and the other bytes that are hashed |
| Bencode.LenientInputs | torrent/bencode/bencode.go:55-87 | two inputs: a leading zero is read but not reproduced, and a negative key length makes the allocation panic |
| BencodeGrammar.AcceptsIff | torrent/bencode/bencode.go:34-131 | an input decodes to a value and a rest exactly when a syntax tree with that meaning is spelt at its front |
| BencodeGrammar.PanicsIff | torrent/bencode/bencode.go:72-131 | decoding panics with a length exactly when it is negative or beyond the allocation limit and stands where an unfinished input awaits a key or a value, by a grammar of unfinished inputs |
| BencodeGrammar.NegativeIsKey | torrent/bencode/bencode.go:110-131 | a negative length is only ever read as a key and is spelt with a minus sign |
| BencodeGrammar.SafeLengths | torrent/bencode/bencode.go:72-87 | an input in which every numeral right before a colon is an allocatable length never panics |
| BencodeGrammar.DashAfterMark | torrent/bencode/bencode.go:110-131 | that every minus sign follows an i is not enough: an input of ten bytes |
| BencodeCodec.ReadValue | torrent/bencode/bencode.go:34-52 | the reader-based decoder returns what the function says, the panic of make included, and leaves the reader at the rest |
| BencodeCodec.ReadInt | torrent/bencode/bencode.go:55-69 | the same for integers |
| BencodeCodec.ReadText | torrent/bencode/bencode.go:72-87 | the same for byte strings, for any allocation limit |
| BencodeCodec.ReadList | torrent/bencode/bencode.go:90-107 | the same for lists, by a loop |
| BencodeCodec.ReadDict | torrent/bencode/bencode.go:110-131 | the same for dictionaries, by a loop |
| BencodeCodec.SortKeys | torrent/bencode/bencode.go:170-174 | the keys in ascending order |
| BencodeCodec.Write | torrent/bencode/bencode.go:135-188 | the encoder appends exactly the encoding |
| IrcMessage.SurvivesIffWellFormed | irc/irc/message.go:119-226 | for every tag order, a message comes back from its line unchanged if and only if it is well formed |
| IrcMessage.FormatThenParse | irc/irc/message.go:119-226 | a well-formed message comes back, in any tag order |
| IrcMessage.UnescapeEscape | irc/irc/message.go:269-304 | every tag value survives escaping |
| IrcMessage.ParseFormatPrefix | irc/irc/message.go:239-251 | a good prefix survives |
| IrcMessage.ParseFormatTags | irc/irc/message.go:253-266 | a tag section in any order reads back as its tags, but for an empty key without a value |
| IrcMessage.ParseBodyImage | irc/irc/message.go:148-173 | of parsed parameters only the last can be empty, hold a space or start with a colon |
| IrcMessageCodec.UnescapeTag | irc/irc/message.go:279-304 | the loop computes the unescaped value |
| IrcMessageCodec.ReadTags | irc/irc/message.go:253-266 | the loop computes the tag map |
| IrcMessageCodec.ReadParams | irc/irc/message.go:153-167 | the loop over the shrinking text computes the parameters |
| IrcMessageCodec.ReadMessage | irc/irc/message.go:119-176 | the parser computes the message or the error of the function |
| IrcMessageCodec.WriteTagSection | irc/irc/message.go:183-203 | the tag section lists every tag once, in some order |
| IrcMessageCodec.WriteTags | irc/irc/message.go:183-203 | each pass appends the tags of one kind, so server tags stand before client-only tags |
| IrcMessageCodec.WriteParams | irc/irc/message.go:216-223 | the loop writes the parameters, with a colon where one is needed |
| IrcMessageCodec.WriteMessage | irc/irc/message.go:179-226 | the line written is the message's format in some order of its tags, and parses back to the message exactly when that is well formed |
| Modes.FormatParseIff | irc/irc/mode.go:21-86 | a change list comes back from its printed form if and only if its arguments are aligned |
| Modes.ApplyChangeOnLists | irc/server/mode/set.go:119-186 | a change does to a list mode what it does to a set, keeps it free of duplicates and leaves the others alone |
| Modes.ApplyChangeOnFlags | irc/server/mode/set.go:119-186 | a flag is set exactly when it was last set, and no other mode touches it |
| Modes.ApplyChangeOnArgs | irc/server/mode/set.go:119-186 | a mode with an argument has the one it was last set with, or none once it is removed, and no other mode touches it |
| Modes.ReportedIff | irc/server/mode/set.go:119-186 | a change is reported exactly when it makes a difference or sets an argument |
| Modes.ArgumentByType | irc/irc/mode.go:44-56 | which letters take an argument, by their type, with the two exceptions |
| Modes.ApplyTwice | irc/server/mode/set.go:119-186 | applying a change again changes nothing, and is reported only for modes with an argument being set |
| Modes.PrefixMeaning | irc/server/server.go:642-669 | a change of the mode at a position adds or removes the sign at that position, keeps the others, in rank order |
| Modes.ReplayReported | irc/server/handlers.go:1320-1339 | replaying the reported changes from the same state leads to the same state |
| Modes.ReplicaAgrees | irc/server/handlers.go:1320-1339 | a replica that parses and applies the broadcast ends in the server's state, and an empty broadcast means no change |
| Modes.QueryOrSet | irc/server/handlers.go:1297-1339 | the letter of a list mode alone asks and changes nothing; every other command sets what it says and broadcasts what was applied |
| Modes.EmptyArgumentDiverges | irc/irc/mode.go:58-86 | of the two functions: an empty argument before another is not printed, so what is read back differs |
| ModeReplica.ReadsTrimmed | irc/irc/mode.go:21-86 | a printed change list whose last argument lost its line ending is read as the changes with that argument cut |
| ModeReplica.TrimmedAgreesIff | irc/server/handlers.go:1320-1339 | running the reported changes with that argument cut gives the same channel exactly when it ended in no line ending or does not show in the state |
| ModeBroadcast.BroadcastReadBack | irc/irc/message.go:119-226 | what a receiver reads from any broadcast MODE line, with any good tags in any order: its tags and parameters, the last parameter without a trailing line ending |
| ModeBroadcast.ReplicaAgreesOnWire | irc/server/handlers.go:1297-1339 | for every received line that parses and every receiver's tags: the broadcast reads back as sent exactly when its last argument ends in no carriage return or line feed; the replica ends in the server's state exactly when no such cut shows; nothing broadcast means no change |
| ModeBroadcast.CleanLineAgrees | irc/server/handlers.go:1297-1339 | a received line without a line ending behind an argument: the broadcast comes through whole and the replica agrees, for every channel |
| ModeBroadcast.DressedGood | irc/server/server.go:163-211 | the tags the server adds for a receiver are of that kind |
| ModeBroadcast.StrayReturnDiverges | irc/server/handlers.go:1320-1339 | two bans, the first ending in a carriage return and the second already set: the server bans one name and the replica another |
| ModeBroadcast.ParsedParams | irc/irc/message.go:119-176 | parsed parameters before the last are non-empty and spaceless, and hold no character the line does not |
| ModeHandlers.ParseModeString | irc/irc/mode.go:21-42 | the loop computes the change list |
| ModeHandlers.FormatModeChanges | irc/irc/mode.go:58-86 | the loop computes the mode string and arguments |
| ModeHandlers.ModeSet.ApplyOne | irc/server/mode/set.go:119-186 | one change applied to flags, arguments and lists, and whether it is reported |
| ModeHandlers.ModeSet.Apply | irc/server/mode/set.go:119-186 | all changes in order and those reported |
| ModeHandlers.ChannelState.ApplyMembershipMode | irc/server/server.go:642-669 | a member's prefixes after a membership change |
| ModeHandlers.ChannelState.HandleMode | irc/server/handlers.go:1297-1339 | the channel after a MODE command and what is broadcast; a list query changes and broadcasts nothing |
| ChatHistory.ReferenceCuts | irc/irc/chathistory.go:89-125 | in time order every reference cuts the history into a prefix before and a suffix after |
| ChatHistory.BetweenSymmetric | irc/irc/chathistory.go:65-83 | both orders of two references select from the same entries, trimmed from opposite ends |
| ChatHistory.AroundShape | irc/irc/chathistory.go:56-64 | AROUND returns as many as the limit allows, a suffix of before and a prefix of after, a side short only when exhausted |
| ChatHistory.AfterId | irc/irc/chathistory.go:48-53 | AFTER an id is the earliest of what follows it |
| ChatHistory.BeforeId | irc/irc/chathistory.go:54-55 | BEFORE an id is the latest of what precedes it |
| ChatHistory.AroundId | irc/irc/chathistory.go:56-64 | AROUND an id takes from what precedes and what follows it |
| HistoryPaging.FilterHistory | irc/irc/chathistory.go:127-135 | the loop keeps exactly the matching entries, in order |
| HistoryPaging.SelectChatHistory | irc/irc/chathistory.go:25-87 | the selection computes the function's page, error or panic |
| HistorySelectors.LatestOfAll | irc/irc/chathistory.go:33-35 | LATEST without a reference is the newest entries, as many as the limit allows, complete when that is all |
| HistorySelectors.LatestOf | irc/irc/chathistory.go:48-53 | LATEST from an id or a time: the newest entries behind it |
| HistorySelectors.AfterOf | irc/irc/chathistory.go:48-53 | AFTER an id or a time: the entries that follow it |
| HistorySelectors.BeforeOf | irc/irc/chathistory.go:54-55 | BEFORE an id or a time: the entries that lead up to it |
| HistorySelectors.AroundOf | irc/irc/chathistory.go:56-64 | AROUND an id or a time: both sides of it, each half of the limit unless it has no more |
| HistorySelectors.BetweenOf | irc/irc/chathistory.go:65-83 | BETWEEN two ids or times: strictly between them, from the first named towards the second |
| HistorySelectors.CutsExist | irc/irc/chathistory.go:111-125 | in time order every id and every time cuts the history into what precedes and what succeeds it |
| HistorySelectors.NotFound | irc/irc/chathistory.go:43-45 | an id that no entry has selects nothing, marked complete |
| HistorySelectors.RefusedIff | irc/irc/chathistory.go:25-46 | with one selector, exactly which requests are errors |
| HistoryPaging.SelectPanicsIff | irc/irc/chathistory.go:65-83 | the selection panics exactly for BETWEEN with one reference that is found |
| HistoryPaging.LoneReferencePanics | irc/irc/chathistory.go:65-83 | of the function: BETWEEN with the id of the only entry panics |
| HistoryPaging.CatchUp | irc/irc/chathistory.go:48-53 | asking AFTER the last id until complete ends with every later entry once in order, in as few pages as the limit allows |
| HistoryPaging.FetchBack | irc/irc/chathistory.go:54-55 | the same backwards with BEFORE |
| HistoryPaging.FetchAll | irc/irc/chathistory.go:25-87 | the pages back, the pivot and the pages forward are the whole history |
| HistoryGrowth.Channel.Record | irc/server/server.go:548-555 | the history is the newest 50 of everything recorded |
| HistoryGrowth.AnswerGrown | irc/server/handlers.go:755-812 | AFTER an id gives the earliest of what follows it, or an empty page marked complete when it has been dropped |
| HistoryGrowth.CatchUpGrowing | irc/irc/chathistory.go:39-53 | catching up while the history grows and is trimmed: no gaps; it ends at the first request that finds the client overtaken or within a page, and has everything recorded by then exactly when it was not overtaken |
| HistoryGrowth.LosesIff | irc/irc/chathistory.go:39-45 | entries are lost exactly under the schedules in which some request finds the client overtaken before any finds it within a page |
| HistoryGrowth.SteadyNeverLoses | irc/server/server.go:548-555 | a client at most 50 behind and no more than a page of new entries between requests: nothing is lost |
| HistoryGrowth.FirstRequestLoses | irc/irc/chathistory.go:43-45 | one entry further behind, the first answer is empty and complete while 50 unseen entries are kept |
| Sasl.ReassembledIff | irc/server/handlers.go:406-424 | a payload arrives whole, exactly with its last chunk, if and only if it fits and its last chunk is neither "+" nor "*" |
| Sasl.Base64Reassembled | irc/client/client.go:486-499 | base64 text up to the limit is always reassembled |
| Sasl.TooLongRejected | irc/server/handlers.go:406-419 | a longer payload is rejected before it completes |
| Sasl.SendChunks | irc/client/client.go:486-499 | the loop sends exactly the chunks |
| Sasl.PlainFieldsIff | irc/server/handlers.go:430-434 | exactly which credentials the server reads back from a PLAIN payload, and that it reads none from any other |
| Sasl.FramedAlways | irc/server/handlers.go:384-484 | over any messages an inactive exchange has an empty buffer and an active one a multiple of 400 bytes within the bound |
| Sasl.ResponseDecidesLogin | irc/server/handlers.go:384-466 | a response that fits decides the login by exactly its text; a longer one never logs in |
| Sasl.RepliesMeaning | irc/server/handlers.go:384-466 | for one message: 903, and 900 with it, is sent exactly when an account is set; 904 to 906 only when the exchange ends without one; nothing while it goes on; a challenge exactly when it begins |
| Sasl.AbortMeaning | irc/server/handlers.go:368-376 | giving up an exchange under way is told as an abort and keeps the account |
| Sasl.ResponseReplies | irc/server/handlers.go:384-466 | a response that fits is answered by 900 and 903 when it logs in and by 904 when it does not, a longer one first of all by 905 |
| Sasl.CredentialsLogIn | irc/server/handlers.go:384-466 | credentials sent in chunks log in exactly when they fit, their fields are readable and the account table takes the password, and then as that account |
| SftpWire.AttrRoundTrip | sftp/sftp/attr.go:30-114 | attributes decode anywhere in a buffer to themselves with times cut to 32 bits, stopping behind them |
| SftpWire.AttrSurvivesIff | sftp/sftp/attr.go:30-114 | they come back unchanged exactly when both times are unset or fit 32 bits |
| SftpWire.EarlyTimeLost | sftp/sftp/attr.go:30-114 | one second before 1970 comes back as the last second of the 32-bit range |
| SftpWire.PacketRoundTripIff | sftp/sftp/packet.go:18-50 | a packet is read back, leaving what follows, exactly when it is within the reader's limit |
| SftpWire.StatusRoundTrip | sftp/sftp/attr.go:118-140 | a status reply decodes to its id, code and message |
| SftpWire.ReadsString | sftp/sftp/packet.go:54-74 | a written string reads back anywhere in a buffer |
| SftpServer.TableKept | sftp/server/server.go:86-124 | in every run drained handles are live |
| SftpServer.IssuedFresh | sftp/server/server.go:92-99 | until the counter wraps a new handle is not one in use |
| SftpServer.RestoredIff | sftp/server/server.go:248-264 | opening, listing and closing a directory restores the table exactly when its handle was not in use |
| SftpServer.PanicsIff | sftp/server/server.go:265-279 | exactly which READDIR requests crash the server |
| SftpServer.NeverPanics | sftp/server/server.go:265-279 | a run whose opened files all have handles of four characters or more does not crash it |
| SftpServer.NeverPanicsIff | sftp/server/server.go:265-279 | a backend that may hand out a set of file handles never lets a run crash the server exactly when each has four characters or more |
| SftpServer.ShippedBackendCrashes | sftp/server/backend/osfs/osfs.go:43-50 | the handles of the file system backend are too short exactly below number 100, and for each of those OPEN and READDIR crash the server |
| SftpServer.ListedOnce | sftp/server/server.go:265-296 | a listed handle answers end of file to every READDIR until it is closed, whatever happens in between |
| SftpServer.ListingDrains | sftp/server/server.go:265-296 | exactly the reply with its entries drains a handle |
| SftpServer.ReplyNumbered | sftp/server/server.go:125-345 | a reply about handles carries the request's number, and only a request too short to have one gets none |
| SftpServer.MalformedStops | sftp/server/server.go:139-270 | exactly a request that is cut short ends the server, with a bad-message status and the table as it was |
| SftpServer.Server.NewHandle | sftp/server/server.go:92-99 | the next handle, live and bound to its target |
| SftpServer.Server.DropHandle | sftp/server/server.go:119-124 | the handle is neither live nor drained |
| SftpServer.Server.WriteEntries | sftp/server/server.go:285-294 | the loop builds the payload of the NAME reply |
| SftpServer.Server.Handle | sftp/server/server.go:125-345 | one turn of the request loop: reply, table and whether the server goes on; drained handles stay live |
| SftpServer.Server.HandleOpen | sftp/server/server.go:139-156 | OPEN: a new handle, the backend's error, or a bad-message status that ends the server |
| SftpServer.Server.HandleClose | sftp/server/server.go:157-169 | CLOSE: a live handle is dropped, any other is refused and nothing changes |
| SftpServer.Server.HandleOpendir | sftp/server/server.go:248-264 | OPENDIR: a new handle for the directory, or the backend's error and no handle |
| SftpServer.Server.HandleReaddir | sftp/server/server.go:265-296 | READDIR: end of file on a drained handle, otherwise the listing once, an error, or a crash on a short name |
| SftpClient.EntriesDecode | sftp/client/client.go:297-318 | the client's decoder reads any encoded listing back, without "." and ".." |
| SftpClient.ListingFaithful | sftp/client/client.go:297-318 | the visible entries have the backend's name, size, owner, group, mode and modification time, in order, if and only if those times are unset or fit 32 bits |
| SftpClient.SeenFields | sftp/server/server.go:285-294 | field by field what a client sees of an entry: name, size, owner, group and mode as the backend gives them, the modification time unset when 0 and otherwise cut to 32 bits |
| SftpClient.VisibleEach | sftp/client/client.go:297-318 | every entry is seen in its place, except "." and ".." |
| SftpClient.TableRestored | sftp/client/client.go:265-321 | a listing leaves live and drained handles as they were when its handle was new |
| SftpClient.DecodeListing | sftp/client/client.go:297-318 | the decode loop computes that reading |
| SftpClient.Client.Do | sftp/client/client.go:78-133 | one request through both packet codecs and the server: the reply that carries its number, a link that goes down, an endless wait, or a panic on a link that was down before |
| SftpClient.Client.CloseHandle | sftp/client/client.go:178-189 | the status is success exactly for a live handle, which is dropped; any other leaves the table alone; on a link that is down it panics |
| SftpClient.Client.ReadDir | sftp/client/client.go:265-321 | the loop ends; the result is the visible listing, the backend's error, a lost link or a panic of the deferred close, in exactly the stated cases; a link that held leaves the stated table, and a panic leaves the handle open |
| SftpClient.ListingPanicsIff | sftp/client/client.go:78-133 | a listing panics exactly when the directory was opened and the reply to READDIR does not fit a packet |
| SftpClient.LongListingPanics | sftp/client/client.go:78-133 | an opened directory of 1398101 entries or more always does |
| SftpClient.CrowdedRootPanics | sftp/client/client.go:265-321 | a root directory of that many empty files, listed on a fresh server |
| LabeledResponse.DressTag | irc/server/server.go:163-211 | a tag other than time and account reaches the receiver if and only if it was there and is negotiated |
| LabeledResponse.DressSupplies | irc/server/server.go:163-211 | the time and the account a receiver gets: exactly when it has negotiated them, and the message's own when it brings one |
| LabeledResponse.ReachesIff | irc/server/server.go:163-167 | a TAGMSG reaches exactly the receivers that have negotiated tags |
| LabeledResponse.LabelUsableIff | irc/server/handlers.go:16-30 | which labels make an answer a labelled one |
| LabeledResponse.LabelOnce | irc/server/server.go:258-284 | the immediate messages come first and unlabelled; the label is on the next message and on no other |
| LabeledResponse.AnswerShape | irc/server/server.go:258-284 | the four shapes of an answer in full: acknowledgement; one message or a batch of its own, labelled; or a new batch, whose labelled opener, members and closer carry the same identifier |
| LabeledResponse.StripIff | irc/server/server.go:258-284 | removing the wrapper gives the immediate and then the captured messages if and only if the captured ones are recoverable |
| LabeledResponse.InnerBatchLost | irc/server/server.go:277-282 | wrapping overwrites the batch a captured message belonged to |
| LabeledResponse.HistoryOneBatch | irc/server/handlers.go:876-912 | a history answer stays one labelled batch: labelled opener with its identifier, kind and target, marked complete exactly when it is and that is negotiated; every entry inside; closer under the same identifier last |
| LabeledResponse.CollectedMeans | irc/server/server.go:163-240 | a run of sends keeps immediate, captured and foreign messages each in order and loses none |
| LabeledResponse.Session.Send | irc/server/server.go:163-234 | a message is captured, kept as immediate or sent, as the session's state says |
| LabeledResponse.Session.SendImmediate | irc/server/server.go:236-240 | an immediate message is kept apart |
| LabeledResponse.Session.BeginResponse | irc/server/server.go:242-246 | capturing starts empty |
| LabeledResponse.Session.SuspendResponse | irc/server/server.go:248-252 | the answer being collected is handed over whole |
| LabeledResponse.Session.ResumeResponse | irc/server/server.go:254-256 | and taken back |
| LabeledResponse.Session.CheckPassword | irc/server/handlers.go:468-478 | what arrives during the check goes straight out and the answer is the same afterwards |
| LabeledResponse.Session.FinishResponse | irc/server/server.go:258-284 | the answer sent, and capturing over |
| LabeledResponse.Session.SendHistoryBatch | irc/server/handlers.go:876-912 | the loop sends the batch in order |
| LabeledResponse.Session.DispatchCommand | irc/server/handlers.go:16-30 | what a whole command puts on the wire, with and without a usable label |
| RingBuffer.RingBuf.constructor | irc/internal/ringbuf/ringbuf.go:16-24 | an empty buffer of at least one place |
| RingBuffer.RingBuf.Push | irc/internal/ringbuf/ringbuf.go:27-39 | the value joins the history of pushes, in place or over the oldest |
| RingBuffer.RingBuf.Slice | irc/internal/ringbuf/ringbuf.go:49-57 | the newest values pushed, as many as fit, oldest first |
| RingBuffer.RingBuf.Last | irc/internal/ringbuf/ringbuf.go:60-72 | the newest n of those |
| HistoryStore.NoInterference | irc/bouncer/history/store.go:61-63 | when no network of the log is this one extended by a NUL and more, or the other way round, the entries under a key are those of its network and target |
| HistoryStore.MeetIff | irc/bouncer/history/store.go:61-63 | two networks share a key for some targets exactly when one name is the other, a NUL and more |
| HistoryStore.NoInterferenceIff | irc/bouncer/history/store.go:61-63 | whatever is appended for a set of networks, a network's answers are its own exactly when no name of the set clashes with its |
| HistoryStore.KeysCollide | irc/bouncer/history/store.go:61-63 | an entry of one network under the key of another |
| HistoryStore.Select | irc/bouncer/history/store.go:84-123 | filtering, skipping to an id and trimming compute the answer |
| HistoryStore.AnswerMeaning | irc/bouncer/history/store.go:84-123 | an answer by times, id and limit alone: the newest of the stored entries strictly within the times and behind the id, in order |
| HistoryStore.MemoryStore.BufferFor | irc/bouncer/history/store.go:65-72 | the key's buffer, made when missing, sharing nothing with the others |
| HistoryStore.MemoryStore.Append | irc/bouncer/history/store.go:75-81 | the entry joins the log |
| HistoryStore.MemoryStore.Query | irc/bouncer/history/store.go:84-123 | the answer is a function of the newest appends under the key, which are those for that network and target when no name in the log clashes, as when none holds a NUL |
| FtpPath.CleanPath | ftp/server/fs/fs.go:179-200 | the string-buffer loop computes the fold over a stack of segments, and the result is normal |
| FtpPath.CleanIdempotent | ftp/server/fs/fs.go:179-200 | cleaning twice is cleaning once |
| FtpPath.CleanAbsorbs | ftp/server/fs/fs.go:179-200 | cleaning a prefix first changes nothing |
| FtpPath.CleanFixedIff | ftp/server/fs/fs.go:179-200 | exactly the absolute paths without empty, "." or ".." segments are left alone |
| FtpPath.ResolveNormal | ftp/server/fs/fs.go:82-94 | resolving never fails and ends in a normal path |
| FtpPath.ChangeTwice | ftp/server/fs/fs.go:82-94 | changing to a and then to b is changing to a/b |
| FtpPath.CwdNormal | ftp/server/session.go:177-209 | every reachable working directory is absolute, normal and a fixed point of cleaning |
| FtpPath.LoggedInIff | ftp/server/session.go:170-193 | over every run: the user is the one named last, and logged in exactly when a password has been accepted for that name |
| FtpPath.CwdAfter | ftp/server/session.go:170-209 | what moves the working directory, and where to |
| FtpPath.Session.ChangeDirectory | ftp/server/session.go:195-209 | the directory changes to the resolved path exactly when that is a directory |
| FtpPath.Session.Dispatch | ftp/server/session.go:93-121 | user, login state and working directory after a command |
| PieceAssembly.BlocksTile | torrent/piece/piece.go:55-66 | the requests are consecutive, cover the piece exactly, and are as many as its length calls for, only the last possibly short |
| PieceAssembly.CompleteIff | torrent/piece/piece.go:48-78 | with no block stored twice, complete means every block is stored |
| PieceAssembly.CompleteTrueIff | torrent/piece/piece.go:48-78 | for blocks stored in any order and any number of times, the completeness test is right exactly when nothing is missing or fewer bytes were stored again than are missing |
| PieceAssembly.CompleteAtLast | torrent/piece/piece.go:48-78 | storing every block once in any order completes the piece exactly at the last |
| PieceAssembly.Assembled | torrent/piece/piece.go:70-78 | and then the buffer is the piece |
| PieceAssembly.DuplicateCompletes | torrent/piece/piece.go:70-78 | a block stored twice completes a piece that is not there |
| PieceAssembly.State.NextRequest | torrent/piece/piece.go:55-66 | the next block and the cursor behind it, or none |
| PieceAssembly.State.AllRequests | torrent/piece/piece.go:55-66 | asking to exhaustion gives all requests |
| PieceAssembly.State.StoreBlock | torrent/piece/piece.go:70-78 | the block overwrites its place, or is refused exactly when it overflows |
| PieceAssembly.State.Receive | torrent/piece/piece.go:48-78 | the same over a whole download in any order |
| Bitfield.SetGrows | torrent/bitfield/bitfield.go:29-34 | setting a piece adds that piece and no other |
| Bitfield.New | torrent/bitfield/bitfield.go:16-18 | a field of the right length without pieces |
| Bitfield.Set | torrent/bitfield/bitfield.go:29-34 | the bit set in place |
| Bitfield.Test | torrent/bitfield/bitfield.go:21-26 | the shifted bit is the piece's |
| Bitfield.Count | torrent/bitfield/bitfield.go:37-45 | the clear-lowest-bit loop counts the pieces present |
| Bitfield.Validate | torrent/bitfield/bitfield.go:49-61 | accepts exactly the right length with no piece at or past the end |

## Left out

- Sockets, TLS, deadlines, dialers and goroutine start-up: I/O; only queue, wake-channel and lock steps are modelled.
- Torrent files: what is read from the info dictionary after it has been hashed, and the other fields of the file.
- bcrypt, SHA-1, SCRAM, base64 and time formatting: foreign code; they enter as inputs, with base64 lengths a multiple of four.
- Case folding outside ASCII: Upper, Lower and EqualFold cover ASCII letters only.
- A nil and an empty Go map or slice are the same value here.
- Capability negotiation: the application sending CAP, AUTHENTICATE or QUIT itself, reply texts, and what follows numeric 001; the client's NICK change handler.
- Nick registry across nick changes: every NICK goes to the registration handler, so the renaming handler is not reached.
- Output queue: the synchronous write path before the writer starts; partial writes are one failed write.
- Bencode: floats and other Go types that Encode refuses are not values here; the largest length make accepts is a parameter.
- Channel MODE: the membership and operator checks before a change, and the replies to queries.
- SftpClient.Client.ReadDir: does not say how a request or listing of 4 GiB is misframed; concurrent use of the client is not modelled.
- SFTP file times are whole seconds; READ, WRITE, STAT and the other requests that leave the handle table alone enter only as replies.
- SftpServer.Server.Handle: the version handshake before the loop is not modelled.
- LabeledResponse.Session.DispatchCommand: capabilities that change inside the command enter through each send's own context.
- HistoryStore.MemoryStore.Query: the Around field, which the store ignores, is not part of a query here.
- RingBuffer.RingBuf.Last: a negative count, which panics, is not a value of its parameter.
- FTP transfer commands, data connections and the mapping from virtual to real paths.
- PieceAssembly: hash verification, and negative lengths and offsets, which panic.
- Wildcard matching of masks, tracker HTTP, DCC, the bouncer proxy loop, WHO and LIST replies, constant tables, configuration and command lines: easy members or I/O.
