# Socket programs: a verified model

This project models the parts of the socket laboratory where state, arithmetic and an unreliable
environment meet, and proves what those programs keep over whole runs.

* **The authenticated chat server** (`Kernels`, `SocketLoops`, `Auth`, `History`, `Rooms`, `Reactions`,
  `Trails`, `Scans`, `ChatServer`, `Guarantees`, `AuthLines`). A class with the program's descriptor
  sets, `authed` flags and nested loops runs against a kernel whose every reply is chosen by an adversary: short reads and sends,
  EINTR, EAGAIN, end of stream, failures, refused allocations, any free descriptor number. `History`
  tells a run as events (joined, said, left) without looking at descriptors or flags. The global
  invariant `Rooms.Inv` says, of every connection there ever was, that the kernel's record of it (bytes
  received, bytes sent, closes) agrees with its part in that history. `Rooms` proves it for each kind of
  step, `ChatServer` carries it through the three nested loops, and returns the trail of accepts and
  services it took; `Guarantees` and `AuthLines` read off what invariant and trail mean.
* **The TCP clients** (`TcpClients`): the same doubling receive buffer with other sizes.
* **The UDP file transfer** (`Clock`, `UdpToken`, `UdpServer`, `UdpClient`, `UdpTheorems`, `UdpRuns`): both
  servers as state machines over whatever `recvfrom` returns, the loops that implement them, the client
  under arbitrary short reads, and the composition of the two among foreign senders. `UdpTheorems` is
  about what follows an accepted token, `UdpRuns` about whole runs from the start of the programs.
* **Ports and the dashboard** (`Ports`, `Dashboard`, `PortList`): strtol and the strict and lax port
  parsers, prefix lengths, and the collect, sort and deduplicate pipeline.

Conventions. A kernel reply that POSIX would not allow, or a script of replies that has run out, counts
as a failure of the call; so each script is one finite run, and every theorem is about all scripts.
A `Room` is the state of the chat server as a value. `hide` statements only keep definitions out of a
proof's way. In `SocketLoops` and `ChatServer` some steps that the source writes in line (one recv, one
recipient, one descriptor) are methods of their own.

## Where the code does something unexpected

The model follows the code; these are facts proved about it.

* A batch of exactly the largest size is refused, although the message says that it exceeded it
  (`SocketLoops.Drain`): the limit is `total < MAX`.
* AUTH lines can be broadcast. The batch that authenticates is not, but an AUTH line that a member sends
  afterwards is: exactly then in a service (`AuthLines.ServiceBroadcasts`) and in a whole run
  (`AuthLines.AuthLinesOfRun`), and the sender then sent it once more after joining
  (`AuthLines.AuthLineBroadcast`). For every token that lets anybody in, `AuthLines.AuthLineIsBroadcast`
  gives such a chain of passes from the empty room, as `ChatServer.Run` describes its runs.
* A token that ends in CR or LF lets nobody in, because those are stripped from the line and not from
  the token (`Auth.AuthPossible`); nor does one whose line does not fit in a batch. With either nobody
  ever joins (`AuthLines.NobodyGetsIn`), though the server starts. The UDP comment "exactly AUTH token"
  leaves the stripped tail out.
* The duplex client prints nothing until its peer has closed, and then everything at once
  (`TcpClients.Receiver`).
* The UDP client's exit status 0 does not say that an end of file was sent: none is exactly when the
  first end-of-file call fails (`UdpClient.SendFile`, and `UdpClient.StatusWithoutEnd` for every file), and
  then the server does not complete (`UdpRuns.NoEndNoCompletion`).
* A stranger's empty datagram ends a V1 transfer; the result is a prefix of V2's file, and
  `UdpTheorems.V1LosesFile` is a sequence where it is empty.
* The time client does not test its parsed port: a bad argument connects to port 65535
  (`Ports.TimeClientPort`).
* A token datagram is cut to 511 bytes before the tail is stripped, so a token followed by enough line
  endings is accepted whatever comes after them (`UdpToken.PaddedTokenAccepted`).

## Model

| member | source | states |
|---|---|---|
| ChatServer.Run | TCP/chat_room/chat_room_server/chat_room_serverV2.c:65-275 | Exit status 5 exactly for a missing or short token, else 4; the run is a chain of passes from the empty room, one per return of select, each a trail of accepts and services, with the global invariant after each |
| ChatServer.Server.Serve | TCP/chat_room/chat_room_server/chat_room_serverV2.c:130-136 | select is always asked about the listener and every open connection; each pass is over exactly what it reported, and starts where the one before ended |
| ChatServer.Server.Scan | TCP/chat_room/chat_room_server/chat_room_serverV2.c:138-271 | A connection is read only if its descriptor was reported, at most once, and newcomers are not read; every reported one is serviced unless a broadcast of the pass dropped it; accept is called once if the listener was reported; the accepts and services of the pass, in order, lead from its first state to its last |
| ChatServer.Server.HandleAccept | TCP/chat_room/chat_room_server/chat_room_serverV2.c:141-157 | A new descriptor below FD_SETSIZE is open, in the watched set, at most max_set, with its flag down, its connection not closed and nothing added to the history; any other is closed once and recorded as rejected; an accept that fails changes nothing |
| ChatServer.Server.Service | TCP/chat_room/chat_room_server/chat_room_serverV2.c:158-268 | Everything pending is read, and exactly the events that must follow do: nothing, joining, refusal, or one broadcast and the loss of those whose send failed, then departure at end of stream; a batch is below the largest size; without failing calls nobody is lost |
| Reactions.ServiceMeans | TCP/chat_room/chat_room_server/chat_room_serverV2.c:158-268 | Case by case: each failure of the drain, and a batch of 4096 bytes, closes with its own reason; an empty batch does nothing; a stranger joins with an AUTH line and is refused with anything else; a member's batch is said and the unreachable dropped; an ended stream closes after that; otherwise the descriptor stays open |
| ChatServer.Server.Authenticate | TCP/chat_room/chat_room_server/chat_room_serverV2.c:230-242 | A stranger's first batch admits it exactly when it is an AUTH line, and otherwise closes it |
| ChatServer.Server.Relay | TCP/chat_room/chat_room_server/chat_room_serverV2.c:244-259 | A member's batch reaches all other members, the sender keeps its place, and somebody is dropped exactly when a send failed |
| ChatServer.Server.Broadcast | TCP/chat_room/chat_room_server/chat_room_serverV2.c:247-258 | When the loop ends nobody is owed anything; the dropped are removed from the set being scanned |
| ChatServer.Server.HandTo | TCP/chat_room/chat_room_server/chat_room_serverV2.c:249-256 | One recipient is paid in full or dropped with a strict prefix; the others are not touched |
| ChatServer.Server.Drop | TCP/chat_room/chat_room_server/chat_room_serverV2.c:250-254 | The descriptor leaves both sets, its connection is closed once and the reason is recorded; the invariant holds, provided the reason is justified by the connection's record |
| SocketLoops.Drain | TCP/chat_room/chat_room_server/chat_room_serverV2.c:159-228 | For every split into reads: the batch is exactly what is pending if that is less than the maximum, and is refused at the maximum; the buffer stays within the initial size or twice the data, realloc moves at most twice the data, and the terminator fits |
| SocketLoops.SendAll | TCP/chat_room/chat_room_server/chat_room_serverV2.c:28-39 | Success hands over all bytes in order, failure a strict prefix, and it fails exactly when a send failed otherwise than by EINTR |
| Auth.CtEqual | TCP/chat_room/chat_room_server/chat_room_serverV2.c:47-53 | The XOR/OR accumulator is zero exactly on equal ranges |
| Auth.CheckAuth | TCP/chat_room/chat_room_server/chat_room_serverV2.c:55-60 | True exactly when the buffer is the bytes of "AUTH ", the token, which does not end in LF or CR, and then only LF and CR |
| Auth.AuthLineExactly | TCP/chat_room/chat_room_server/chat_room_serverV2.c:55-60 | The AUTH lines, byte by byte, for every string |
| Auth.AuthPossible | TCP/chat_room/chat_room_server/chat_room_serverV2.c:56-57 | Some line is accepted if and only if the token does not end in CR or LF |
| Auth.PaddedLineAccepted | TCP/chat_room/chat_room_server/chat_room_serverV2.c:56-59 | For such tokens every padding by line endings is accepted |
| Auth.AuthLineShape | TCP/chat_room/chat_room_server/chat_room_serverV2.c:56-59 | Every accepted line is the prefix, the token and line endings |
| Rooms.AdmitKeeps | TCP/chat_room/chat_room_server/chat_room_serverV2.c:151-155 | With the new connection open, not closed, and the flag of its descriptor's former holder cleared, the invariant holds |
| Rooms.RejectKeeps | TCP/chat_room/chat_room_server/chat_room_serverV2.c:146-149 | With the new connection closed once, not watched, and recorded as rejected, the invariant holds |
| Rooms.JoinKeeps | TCP/chat_room/chat_room_server/chat_room_serverV2.c:230-234 | Raising the flag for an AUTH line keeps the invariant |
| Rooms.SaidKeeps | TCP/chat_room/chat_room_server/chat_room_serverV2.c:244-249 | After a member speaks exactly the other members are owed its text |
| Rooms.PaidKeeps | TCP/chat_room/chat_room_server/chat_room_serverV2.c:250 | Sending the text settles one debt |
| Rooms.UnpaidKeeps | TCP/chat_room/chat_room_server/chat_room_serverV2.c:250-251 | A partial send leaves a strict prefix of the stream, which justifies dropping |
| Rooms.PartKeeps | TCP/chat_room/chat_room_server/chat_room_serverV2.c:252-254 | A justified close keeps the invariant and lowers the debts |
| Rooms.AllPaid | TCP/chat_room/chat_room_server/chat_room_serverV2.c:247-249 | Past the highest descriptor no debt is left |
| Scans.ScanServices | TCP/chat_room/chat_room_server/chat_room_serverV2.c:138-139 | Serving one descriptor keeps every later one still reported open and with its holder, though the service may drop others |
| Scans.ScanAccepts | TCP/chat_room/chat_room_server/chat_room_serverV2.c:141-155 | A connection accepted in a pass does not enter the set being scanned |
| Scans.RunIsTrail | TCP/chat_room/chat_room_server/chat_room_serverV2.c:130-271 | The passes of a run join to one trail of accepts and services from its first state to its last |
| Scans.EventsOfRun | TCP/chat_room/chat_room_server/chat_room_serverV2.c:130-271 | Every event of a whole run was added by one of its steps that had cause: nobody joins but by an AUTH line, nobody is rejected but by an accept beyond FD_SETSIZE, and every other departure is a service's, with the reason that its drain, batch and flag give |
| Scans.BroadcastsOfRun | TCP/chat_room/chat_room_server/chat_room_serverV2.c:230-259 | The broadcasts of a whole run are, in order, exactly the non-empty batches drained from descriptors whose flag was up |
| Trails.StepSpeaks | TCP/chat_room/chat_room_server/chat_room_serverV2.c:141-268 | One accept or service adds to the broadcasts exactly its batch, if it is not empty and the flag is up |
| Trails.AcceptMeans | TCP/chat_room/chat_room_server/chat_room_serverV2.c:141-157 | One accept opens a descriptor below 1024 with its flag down, closes any other, or does nothing |
| Reactions.ServicedBatch | TCP/chat_room/chat_room_server/chat_room_serverV2.c:207-267 | Reading, reacting and hanging up compose to the whole effect of one service |
| Guarantees.LiveMembersGotEverything | TCP/chat_room/chat_room_server/chat_room_serverV2.c:244-259 | An open authenticated connection has been sent exactly the concatenation of what the others said since it joined |
| Guarantees.EveryTextArrived | TCP/chat_room/chat_room_server/chat_room_serverV2.c:244-259 | Each text that another said since it joined is in what it was sent, after all that was said before |
| Guarantees.DroppedMembersGotStrictPrefix | TCP/chat_room/chat_room_server/chat_room_serverV2.c:250-255 | A connection dropped by a failed send was sent a strict prefix of that |
| Guarantees.StrangersGotNothing | TCP/chat_room/chat_room_server/chat_room_serverV2.c:249 | Whoever never joined was sent nothing |
| Guarantees.FlagMeansAuthenticated | TCP/chat_room/chat_room_server/chat_room_serverV2.c:152-242 | The flag of an open descriptor is up exactly if its present holder's first batch was an AUTH line; all it sent after that was broadcast; an open connection without the flag has been read nothing from |
| Guarantees.ClosedExactlyOnce | TCP/chat_room/chat_room_server/chat_room_serverV2.c:149-267 | Every connection ever accepted is open, or was closed once and for one recorded reason |
| Guarantees.WhyTheyLeft | TCP/chat_room/chat_room_server/chat_room_serverV2.c:149-267 | What each recorded reason means: who hung up had everything it ever sent broadcast after its line, who overflowed left exactly the largest batch unsaid, who was not authorised never joined and sent no AUTH line first, who was rejected was never read; all but those of a failed send had been sent all that was due |
| Guarantees.SpeakersAreMembers | TCP/chat_room/chat_room_server/chat_room_serverV2.c:230-250 | Each broadcast is by a connection that had joined with an AUTH line and not left |
| Guarantees.StreamSinceJoining | TCP/chat_room/chat_room_server/chat_room_serverV2.c:247-250 | A member's stream is what the others said since it joined, by an independent definition |
| Guarantees.StreamEndsAtLeaving | TCP/chat_room/chat_room_server/chat_room_serverV2.c:252-254 | Nothing is added after it leaves |
| Guarantees.LeavesOnce | TCP/chat_room/chat_room_server/chat_room_serverV2.c:252-267 | In a legal history a connection leaves at most once |
| AuthLines.BroadcastWasReceived | TCP/chat_room/chat_room_server/chat_room_serverV2.c:230-250 | Every broadcast was received from its sender, after the AUTH line it joined with and all it had said before, in that order |
| AuthLines.AuthLineBroadcast | TCP/chat_room/chat_room_server/chat_room_serverV2.c:230-250 | In any run, an AUTH line is broadcast only if its sender sent "AUTH " and the token again after its own line, at an offset the history gives |
| AuthLines.ServiceBroadcasts | TCP/chat_room/chat_room_server/chat_room_serverV2.c:230-250 | One service broadcasts an AUTH line if and only if the flag was up and the batch drained is an AUTH line |
| AuthLines.AuthLinesOfRun | TCP/chat_room/chat_room_server/chat_room_serverV2.c:230-250 | A whole run broadcasts an AUTH line if and only if one of its services drains one from a descriptor whose flag is up |
| AuthLines.NobodyGetsIn | TCP/chat_room/chat_room_server/chat_room_serverV2.c:55-60 | With a token that ends in CR or LF, or whose line has the largest batch size or more, in every run nobody joins, speaks or is sent anything |
| AuthLines.AuthLineIsBroadcast | TCP/chat_room/chat_room_server/chat_room_serverV2.c:230-250 | For every token that lets anybody in, a chain of five passes from the empty room (two accepts, two joins, the line once more), at whose end the second connection was sent the line |
| TcpClients.ReceiveReply | TCP/time_tcp/TCP_client_time/TCP_time_clientV2.c:71-133 | A reply is everything the server sent before closing, below the limit; without failures it is missing only at the limit or on a timeout |
| TcpClients.Receiver | TCP/BasicDuplexChat/duplex_chat_client/duplex_chat_clientV2.c:134-199 | The receiver prints at most once, the peer's whole stream, and only after the peer closed; status 0 exactly then |
| Clock.Duration | UDP/file_transfer_UDP/file_transfer_UDP_server/file_transfer_serverV2.c:29-42 | The exact difference, normalised if the clock did not run back and truncated towards zero if it did; -1 exactly if it did; and the idle test is a difference of ten seconds or more |
| Clock.RecentMeans | UDP/file_transfer_UDP/file_transfer_UDP_server/file_transfer_serverV2.c:29-42 | Of normalised times: not earlier, and less than ten seconds apart, or exactly ten with fewer microseconds |
| UdpToken.IsValidToken | UDP/file_transfer_UDP/file_transfer_UDP_server/file_transfer_serverV2.c:46-58 | 8 to 64 characters, each of them one of 65 listed |
| UdpToken.TokenChars | UDP/file_transfer_UDP/file_transfer_UDP_server/file_transfer_serverV2.c:46-58 | The 65 characters, one by one |
| UdpToken.SameSender | UDP/file_transfer_UDP/file_transfer_UDP_server/file_transfer_serverV2.c:89-108 | Same sender: a known family and nothing different but the flow and scope of an IPv6 address |
| UdpToken.StripInPlace | UDP/file_transfer_UDP/file_transfer_UDP_server/file_transfer_serverV2.c:303-304 | The received bytes lose exactly their trailing CR/LF and stay terminated |
| UdpToken.CheckDatagram | UDP/file_transfer_UDP/file_transfer_UDP_server/file_transfer_serverV2.c:298-314 | Accepts exactly a known family and a datagram that begins with the token and then, up to byte 511, has only LF and CR |
| UdpToken.AcceptedExactly | UDP/file_transfer_UDP/file_transfer_UDP_server/file_transfer_serverV2.c:287-314 | A datagram is accepted if and only if its family is known, it begins with the token, and up to byte 511 only LF and CR follow |
| UdpToken.PaddedTokenAccepted | UDP/file_transfer_UDP/file_transfer_UDP_server/file_transfer_serverV2.c:287-314 | A token padded with line endings to 511 bytes or more is accepted whatever follows |
| UdpServer.AwaitToken | UDP/file_transfer_UDP/file_transfer_UDP_server/file_transfer_serverV2.c:285-340 | The token loop is the state machine, the same in both versions |
| UdpServer.Transfer2 | UDP/file_transfer_UDP/file_transfer_UDP_server/file_transfer_serverV2.c:342-392 | V2's loop, file and counter are the state machine's on every sequence of arrivals |
| UdpServer.Transfer1 | UDP/file_transfer_UDP/file_transfer_UDP_server/file_transfer_server.c:341-381 | The same for V1 |
| UdpTheorems.FileIsWhatWasSent | UDP/file_transfer_UDP/file_transfer_UDP_server/file_transfer_serverV2.c:344-392 | At every step the file is the authenticated sender's payloads, each cut to 512 bytes and none after its first empty one; a failed run keeps a prefix; the counter is the length (but after a failed write) and the limit holds |
| UdpTheorems.TimelyWhileAlive | UDP/file_transfer_UDP/file_transfer_UDP_server/file_transfer_serverV2.c:346-377 | Whatever a live server takes comes under ten seconds after the sender's last datagram; foreign ones do not count |
| UdpTheorems.AliveIffSmooth | UDP/file_transfer_UDP/file_transfer_UDP_server/file_transfer_serverV2.c:346-388 | Before the end of the file the server is alive if and only if every arrival was smooth |
| UdpTheorems.CompletesIffSmooth | UDP/file_transfer_UDP/file_transfer_UDP_server/file_transfer_serverV2.c:346-392 | A transfer completes if and only if every arrival up to the sender's end of file is smooth, and the file is then what was sent before it |
| UdpTheorems.FailsIffBreaks | UDP/file_transfer_UDP/file_transfer_UDP_server/file_transfer_serverV2.c:346-388 | A transfer fails if and only if some arrival up to the end of the file is not smooth; the first one determines the reason (receive error, idle, too large, write error, in that order), the file, which is what was sent before it, and the counter |
| UdpTheorems.SmoothIffPunctual | UDP/file_transfer_UDP/file_transfer_UDP_server/file_transfer_serverV2.c:362-383 | That is: all arrivals punctual and the file within 100 MiB |
| UdpTheorems.StrangersCannotDelay | UDP/file_transfer_UDP/file_transfer_UDP_server/file_transfer_serverV2.c:362-372 | With a clock that does not run back, the client's own punctuality suffices |
| UdpTheorems.EndToEnd | UDP/file_transfer_UDP/file_transfer_UDP_client/file_transfer_client.c:224-260 | Client and server composed, among any foreign datagrams: the transfer completes if and only if the file is within the limit and arrivals are punctual, and the server's file is the client's, for every chunking |
| UdpTheorems.V1VersusV2 | UDP/file_transfer_UDP/file_transfer_UDP_server/file_transfer_server.c:345-381 | Whenever V2 completes V1 does, at the first empty datagram; its file is a prefix, equal if and only if the client sent nothing between that and its own end of file |
| UdpTheorems.V1LosesFile | UDP/file_transfer_UDP/file_transfer_UDP_server/file_transfer_server.c:345 | A sequence on which the prefix is strict |
| UdpTheorems.SilenceEndsRun | UDP/file_transfer_UDP/file_transfer_UDP_server/file_transfer_serverV2.c:331-377 | If every recvfrom returns within ten seconds and without EINTR, a run whose client falls silent ends within twenty seconds of its last datagram |
| UdpRuns.Opened | UDP/file_transfer_UDP/file_transfer_UDP_server/file_transfer_serverV2.c:285-340 | In both versions the sender of the first datagram accepted becomes the peer, provided the file can be created; until then nothing but EINTR and unaccepted datagrams is passed over, and without one nothing is received |
| UdpRuns.Serve2 | UDP/file_transfer_UDP/file_transfer_UDP_server/file_transfer_serverV2.c:285-404 | A whole run of V2 on everything that ever arrives: served is the first to send the token, the file is what it sent since, the run completes if and only if its end of file comes with everything before it punctual and within the limit, and fails if and only if something before that is not, with the reason and file that the first such arrival determines |
| UdpRuns.Serve1 | UDP/file_transfer_UDP/file_transfer_UDP_server/file_transfer_server.c:284-393 | A whole run of V1: it completes if and only if everything before the first empty datagram, anybody's, is in time; the file is then what the peer sent before that, less what could not be written, and the counter all that it sent; it fails exactly at the first arrival before that which is a fault or late, and only for these two reasons |
| UdpRuns.TokenIsTaken | UDP/file_transfer_UDP/file_transfer_UDP_server/file_transfer_serverV2.c:285-329 | In the token loop, one datagram more: exactly the token, with line endings up to the cut, from a known family opens the transfer; both versions |
| UdpRuns.FaultEnds | UDP/file_transfer_UDP/file_transfer_UDP_server/file_transfer_serverV2.c:291-296 | EINTR changes nothing in either loop, any other error ends the run; both versions |
| UdpRuns.StrangerChangesNothing | UDP/file_transfer_UDP/file_transfer_UDP_server/file_transfer_serverV2.c:362-373 | A datagram from any other address or port changes neither file nor counter, and the phase only if it is late, or empty on V1 |
| UdpRuns.PeerIsTaken | UDP/file_transfer_UDP/file_transfer_UDP_server/file_transfer_serverV2.c:362-391 | A datagram of the peer in time: an empty one completes; of another the first 512 bytes are added if V2's file stays within 104857600 bytes and the write succeeds; both versions |
| UdpRuns.CompletesIffInFull | UDP/file_transfer_UDP/file_transfer_UDP_server/file_transfer_serverV2.c:346-392 | After the token V2 completes if and only if some end of file of the peer is reached punctually within the limit |
| UdpRuns.CompletesV1 | UDP/file_transfer_UDP/file_transfer_UDP_server/file_transfer_server.c:342-381 | After the token V1 completes if and only if it reaches an empty datagram in time, with no limit and whether or not the writes succeed; file and counter are then given |
| UdpRuns.FailsV1 | UDP/file_transfer_UDP/file_transfer_UDP_server/file_transfer_server.c:342-381 | V1 fails exactly at the first arrival, before any empty datagram, that is a fault other than EINTR or late, with that reason, file and counter |
| UdpRuns.SameRunOnBoth | UDP/file_transfer_UDP/file_transfer_UDP_server/file_transfer_server.c:284-393 | Of whole runs on the same arrivals: if V2 completes so does V1, with a prefix of the file, equal if and only if the peer sent nothing between the first empty datagram and its own |
| UdpRuns.TimelyRun | UDP/file_transfer_UDP/file_transfer_UDP_server/file_transfer_serverV2.c:346-377 | In a whole run nothing is taken ten seconds or more after the peer's last datagram |
| UdpRuns.OwnPunctualitySuffices | UDP/file_transfer_UDP/file_transfer_UDP_server/file_transfer_serverV2.c:362-392 | With a clock that does not run back, and no failing call, a client whose own datagrams are in time and whose file is within the limit completes with its file, whatever strangers send |
| UdpRuns.ClientToServer | UDP/file_transfer_UDP/file_transfer_UDP_client/file_transfer_client.c:224-260 | For any wire that `SendFile` describes, arriving in order at least up to an end of file: completion if and only if the file is within the limit and arrivals are punctual, and the server then has the client's file |
| UdpRuns.NoEndNoCompletion | UDP/file_transfer_UDP/file_transfer_UDP_client/file_transfer_client.c:256-260 | If no end of file was sent the server never completes |
| UdpClient.SendFile | UDP/file_transfer_UDP/file_transfer_UDP_client/file_transfer_client.c:194-270 | Status and wire are a function of the file, the token and the replies; without a failure the status is 0 and three ends of file are sent; with status 0 the wire holds the token, the whole file in non-empty chunks of at most 512 bytes, and three ends of file or fewer if a send failed; otherwise a prefix; with a valid token status 0 is exactly when the token and every chunk could be sent and read, and no end of file is sent exactly when the first reply after that other than EINTR is a failure |
| UdpClient.InterruptionIgnored | UDP/file_transfer_UDP/file_transfer_UDP_client/file_transfer_client.c:102-251 | An interruption anywhere, of a read or of a sendto, changes neither the exit status nor the wire |
| UdpClient.SendChunks | UDP/file_transfer_UDP/file_transfer_UDP_client/file_transfer_client.c:233-253 | The chunks sent spell the part of the file that was read, for all short reads and EINTR |
| UdpClient.SendEofs | UDP/file_transfer_UDP/file_transfer_UDP_client/file_transfer_client.c:256-260 | Three empty datagrams, fewer exactly if sending failed, and none exactly if the first reply other than EINTR is a failure |
| UdpClient.Host.SendDatagram | UDP/file_transfer_UDP/file_transfer_UDP_client/file_transfer_client.c:102-114 | sendto is repeated exactly while it is interrupted; the first other reply decides, and the replies after it are left |
| UdpClient.StatusWithoutEnd | UDP/file_transfer_UDP/file_transfer_UDP_client/file_transfer_client.c:256-269 | For every file and valid token there is a run with exit status 0 that sends the whole file and no end of file |
| Ports.StrToL | UDP/file_transfer_UDP/file_transfer_UDP_server/file_transfer_serverV2.c:195 | strtol in base 10: where it stops, the clamped value, and ERANGE |
| Ports.CheckPort | UDP/file_transfer_UDP/file_transfer_UDP_server/file_transfer_serverV2.c:186-206 | p exactly on the canonical decimal of p in 1..65535, -1 on every other string; the client's is the same code |
| Ports.ParsePort | TCP/time_tcp/TCP_client_time/TCP_time_clientV2.c:14-28 | p exactly on spaces, an optional plus, zeros and the decimal of p, -1 on every other string |
| Ports.TimeClientPort | TCP/time_tcp/TCP_client_time/TCP_time_clientV2.c:37-48 | Without a valid argument the client connects to port 65535 |
| Ports.StrictIsLax | TCP/time_tcp/TCP_client_time/TCP_time_clientV2.c:14-28 | What the strict parser takes the lax one takes, with the same value |
| Ports.LaxMeans | TCP/time_tcp/TCP_client_time/TCP_time_clientV2.c:17-22 | The lax forms of a positive number are the strings that strtol reads completely as it |
| Ports.ValueOfDigits | UDP/file_transfer_UDP/file_transfer_UDP_server/file_transfer_serverV2.c:195-205 | Reading a printed number gives it back |
| Ports.DigitsOfValue | UDP/file_transfer_UDP/file_transfer_UDP_server/file_transfer_serverV2.c:192-205 | Printing a number read without leading zeros gives the string back |
| Ports.DigitsAre | UDP/file_transfer_UDP/file_transfer_UDP_server/file_transfer_serverV2.c:195-205 | The decimal digits, character by character |
| Ports.SpaceCodes | UDP/file_transfer_UDP/file_transfer_UDP_server/file_transfer_serverV2.c:195 | The six characters that strtol and sscanf skip |
| Dashboard.MaskToPrefix | UDP/network_dashbord/network_dashbord.c:15-23 | The number of leading ones of any 32-bit word: those bits are ones and the next one is zero |
| Dashboard.LeadingOnesRange | UDP/network_dashbord/network_dashbord.c:15-23 | Equivalently, the word lies between the masks of that many ones and of one more |
| Dashboard.MaskBits | UDP/network_dashbord/network_dashbord.c:15-23 | A word is the mask of a prefix if and only if exactly its top bits are ones (section 3.1 of RFC 4632) |
| Dashboard.BitIs | UDP/network_dashbord/network_dashbord.c:18-20 | The bit tested after k shifts is bit 31 - k of the word |
| Dashboard.PrefixOfMask | UDP/network_dashbord/network_dashbord.c:15-23 | That number is unique, and for the mask of a prefix it is the prefix |
| Dashboard.MaskOfPrefix | UDP/network_dashbord/network_dashbord.c:15-23 | Rebuilding the mask gives the word back exactly if no one comes after a zero |
| PortList.Listing.ReadProc | UDP/network_dashbord/network_dashbord.c:95-132 | Appends the matching rows, up to 1024 entries in all |
| PortList.MatchingMembers | UDP/network_dashbord/network_dashbord.c:104-130 | The entries of a table are exactly those of its rows that parse and are in the state wanted |
| PortList.MatchingConcat | UDP/network_dashbord/network_dashbord.c:104-130 | They come in the order of the rows |
| PortList.Listing.Collect | UDP/network_dashbord/network_dashbord.c:135-138 | The capacity is shared: the first 1024 matching rows of all tables |
| PortList.Listing.Sort | UDP/network_dashbord/network_dashbord.c:90-140 | An ascending permutation in strcmp order |
| PortList.Listing.Unique | UDP/network_dashbord/network_dashbord.c:144-157 | From a sorted list, strictly ascending output with the same members |
| PortList.Listing.PrintPorts | UDP/network_dashbord/network_dashbord.c:134-163 | The distinct entries among the first 1024 matching rows, in strictly ascending strcmp order, split into fields; for plain tables, exactly the triples of those rows, each once |
| PortList.ListingUnique | UDP/network_dashbord/network_dashbord.c:140-149 | Strictly ascending lists with the same members are equal, so the list printed does not depend on the order or repetition of the rows |
| PortList.SplitFormat | UDP/network_dashbord/network_dashbord.c:129-155 | Splitting a formatted row gives back protocol, address and decimal port, and nothing is cut off |
| PortList.SplitMeans | UDP/network_dashbord/network_dashbord.c:151-153 | Of every line: three words of at most 15, 127 and 15 characters, each after spaces, or the whole line has fewer than three |
| PortList.SplitAllConcat | UDP/network_dashbord/network_dashbord.c:144-157 | Each entry is printed by itself; one that does not split is passed over and the others still are |
| PortList.AddressesHaveNoSpace | UDP/network_dashbord/network_dashbord.c:119-126 | The characters of printed addresses are no spaces |
| PortList.SplitAllWhole | UDP/network_dashbord/network_dashbord.c:151-156 | If all entries split, they are printed one for one |
| PortList.PlainTablesSplit | UDP/network_dashbord/network_dashbord.c:129-153 | The entries of rows with space-free fields that fit the buffers all split |
| PortList.PrintedTriples | UDP/network_dashbord/network_dashbord.c:129-156 | For rows with space-free fields that fit the buffers, what is printed is exactly the set of (protocol, address, decimal port) of the first 1024 matching rows, without repetition and in strcmp order of the entries |
| PortList.BeforeTotal | UDP/network_dashbord/network_dashbord.c:90-92 | strcmp order is total and strict |
| PortList.BeforeTransitive | UDP/network_dashbord/network_dashbord.c:90-92 | strcmp order is transitive |
| PortList.BeforeMeans | UDP/network_dashbord/network_dashbord.c:90-92 | strcmp order: the first difference decides, or the end of the first string |

## Left out

* Socket setup, name resolution, bind, listen, signals, fork, prompts and printing: calls into the operating system; the kernel is the scripted adversary described above.
* A run in which EINTR never stops coming: a script of replies is finite, so termination is not claimed for endless interruptions.
* A listener descriptor of FD_SETSIZE or more: the source does not guard against it, and `ChatServer.Run` requires a smaller one.
* The time that `ct_equal` takes: only its result is modelled.
* `print_sanitized`, the chat clients, the port scanner, the page fetcher, the TCP file transfer and the V1 programs other than the UDP file server: per-byte maps and straight-line input and output.
* `check_auth` and `ct_equal` of the UDP servers: never called there; the same code is proved for the chat server.
* A successful `write` of fewer bytes than asked for: the UDP servers test only for -1, and the model takes success to mean all bytes.
* `malloc` contents: the chat buffer of a connection is allocated anew for each batch, and freeing it is not modelled.
* inet_ntop, sscanf on /proc rows and getifaddrs: rows come parsed, addresses as text; a row whose address does not parse is a row that does not match.
* Names of output files and reported transfer times: not part of what is transferred.
- AuthLines.AuthLineIsBroadcast: exhibits states and steps that satisfy what `ChatServer.Run` promises of every run; it does not compute them from a script of kernel replies, because the contracts of the socket calls leave the sizes of reads and sends open.
- Clock.Duration: does not model 64-bit overflow of microsecond counts, which needs a date some 290,000 years away.
- PortList.Listing.Sort: the C library's algorithm is not modelled, only a sort with the same specification.
- TcpClients.ReceiveReply: printing with %s stops at the first NUL byte of the reply, which is not modelled.
- SocketLoops.Drain: the number of recv calls is not bounded by anything but the number of bytes.
