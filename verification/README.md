# Verified model of GSnova's stateful and byte-parsing parts

GSnova is a proxy client and server.  These modules model the parts of it that keep
state across concurrent callers or that parse bytes another part has written, and
prove what those parts promise.  `dafny verify dfyconfig.toml` checks everything.

**HTTP duplex tunnel** (`HttpUpload*`, `HttpServerPull`, `HttpDownload`, and the classes in
`HttpClientConn` and `HttpServerConn`).  A byte stream is carried by many short HTTP
requests.  The upload is a step system of writers, `push`, `chunkPush`, the transport and the
server; the download one of overlapping pull handlers, timers, stop notifications, `Close` and
the client's renewals.  A step is one critical section or one channel operation, and an action
whose guard does not hold leaves the state as it is, so a run is any sequence of actions.  The
classes hold the real fields; every method is proved to be one of the steps.

**Argument codec** (`SocksArgs*`, `Order`).  The escaper, the scanner, both parsers and the
encoder of pluggable-transport arguments, on byte strings.

**SOCKS handshake** (`HostPort`, `Socks5Server`, `Socks5Client`, `Socks5Joint`, `Socks4a`).  The
server's three phases over a buffered connection, the client's single procedure, and the two run
against each other (sections 3 to 6 of RFC 1928, section 2 of RFC 1929).

**Host aliases** (`Rotation`, `Hosts`, `HostTable`).  Rotating answers, recursive aliases, and
wildcard hits written back into the table.

**Mux sessions** (`MuxHolder`, `MuxChannel`, `MuxConns`).  Retirement, draining and closing of
sessions, and the channel's round robin over its holders with failover.

**UDP gateway** (`UdpPacket`, `UdpExpiry`, `UdpGateway`).  The packet format, read through
a buffered reader with a 16-bit count, and the expiry index whose entries are the table's own sessions, so that its keys change in place.

**SNI scanner** (`Sni`, `SniEncoding`) and **P2P** (`P2PRooms`, `P2PServer`, `P2PRendezvous`).  The ClientHello scan
against its wire format and an encoder of hellos (section 7.4.1.2 of RFC 5246, section 3 of RFC 6066); the table of rooms;
and the address exchange between two peers that choose their roles by comparing addresses.

## What the proofs say that one would not expect

- A `Close` lets a pull handler attach its writer after `closeWrite`, take the notification and
  return, while the connection still runs and holds that writer
  (`HttpServerPull.ClosingCanLeaveADeadWriter`).  Until a notification no such writer exists.
- The download stream keeps its order, through `Close` and beyond, as long as no Write goes to such
  a writer (`HttpDownload.DownloadIsPrefix`).  After one that does, the client can read something
  wrong exactly if it can still get another response: if it waits for one whose handler has not
  attached, or if the dead response is no 401 and neither has the client closed nor the server
  removed the connection (`MissedWriteBreaksTheStreamExactlyIf`).
- The upload stream keeps its order as long as no request ends with bytes on its wire
  (`UploadIsPrefix`); when one does, `HttpUploadHoles.CutShortBreaksTheStreamExactlyIf` says
  precisely when the server can read something wrong.
- Everything queued can reach the server exactly if `push` is not holding a batch without a byte in
  front of bytes, which it never lets go (`EverythingCanArrive`).  One empty Write can get it there.
- The five-second acknowledgement timer can make the server read more than was written, from every
  state of a delivering connection in which it fires (`RetryBreaksTheStream`).
- A SOCKS5 login succeeds only if user and password put together parse as `key=value` arguments
  (`Socks5Joint.BothOrNeither`); the server's `Target` stops denoting the endpoint for names with a
  colon or bracket in them (`TargetIsTheEndpoint`).
- A ClientHello whose server_name extension holds no host_name is answered with bytes of the
  extensions behind it exactly if those begin like further names (`SniEncoding.MisreadExactlyIf`).
- `getPeerAddr` depends on the map's iteration order exactly if members other than the asker have
  different addresses (`P2PRooms.DeterminedExactlyIf`): never for a member, but for a stranger.
- A UDP gateway packet whose 16-bit length wraps is lost if its bytes arrive at once, and yet some
  can be read back if they arrive in the right portions (`UdpPacket.ReadsBackExactlyIf`).
- Two peers can both become P2P clients when one of them has registered again after the other
  was told its address (`StaleAddressesClash`).

## Assumptions

- When `newChunkPushBody` runs, the transport is out of the old body's `Read`.  The read buffer is a
  byte FIFO.
- A pull is answered once its response has a status, 401 or that of its first Write, at the latest
  when its handler has returned.  The response delivers what was written before that, and then ends:
  a later Write to it is reported as written and delivers nothing.
- A buffered reader works as `bufio.Reader` does with 4096 bytes; a connection delivers its bytes in
  portions of any size, and then ends.
- Alias graphs are acyclic: `rank` falls along every alias step.  A regular expression is a function
  from strings to booleans; compilation may fail.
- IP text: what `net.ParseIP` accepts is printed to text that parses to the same address, without
  brackets, an IPv4 address also without colons (`HostPort.ReadsItself`).
- Everything the client has sent counts as buffered when the SOCKS server checks its buffer, the
  least favourable case; writes to a connection do not fail.
- In the UDP gateway the lookup of a session and its touch are one step, `close` is called on
  sessions that are in the table, and a tick reads the clock once.  The btree is the sequence it
  keeps in order.
- The P2P server sees a nonempty remote address, and a peer runs one exchange session at a time.
- Time, dialing, opening streams and stream counts are parameters of the operations.

## Model

| member | source | states |
|---|---|---|
| HttpUploadTheorems.ChunkedUploadConserves | common/channel/http/local.go:28-62 | in every reachable state the bytes handed to the transport, then the read buffer, are the accepted batches in order, and accepted batches, abandoned frames, the batch in hand and sendCh are together what was queued |
| HttpUploadTheorems.UploadIsPrefix | common/channel/http/local.go:246-295 | while no request was cut short the server has read a prefix of the frames in sendCh order; without the timer's retry, of the Writes, each once |
| HttpUploadTheorems.AcknowledgedOnce | common/channel/http/local.go:349-372 | a Write that was told success has its bytes in the accepted batches exactly once, if the timer never fired |
| HttpUploadTheorems.EveryByteIsSomewhere | common/channel/http/remote.go:42-63 | even when requests are lost, each byte the transport was handed is read, buffered, on a wire or dropped: no more and no fewer |
| HttpUploadProgress.EverythingCanArrive | common/channel/http/local.go:281-295 | from a reachable state of a running connection some continuation brings the server everything queued if and only if push does not hold a batch without bytes while bytes wait behind it |
| HttpUploadProgress.WedgedBatchStopsArrival | common/channel/http/local.go:287-295 | behind such a batch no continuation ever brings the server as many bytes as were queued |
| HttpUploadProgress.EmptyWriteWedgesPush | common/channel/http/local.go:272-295 | one empty Write can lead to a batch behind which nothing is ever accepted |
| HttpUploadProgress.CutShortBreaksTheStream | common/channel/http/local.go:197-208 | whenever a request ends with bytes on its wire and push holds no batch without bytes, some continuation reads no prefix of what was queued |
| HttpUploadHoles.CutShortBreaksTheStreamExactlyIf | common/channel/http/local.go:197-208 | if push does hold one, exactly if the read buffer has something and not all bytes on the wire and in it are the same |
| HttpUploadProgress.ARequestCanBeCutShort | common/channel/http/local.go:197-208 | any nonempty Write brings a fresh connection to such a state |
| HttpUploadProgress.RetryBreaksTheStream | common/channel/http/local.go:364-371 | from every reachable delivering state in which the timer of a nonempty Write fires some continuation reads no prefix of the Writes |
| HttpUploadProgress.RetryDuplicates | common/channel/http/local.go:364-371 | so it does for the first Write of a fresh connection, whatever its bytes |
| HttpUpload.StepKeepsInv | common/channel/http/local.go:246-320 | every step of writer, push, body, transport and server keeps the five invariants of the upload |
| HttpUpload.AckedKeepsInv | common/channel/http/local.go:266-271 | notifyDone tells success only to frames whose bytes are in an accepted batch |
| HttpUpload.HandSplits | common/channel/http/local.go:28-39 | a Read of any size moves bytes from the read buffer to the newest request's wire and neither loses nor repeats one |
| HttpClientConn.ChunkedBody.Read | common/channel/http/local.go:28-39 | result and read buffer together are the old buffer, or the batch from the channel; only a nil on an empty buffer ends the body |
| HttpClientConn.ChunkedBody.Close | common/channel/http/local.go:40-47 | ends a waiting Read, and does nothing if none waits |
| HttpClientConn.HttpDuplexConn.Write | common/channel/http/local.go:349-358 | appends the frame to sendCh: the Write step |
| HttpClientConn.HttpDuplexConn.LoopTest | common/channel/http/local.go:272-319 | the loop test of push, and behind the loop the notification of every frame in hand |
| HttpClientConn.HttpDuplexConn.ReadFrames | common/channel/http/local.go:247-263 | drains sendCh in order into the batch in hand: the Take steps and Drained |
| HttpClientConn.HttpDuplexConn.OfferFrames | common/channel/http/local.go:281-295 | accepted exactly when there is a byte and a Read waits; then the step OfferAccepted, otherwise OfferTimeout |
| HttpClientConn.HttpDuplexConn.Gathered | common/channel/http/local.go:281-284 | sendBuffer is the data of the frames, in order |
| HttpClientConn.HttpDuplexConn.NotifyDone | common/channel/http/local.go:266-271 | every frame hears err unless its channel is full already |
| HttpClientConn.HttpDuplexConn.NewChunkPushBody | common/channel/http/local.go:169-177 | a fresh body that takes over the old read buffer: the step RequestEnds |
| HttpClientConn.HttpDuplexConn.Close | common/channel/http/local.go:373-382 | the Close step, once |
| HttpServerPull.WriterIsAlive | common/channel/http/remote.go:269-299 | with any overlapping pulls, timeouts and missed notifications, a set writer belongs to a handler that has neither returned nor been told to, until a Close gives its notification |
| HttpServerPull.StepKeepsInv | common/channel/http/remote.go:65-75 | each critical section keeps writer and stop channel together and the writer alive |
| HttpServerPull.ClosingCanLeaveADeadWriter | common/channel/http/remote.go:198-207 | the exception is real: whenever a Close is about to give it, a returned handler's writer can be left set |
| HttpServerPull.ADeadWriterIsReachable | common/channel/http/remote.go:198-207 | and every reachable running state leads to one |
| HttpDownload.DownloadIsPrefix | common/channel/http/local.go:322-347 | over any buffer sizes and pull renewals, also behind a Close, the client has read a prefix of the server's successful writes, and the responses share those bytes out, each to one pull, in order, as long as no byte was written to a response that had ended |
| HttpDownload.NoneMissed | common/channel/http/remote.go:132-150 | none is before a Close gives its notification |
| HttpDownload.MissedWriteBreaksTheStreamExactlyIf | common/channel/http/local.go:212-244 | behind such a Write, of any bytes, whole or failing midway, a continuation in which the client reads no prefix of what was written exists if and only if the newest handler has not attached yet, or its answer is no 401 and neither has the client closed nor the connection left the table |
| HttpDownload.AWriteCanBeMissed | common/channel/http/remote.go:281-299 | both cases are reachable on a running connection: the first behind anything written to the response that takes the notification, the second if nothing was, so that it is a 401 |
| HttpDownload.EverythingCanBeRead | common/channel/http/local.go:212-244 | while no Write was missed some continuation lets the client read everything written so far, also behind a Close of either side |
| HttpDownload.WritesCanGoOn | common/channel/http/remote.go:132-165 | from every reachable state in which no Close has given its notification and the client has not closed, some continuation lets the next Write through to the client |
| HttpDownload.StepKeepsStream | common/channel/http/remote.go:269-299 | every move of server and client keeps handlers, statuses and position in step, and, while no Write was missed, the log |
| HttpServerConn.HttpDuplexServConn.SetWriter | common/channel/http/remote.go:65-75 | the SetWriter step: the former handler is notified, the new one's writer and channel stored |
| HttpServerConn.HttpDuplexServConn.Write | common/channel/http/remote.go:132-150 | the whole of p, or what a failing writer took, is logged; a failing writer is dropped |
| HttpServerConn.HttpDuplexServConn.CloseWrite | common/channel/http/remote.go:167-178 | the closeWrite critical section |
| HttpServerConn.HttpDuplexServConn.Close | common/channel/http/remote.go:198-207 | closeWrite, notification of one handler and the store, in that order, once, and in any case the removal from the table |
| HttpServerConn.HttpDuplexServConn.Read | common/channel/http/remote.go:103-115 | result and recvBuffer together are the old recvBuffer, up to the size asked for |
| HttpServerConn.HttpDuplexServConn.SetReader | common/channel/http/remote.go:42-63 | recvBuffer grows by the request's body, piece by piece in order |
| SocksArgs.IndexUnescaped | common/socks/args.go:38-57 | the loop computes the scanner's specification Scan |
| SocksArgs.BackslashEscape | common/socks/args.go:180-189 | the loop computes the escaper's specification Escape |
| SocksArgs.ScanInvertsEscape | common/socks/args.go:38-57 | in front of a terminator or the end the scanner gives back the escaped text, for all texts whose terminators are escaped |
| SocksArgs.ScanInvertsEscapeOnlyIf | common/socks/args.go:180-189 | it does so exactly when every terminator in the text is in the escape set |
| SocksArgs.AddAllOfListing | common/socks/args.go:31-33 | adding a listing of a map pair by pair gives the map exactly when it has no empty list |
| SocksArgsCodec.ParseClientParameters | common/socks/args.go:65-107 | the loop computes ParseClient, including every error case |
| SocksArgsCodec.ParsesEncodedPairs | common/socks/args.go:65-107 | any encoded list of pairs parses to all of its pairs added in order, or fails for an empty key |
| SocksArgsCodec.ClientRoundTrip | common/socks/args.go:65-107 | every listing of a map, encoded, parses back to it exactly when it has no empty key and no empty list |
| SocksArgsCodec.ParseIsIdempotent | common/socks/args.go:65-107 | what was parsed, encoded in any listing order, parses to the same |
| SocksArgsOptions.ParseServerTransportOptions | common/socks/args.go:115-177 | the loop computes ParseOptions, including the order in which errors are found |
| SocksArgsOptions.OptionsRoundTrip | common/socks/args.go:115-177 | every listing of a method-keyed map, encoded, parses back to it exactly when no name or key is empty and nothing in it is |
| SocksArgsSmethod.EncodeSmethodArgs | common/socks/args.go:196-219 | prints the sorted, escaped form of the mapping, whatever the iteration order |
| SocksArgsSmethod.PrintedFormIsCanonical | common/socks/args.go:201-205 | there is only one such form |
| SocksArgsSmethod.PrintedFormTellsTheMapping | common/socks/args.go:196-219 | two mappings print alike exactly when they differ at most in keys with empty lists |
| SocksArgsSmethod.PrintedFormIsInjective | common/socks/args.go:196-219 | the printed form is injective on mappings without empty lists |
| Socks5Joint.BothOrNeither | common/helper/net.go:336-463 | for every login, host and port both ends succeed or neither, exactly when the request is well-formed and the login parses; then the server has login, arguments and endpoint, and no byte is unread at either end |
| Socks5Joint.TargetIsTheEndpoint | common/socks/socks.go:553-560 | after success Target denotes the requested endpoint: always for addresses, for names exactly when they hold no colon or bracket |
| Socks5Joint.CredentialsReadBack | common/socks/socks.go:398-467 | the server reads the client's login message as it was meant, or answers 01 01 and fails: for an empty password or arguments that do not parse |
| Socks5Joint.WithLogin | common/helper/net.go:372-394 | a login that does not parse ends as Rejected at the client and as an error at the server |
| Socks5Joint.CommandReadsBack | common/socks/socks.go:472-561 | the server reads the client's connect message as it was meant and leaves nothing over |
| Socks5Joint.OnlyMessagesAreTaken | common/socks/socks.go:472-561 | whatever the server accepts as a command is a message the client writes for the endpoint in Target |
| Socks5Joint.ErrorsAreAnswered | common/socks/socks.go:473-536 | which reply code each malformed command gets, and that other failures send nothing |
| Socks5Joint.ClientWritesOn | common/helper/net.go:358-431 | what the client has written at each wait is extended, never changed, by what it reads |
| Socks5Joint.GrantIsTaken | common/socks/socks.go:565-587 | the client accepts the granted reply and consumes all of it |
| Socks5Server.NegotiateAuth | common/socks/socks.go:313-364 | username/password is picked whenever offered, else none, else 0xff; reply, flush and leftover check |
| Socks5Server.Authenticate | common/socks/socks.go:368-392 | no authentication, RFC 1929 or an error, then the flush check |
| Socks5Server.AuthRFC1929 | common/socks/socks.go:398-467 | reads user and password, answers failures, parses the two together, drops the one-NUL password |
| Socks5Server.ReadCommand | common/socks/socks.go:472-561 | consumes the command, answers its errors and sets Target |
| Socks5Server.ReadDestination | common/socks/socks.go:503-546 | the three address types and the reply to any other |
| Socks5Server.SendResponse | common/socks/socks.go:565-582 | the ten reply bytes with zero address and port |
| Socks5Server.ReadWriter.ReadBytes | common/socks/socks.go:619-625 | exactly n bytes, or an error with everything used up |
| Socks5Server.ReadWriter.ReadBytesUntil | common/socks/socks.go:638-644 | the bytes before the first terminator, which is consumed too |
| Socks5Server.ReadWriter.FlushBuffers | common/socks/socks.go:598-613 | sends what was written; an error exactly when bytes are left over |
| Socks5Client.Socks5ProxyConnect | common/helper/net.go:336-463 | for every stream of bytes from the proxy: the outcome, what was written and what was left unread |
| Socks5Client.ReadAnswer | common/helper/net.go:421-462 | success only for code 0, with address and port of any of the three types discarded |
| Socks4a.ReadConnect | common/socks/socks.go:684-751 | reads the SOCKS4a request step by step, with each failure |
| Socks4a.MessageReadsBackExactlyIf | common/socks/socks.go:684-751 | a SOCKS4a message is read as it was meant exactly when the user id parses, no field holds a zero byte and the address announces no name |
| HostPort.TargetDenotes | common/socks/socks.go:513-560 | splitting Target as the client splits its own argument gives back host and port, exactly for addresses and plain names |
| Rotation.EachEntryOncePerRound | common/hosts/hosts.go:22-30 | n turns in a row give each of the n entries exactly once, in cyclic order, from any cursor |
| Rotation.TurnsAreFair | common/channel/mux.go:262-282 | any number of turns gives each entry the floor or the ceiling of its share |
| Hosts.ResolutionIsComplete | common/hosts/hosts.go:35-61 | a true flag means an answer with a dot, a false flag an answer with no exact and no wildcard mapping |
| HostTable.HostMapping.Get | common/hosts/hosts.go:22-30 | the entry whose turn it is, and the cursor one past it |
| HostTable.HostTable.Init | common/hosts/hosts.go:105-132 | a mapping of its own for every name with entries, with a pattern where the name has a star that compiles |
| HostTable.HostTable.GetHost | common/hosts/hosts.go:35-61 | terminates by rank, returns only what the uncached rules can return from the same cursors, and only adds keys matched by the mapping they point to |
| HostTable.HostTable.FindPattern | common/hosts/hosts.go:46-60 | some matching mapping, or none only if no rule matches |
| HostTable.HostTable.Remember | common/hosts/hosts.go:52-55 | the write-back keeps the table a cache of its rules and moves no cursor |
| HostTable.HostTable.Lookups | common/hosts/hosts.go:63-68 | any sequence of lookups on the cached table is a run of the rules alone |
| Sni.PeekTLSServerName | common/helper/sni.go:13-34 | the record header, and what is incomplete |
| Sni.Extensions | common/helper/sni.go:78-115 | the loop over extensions, which ends because each turn shrinks the rest |
| Sni.Names | common/helper/sni.go:94-111 | the inner loop over names |
| Sni.ServerNameIsFound | common/helper/sni.go:13-116 | for every well-formed hello in one record the first host_name is the answer, and no name is without a server_name extension |
| Sni.FindsServerName | common/helper/sni.go:78-115 | the scan of any well-formed extension list finds it |
| SniEncoding.EncodedHelloIsWellFormed | common/helper/sni.go:13-80 | every hello within the format's limits, encoded, with any bytes behind it, is one of those well-formed inputs |
| SniEncoding.EncodedServerNameIsFound | common/helper/sni.go:13-116 | so its first host_name is found, and no name where there is no server_name extension |
| SniEncoding.MisreadExactlyIf | common/helper/sni.go:89-113 | a hello without a host_name in server_name gets a name if and only if the bytes of the extensions behind begin like a list of names with a host_name, of as many as the inner loop still counts |
| SniEncoding.NotMisread | common/helper/sni.go:94-99 | never if the list is empty or the extension is the last |
| SniEncoding.MisreadByTheNext | common/helper/sni.go:100-109 | in front of an extension of a kind below 0x100 if and only if the low byte of the kind and the high byte of its length make a length that is there |
| SniEncoding.AHelloIsMisread | common/helper/sni.go:106-109 | a concrete hello that is |
| MuxHolder.SessionsAreConserved | common/channel/mux.go:44-92 | in every run the authenticated sessions are partitioned into current, retired and closed, none closed twice |
| MuxHolder.OnlyDrainedAreClosed | common/channel/mux.go:44-52 | the clean-up closes retired sessions without streams only; close closes the current one only |
| MuxHolder.StreamsOpenOnLiveSessions | common/channel/mux.go:77-92 | a stream opens on a session neither closed nor expired at the check |
| MuxHolder.DrainedSessionsGo | common/channel/mux.go:77-82 | a retired session without streams is closed by the next call |
| MuxConns.MuxSessionHolder.TryCloseRetiredSessions | common/channel/mux.go:44-52 | the loop closes and removes exactly the drained ones |
| MuxConns.MuxSessionHolder.Close | common/channel/mux.go:61-69 | closes and forgets the current session, if any |
| MuxConns.MuxSessionHolder.Check | common/channel/mux.go:70-75 | retires an expired current session |
| MuxConns.MuxSessionHolder.Init | common/channel/mux.go:127-174 | a session that passes authentication becomes current and gets its expiry |
| MuxConns.MuxSessionHolder.GetNewStream | common/channel/mux.go:77-92 | check, init, open and the deferred clean-up, with the stream or the error |
| MuxConns.LocalProxyChannel.TryP2P | common/channel/mux.go:250-260 | the first P2P session that opens, or none only if none does |
| MuxConns.LocalProxyChannel.TryHolders | common/channel/mux.go:262-286 | the loop over holders does what Call describes to cursor, holders and result |
| MuxConns.LocalProxyChannel.GetMuxStream | common/channel/mux.go:249-287 | a usable P2P session first, without touching cursor or holders, and else the holders in turn |
| MuxChannel.FailsOnlyIfAllFail | common/channel/mux.go:262-286 | holders are tried in cyclic order, none twice, up to the first that opens; failure only after all n; the cursor stays in 0..n |
| MuxChannel.ChoicesRotate | common/channel/mux.go:262-282 | while the holder in turn opens at once, call k gets entry k of the rotation |
| MuxChannel.CallsAreFair | common/channel/mux.go:262-282 | then any k calls give each of n holders the floor or the ceiling of k/n streams |
| UdpPacket.WritePacket | local/udpgw.go:64-75 | the bytes of a packet, its length little-endian and in 16-bit arithmetic |
| UdpPacket.PacketReader.ReadPacket | local/udpgw.go:77-110 | takes from the buffered reader what Next says, for every length, its count wrapping in 16 bits |
| UdpPacket.NextIsReadOne | local/udpgw.go:77-110 | however its bytes arrive, a reader answers what the simple form on plain bytes answers, unless the length is too short for its fields |
| UdpPacket.ReadsWhatWasWritten | local/udpgw.go:64-110 | however it arrives, a written packet is read back with the rest of the stream untouched, or overflows the reader's buffer |
| UdpPacket.ReadsBackExactlyIf | local/udpgw.go:64-110 | any packet, of whatever length, is read back by every arrival exactly when its flag tells its address length and its body fits 4096 bytes; by some arrival exactly when besides the flag the body fits, or it wraps to another length than 3 and the content is below 65536 bytes |
| UdpPacket.StreamRoundTrip | local/udpgw.go:317-332 | any sequence of such packets written back to back is decoded into the same sequence, however it arrives |
| UdpExpiry.TouchKeepsIndex | local/udpgw.go:281-291 | a touch keeps one entry per session, keyed by its current time, in order |
| UdpExpiry.IndexIsDetermined | local/udpgw.go:34-40 | a table has only one index |
| UdpExpiry.TickTakesTheOldest | local/udpgw.go:256-272 | a tick takes min(5, number idle) sessions, all of them idle, none older left, fewer than five only if no idle one is left |
| UdpExpiry.IdleComeFirst | local/udpgw.go:259-270 | the idle sessions are a prefix of the index |
| UdpGateway.UdpGateway.BtreeDelete | local/udpgw.go:284-286 | takes out exactly the entry with the session's present key |
| UdpGateway.UdpGateway.BtreeInsert | local/udpgw.go:287-290 | puts the entry where order demands |
| UdpGateway.UdpGateway.GetUDPSession | local/udpgw.go:293-309 | the table's session, a new one that the index does not hold, or null when none is to be made |
| UdpGateway.UdpGateway.UpdateUdpSession | local/udpgw.go:281-291 | out under the old key before the time changes, in under the new one |
| UdpGateway.UdpGateway.Packet | local/udpgw.go:335-337 | lookup and touch keep table and index in agreement |
| UdpGateway.UdpGateway.Close | local/udpgw.go:131-135 | the session leaves both table and index |
| UdpGateway.UdpGateway.Tick | local/udpgw.go:256-272 | the loop removes exactly the Due oldest from both |
| P2PRooms.RunKeepsRooms | common/channel/remote_p2p.go:22-85 | in every run each room in the table has one or two members |
| P2PRooms.JoinsOrChangesNothing | common/channel/remote_p2p.go:22-55 | a join is refused exactly when a full room lacks its sender, and then changes nothing |
| P2PRooms.PeerOfMemberIsDetermined | common/channel/remote_p2p.go:87-101 | in every run a member's answer does not depend on map iteration order |
| P2PRooms.DeterminedExactlyIf | common/channel/remote_p2p.go:95-99 | whoever asks about whatever table, the order makes no difference if and only if all members but the asker have the same two addresses |
| P2PRooms.StrangersCanBeToldEither | common/channel/remote_p2p.go:95-99 | a run of two joins after which it does for a stranger |
| P2PRooms.TableMirrorsSessions | common/channel/remote_p2p.go:22-85 | in runs of data joins the table holds exactly the sessions joined and not left, each in its place, and is empty once all have left |
| P2PServer.P2PServer.AddP2PSession | common/channel/remote_p2p.go:22-55 | the table and the answer that Add describes |
| P2PServer.P2PServer.RemoveP2PSession | common/channel/remote_p2p.go:57-85 | the table that Remove describes, and whether there was such a node |
| P2PServer.P2PServer.GetPeerAddr | common/channel/remote_p2p.go:87-101 | the addresses of another member, empty only if there is none |
| P2PServer.P2PServer.OpenPeerStream | common/channel/remote_p2p.go:103-126 | a stream only on a session of another member; none only if they have no session or one of theirs fails |
| P2PServer.P2PServer.AuthReply | common/channel/remote.go:287-304 | the reply: the asker's own public address, and another member's two once it has any |
| P2PServer.P2PServer.ServerAuth | common/channel/remote.go:280-304 | registration and reply, when nobody comes in between |
| P2PRendezvous.RolesAreComplementary | common/channel/local_p2p.go:220-261 | the address a peer adopts is the one its partner is told, and two peers up to date take different roles exactly when their addresses differ |
| P2PRendezvous.WithoutRestartRolesAreComplementary | common/channel/local_p2p.go:209-261 | so do two peers that never had to start a second session |
| P2PRendezvous.StaleAddressesClash | common/channel/local_p2p.go:257-261 | being up to date is needed: a run after which both are clients though their addresses differ |
| P2PRendezvous.StepKeepsInv | common/channel/remote.go:280-304 | every connect, request, registration, lookup, reply, leave or foreign operation keeps what is registered, replied and adopted in agreement |
| P2PRendezvous.ToldOfPartner | common/channel/remote_p2p.go:87-101 | an address that a peer is told and that is its partner's is what the partner's last registered session registers |

## Left out

- HTTP push without chunked encoding: its retries deliver at least once, not exactly once.
- Frames that arrive while `push` shuts down: they hear whatever the closing connection tells them.
- `HTTPInvoke` outside its pull branch and the session id table: bookkeeping by header values.
- HttpUploadTheorems.UploadIsPrefix: does not cover runs in which a request ends with bytes on its wire, because the property is false of them, as CutShortBreaksTheStreamExactlyIf shows.
- HttpServerPull.WriterIsAlive: says nothing once a Close has given its notification, because the property is false there, as ClosingCanLeaveADeadWriter shows.
- HttpDownload.DownloadIsPrefix: does not cover a Write to a response that has ended, of which it is false, as MissedWriteBreaksTheStreamExactlyIf shows, nor a client that gives up a pull or a response midway, which loses what that response held.
- HttpClientConn.HttpDuplexConn.Write: is the first select with room in sendCh; the running test, closeCh, the timer and the acknowledgment are steps of HttpUpload.
- HttpClientConn.HttpDuplexConn.ReadFrames: is the draining loop; the select that waits is the steps PushTake, PushClosed and PushWaitTimeout.
- HttpServerConn.HttpDuplexServConn.Write: is the turn that has found a writer; the running test and the wait are between steps.
- HttpServerConn.HttpDuplexServConn.Read: is the turn on a buffer; the running test and the wait are between steps.
- HttpServerConn.HttpDuplexServConn.Close: is a Close that nobody interrupts; its six steps are apart in HttpServerPull.
- A second connection under the same id: behind the removal a pull of a client that knows its ack id is answered 401; one that never got an ack id would open a new connection, which is not modelled.
- P2PServer.P2PServer.ServerAuth: is a call that nobody interrupts; in P2PRendezvous its two critical sections are steps of their own.
- P2PRooms.TableMirrorsSessions: does not cover runs in which sessions also register addresses, because the end of a data session takes a registered address with it.
- Socks5Joint.BothOrNeither: does not cover passwords longer than 255 bytes, whose length the client cuts to a byte.
- The capacity of the client's `buf` slice and of bufio's 4096 bytes in the SOCKS handshake: buffers are as large as the messages.
- `url.Parse`, `strconv.Atoi` and `net.SplitHostPort` before `Socks5ProxyConnect`: host and port are its parameters.
- SOCKS4a replies and listener deadlines: fixed bytes and timers.
- Malformed ClientHello beyond what the scan answers: the scan's index errors are a Crash result.
- The goroutine around a UDP session's stream, and `closeAllUDPSession`, which leaves the index behind.
- The btree's nodes, regexp matching and sort.Strings: only their results are modelled.
- A mux session that fails authentication, which the holder never stores or closes; stream counters of HTTP/2 and QUIC sessions; heartbeat pings.
- Dialing between peers, UPNP discovery and the retry against the same failed addresses: the last is a step that forgets a reply.
- Cipher reset after authentication, multiplexing, compression, rate limits, TLS, DNS, logging, admin server and configuration.
