# Game server hosting SDK: a verified model of the query protocols and the server lifecycle

This project models the server half of the Unity Gaming Services Go SDK (`game-server-hosting/server`) in Dafny and
proves what its query protocols and its lifecycle are for.

* **Query subsystem.** Clients ask for a challenge and echo it to get information. `Challenges` holds the store of
  pending challenges and the purges that run beside the requests; `Sqp` and `A2s` hold the two wire formats; `Wire` is
  the schema-driven serialiser both use, over the numbers of `Bytes`; `Responder` is the responder, as a function and as
  the class that refines it; `Answers` tells what it answers, by the bytes of packet and reply; `Handshake` is about all interleavings of requests and purge steps, `PurgeRuns` about what
  purges do to them, `Echoes` about when a challenge echoed is answered; `QueryLoop` is the UDP loop over its one reused
  buffer, with purges moving beside it, and `Socket` what a client sees of it, read by read.
* **Server.** `Server` is the server object, updated in place; `Metrics`, `Players`, `Channels` and `Allocation` specify
  its parts and prove what holds over every sequence of calls; `Lifecycle` is the start/stop handshake between the caller
  and its three goroutines.

Each imperative member is proved equal to a function on values, and the theorems are about runs of those functions.
A run of the handshake is a sequence of events: the purge launch of a request, the store access of a request, a purge
visiting a key, a purge deleting the key it marked. A request for a challenge is two events, so purge steps may fall
between its launch and its store access. The machine allows more than the program does (a purge may visit a key twice or
skip a deletion, a purge may be launched without a request), so what holds of its runs holds of the program's. The
responder and the loop are given the steps of purges as inputs, wherever they can fall: while the loop is blocked in a
read, and between the launch of a purge and the storing of the challenge; their effect and their replies are those of
the run that has these steps in these places (`RequestIsRun`, `LoopIsRun`).

## What turned out false, and exactly when it holds

* A correct, timely echo is not always answered: a purge that judged the old entry of the key stale can delete the new
  one (`FreshChallengeLost`). It is accepted if and only if, for A2S, the challenge is not 0, which that protocol reads
  as "none", and no purge deletes the key meanwhile that had visited it before the ask and found the older entry stale,
  or since with an epoch after the new expiry (`EchoAcceptedExactly`).
* Zero padding is not always transparent to the A2S parser: it is, for an accepted request, unless the zeros bring the
  bytes from the NUL on to 2, 3 or 4 (`PaddingTransparentExactly`); and it turns a rejected, cut challenge into an
  accepted one (`PaddingRescuesCutChallenge`). Behind the loop's whole-buffer reads the length check of the SQP handler
  cannot fail, and an empty datagram asks for a challenge (`ShortSqpDatagrams`). `PaddedMeansTheSame` says for which
  packets, of either protocol, handing over the whole buffer makes no difference.
* `SetMetric` can panic: exactly if the server was not started with SQP and its configuration was later rewritten to SQP
  (`OutcomeExactly`, `PanicReachable`).
* `Stop` does not wait for a query handler that registers late (`QueryMayOutliveStop`); it has finished if and only if it
  had registered by then (`QueryAtStop`). After a failed start of the event watcher `Stop` never returns
  (`StopHangsAfterFailedStart`). And it can bring the program down: if the handler registers after the counter reached
  zero under the waiting caller and before that caller has resumed, the wait group panics (`StopMayPanic`). From which
  states this can still happen is `PanicExactly`; a handler that registers before rules it out
  (`RegisteredInTimeNeverPanics`).
* The player counter wraps: it follows the reflected walk exactly as long as the walk stays below 2^31
  (`FollowsUntilOverflow`), and is never negative exactly if it never overflows (`NegativeOnlyByOverflow`). An assignment
  sets it right again (`AssignmentRestarts`).

Where the comments and the code disagree the model follows the code. The comment on `GenerateChallenge` speaks of stale
challenges not purged "for a while"; the code launches a purge whenever the clock has moved at all since the last one.
The comment on `SetMetric` says that indices above `MaxMetrics` are out of bounds; the code refuses `MaxMetrics` itself too.

## Model

| member | source | states |
|---|---|---|
| Bytes.NumberRoundTrip | game-server-hosting/server/proto/sqp/encoder.go:23-25 | Writing a number at a fixed width and reading it back gives it modulo the width, in either byte order |
| Bytes.Word | game-server-hosting/server/proto/sqp/encoder.go:23-25 | Big-endian puts the most significant of four bytes first, little-endian last |
| Bytes.BytesRoundTrip | game-server-hosting/server/proto/a2s/encoder.go:18-21 | Reading bytes as a number and writing it gives the same bytes |
| Wire.WriteString | game-server-hosting/server/proto/sqp/encoder.go:14-20 | Appends the one-byte length (truncated) and the string, or for A2S the string and a NUL |
| Wire.Write | game-server-hosting/server/proto/a2s/encoder.go:18-21 | Appends a number or slice in the encoder's byte order; kinds the binary package refuses are an error and append nothing |
| Wire.WireWrite | game-server-hosting/server/proto/query.go:35-69 | Appends the encodings of the fields in order, recursing into structs, skipping nil pointers, stopping at the first error; changes nothing already written |
| Wire.TextRoundTrip | game-server-hosting/server/proto/sqp/encoder.go:14-20 | A string survives its encoding if and only if it has at most 255 bytes (SQP), or no NUL (A2S) |
| Wire.SqpTextReads | game-server-hosting/server/proto/sqp/encoder.go:14-20 | Of any SQP string a client reads as many bytes as its length modulo 2^8, and takes the rest for what follows |
| Wire.A2sTextReads | game-server-hosting/server/proto/a2s/encoder.go:13-15 | Of an A2S string with a NUL inside a client reads what comes before it |
| Wire.RoundTrip | game-server-hosting/server/proto/query.go:35-69 | Any conforming nested record is written without error and decodes, whatever follows it, to itself and exactly what follows |
| Wire.Canonical | game-server-hosting/server/proto/query.go:35-69 | Whatever decodes conforms to the schema, and encodes to the very bytes it was read from |
| Wire.RoundTripExactly | game-server-hosting/server/proto/query.go:35-69 | A value survives writing and reading under a schema if and only if it conforms to it |
| Wire.WriteFailsExactly | game-server-hosting/server/proto/query.go:56-65 | A write fails if and only if a field of a refused kind is reachable |
| Challenges.QueryBase.GenerateChallenge | game-server-hosting/server/proto/base.go:37-63 | Launches a purge if the clock moved, lets purges in flight move, then stores the draw with an expiry one minute on; a failed draw stores nothing |
| Challenges.QueryBase.ChallengeMatchesForClient | game-server-hosting/server/proto/base.go:67-83 | Consumes the entry whether or not it matches, and says which of the three cases it was (Handshake.AttemptOutcome says when) |
| Challenges.QueryBase.PurgeStaleChallenges | game-server-hosting/server/proto/base.go:86-96 | Alone, a purge leaves exactly the entries whose expiry is not before its epoch |
| Challenges.SweepExact | game-server-hosting/server/proto/base.go:86-96 | So does any order of visits covering the store, repeats allowed; an incomplete one removes only stale entries it visited |
| Sqp.QueryStateToMetrics | game-server-hosting/server/proto/sqp/metrics_info.go:21-31 | The count is the number of values, at most ten, and the values are the first ones of the state |
| Sqp.MaskBits | game-server-hosting/server/proto/sqp/sqp.go:113-115 | The chunk tests are those of bits 0 and 4 of the mask; metrics need version 2 besides |
| Sqp.ChallengeReply | game-server-hosting/server/proto/sqp/sqp.go:75-95 | A challenge reply is a zero byte and the challenge in big-endian order |
| Sqp.ServerInfoLayout | game-server-hosting/server/proto/sqp/server_info.go:23-40 | The server-info chunk on the wire, field by field |
| Sqp.ChunkLengthAgrees | game-server-hosting/server/proto/sqp/server_info.go:43-53 | The announced chunk lengths equal the bytes emitted for the chunk modulo 2^32, for every string and metric list |
| Sqp.QueryReplyLayout | game-server-hosting/server/proto/sqp/sqp.go:24-35 | A reply is an 11-byte head carrying the payload length, then each chunk behind its own length |
| Sqp.PayloadLengthAgrees | game-server-hosting/server/proto/sqp/sqp.go:113-145 | The payload length is the reply length less 11 modulo 2^16, exact if and only if that fits, and with strings of at most 255 bytes the reply has at most 835 bytes |
| Sqp.QueryReplyDecodes | game-server-hosting/server/proto/sqp/sqp.go:116-145 | A client that knows which chunks it asked for decodes exactly the record the responder built |
| Sqp.ReplyReports | game-server-hosting/server/proto/sqp/sqp.go:113-145 | What it decodes is the state, or zeros and "n/a" without one: counts modulo 2^16, every string, the first ten metrics, and every length exact |
| Sqp.ReplyIsBytes | game-server-hosting/server/proto/sqp/sqp.go:113-145 | A reply for any state and strings of any length, byte by byte |
| A2s.ParseInfoRequest | game-server-hosting/server/proto/a2s/a2s.go:135-177 | The scanning parser computes the meaning of the packet and never reads out of range |
| A2s.ParseInvertsPrint | game-server-hosting/server/proto/a2s/a2s.go:135-177 | Parsing header, NUL-free payload, NUL, challenge and anything returns the payload and the challenge |
| A2s.AcceptsExactly | game-server-hosting/server/proto/a2s/a2s.go:135-177 | The accepted packets are exactly the header and payload alone, with a lone NUL, or with NUL and challenge |
| A2s.RejectsExactly | game-server-hosting/server/proto/a2s/a2s.go:172-174 | With the header in place, a packet is rejected if and only if its challenge is cut to one to three bytes |
| A2s.PaddingTransparentExactly | game-server-hosting/server/proto/a2s/a2s.go:143-174 | Zero padding keeps the meaning of an accepted packet if and only if it does not bring the tail from the NUL on to 2, 3 or 4 bytes |
| A2s.PaddingTransparent | game-server-hosting/server/proto/a2s/a2s.go:143-174 | No padding, or at least five zeros, is transparent for every accepted packet |
| A2s.PaddingKeepsMeaningExactly | game-server-hosting/server/proto/a2s/a2s.go:135-177 | For every packet, accepted or not: padding keeps its meaning if and only if it has another header, or the tail is cut both before and after, or neither |
| A2s.PaddingRescuesCutChallenge | game-server-hosting/server/proto/a2s/a2s.go:172-174 | A cut challenge, rejected alone, is accepted zero-extended once padded |
| A2s.ChallengeReply | game-server-hosting/server/proto/a2s/a2s.go:94-97 | A challenge reply is the bytes FF FF FF FF 41 and the challenge in little-endian order |
| A2s.InfoWritable | game-server-hosting/server/proto/a2s/a2s.go:103-129 | Writing an information record never fails, whatever the strings |
| A2s.InfoReplyReports | game-server-hosting/server/proto/a2s/a2s.go:103-131 | With NUL-free strings a client decodes exactly the state, or "n/a" and zeros without one, the two counts modulo 2^8 |
| A2s.ReplyIsBytes | game-server-hosting/server/proto/a2s/a2s.go:103-131 | An information reply for any state and any strings, byte by byte |
| Responder.SqpRedeemsExactly | game-server-hosting/server/proto/sqp/sqp.go:70-103 | A packet redeems a challenge if and only if it is a query of at least eight bytes whose bytes 1 to 4 are the challenge |
| Responder.SqpIntentExactly | game-server-hosting/server/proto/sqp/sqp.go:52-101 | A packet asks for a challenge if and only if its first five bytes are zero; exactly when it is refused as unsupported, and for its length |
| Responder.A2sIntentExactly | game-server-hosting/server/proto/a2s/a2s.go:71-101 | Which packets ask, redeem and are refused, by their bytes |
| Responder.AskLaunchesPurge | game-server-hosting/server/proto/base.go:42-57 | A request for a challenge launches a purge if and only if the clock moved, even if its draw fails; no other request does |
| Responder.QueryResponder.Respond | game-server-hosting/server/proto/sqp/sqp.go:52-62 | One call changes the store and answers as the responder function says, for both protocols |
| Responder.QueryResponder.HandleChallenge | game-server-hosting/server/proto/sqp/sqp.go:75-95 | Issues a challenge and replies with it; a failed draw is an error that stores nothing |
| Responder.QueryResponder.HandleQuery | game-server-hosting/server/proto/sqp/sqp.go:98-111 | Checks the length before consuming the challenge and the version after; what the outcome then is, is Answers.SqpAnswered and Handshake.AttemptOutcome |
| Responder.QueryResponder.BuildReply | game-server-hosting/server/proto/sqp/sqp.go:113-145 | Sums 16-bit chunk lengths and writes the record; metrics without a state are a nil dereference |
| Responder.QueryResponder.HandleInfoRequest | game-server-hosting/server/proto/a2s/a2s.go:79-132 | Issues a challenge when none (or 0) is supplied, else redeems it and replies with the information, which is Answers.A2sAnswered |
| Answers.SqpAnswered | game-server-hosting/server/proto/sqp/sqp.go:98-145 | A query presenting the stored challenge: the version error if and only if the version is above 2, the crash if and only if metrics are asked of a missing state, else the reply byte by byte, which decodes to the challenge sent, exact lengths and the state |
| Answers.A2sAnswered | game-server-hosting/server/proto/a2s/a2s.go:98-131 | A request presenting the stored challenge is always answered, byte by byte, and with NUL-free strings the reply decodes to the state |
| Handshake.AttemptOutcome | game-server-hosting/server/proto/base.go:67-83 | An attempt finds no challenge if and only if none is stored, mismatches if and only if another value is; and consumes the entry in every case |
| Handshake.OtherOutcome | game-server-hosting/server/proto/base.go:52-63 | A refusal is reported as it is and changes nothing; a failed draw is an error that stores nothing; a draw is handed out |
| Handshake.StoredOrigin | game-server-hosting/server/proto/base.go:37-96 | A stored entry is the latest challenge issued to its address, not attempted since |
| Handshake.EveryReplyAuthorised | game-server-hosting/server/proto/base.go:37-96 | Safety over every run: each accepted request presents the most recent challenge issued to its address, not attempted since |
| Handshake.AuthorisationInjective | game-server-hosting/server/proto/base.go:67-83 | No challenge authorises two requests |
| Handshake.AttemptExactly | game-server-hosting/server/proto/base.go:37-96 | In every run an attempt is accepted, mismatches or finds no challenge if and only if the last challenge issued to its address, neither attempted since nor deleted by a purge, has the value presented, has another, or does not exist |
| Handshake.ChallengesConserved | game-server-hosting/server/proto/base.go:37-96 | In every reachable state, per address and overall, issued = stored + consumed + overwritten + purged, and acceptances are among the consumed |
| Handshake.NeverMoreThanIssued | game-server-hosting/server/proto/base.go:37-96 | Per address, acceptances plus the pending entry never exceed the challenges issued |
| Echoes.EchoIntent | game-server-hosting/server/proto/a2s/a2s.go:88-101 | The echo of a challenge reply redeems exactly that challenge, except that A2S takes 0 for no challenge |
| Echoes.SurvivesExactly | game-server-hosting/server/proto/base.go:86-96 | With no request from its address, an entry survives if and only if no purge step deletes it |
| Echoes.EchoAcceptedExactly | game-server-hosting/server/proto/base.go:57-96 | The echo is accepted if and only if the protocol can carry the challenge and no purge dooms the entry: one that visited the key before the ask and found the older entry stale, or since with an epoch past the new expiry, and whose next step deletes after the ask; accepted, it is answered as its version, mask and state say |
| Echoes.EchoAnswered | game-server-hosting/server/proto/base.go:57-96 | Completeness: under conditions on launches and marks, and for SQP a supported version and a state if metrics are asked, the echo is answered with information, which decodes to the state, however other clients and purges interleave |
| PurgeRuns.UnexpiredRemovedOnlyByRace | game-server-hosting/server/proto/base.go:86-96 | A purge removes an entry it would not judge stale only if a challenge was issued for the key between its visit and its delete |
| PurgeRuns.FreshNeverMarked | game-server-hosting/server/proto/base.go:57-60 | In every run, a visit that finds a challenge issued at or after the epoch of the purge, however long ago, leaves it unmarked |
| PurgeRuns.LaterIssueNeverMarked | game-server-hosting/server/proto/base.go:37-96 | With a monotone clock, a purge never judges stale a challenge issued after its launch |
| PurgeRuns.FreshChallengeLost | game-server-hosting/server/proto/base.go:86-96 | The race is real: a run in which a challenge just handed out is gone |
| Handshake.ClientsDoNotInterfere | game-server-hosting/server/proto/base.go:37-96 | Deleting every request from other addresses leaves an address's replies and errors unchanged |
| PurgeRuns.CompletedLeavesFresh | game-server-hosting/server/proto/base.go:86-96 | A purge that has visited every key stored at its launch, one at a time, has left nothing stale for its epoch, however its steps fell among requests and other purges |
| PurgeRuns.AcceptedUnexpired | game-server-hosting/server/proto/base.go:86-96 | Expiry: once a purge has completed, no request is accepted on a challenge issued more than 60,000,000,000 ns before its epoch |
| PurgeRuns.StoreHoldsOneMinute | game-server-hosting/server/proto/base.go:37-63 | In every run with a monotone clock whose last launched purge has completed, each stored challenge was issued within the minute before any request for a challenge began, or since |
| Handshake.RequestIsRun | game-server-hosting/server/proto/base.go:37-63 | What the responder does in one call, with purges moving beside it, is a run of the machine, and its reply is the machine's only reply |
| Handshake.SweepIsMoves | game-server-hosting/server/proto/base.go:86-96 | A whole purge is its visits and deletes, one after another |
| Challenges.QueryBase.PurgesRun | game-server-hosting/server/proto/base.go:86-96 | Any interleaving of the steps of any purges in flight, performed on the store, has the effect of those steps in order |
| QueryLoop.Clear | game-server-hosting/server/query.go:89-92 | The buffer is all zeros before every read |
| QueryLoop.HandleRead | game-server-hosting/server/query.go:89-126 | One turn of the loop: the buffer is cleared and refilled while purges move, the responder sees the datagram and zeros only, and the reply, the pushed error or the return follow from its outcome as Socket.LoopTurns says |
| QueryLoop.HandleQuery | game-server-hosting/server/query.go:82-127 | The loop's trace and its effect on the store are those of a fold over reads of purge steps and then the responder on the padded datagram |
| QueryLoop.PaddedMeansTheSame | game-server-hosting/server/query.go:94-112 | Handing over the whole buffer changes nothing, for any store, readings and state, if and only if: for SQP the packet is no query, or has eight bytes, or the buffer has fewer; for A2S the tail from the NUL on has 2 to 4 bytes both before and after the padding, or neither |
| QueryLoop.ShortSqpDatagrams | game-server-hosting/server/proto/sqp/sqp.go:99-101 | With padding the SQP length check never fails, and fewer than five zero bytes ask for a challenge |
| QueryLoop.FailedReadsInvisible | game-server-hosting/server/query.go:95-110 | Timeouts and socket errors, whatever they leave in the buffer, change no reply, no response error and not the store, whatever purges do meanwhile |
| QueryLoop.LoopIsRun | game-server-hosting/server/query.go:82-127 | The loop performs a run of the handshake machine, purge steps included: it reaches the store of that run, and its trace is the replies of that run, rendered (as Socket.LoopTurns spells out) |
| QueryLoop.LoopReachesRun | game-server-hosting/server/query.go:82-127 | From a fresh store that run starts at the beginning, so what holds of every run holds of the loop |
| QueryLoop.LoopRepliesAuthorised | game-server-hosting/server/query.go:112-118 | Safety at the socket: information in the trace is the machine's reply to a request from the address it goes to, presenting the latest challenge issued to that address, not attempted in between |
| QueryLoop.InfoCostsChallenges | game-server-hosting/server/query.go:112-118 | Conservation at the socket: the number of times information was sent to an address, and its pending challenge, never exceed the challenges issued to it |
| Socket.LoopTurns | game-server-hosting/server/query.go:82-127 | Over any reads the trace is, read by read, one reply sent for each challenge or information of the machine that is written, one error for each failed response, write or socket, nothing for a timeout; the loop stops at the closed binding, found in a read or in the write of a reply, or at a crash, and nowhere else |
| Socket.LoopSendsExactly | game-server-hosting/server/query.go:112-118 | The replies in the trace are, in order, exactly the machine's challenges and information for the reads made whose write succeeds |
| Socket.LoopEventsReached | game-server-hosting/server/query.go:82-127 | The run the loop performs is that of the reads it makes |
| Socket.EchoReachesClient | game-server-hosting/server/query.go:94-118 | Completeness at the socket: an ask and its echo, both written and undisturbed, put the challenge and then the information into the trace, to that address, and the information decodes to the reported state |
| Server.Server.SetMetric | game-server-hosting/server/server.go:397-416 | Grows the slice within its capacity and stores the value in place, or refuses, or panics, as specified |
| Server.Server.StartState | game-server-hosting/server/server.go:164-179 | Start stores and announces the configuration and allocates the metrics buffer only for SQP |
| Server.Server.SetConfig | game-server-hosting/server/server.go:419-430 | Stores the configuration and offers it to the channel without blocking |
| Server.Server.PushError | game-server-hosting/server/error.go:5-10 | Offers the error to the channel without blocking |
| Server.Server.PlayerJoined | game-server-hosting/server/server.go:328-333 | Adds one in 32-bit arithmetic and returns the new count |
| Server.Server.PlayerLeft | game-server-hosting/server/server.go:336-343 | Takes one off unless there is nobody, and returns the new count |
| Server.Server.SetCurrentPlayers | game-server-hosting/server/server.go:347-356 | Sets the count, negative numbers counting as zero |
| Server.Server.WatchAllocation | game-server-hosting/server/event_watcher.go:57-65 | Stores the allocation ID and sends it, ignoring other events |
| Server.Server.WatchDeallocation | game-server-hosting/server/event_watcher.go:69-77 | Clears the allocation ID and sends the one in the event, ignoring other events |
| Server.Server.PublishStop | game-server-hosting/server/server.go:220-221 | Stop sends one empty deallocation |
| Server.Server.ReadyForPlayers | game-server-hosting/server/server.go:307-325 | Refuses a nil context and an empty allocation ID, in that order, else patches that allocation |
| Server.Server.Snapshot | game-server-hosting/server/proto/query.go:22-31 | The state a responder reports is what the server keeps, the metrics being the slice in use |
| Server.ChangeConfig | game-server-hosting/server/server.go:388-392 | For any interleaving of changes and receives, the configuration is the newest and the channel carries the specified flow |
| Server.Server.Dispatch | game-server-hosting/server/event_watcher.go:31-35 | An event runs the callback of its type, and on reservation servers none |
| Server.Server.Perform | game-server-hosting/server/server.go:328-430 | One call changes the count, the metrics, the allocation state and the channel of changes as their specifications say, and leaves the others alone |
| Server.Live | game-server-hosting/server/server.go:164-430 | For any mixed sequence of calls from the start, these four are the runs the theorems of Players, Metrics, Allocation and Channels speak of, each over the calls of its kind |
| Metrics.OutcomeExactly | game-server-hosting/server/server.go:397-412 | After any calls and reconfigurations: which calls are refused, and that the rest panic if and only if the server was not started with SQP |
| Metrics.PanicReachable | game-server-hosting/server/server.go:409-412 | Started with A2S and reconfigured to SQP, the first call panics |
| Metrics.SliceRefinesMap | game-server-hosting/server/server.go:409-414 | After an SQP start the slice is as long as the largest index needs, holds the last value set at each index or zero, and its spare capacity is zero |
| Metrics.ExtentIsMaximum | game-server-hosting/server/server.go:409-412 | That length is one more than the largest index in bounds, and at most ten |
| Metrics.MetricsReachTheWire | game-server-hosting/server/proto/sqp/metrics_info.go:21-31 | A version-2 query that echoes its challenge and asks for metrics gets a reply that decodes to exactly the last values set, uncut |
| Players.CounterIsReflectedWalk | game-server-hosting/server/server.go:328-343 | With fewer than 2^31 joins the count is the net sum lifted by its lowest point below zero, and joins = count + effective leaves |
| Players.FollowsUntilOverflow | game-server-hosting/server/server.go:328-343 | The count follows the reflected walk at every moment if and only if the walk stays below 2^31 |
| Players.AssignmentRestarts | game-server-hosting/server/server.go:347-356 | After an assignment, whatever came before, the count is the walk reflected from the number assigned (a negative one being zero) while that stays below 2^31 |
| Players.NegativeOnlyByOverflow | game-server-hosting/server/server.go:328-356 | Over any calls the count is never negative if and only if it never overflows, and is then the expected one |
| Players.ExpectedIsReflected | game-server-hosting/server/server.go:328-356 | The expected count is the walk since the last assignment, reflected from it |
| Players.NegativeIgnoresLeaves | game-server-hosting/server/server.go:336-343 | An overflowed count climbs back join by join, leaves doing nothing |
| Players.LowestIsMinimum | game-server-hosting/server/server.go:336-343 | The lowest point is the minimum over all prefixes |
| Players.CountReachesSqp | game-server-hosting/server/proto/sqp/server_info.go:23-40 | End to end: an SQP client that echoes its challenge and asks for server information decodes the count modulo 2^16, assignments included |
| Players.CountReachesA2s | game-server-hosting/server/proto/a2s/a2s.go:103-131 | An A2S client that echoes its challenge decodes it modulo 2^8 |
| Channels.DeliversSubsequence | game-server-hosting/server/error.go:5-10 | Received items and the pending one are a subsequence, in order, of the items pushed |
| Channels.DroppedOnlyWhilePending | game-server-hosting/server/error.go:5-10 | A push is dropped if and only if an earlier item is pending |
| Channels.Send | game-server-hosting/server/event_watcher.go:63 | A blocking send loses nothing and keeps the order, waiting behind the senders before it |
| Channels.Take | game-server-hosting/server/server.go:229-237 | A receive delivers the oldest item and lets the first blocked sender finish |
| Allocation.Delivered | game-server-hosting/server/event_watcher.go:31-77 | On each channel received, buffered and blocked items are the event history in order; the stored ID is that of the last event |
| Allocation.AtMostOneBlocked | game-server-hosting/server/event_watcher.go:57-77 | With serial callbacks at most one callback send is blocked over both channels, and besides it only that of Stop |
| Allocation.ReadyExactly | game-server-hosting/server/server.go:307-325 | Readiness is refused without a context for that; with one, if and only if no event was applied or the last left the ID empty; else the allocation of the last event is patched |
| Allocation.ReservationNeverReady | game-server-hosting/server/event_watcher.go:31-35 | On a reservation server readiness is always refused |
| Lifecycle.InvHolds | game-server-hosting/server/server.go:188-226 | In every reachable state the wait group counts the registered goroutines, and signals, positions and channels agree |
| Lifecycle.StopJoinsWatchers | game-server-hosting/server/server.go:215-226 | When Stop has returned, Start had returned nil, both watchers have finished and the local-proxy client was stopped |
| Lifecycle.QueryAtStop | game-server-hosting/server/query.go:82-86 | When Stop returns, at once or after waiting, the query handler has finished if and only if it had registered |
| Lifecycle.QueryMayOutliveStop | game-server-hosting/server/query.go:77-86 | In some run the query handler registers and runs after Stop has returned |
| Lifecycle.QueryMayLeaveFirst | game-server-hosting/server/query.go:94-98 | The closed binding alone lets the handler leave, before Stop does anything else |
| Lifecycle.StopMayPanic | game-server-hosting/server/query.go:77-86 | In some run the query handler registers between the release of the waiting Stop and its resumption, and the wait panics |
| Lifecycle.PanicExactly | game-server-hosting/server/query.go:77-86 | After any run a panic can come, or has come, if and only if the counter is up again under a released waiter, or the handler has yet to register while Stop has yet to return and will wait for a watcher that leaves |
| Lifecycle.RegisteredInTimeNeverPanics | game-server-hosting/server/query.go:82-86 | If the handler registers before the counter reached zero under the waiter, no continuation panics |
| Lifecycle.StopHangsAfterFailedStart | game-server-hosting/server/event_watcher.go:11-40 | When the event watcher fails, the wait group stays raised and Stop neither returns nor panics |
| Lifecycle.RunsAreBounded | game-server-hosting/server/server.go:188-226 | Every step makes progress: a run has at most 19 |
| Lifecycle.MaximalRunsEnd | game-server-hosting/server/server.go:188-226 | No step extends a run if and only if Stop has returned with the handler finished and the group empty, or a failed start keeps Stop waiting for ever, or the late registration has panicked |

## Left out

- UDP sockets, deadlines and the binding object: a read is a datagram, a timeout, a socket error or the closed binding, and a write succeeds, fails or finds the binding closed.
- Clocks and random numbers are inputs: any readings, any 32-bit draw or its failure.
- Buffers of fewer than five bytes: slicing them is a runtime panic unless their capacity is larger, so the responder requires five.
- Data races on the game state: each request sees one consistent snapshot of it.
- Concurrent generations racing for the lock around the last purge time: the check and the stamp are one event of the handshake machine.
- Metrics are carried as the bit patterns of 32-bit floats, with no arithmetic.
- Reflection: a record is an ordered list of fields; pointers to pointers and slices of structs are not modelled.
- Challenges.QueryBase.ChallengeMatchesForClient: the malformed-entry error is not modelled, because only well-typed entries are ever stored.
- Channels.Send: blocked senders proceed in the order they arrived, as the Go runtime has them do.
- Purges whose steps are not those of a visit and its delete in program order are allowed, so the loop and the machine have more runs than the program; only `StoreHoldsOneMinute`, `CompletedLeavesFresh` and `AcceptedUnexpired` ask for a purge that goes through the keys one at a time.
- Lifecycle.MaximalRunsEnd: takes it that Stop is called, once, and that somebody receives its deallocation message; runs begin where Start launches its goroutines, for earlier failures of Start launch nothing.
- QueryLoop.HandleQuery: runs over a finite sequence of reads, and records the errors it pushes instead of sending them on the error channel.
- The configuration watcher's file events: their effect is SetConfig and PushError, at any time.
- JSON decoding, file watching, the local-proxy HTTP calls and the centrifuge client: foreign libraries.
- Matchmaker backfill, option setters, plain field setters, error texts: only easy members.
