# Verified core of the tunnel

This project models the stateful core of a tunnel server and client and proves how it behaves:
the packet framing, the two rate limiters, the brute-force protector and the handshake behind it,
the tunnel connection pool, the DNS codec, the buffer pool, the reconnect loop, the in-memory
broker, the reconciliation of mappings and the command statistics.

Each component has two parts. A value part says what one operation does to a state, and proves the
properties of whole runs: sequences of calls, or interleavings of the steps that one lock or one
atomic operation makes indivisible. An imperative part has the classes, loops and arrays of the
source; every method there is proved to do what the value part says. Where the value part has steps
smaller than a call, a lemma shows that a whole call is its steps in a row (`PutIsItsSteps`,
`GetIsItsSteps`, `PublishIsItsSteps`). Clocks, random numbers,
the outcome of dialling, of listening and of lookups, and the pieces in which a reader delivers
bytes are parameters, so every statement holds for all of them.

`dafny verify dfyconfig.toml` checks the whole project.

| files | component |
|---|---|
| `PacketFraming`, `StreamIO`, `StreamProcessing` | framing of packets over a byte stream, and the processor that reads and writes it |
| `KeyedLimiter`, `RateLimiting` | the per-key token buckets that are forgotten when idle |
| `StreamBucket` (and the class in `StreamIO`) | the blocking token bucket of the streams |
| `BruteForceModel`, `BruteForceProtection` | the sliding window of failures and the bans |
| `HandshakeModel`, `ServerAuth`, `ClientHandshake` | the challenge-response handshake, both sides, with the protector |
| `TunnelPoolModel`, `TunnelPooling` | the pool of tunnel connections |
| `DnsCodec`, `DnsServers` | the two DNS parsers and response builders |
| `Buffers` | size classes and ownership of buffers |
| `Reconnect` | the reconnect loop and its circuit breaker |
| `BrokerModel`, `MemoryBroking` | the in-memory publish/subscribe broker |
| `MappingModel`, `MappingManagement` | reconciling mappings with a pushed configuration |
| `CommandStatistics` | the command counters and the running average |
| `Flows`, `Options`, `Results`, `Bytes` | amounts that flow at a rate, options, results, bytes |

## What turned out not to hold

The model follows the code. Where the code does less than it promises, a lemma gives an input and
another says exactly when the promise is kept.

- Forgetting idle buckets can be observed, and gives a key two bursts, exactly when TTL * Rate < Burst
  (`UnobservableIff`, `WindowBoundNeedsTtl`).
- The failure counter behind permanent bans is documented as cumulative, but a cleanup that empties the
  window deletes it (`CumulativeCountIsLost`); `TotalIsSinceForgotten` says by how much.
- A failure recorded without asking IsBanned first can replace a permanent ban by a temporary one
  (`UnguardedFailureKeepsPermanentIff`). The handshake always asks first (`RunsAreGuarded`).
- The cap of the connection pool can be exceeded by any number even when Gets do not overlap
  (`CapIsExceeded`). `CapBound` says by how much at most, and `CapBoundIsReached` that no smaller bound
  holds. Get and Put refresh the time of last use before they look at its age, so
  the idle timeout never refuses a connection there; only the background cleanup applies it.
- Shutdown of a pool closes the idle connections without counting them out (`ShutdownOvercounts`): in
  every state the counter is too high by exactly their number (`SurplusIsShutDown`).
- A packet whose type already has the compressed bit, sent uncompressed, is decompressed by the reader
  all the same (`MarkedButNotCompressed`): it is refused, or its content is silently changed
  (`MarkedIsChanged`). `RoundTripIff` says exactly which packets get through unchanged.
- The DNS builders reach past a query that ends before QCLASS, although the parsers accept it
  (`CursorsAgree`), and ANCOUNT wraps at 65536 addresses (`ResponseDecodesIff`).
- A mapping whose ID switches to SOCKS5 keeps its ordinary handler (`SwitchLeavesHandler`);
  `ReconciledIff` says exactly when the handlers are the wanted ones. A SOCKS5 mapping that changes keeps
  its old listener; `ListenersReconciledIff` says exactly when the listeners are the wanted ones.
- Applying an update again can stop and start handlers; `ReapplyingIsIdleIff` says exactly when it does
  nothing.
- The error of the running average can exceed n(n-1)/2 when commands overlap (`OverlapBreaksBound`). It
  stays within it for all latencies exactly when every update of the average finds as many commands
  counted as latencies recorded (`WithinBoundIff`).
- The base delay of the first reconnect attempt is not capped (`DelayIsAlwaysCappedIff`), and the cap can
  be lost later if Backoff is below 1 (`DelayIsCappedIff`).

## Model

| member | source | states |
|---|---|---|
| PacketFraming.FlagsAreBits | internal/packet/packet.go:26-50 | The base type, the flag tests, the setting of the compressed flag and the tests for heartbeats (0x03) and for commands (0x10, 0x11), written as arithmetic, are the source's bit operations on all 256 types. |
| PacketFraming.WireFormat | internal/stream/stream_processor_write.go:94-189 | For each of the 256 types, in literal bits: the type byte with 0x40 set by compression, and, unless the lower six bits are 0x03 or there is nothing to say, the size and the body, which is the command for 0x10 and 0x11 and the payload for every other type. |
| PacketFraming.CommandsCarryTheirCommand | internal/stream/stream_processor_read.go:296-316 | A packet of type 0x10 or 0x11 with a command goes out as type, size and marshalled command, and up to 16777216 bytes a reader gets that command back, whatever follows. |
| PacketFraming.OthersCarryTheirPayload | internal/packet/packet.go:5-24 | The handshake and tunnel types carry their payload the same way, also when a command is set. |
| PacketFraming.SizeFieldIsBigEndian | internal/stream/stream_processor_read.go:180-193 | The size field is big-endian in both directions. |
| PacketFraming.LimitIs16MiB | internal/stream/stream_processor_read.go:196-202 | A body is refused for its size if and only if it has more than 16777216 bytes. |
| PacketFraming.SizeFieldRoundTrip | internal/stream/stream_processor_read.go:180-193 | The four-byte big-endian size field gives the size back modulo 2^32. |
| PacketFraming.BodyIsNextBytes | internal/stream/stream_processor_read.go:196-223 | In whatever pieces the reader delivers, the body loop returns exactly the next bytes and stops after them; with enough bytes it fails only on a delivery with an error. |
| PacketFraming.HeaderIsReadWhole | internal/stream/stream_processor_read.go:165-193 | A header field, read by a single Read, arrives if and only if that Read delivers all of it. |
| PacketFraming.HeartbeatIsRead | internal/stream/stream_processor_read.go:247-272 | A heartbeat is one byte: it is read back as sent, and nothing behind it is touched. |
| PacketFraming.BodyPacketIsRead | internal/stream/stream_processor_read.go:247-316 | Of a written packet with a body the reader gets the type and the size as written if the headers arrive whole, and an error otherwise. |
| PacketFraming.InterpretWellFormed | internal/stream/stream_processor_read.go:285-316 | With lossless compression and JSON, a body is understood as it was sent if and only if the Encrypted bit is clear, a command packet has its command, and the Compressed bit agrees with what was done to the body or decompression happens to give the content. |
| PacketFraming.LargeBodyIsNotRead | internal/stream/stream_processor_read.go:196-223 | A body over 16 MiB never gets through: it is refused, or its size field was cut to 32 bits. |
| PacketFraming.MarkedButNotCompressed | internal/stream/stream_processor_read.go:290-316 | What the reader makes of every packet marked compressed by its sender and sent uncompressed: it refuses a body that is not compressed data, and takes what the body decompresses to otherwise. |
| PacketFraming.MarkedIsChanged | internal/stream/stream_processor_write.go:94-189 | So a payload that the sender compressed itself is accepted and arrives as something else, unless compression does not change it. |
| PacketFraming.RoundTripIff | internal/stream/stream_processor_write.go:94-189 | For every packet, reading what was written gives the packet back, consumes all of it and counts the same bytes if and only if it is well formed and either its compressed bit agrees with useCompression or decompressing the uncompressed body gives its content again. |
| PacketFraming.BodyIsReadIff | internal/stream/stream_processor_read.go:196-223 | The body loop succeeds exactly when the deliveries bring the body, in any pieces, before one with an error, and leaves the bytes and deliveries after it. |
| PacketFraming.PacketIsRead | internal/stream/stream_processor_read.go:247-316 | One such packet in front of any other bytes is read back exactly when its deliveries bring the header fields whole and the body, in any pieces, before an error, and then exactly its own bytes are consumed and counted. |
| PacketFraming.StreamRoundTrip | internal/stream/stream_processor_write.go:94-189 | Writing any sequence of such packets and reading as often gives the same sequence, consumes exactly the bytes written and counts them, if and only if the deliveries bring every header field whole and every body, in any pieces, before an error. |
| PacketFraming.FourBytesAtATime | internal/stream/stream_processor_read.go:165-223 | Any reader without faults that delivers at least four bytes at a time delivers every such stream. |
| StreamIO.ByteReader.ReadInto | internal/stream/stream_processor_read.go:208-218 | One Read into part of an array: the bytes that arrive, and nothing outside that part changes. |
| StreamIO.TokenBucket.WaitForTokens | internal/stream/token_bucket.go:51-97 | The bucket object does what the specification of waiting says, counts what it grants, and grants unless the wait is cancelled. |
| StreamIO.TokenBucket.SetRate | internal/stream/token_bucket.go:100-126 | A positive rate is taken over with its new burst, any other is refused. |
| StreamIO.RateLimiterWriter.Write | internal/stream/rate_limiter.go:60-83 | A write emits at most 1024 bytes, a prefix of its argument, and a complete one was paid for in tokens. |
| StreamProcessing.ExactReadConserves | internal/stream/stream_processor_read.go:22-80 | Unless it is cancelled, reading an exact length loses and invents no byte: what is returned followed by what is left is what there was; an incomplete result is never reported as success. A cancelled read returns nothing, and what it had read is lost. |
| StreamProcessing.ExactReadIff | internal/stream/stream_processor_read.go:22-80 | With enough bytes to come, reading an exact length succeeds if and only if the deliveries bring them, in any pieces: without an error, except io.EOF with the last piece, with no empty piece once the first bytes have come, and before the cancellation. |
| StreamProcessing.PiecesAreEnough | internal/stream/stream_processor_read.go:22-80 | So a reader without faults that always delivers something gives exactly the next bytes, in however many pieces. |
| StreamProcessing.StreamProcessor.ReadField | internal/stream/stream_processor_read.go:165-193 | A header field read over a pooled buffer; the buffer is back in the pool afterwards. |
| StreamProcessing.StreamProcessor.ReadPacketBody | internal/stream/stream_processor_read.go:196-223 | The body loop over a pooled buffer reads what the specification reads; the array it returns is new and is never in the pool. |
| StreamProcessing.StreamProcessor.ReadNextPacket | internal/stream/stream_processor_read.go:247-316 | The imperative reader is the specified reader, byte count and remaining input included; a closed processor reads nothing. |
| StreamProcessing.StreamProcessor.ReadExact | internal/stream/stream_processor_read.go:22-80 | The loop over a pooled buffer is the specification; the result is a new array outside the pool. |
| StreamProcessing.StreamProcessor.UsePool | internal/stream/stream_processor_read.go:22-80 | Arrays outside the pool keep their bytes, and stay outside, through every sequence of later reads, of other holders that overwrite pooled buffers, and of closing the pool. |
| StreamProcessing.StreamProcessor.ReadsOutliveThePool | internal/stream/stream_processor_read.go:196-223 | So what ReadExact and readPacketBody returned is still there after any such later use. |
| StreamProcessing.StreamProcessor.WriteExact | internal/stream/stream_processor_write.go:19-53 | The bytes written are a prefix of the data, all of it on success, and with a reliable writer it fails exactly when it is cancelled before the first write. |
| StreamProcessing.StreamProcessor.WriteRateLimitedData | internal/stream/stream_processor_write.go:73-91 | The chunked body write emits exactly the bytes of the direct write, in order, takes at least length/rate, and ends for a writer that makes progress. |
| StreamProcessing.StreamProcessor.WritePacket | internal/stream/stream_processor_write.go:94-189 | What reaches the writer is a prefix of the packet's wire form; on success it is all of it and the count is its length; with a reliable writer it fails exactly when the body cannot be produced. |
| KeyedLimiter.ExpiredIsFull | internal/security/rate_limiter.go:162-186 | If TTL * Rate >= Burst, every bucket that cleanup may delete is full. |
| KeyedLimiter.ForgettingIsUnobservable | internal/security/rate_limiter.go:121-139 | With TTL * Rate >= Burst under every limit in force, every run of allow, cleanup and limit changes grants and refuses exactly as a limiter that never deletes. |
| KeyedLimiter.UnobservableIff | internal/security/rate_limiter.go:162-186 | TTL * Rate >= Burst is exactly the condition for that. |
| KeyedLimiter.WindowBound | internal/security/rate_limiter.go:203-228 | After any past, in every window one key is granted at most Burst + Rate * length tokens, deletions included. |
| KeyedLimiter.WindowBoundNeedsTtl | internal/security/rate_limiter.go:162-186 | Without the TTL condition a run exists that is granted more. |
| KeyedLimiter.GrantedIff | internal/security/rate_limiter.go:203-217 | Both directions of that bound: with TTL * Rate >= Burst, after any past, a request for n is granted if and only if in every window that ends with it, from the request alone up to the whole run, the tokens granted to the key plus n are at most Burst + Rate * length. |
| KeyedLimiter.BurstIsUsable | internal/security/rate_limiter.go:203-228 | With rate 1 and burst 10, requests for 1, 1 and 8 tokens within half a second are all granted. |
| KeyedLimiter.CleanupLeavesExactly | internal/security/rate_limiter.go:162-186 | A cleanup leaves exactly the buckets used within the TTL, as they are. |
| RateLimiting.TokenBucket.RefillBucket | internal/security/rate_limiter.go:220-228 | The refill of the bucket object is the specified one. |
| RateLimiting.TokenBucket.TakeTokens | internal/security/rate_limiter.go:203-217 | Taking from the bucket object gives the specified verdict and bucket. |
| RateLimiting.RateLimiter.AllowKey | internal/security/rate_limiter.go:121-139 | The limiter object gives the specified verdict, creates the bucket of a new key, and leaves the other buckets alone. |
| RateLimiting.RateLimiter.Cleanup | internal/security/rate_limiter.go:162-186 | The cleanup loop, in whatever order it visits the keys, deletes exactly the buckets idle for longer than the TTL. |
| RateLimiting.RateLimiter.SetRateLimit | internal/security/rate_limiter.go:317-328 | New limits empty the bucket map. |
| StreamBucket.SoundIsKept | internal/stream/token_bucket.go:51-126 | One wait or rate change keeps: granted plus held tokens within the peak rate times the age, and 0 <= tokens <= burst <= rate. |
| StreamBucket.ThroughputBound | internal/stream/token_bucket.go:51-126 | So over every sequential use of a bucket the tokens granted plus the tokens held never exceed the highest rate times the time since creation. |
| StreamBucket.BusyUserGetsTheRate | internal/stream/token_bucket.go:51-97 | The other half: a user who never pauses is granted everything, and the tokens granted plus the tokens held are exactly the rate times the time since creation. |
| StreamBucket.WaitIsAsLongAsNeeded | internal/stream/token_bucket.go:51-97 | A wait that is not cancelled is granted: at once if and only if the tokens are there, and otherwise after exactly the time in which the missing ones flow. |
| StreamBucket.CreditIsGiven | internal/stream/token_bucket.go:51-69 | Less than one of the tokens that have flowed is not credited, up to the burst. |
| StreamBucket.CancelledAndChanged | internal/stream/token_bucket.go:70-126 | A cancelled wait grants nothing and gives up the tokens held, unless they sufficed; a rate change keeps the tokens that fit into the new burst. |
| BruteForceModel.StoredRefinesHistory | internal/security/brute_force_protector.go:384-400 | The pruned list and the full history agree on every window that can still be asked for. |
| BruteForceModel.CountIsWindowCount | internal/security/brute_force_protector.go:132-182 | What is compared with MaxFailures is exactly the failures since the last success that lie strictly inside the window. |
| BruteForceModel.CleanupKeepsCount | internal/security/brute_force_protector.go:351-381 | Removing every background cleanup from a run does not change that list. |
| BruteForceModel.TotalIsSinceForgotten | internal/security/brute_force_protector.go:351-381 | The total counter is the number of failures since the last success less those whose record a cleanup deleted. |
| BruteForceModel.CumulativeCountIsLost | internal/security/brute_force_protector.go:89-96 | The counter is not cumulative: enough failures for a permanent ban, spread over an hour, ban nobody. |
| BruteForceModel.BanDecision | internal/security/brute_force_protector.go:152-182 | Over any run, a failure bans for ever, for a time or not at all, as those two counts say, and touches no other ban. |
| BruteForceModel.StepLeavesBan | internal/security/brute_force_protector.go:194-265 | No single call but an explicit unban, ban, reset or failure of that IP changes a ban that has not expired. |
| BruteForceModel.BanPersists | internal/security/brute_force_protector.go:132-265 | When failures are recorded only behind an IsBanned that said no, a ban stays as recorded until it is lifted by hand or expires. |
| BruteForceModel.BannedIsRefused | internal/security/brute_force_protector.go:194-211 | Until then IsBanned says yes, through the expiry itself. |
| BruteForceModel.BannedIff | internal/security/brute_force_protector.go:194-211 | Both directions, over every history of calls: an IP is refused at a time if and only if its last ban that no unban or reset lifted is permanent or has not expired by then. |
| BruteForceModel.VerdictIff | internal/security/brute_force_protector.go:132-182 | RecordFailure answers that the IP is banned now if and only if the total count or the count in the window reaches its limit. |
| BruteForceModel.PruneAppend | internal/security/brute_force_protector.go:384-400 | Pruning decides on each failure by itself and keeps the order. |
| BruteForceModel.CleanupLeavesExactly | internal/security/brute_force_protector.go:351-381 | After any history a cleanup leaves exactly the bans in force when it began and the records with a failure inside the window. |
| BruteForceModel.UnguardedFailureKeepsPermanentIff | internal/security/brute_force_protector.go:152-182 | Exactly when a failure recorded without that gate leaves a permanent ban permanent. |
| BruteForceModel.UnguardedFailureReplacesPermanent | internal/security/brute_force_protector.go:229-254 | A run in which it does not. |
| BruteForceProtection.FailureLog.CleanupOldFailures | internal/security/brute_force_protector.go:384-400 | The rebuilding loop keeps the entries after the cutoff, in order. |
| BruteForceProtection.BruteForceProtector.RecordFailure | internal/security/brute_force_protector.go:132-182 | Verdict, failure records and bans of the object after a failure are the specified ones. |
| BruteForceProtection.BruteForceProtector.RecordSuccess | internal/security/brute_force_protector.go:185-191 | A success drops the record of that IP only. |
| BruteForceProtection.BruteForceProtector.IsBannedNow | internal/security/brute_force_protector.go:194-211 | The answer is that of the specification, and an expired entry is gone afterwards. |
| BruteForceProtection.BruteForceProtector.BanIP | internal/security/brute_force_protector.go:214-254 | A manual ban is recorded with the current total count. |
| BruteForceProtection.BruteForceProtector.UnbanIP | internal/security/brute_force_protector.go:257-265 | A manual unban removes that ban and keeps the failures. |
| BruteForceProtection.BruteForceProtector.CleanupAll | internal/security/brute_force_protector.go:351-381 | The two cleanup loops, in whatever order they visit the maps and with a new clock reading for each record, prune every record, delete the empty ones and drop exactly the expired bans. |
| HandshakeModel.RunsAreGuarded | internal/app/server/auth_handler.go:79-145 | In every run of requests on any number of connections, with maintenance in between, each failure stands directly behind an IsBanned for the same IP that said no. |
| HandshakeModel.BannedIPsStayOut | internal/app/server/auth_handler.go:79-88 | Once an IP is banned, every later request from it is refused and changes no connection, until the ban expires or is lifted by hand. |
| HandshakeModel.OutcomeIff | internal/app/server/auth_handler.go:104-278 | A request is recorded as a failure exactly when the answer is that no credentials were issued, no client found, no challenge pending or the credentials wrong, and as a success exactly when it succeeds. |
| HandshakeModel.EveryFailureIsTold | internal/app/server/auth_handler.go:104-278 | In every run the failures and successes the protector is told of for an IP are exactly its requests so answered, in order, and the failures since its last success are theirs. |
| HandshakeModel.TooManyFailuresBan | internal/app/server/auth_handler.go:231-258 | When such an answer is the MaxFailures-th inside the window, every later request from the IP is refused until the ban expires or is lifted by hand. |
| HandshakeModel.BannedReplyIff | internal/app/server/auth_handler.go:79-88 | A request is answered as banned if and only if it passes the IP list and the last ban of its IP that was not lifted is in force, and so not after its expiry. |
| HandshakeModel.PendingInRun | internal/app/server/auth_handler.go:187-278 | On each connection the pending challenge is the last one sent, if no check came after it. |
| HandshakeModel.KeyManagerIsThere | internal/app/server/auth_handler.go:187-194 | Phase 2 never meets a missing key manager, although only phase 1 looks for it. |
| HandshakeModel.EachChallengeIsCheckedOnce | internal/app/server/auth_handler.go:231-246 | An answer is checked only against the last challenge sent on the same connection, which has not been checked before, and the check uses it up. |
| HandshakeModel.AuthenticatedIffAnswered | internal/app/server/auth_handler.go:104-146 | On any run a request of an existing client succeeds if and only if it is admitted and answers that challenge with the client's key; otherwise nobody becomes authenticated. |
| HandshakeModel.RegisteredIff | internal/app/server/auth_handler.go:104-184 | A first connection is registered if and only if it passes the IP list, the ban and the rate limit and credentials can be issued; then the connection belongs to the new client. |
| HandshakeModel.ChallengedIff | internal/app/server/auth_handler.go:187-228 | A challenge is sent if and only if an admitted client has not answered yet, its key is stored and one can be drawn. |
| HandshakeModel.FirstConnectionIff | internal/app/server/auth_handler.go:104-105 | A request is a first connection exactly when it has no client ID and its token is "new-client" or starts with "anonymous:". |
| HandshakeModel.RefusalIff | internal/app/server/auth_handler.go:60-278 | In every run each refusal has exactly its own cause, read off the request, the bans in the history and the challenges sent and checked on the connection; a request that none of them applies to is registered, challenged or authenticated. |
| ServerAuth.ToldIsRecorded | internal/app/server/auth_handler.go:60-146 | The protector after a request is the one that the history of its calls describes. |
| ServerAuth.ServerAuthHandler.HandleHandshake | internal/app/server/auth_handler.go:60-146 | The handler object gives the specified response and connection state and makes exactly the specified calls on the protector. |
| ServerAuth.ServerAuthHandler.HandleFirstConnection | internal/app/server/auth_handler.go:149-184 | First connections: new credentials and an authenticated connection, or a recorded failure. |
| ServerAuth.ServerAuthHandler.HandleChallengePhase1 | internal/app/server/auth_handler.go:187-228 | Phase 1 stores the challenge it sends, or reports a fault and changes nothing. |
| ServerAuth.ServerAuthHandler.HandleChallengePhase2 | internal/app/server/auth_handler.go:231-278 | Phase 2 clears the challenge before it checks, and records a failure or a success. |
| ClientHandshake.BeatsAreSkipped | internal/client/control_connection_handshake.go:198-224 | Heartbeats and nil packets before a response do not change what the client makes of it. |
| ClientHandshake.WaitFails | internal/client/control_connection_handshake.go:198-245 | Behind them a rejection, a payload that is no JSON, any other packet type and the end of the stream each end the wait with their own error, and nothing behind is read. |
| ClientHandshake.AuthenticatedInTwo | internal/client/control_connection_handshake.go:79-182 | A client with the stored key, admitted and facing no fault, is authenticated by exactly two requests, whatever heartbeats, other connections and operator do in between. |
| ClientHandshake.RegisteredInOne | internal/client/control_connection_handshake.go:103-169 | A client without credentials is registered by one request, and only a control connection keeps the new credentials. |
| ClientHandshake.ClientOutcome | internal/client/control_connection_handshake.go:79-182 | Whatever arrives: the client succeeds exactly on a success response, keeps its credentials otherwise, and gives up reconnecting exactly when it cannot answer a challenge, gets no success where it needs one, or is rejected with a hopeless text. |
| ClientHandshake.TunnoxClient.SendHandshakeRequest | internal/client/control_connection_handshake.go:185-245 | The waiting loop reads as far as the specification says and reports the same response or error. |
| ClientHandshake.TunnoxClient.SendHandshakeOnStream | internal/client/control_connection_handshake.go:79-182 | The requests sent, the stored credentials, the mark against reconnecting and the packets left unread are the specified ones. |
| TunnelPoolModel.PopTakesLast | internal/client/tunnel_pool_conn.go:35-52 | In a sound pool getIdle takes the connection returned last and marks it in use. |
| TunnelPoolModel.SoundIsKept | internal/client/tunnel_pool.go:104-206 | Every step of every call keeps the counter balanced and each connection in one place. |
| TunnelPoolModel.Conservation | internal/client/tunnel_pool.go:104-206 | So before shutdown, under every interleaving, active = in use + returning + idle + being dialled, and the idle list has no duplicates, holds nothing in use and never exceeds maxIdle. |
| TunnelPoolModel.GetReturnsUnheld | internal/client/tunnel_pool.go:140-162 | No connection gets a second holder. |
| TunnelPoolModel.ShutdownOvercounts | internal/client/tunnel_pool_conn.go:55-70 | A shutdown raises the surplus of the counter by the number of idle connections. |
| TunnelPoolModel.SurplusIsShutDown | internal/client/tunnel_pool.go:217-230 | In every reachable state, after shutdowns too, each connection is in one place and the counter is too high by exactly the number of connections that were idle at a shutdown; it is balanced if and only if there were none. |
| TunnelPoolModel.CapBound | internal/client/tunnel_pool.go:118-135 | With at most n overlapping Gets, active <= maxActive + accepted Puts + n - 1. |
| TunnelPoolModel.CapBoundIsReached | internal/client/tunnel_pool.go:118-135 | For every configuration, n and k a run with at most n overlapping Gets and exactly k accepted Puts reaches maxActive + k + n - 1. |
| TunnelPoolModel.CapIsExceeded | internal/client/tunnel_pool.go:118-135 | So the cap itself is exceeded by any number in runs without overlapping Gets. |
| TunnelPoolModel.SweepLeavesExactly | internal/client/tunnel_pool.go:437-459 | A cleanup leaves exactly the idle connections that are not stale, and lowers the counter by the number of the others. |
| TunnelPoolModel.KeepJoins | internal/client/tunnel_pool.go:437-459 | It decides on each idle connection by itself and keeps the order. |
| TunnelPooling.TakesLastHealthy | internal/client/tunnel_pool.go:140-162 | The search closes the unhealthy connections at the end of the idle list and takes the last healthy one, and counts out exactly those it closed. |
| TunnelPooling.GetReturns | internal/client/tunnel_pool.go:104-137 | A Get with nothing else going on returns the last healthy idle connection if there is one; otherwise the connection it dials, if the counter less the discarded connections is below the cap or a token waits; nothing in every other case; with the resulting idle list, counter and token. |
| TunnelPooling.EmptyPoolIsFilled | internal/client/tunnel_pool.go:104-137 | So a Get on an empty pool below its cap returns the connection it dials. |
| TunnelPooling.SearchMarksTaken | internal/client/tunnel_pool.go:140-162 | The search marks as in use exactly what it takes from the idle list. |
| TunnelPooling.PutIsItsSteps | internal/client/tunnel_pool.go:170-206 | A whole Put is the sequence of its steps in the interleaved model. |
| TunnelPooling.GetIsItsSteps | internal/client/tunnel_pool.go:104-162 | A whole Get, with all its health checks, the wait for a token and the dial, is a sequence of steps of the interleaved model. |
| TunnelPooling.MappingPool.GetIdle | internal/client/tunnel_pool_conn.go:35-52 | The popping loop over the idle list, and the fields it sets. |
| TunnelPooling.MappingPool.GetHealthyIdleConn | internal/client/tunnel_pool.go:140-162 | The loop of health checks is the specified search; with HealthCheckOnGet off it takes the first connection. |
| TunnelPooling.MappingPool.Put | internal/client/tunnel_pool.go:170-206 | A put connection is appended and announced, or closed and counted out. |
| TunnelPooling.MappingPool.CreateNewConn | internal/client/tunnel_pool.go:289-321 | A failed dial counts itself out again. |
| TunnelPooling.MappingPool.Get | internal/client/tunnel_pool.go:104-137 | One Get alone is the specified one: a healthy idle connection if there is one, otherwise a new one within the cap or against a token. It makes a connection exactly when that is due and the dial succeeds. |
| TunnelPooling.MappingPool.CleanupIdleConns | internal/client/tunnel_pool.go:437-459 | The sweep keeps the fresh connections in order and closes and counts out the others. |
| TunnelPooling.MappingPool.Close | internal/client/tunnel_pool_conn.go:55-70 | Closing a pool closes every idle connection. |
| DnsCodec.NameRoundTrip | internal/client/target_handler.go:619-638 | Reading an encoded name gives its labels and stops behind it. |
| DnsCodec.NameIsEncoded | internal/client/target_handler.go:619-638 | And every name that is read is the encoding of its labels. |
| DnsCodec.QuestionRoundTrip | internal/client/target_handler.go:614-647 | Parsing an encoded question gives the dot-joined labels and QTYPE, whatever surrounds it. |
| DnsCodec.CursorInBoundsIff | internal/client/target_handler.go:671-680 | Exactly when the builders' question cursor stays inside the query, and where it stops. |
| DnsCodec.CursorsAgree | internal/client/target_handler.go:614-680 | For a query that parses, the cursor stays inside if and only if QCLASS is present, four bytes behind the parser's. |
| DnsCodec.FiltersAgree | mobile/dns_server.go:297-305 | The filter of the client and the filter inside the mobile builder keep addresses that are answered the same way. |
| DnsCodec.FilterJoins | internal/client/target_handler.go:556-580 | Both filters decide on each address by itself and keep the order. |
| DnsCodec.FilterOfOne | mobile/dns_server.go:297-305 | An address stays if and only if it is IPv4 and type 1 was asked for, or is not and type 28 was; the client takes its short form for type 1. |
| DnsCodec.To4Iff | internal/client/target_handler.go:687-692 | IPv4 are the addresses of four bytes, and those of sixteen that start with ten zero bytes and two bytes 0xff; the last four are the address. |
| DnsCodec.AnswerBytes | internal/client/target_handler.go:682-703 | One answer byte by byte: a pointer to offset 12, type, class 1, 300 seconds, length and address. |
| DnsCodec.HeaderBytes | internal/client/target_handler.go:658-669 | The response header byte by byte: the ID of the query, the flags 0x8180, one question and the number of answers. |
| DnsCodec.BuildersAgree | mobile/dns_server.go:284-347 | For every query, type and address list the client builder on the filtered list and the mobile builder on the unfiltered list agree byte for byte, errors included. |
| DnsCodec.AnswersDecode | internal/client/target_handler.go:682-703 | An independent reader of sections 4.1.3 and 4.1.4 of RFC 1035 finds in the answer section exactly one record for each address, in order, and accepts no other number. |
| DnsCodec.ResponseParses | internal/client/target_handler.go:614-703 | If QCLASS is present, parsing the response gives the name and type of the query. |
| DnsCodec.ResponseDecodesIff | internal/client/target_handler.go:650-703 | The response decodes to the query's ID and question and exactly the given addresses, with nothing left over, if and only if there are fewer than 65536. |
| DnsCodec.ResolvedAnswers | internal/client/target_handler.go:541-588 | Local resolution answers with the addresses of the asked family, in lookup order, and given one it fails only for a query without QCLASS. |
| DnsServers.ParseDnsQuery | internal/client/target_handler.go:614-647 | The parsing loop, the same in both files, is the specified parser. |
| DnsServers.QuestionEnd | internal/client/target_handler.go:671-680 | The cursor loop of both builders. |
| DnsServers.BuildClientResponse | internal/client/target_handler.go:650-703 | The client's appending loops build the specified response. |
| DnsServers.ValidIPs | mobile/dns_server.go:297-305 | The mobile builder's filter loop. |
| DnsServers.BuildMobileResponse | mobile/dns_server.go:284-347 | The mobile builder's loops build the specified response. |
| DnsServers.ResolveWithLocalDns | internal/client/target_handler.go:541-588 | The resolving method, filter loop included, is the specified one. |
| Buffers.SafeToPutIff | internal/utils/buffer_pool.go:49-107 | The capacities that are their own size class are exactly those that are safe to file in the pool: no request of their class can slice past them. |
| Buffers.SizeClassIsLeast | internal/utils/buffer_pool.go:49-60 | The size class is the least positive multiple of 4096 that holds the request, up to 16777216 bytes, and the request itself above. |
| Buffers.ForeignIsUnsafe | internal/utils/buffer_pool.go:110-134 | Put does not look at this: a foreign buffer of any other capacity, such as 5000, is filed in the class it rounds up to, 8192, from which a Get slices out of range. |
| Buffers.AlignedIsRecyclable | internal/utils/buffer_pool.go:49-60 | Every size class is its own class, so buffers that came from Get are safe to put back. |
| Buffers.BufferPool.Get | internal/utils/buffer_pool.go:63-107 | A buffer from Get is large enough, is held by nobody else, and leaves the pool; a pooled buffer of the size class is reused if there is one, otherwise it is new. |
| Buffers.BufferPool.Put | internal/utils/buffer_pool.go:110-134 | A lent buffer goes back into the class of its capacity or is let go, and every pooled buffer has exactly the capacity of its class. |
| Buffers.BufferPool.Close | internal/utils/buffer_pool.go:37-46 | Closing empties the pool and keeps track of what is still lent. |
| Buffers.ZeroCopyBuffer.Close | internal/utils/buffer_pool.go:244-249 | A buffer is given back once, however often it is closed. |
| Reconnect.BreakerStaysConsistent | internal/client/reconnect.go:57-106 | The breaker is closed exactly below the threshold (below one failure if the threshold is not positive). |
| Reconnect.NextIsSpaced | internal/client/reconnect.go:86-106 | An attempt past the free ones starts more than a timeout after the last failure. |
| Reconnect.RunIsPaced | internal/client/reconnect.go:161-260 | So in every run each attempt past the free ones starts more than a timeout after the one before it. |
| Reconnect.AttemptBound | internal/client/reconnect.go:161-260 | So at most max(1, threshold) + length / timeout attempts start in any window of a run. |
| Reconnect.NoBoundWithoutBreaker | internal/client/reconnect.go:178-185 | Without the breaker a run with no delay starts any number at once. |
| Reconnect.AttemptStartsIff | internal/client/reconnect.go:191-259 | After any run that still goes on, a turn starts an attempt if and only if a reconnect is wanted before and after the wait, the context is alive, the attempts are not used up, and there were fewer than max(1, threshold) failures or the timeout has passed since the last one; it starts after the jittered base delay, and the loop ends as connected exactly when it succeeds. |
| Reconnect.AttemptsAreCapped | internal/client/reconnect.go:197-201 | A positive limit on the attempts is never exceeded. |
| Reconnect.AllowIff | internal/client/reconnect.go:86-106 | A breaker lets a request through unless it is open and its timeout has not passed since the last failure. |
| Reconnect.JitterIsBounded | internal/client/reconnect.go:109-116 | The jitter moves a delay by at most its share, in either direction. |
| Reconnect.DelayInRun | internal/client/reconnect.go:241-246 | In every run the base delay depends only on the number of failed attempts. |
| Reconnect.DelayIsCappedIff | internal/client/reconnect.go:241-246 | It is min(InitialDelay * Backoff^k, MaxDelay) for every k > 0 if and only if Backoff >= 1 or the cap is never reached. |
| Reconnect.DelayIsAlwaysCappedIff | internal/client/reconnect.go:175-246 | It is so for every k >= 0 if and only if InitialDelay <= MaxDelay. |
| Reconnect.CircuitBreaker.RecordFailure | internal/client/reconnect.go:74-83 | The breaker object counts a failure and opens at the threshold. |
| Reconnect.CircuitBreaker.RecordSuccess | internal/client/reconnect.go:66-71 | A success closes it. |
| Reconnect.CircuitBreaker.AllowRequest | internal/client/reconnect.go:86-106 | An open breaker lets an attempt through only after more than the timeout, and is half open then. |
| Reconnect.ReconnectLoop | internal/client/reconnect.go:161-260 | The loop ends as the specification says and starts its attempts at the same times. |
| Reconnect.TunnoxClient.Reconnect | internal/client/reconnect.go:161-173 | A second call while a loop runs does nothing, and the mark is taken back when the loop ends. |
| BrokerModel.StepKeepsSound | internal/broker/memory_broker.go:36-165 | Every step keeps registered channels open and registered once, and closes no channel twice. |
| BrokerModel.NeverSentOnAfterClose | internal/broker/memory_broker.go:36-165 | In every run each channel is closed at most once and never offered or given a message after that. |
| BrokerModel.OrderedAtMostOnce | internal/broker/memory_broker.go:58-70 | Each subscriber takes the messages of one publisher at most once each and in order, whatever publishers are interleaved. |
| BrokerModel.ReceivedIsPrefix | internal/broker/memory_broker.go:88-91 | What was received is the front of what was sent, with at most 100 messages waiting; a channel is full exactly with 100. |
| BrokerModel.DeliveredIff | internal/broker/memory_broker.go:36-75 | A finished publish has reached a channel if and only if the channel was subscribed when it began and was neither full nor cut off by a cancellation. |
| BrokerModel.SubscribedIff | internal/broker/memory_broker.go:79-165 | After any run the subscribers of a topic are exactly the channels made by a Subscribe to it with no Unsubscribe from it and no Close after that. |
| BrokerModel.OpenIffSubscribed | internal/broker/memory_broker.go:79-165 | In every run a channel is open if and only if it is still subscribed to some topic. |
| BrokerModel.PublishIsItsSteps | internal/broker/memory_broker.go:36-75 | A whole Publish is its steps in a row: they offer the message to exactly the subscribers before the cancellation, which is the contract of the method below. |
| MemoryBroking.MemoryBroker.Publish | internal/broker/memory_broker.go:36-75 | Every subscriber before the cancellation is offered the message once, the others nothing, and the error says which case it was. |
| MemoryBroking.MemoryBroker.Subscribe | internal/broker/memory_broker.go:79-98 | A new, empty channel behind the others of the topic, unless the broker is closed. |
| MemoryBroking.MemoryBroker.Unsubscribe | internal/broker/memory_broker.go:100-124 | All channels of the topic are closed, once, and the topic is gone. |
| MemoryBroking.MemoryBroker.Close | internal/broker/memory_broker.go:139-165 | Every registered channel is closed, once, and none is registered any more. |
| MappingModel.ConfigEqualIff | internal/client/mapping_manager.go:165-180 | The field-by-field comparison covers the whole configuration. |
| MappingModel.SlotAfterReceive | internal/client/mapping_manager.go:102-161 | One configuration decides the handler of its own ID and of no other. |
| MappingModel.FirstMapping | internal/client/mapping_manager.go:28-161 | One configuration makes of a client without mappings: a handler for "tcp", "udp" and an empty protocol on any local port but 0, a listener for "socks5" and "socks" on a positive port, and nothing otherwise. |
| MappingModel.FailedStartLeavesNone | internal/client/mapping_manager.go:153-156 | A listener that fails to start leaves its ID without a handler. |
| MappingModel.ReconciledIff | internal/client/mapping_manager.go:14-72 | If everything starts, the handlers after an update are exactly the last runnable configuration of each ID, if and only if no ID whose last configuration is SOCKS5 still has an ordinary handler. |
| MappingModel.SwitchLeavesHandler | internal/client/mapping_manager.go:37-58 | An ID that switches to SOCKS5 keeps its old handler. |
| MappingModel.ReapplyingIsIdle | internal/client/mapping_manager.go:14-72 | If for each ID the ordinary configurations of an update are all the same one or none can run, applying it again starts, stops and changes nothing, whatever would start. |
| MappingModel.ReapplyingIsIdleIff | internal/client/mapping_manager.go:102-117 | And if listeners would start, only then. |
| MappingModel.DuplicateFreeAgrees | internal/client/mapping_manager.go:28-48 | Every update without repeated IDs is such an update. |
| MappingModel.RepeatedIDIsNotIdle | internal/client/mapping_manager.go:102-117 | An update that is not: two configurations of one ID stop and restart its handler every time. |
| MappingModel.ListenerKeepsOldConfig | internal/client/socks5/manager.go:51-97 | The SOCKS5 listeners are those the update names: an existing one keeps its configuration, a new one gets the first SOCKS5 configuration of its ID. |
| MappingModel.ListenersReconciledIff | internal/client/mapping_manager.go:14-72 | If everything starts, the listeners are exactly the last configuration of each ID that ends as SOCKS5, if and only if no ID keeps a stale one. |
| MappingManagement.TunnoxClient.AddOrUpdateMapping | internal/client/mapping_manager.go:102-161 | The client object changes as specified, and no handler it drops goes on running. |
| MappingManagement.TunnoxClient.HandleConfigUpdate | internal/client/mapping_manager.go:14-72 | The three loops apply the update as specified; exactly the registered handlers run afterwards. |
| MappingManagement.TunnoxClient.RemoveMapping | internal/client/mapping_manager.go:189-204 | Removing a mapping stops and forgets its handler. |
| CommandStatistics.WithinBoundIff | internal/command/service.go:49-60 | Over every interleaving: 0 <= latency sum - n * average <= n(n-1)/2 for all latencies, if and only if every update of the average finds as many commands counted as latencies recorded, its own included. |
| CommandStatistics.AverageError | internal/command/service.go:268-310 | So it holds after n commands that do not overlap. |
| CommandStatistics.BoundIsReached | internal/command/service.go:49-60 | For every n there are latencies that reach this bound. |
| CommandStatistics.CountsBalance | internal/command/service.go:268-310 | Under every interleaving successes + failures <= total <= successes + failures + in flight, and the active counter counts the commands between its two updates. |
| CommandStatistics.OutcomesAreCounted | internal/command/service.go:268-310 | Under every interleaving the success counter is the number of commands that succeeded and the failure counter the number of those that failed. |
| CommandStatistics.CountedByOutcome | internal/command/service.go:35-46 | So it is for commands one after the other. |
| CommandStatistics.OverlapBreaksBound | internal/command/service.go:49-60 | Two overlapping commands of latency 10 give the average 7. |
| CommandStatistics.CommandStats.RecordLatency | internal/command/service.go:49-60 | The average of the object is the specified one. |
| CommandStatistics.CommandService.Execute | internal/command/service.go:268-310 | One Execute updates the statistics as specified; a closed service counts nothing. |

## Left out

- Sockets, dialling, transports and goroutine scheduling: success, failure, delays and clock readings are parameters.
- gzip, JSON, AES-GCM and HMAC: functions with the one law they are used for (`Lossless`), or no law at all.
- Overlapping handshakes from one IP: a request is one step, so between its IsBanned and its RecordFailure nothing else happens.
- Losing races behind double-checked locking, and the lazy unban as a goroutine: it finishes before the next step.
- StreamBucket.ThroughputBound: does not cover concurrent users of one bucket, because the lock is released during the wait.
- StreamProcessing.StreamProcessor.WriteRateLimitedData: assumes the io.Writer contract, that an incomplete write reports an error; WriteExact does so too.
- Truncation of waiting times, delays and jitter to nanoseconds, floating-point rounding and int64 overflow.
- Flushing of buffered writers, and the reader half of the stream rate limiter: the same bucket, no further property.
- ReadAvailable, ReadExactZeroCopy and ReadIntoBuffer: variants of the reads that are modelled.
- sync.Pool's choice of a buffer and its dropping of buffers: a parameter and a separate step.
- The IP side and the tunnel side of the keyed limiter: one model serves both; each side has its own instance.
- The network probe behind the pool's health check: whether a connection is healthy is a field of it.
- TunnelPooling.MappingPool.Get: one call without interference; the waiting and the interleavings are in TunnelPoolModel.
- The map of mapping pools in the tunnel pool and its creation on demand: one pool is modelled.
- The forwarding of DNS queries, the mobile cache and its error responses.
- A server without IP list, protector or rate limiter: the nil checks around them.
- IP list storage, the rate limiter's verdict during a handshake and the stored clients: what they answer is part of a request.
- The text of the handshake errors: a rejection is a constructor, and whether its text stops reconnecting is a parameter.
- Failed writes of handshake requests, and malformed request JSON, which never reaches the handler.
- The dispatcher's list of tunnel managers in the mapping manager.
- Panics inside a command pipeline, and sending the response.
- Statistics getters, logging, notifications, reason strings and the other map lookups around these components: they would only add easy members.
