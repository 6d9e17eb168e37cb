# A model of ehco's relay, limiter, user pool and registries

ehco relays TCP and UDP connections, runs an xray node in process, and keeps track of the
connections of both. These modules state what its stateful parts do, over all runs and all
interleavings, and prove it.

| module | models |
|---|---|
| CopyConn | `copyConn`: two copy directions over two connections that share one `Stats`, as a step system with time |
| CopyCauses, CopySilence | why its directions end and what it returns; when a relay on which nothing happens ends |
| InnerConn | `innerConn.Read` and `Write`: the retry loop that ends in `ErrIdleTimeout` |
| HalfClose | which peers learn of an end of stream by a half-close |
| WsConn, Tunnel | `wsConn`: one RFC 6455 frame per write and per read; the copy loop feeding such a tunnel |
| Sniff | the protocol classifier and the connection that gives the peeked bytes back |
| UdpListener | one UDP socket demultiplexed into pseudo-connections with bounded queues |
| Limiter | the two-generation cache of token buckets, against one permanent bucket per IP |
| XrayUser, UserSync | recent IPs and their merge, reconciliation of the pool with the server |
| UserTraffic, PoolTraffic | traffic counters of one user under concurrent adds and swaps; of the whole pool, as users are dropped |
| RelayConf, Reload | configuration identity, clones and validation; the hot-reload loop |
| Cmgr, ConnTracker | the two connection registries |
| OpStats, RoundRobin, BufferPool | the lock-free maximum, the ticket balancer, the leaky buffer pool |
| Base | options, bytes, sums |

Objects that the source updates in place are classes whose methods state result and new state as
functions of the arguments and the old state; where the state has parts, `View()` gives it as one value.
Properties of runs are lemmas about the same functions. Concurrent
parts are step systems: an `Execution` is any sequence of enabled steps, one per atomic operation or
critical section, and a main result holds in every `Reachable` state. The choices of the environment
(what arrives, which call fails, in which order Go ranges over a map, the clock) are labels or parameters.

Where a promise fails, the module keeps the code as it is and says exactly when the promise holds:

- The limiter forgets idle buckets invisibly exactly when the burst is at most what 60 seconds refill.
- A clean result of a relay hides a real error exactly when the goroutine's direction went idle and
  the other one failed (`combineErrorsAndMuteIDLE`).
- A verdict of the protocol classifier is final exactly from 8 bytes on.
- A frame passes `wsConn` exactly when it fits the connection's buffer and the reader.
- User sync keeps running users and inbound in agreement over a whole run, with any faults, exactly
  when no call meets a hard removal failure of a listed user whose new profile asks for other
  credentials or for none; over every further run the user then stays wrong as long as its profile does
  not change again and it is not dropped.
- Over the pool no traffic is lost exactly when every user is dropped with an empty counter and nothing
  is added to a dropped user; a sync drops users before it reports them.
- A half-close reaches the client exactly if it came by raw TCP, its reads are not limited, and sniffing
  was off or got nothing from it; and the remote exactly if it was dialed by raw TCP.
- `RemoveConnection` without the add-once protocol invents a closed connection exactly when its label
  is known and the connection is not active.
- The round-robin counter serves exactly the first 2^63 calls (one more when the number of nodes
  divides 2^63), unless there is a single node.
- A put into the buffer pool keeps ownership exclusive exactly when the one who puts holds the buffer,
  or nobody has it and it is not in the queue, or there is no room. Closing a `wsConn` twice, at once
  or after somebody else got the buffer, ends in two connections with one buffer.
- A page is the right one exactly when it starts within the list and its end does not overflow, or it
  starts beyond the list and the wrapped start still does: in particular if page * pageSize fits an int64.
- A configured timeout is the one in use exactly up to 9223372036 seconds; it is negative exactly when
  2^63 fits into the product an odd number of times.
- A reload panics exactly when the list in place holds a relay without options, as a rejected one can.
- A reload after another one goes right, in whatever order the starts are stored, and starts no relay
  twice, exactly when no start of the last one still waits.
- A reload converges exactly when no relay it needs fails to be built, and one that does not is made
  good by the next in which none fails.
- A reload brings the loaded options into use exactly when every relay it leaves running has them already.
- The average latency is at most the maximum in all states with k calls between their addition to the
  total and their return exactly when k is 0.

## Model

| member | source | states |
|---|---|---|
| CopyConn.PrefixSafety | internal/conn/relay_conn.go:272-299 | in every interleaving, the bytes written to a side are a prefix of those read from the other, which are a prefix of what its peer sent |
| CopyConn.EndDelivers | internal/conn/relay_conn.go:272-299 | a direction that ended in EOF delivered the whole stream; one that did not end in a failed write delivered all it read |
| CopyConn.CloseWriteIsLast | internal/conn/relay_conn.go:280-294 | `CloseWrite` comes at most once per side, after the last write to it and the last read that fed it |
| CopyConn.ReturnIsLast | internal/conn/relay_conn.go:294-298 | `copyConn` returns once, as the last event, with both directions over, both sides closed for writing and then for reading, and the combined errors as its result |
| CopyCauses.StepDecides | internal/conn/relay_conn.go:212-290 | over every run and in every later state: after a write or a read that fails with a code that is the error of its direction, after a short write it is a short write, after the end of its stream it is none |
| CopyCauses.IdleExactly | internal/conn/relay_conn.go:224-229 | in every reachable state a direction ended in the idle timeout exactly when a read on its side was seen to give up |
| CopyCauses.CausesAre | internal/conn/relay_conn.go:212-290 | over every run: a direction is over without error, with the idle timeout, or with another error exactly when some step met the end of its stream, gave up after too long without activity, or failed |
| CopyCauses.CleanExactly | internal/conn/relay_conn.go:272-315 | from the steps of a run alone: the result is nil exactly when the client's direction gave up, or no read and no write of either direction failed |
| CopyCauses.OnlyFailureIsReturned | internal/conn/relay_conn.go:272-315 | a failure that is the only one, with the client's direction not giving up, is the result, with its code |
| CopyConn.SharedAccounting | internal/conn/relay_conn.go:171-245 | `Down` is the bytes read and `Up` the bytes of the writes without error, over both sides; `Up` never exceeds `Down`; at the end they are equal exactly when neither direction failed in a write |
| CopyConn.GivesUpOnlyWhenIdle | internal/conn/relay_conn.go:224-231 | `ErrIdleTimeout` means more than the idle timeout since the last successful read or write on that side |
| CopyConn.ReadReturnsInTime | internal/conn/relay_conn.go:212-235 | no read still waits one read timeout after both its call and the moment its side became idle |
| CopyConn.WritesFitBuffer | internal/conn/relay_conn.go:273-290 | no write is larger than the copy buffer |
| CopyConn.CleanResultExactly | internal/conn/relay_conn.go:301-315 | which errors the result reports, and the one case in which nil hides a real error |
| CopySilence.HiddenErrorReachable | internal/conn/relay_conn.go:301-315 | whatever the timeouts, a run in which the remote fails, the client is silent, and the relay returns nil |
| CopySilence.SilentRelayEnds | internal/conn/relay_conn.go:212-299 | once neither side is active and no write is pending, `copyConn` has returned within the idle timeout of the last activity plus one read timeout, if the relay never dawdles |
| CopySilence.SilenceRunsOut | internal/conn/relay_conn.go:212-299 | from every reachable state without a pending write the relay's own steps and the clock lead to that return in time, and no direction fails that had not failed before |
| CopySilence.NeverStuck | internal/conn/relay_conn.go:272-299 | from every reachable state, if pending writes complete and nothing more is read, the relay's own steps lead to the return within the idle timeout and one read timeout from now, and no direction fails that had not failed before |
| CopyConn.StepKeepsInv | internal/conn/relay_conn.go:212-299 | every step of either direction, and the passing of time, keeps the invariant of streams, deadlines, log and statistics |
| HalfClose.ToldExactly | internal/conn/relay_conn.go:251-256 | in every reachable state exactly the peers on plain TCP sides were told by a half-close, once the direction towards them was over |
| HalfClose.ClientToldExactly | internal/transporter/base.go:94-136 | after the return, the client was told of the remote's end exactly if it came by raw TCP, its reads are not limited, and sniffing was off or got nothing from it |
| HalfClose.RemoteToldExactly | internal/transporter/raw.go:38-61 | and the remote of the client's end exactly if it was dialed by raw TCP |
| InnerConn.IdleBound | internal/conn/relay_conn.go:213-231 | giving up means the side has been idle for longer than the timeout, and happens within one read timeout of the call or of that moment; a refused deadline means a broken connection, and comes no later than that moment |
| InnerConn.OneDeadline | internal/conn/relay_conn.go:213-231 | one turn of the retry loop: give up at this deadline exactly when the side is idle by then, else end as a read that starts there does |
| InnerConn.ReadLosesNothing | internal/conn/relay_conn.go:218 | a read takes as much as fits of what arrived and leaves exactly the rest |
| InnerConn.InnerConn.Read | internal/conn/relay_conn.go:212-235 | returns the arrival if it comes before the side gives up or is refused a deadline, and the error of that moment otherwise; only a read without error is counted and noted as activity |
| InnerConn.InnerConn.Write | internal/conn/relay_conn.go:237-245 | only a write without error is counted and noted as activity |
| InnerConn.Stats.Record | internal/conn/relay_conn.go:171-174 | adds to both counters |
| WsConn.HeaderRoundTrip | internal/conn/ws_conn.go:27-31 | a header of any of the three length forms of section 5.2 of RFC 6455, masked or not, is parsed back whatever follows it |
| WsConn.CipherInvolution | internal/conn/ws_conn.go:39-41 | masking twice with one key gives the payload back (section 5.3 of RFC 6455) |
| WsConn.ReadsStandardFrame | internal/conn/ws_conn.go:26-48 | any frame of sections 5.2 and 5.3 of RFC 6455, spelled out byte by byte, with any first byte, in any form of its length, with any key or none, is delivered as its plain payload if it fits and leaves what follows alone; else it is refused before or after its payload is taken |
| WsConn.WritesStandardFrame | internal/conn/ws_conn.go:50-60 | a write sends such a frame: first byte 0x82, length in the shortest form, each byte under the key byte of its turn |
| WsConn.CutFrameFails | internal/conn/ws_conn.go:27-38 | a stream that ends inside a header or inside a payload that fits is an error |
| WsConn.HugeLengthFails | internal/conn/ws_conn.go:27-30 | a 64-bit length with its top bit set is an error |
| WsConn.FrameRoundTrip | internal/conn/ws_conn.go:26-60 | a frame is read back with nothing after it touched exactly when its payload fits the connection's buffer and the reader |
| WsConn.TunnelRoundTrip | internal/conn/ws_conn.go:26-60 | any writes that fit come out as the same chunks in the same order, whatever the masks |
| WsConn.WsConn.Unmask | internal/conn/ws_conn.go:39-41 | unmasks the front of the buffer in place |
| WsConn.WsConn.Read | internal/conn/ws_conn.go:26-48 | consumes one frame as the stream-level function says, with its four errors, and copies the payload out, leaving the rest of the reader alone |
| WsConn.WsConn.Write | internal/conn/ws_conn.go:50-60 | appends exactly one standard frame, masked by clients only; a failed write reports no byte and may leave the beginning of the frame |
| Tunnel.FarEndReads | internal/conn/relay_conn.go:272-290 | in every reachable state of the relay, the far end of a tunnel with buffers of the same width reads exactly the chunks the copy loop wrote |
| Tunnel.FarEndGetsTheStream | internal/conn/relay_conn.go:272-290 | as long as no write failed those chunks are a prefix of the source stream, and all of it once the direction ended in EOF |
| Tunnel.ChunksAreTheBytes | internal/conn/relay_conn.go:237-245 | without failed writes the frames carry exactly the bytes written |
| Sniff.TlsIsNotHttp | internal/transporter/sniff.go:15-61 | nothing is classified as both protocols |
| Sniff.VerdictExactly | internal/transporter/sniff.go:15-61 | by the bytes: "http" for one of nine methods and a blank, "tls" for a handshake record up to version 3.3 with a ClientHello, nothing for anything else |
| Sniff.ClassificationStable | internal/transporter/sniff.go:15-61 | once bytes are classified, more bytes do not change the verdict |
| Sniff.FinalExactlyFromEight | internal/transporter/sniff.go:15-61 | every verdict on n bytes or more is final exactly when n is at least 8 |
| Sniff.ReadsPreserve | internal/transporter/sniff.go:75-77 | reads of any sizes return the peeked bytes and then the stream, losing and repeating nothing |
| Sniff.BlockedExactly | internal/transporter/base.go:94-124 | a connection is refused exactly when sniffing was on and some entry of the list is the verdict on the bytes read |
| Sniff.ReadsProgress | internal/transporter/sniff.go:68-77 | a read with room returns peeked bytes while there are any, otherwise as much of the stream as arrived and fits |
| Sniff.SniffingTransparent | internal/transporter/base.go:94-129 | a connection that is not blocked is read from its first byte on, whatever the first read returned |
| Sniff.PeekedConn.Read | internal/transporter/sniff.go:75-77 | first the peeked bytes, then the connection |
| Sniff.SniffAndBlockProtocol | internal/transporter/base.go:94-129 | refuses exactly when some entry of the list is the verdict on the bytes read, and otherwise passes the connection with its bytes; leaves no deadline on it |
| UdpListener.InOrderDelivery | internal/conn/udp_listener.go:125-169 | what a pseudo-connection received and has queued is an in-order subsequence of the datagrams of its address during its life, and at most ten wait |
| UdpListener.OneLivePerAddress | internal/conn/udp_listener.go:144-157 | no two live pseudo-connections share an address |
| UdpListener.DroppedExactlyWhenFull | internal/conn/udp_listener.go:144-168 | a datagram goes to the pseudo-connection of its address, new if there was none; it is dropped exactly when ten wait there, and no other queue changes |
| UdpListener.ReadIsWhole | internal/conn/udp_listener.go:29-41 | a read with room for 1500 bytes returns the oldest datagram whole, also after the close; end of file means open, an empty queue and too long without activity |
| UdpListener.EofExactly | internal/conn/udp_listener.go:29-47 | over every run: the end of file is found exactly when the pseudo-connection is open, nothing is queued, and more than the idle timeout has passed since its creation, the last datagram it delivered and the last write |
| UdpListener.StepKeepsInv | internal/conn/udp_listener.go:29-169 | every receive, read, write, close and clock step keeps the table and the queues consistent with the history |
| UdpListener.ListenIsHeard | internal/conn/udp_listener.go:144-168 | a listen step of the step system changes the table as the listener's method does |
| UdpListener.ReadIsReadSlot | internal/conn/udp_listener.go:29-41 | a read step changes its pseudo-connection as its method does, and no other |
| UdpListener.CloseIsRemoval | internal/conn/udp_listener.go:49-55 | a close step takes its pseudo-connection out of the table and closes it |
| UdpListener.Uc.Read | internal/conn/udp_listener.go:29-41 | takes the oldest datagram and notes the activity; end of file or nothing otherwise; nothing, noted as activity, on a closed channel |
| UdpListener.Uc.Write | internal/conn/udp_listener.go:43-47 | notes the activity and changes nothing else |
| UdpListener.Uc.Offer | internal/conn/udp_listener.go:163-167 | the non-blocking send |
| UdpListener.UDPListener.Find | internal/conn/udp_listener.go:145-161 | the pseudo-connection of the address, created if there is none |
| UdpListener.UDPListener.Handle | internal/conn/udp_listener.go:144-168 | one turn of the listen loop on the real table, queues and activity times |
| UdpListener.UDPListener.Close | internal/conn/udp_listener.go:49-55 | frees the address, whoever holds it, and closes the channel; panics exactly if it was closed before |
| Limiter.IdleBucketIsFull | pkg/limiter/limiter.go:72-80 | a bucket left alone for longer than the interval is full, if the interval refills a burst |
| Limiter.TakeIs | pkg/limiter/limiter.go:66-87 | the contract of a bucket: full at first; a request passes exactly when a token is there, counting what arrived up to the burst, and takes one |
| Limiter.GenerationsAre | pkg/limiter/limiter.go:43-88 | what a call does to the two generations: collected exactly when more than 60 seconds have passed since the last time |
| Limiter.CollectKeepsCoupling | pkg/limiter/limiter.go:72-80 | collecting drops only buckets that are full |
| Limiter.FetchKeepsCoupling | pkg/limiter/limiter.go:43-70 | fetching, promoting or creating a bucket yields one that answers now as the permanent one does |
| Limiter.ServeRefines | pkg/limiter/limiter.go:82-88 | one call answers as the permanent bucket and keeps the coupling |
| Limiter.EvictionShows | pkg/limiter/limiter.go:43-88 | above the bound, a run on which forgetting a drained bucket shows |
| Limiter.EvictionInvisibleExactly | pkg/limiter/limiter.go:43-88 | no ordered run of calls can tell the collected cache from one permanent bucket per IP exactly when the burst is at most 60 seconds of refill |
| Limiter.RateLimiter.Allow | pkg/limiter/limiter.go:87 | takes a token if one is there |
| Limiter.IPRateLimiter.GetOreCreateLimiter | pkg/limiter/limiter.go:43-70 | the bucket of the current generation, else promoted from the old one, else new |
| Limiter.IPRateLimiter.Promote | pkg/limiter/limiter.go:59-64 | moves a bucket from the old generation to the current one |
| Limiter.IPRateLimiter.Gc | pkg/limiter/limiter.go:72-80 | the current generation becomes the old one |
| Limiter.IPRateLimiter.Charge | pkg/limiter/limiter.go:87 | charges one bucket and leaves every other IP's alone |
| Limiter.IPRateLimiter.CanServe | pkg/limiter/limiter.go:82-88 | the whole call on the shared objects: answer and new state are those of the value-level call |
| XrayUser.RecentIsLastTen | pkg/xray/user.go:105-129 | the list is always the last ten of the cycle's admissions |
| XrayUser.ElevenAdmissionsDistinct | pkg/xray/user.go:105-129 | any eleven consecutive admissions are pairwise distinct |
| XrayUser.MergeAddsOnce | pkg/xray/user.go:392-411 | merging keeps its input as a prefix, adds exactly the new non-empty IPs, and no duplicates |
| XrayUser.MergeOrderIrrelevant | pkg/xray/user.go:392-411 | the order of the live connections does not change which IPs result, nor how many |
| XrayUser.MergeNext | pkg/xray/user.go:392-411 | one more live connection adds its IP at the end if it is new and not empty |
| XrayUser.AccountIs | pkg/xray/user.go:159-180 | the accounts, by protocol: trojan and ss from the password, vless from password and flow, none for others |
| XrayUser.MergeLiveIPs | pkg/xray/user.go:392-411 | the loop with its index computes the merge |
| XrayUser.User.RecordIP | pkg/xray/user.go:105-129 | the bounded list and its index stay equal as sets |
| XrayUser.User.AddUploadTraffic | pkg/xray/user.go:93-96 | adds to the cycle and to the total |
| XrayUser.User.AddDownloadTraffic | pkg/xray/user.go:98-101 | adds to the cycle and to the total |
| XrayUser.User.SnapshotAndReset | pkg/xray/user.go:135-144 | hands the cycle over and starts the next; totals stay |
| UserTraffic.TrafficConserved | pkg/xray/user.go:93-101 | over all interleavings of the two adds with the swaps: drained plus counter is the total plus the calls between their adds |
| UserTraffic.EachAddLandsOnce | pkg/xray/user.go:135-144 | every add lands in exactly one snapshot or in the residue: they are sums of consecutive blocks of the adds |
| UserTraffic.ReportsLoseNothing | pkg/xray/user.go:328-355 | leaving out rows of zeros loses no bytes of a user in the pool |
| PoolTraffic.PoolConserved | pkg/xray/user.go:93-144 | over all interleavings of dispatches with reconciliations and reports: reported plus waiting plus stranded with dropped users is all that was added, and the totals lack exactly the open adds |
| PoolTraffic.NothingLostExactly | pkg/xray/user.go:446-453 | reported plus waiting is all that was added exactly when every dropped user has an empty counter |
| PoolTraffic.DropLoses | pkg/xray/user.go:446-453 | a drop loses exactly what its user carried since the last report |
| PoolTraffic.LostForEver | pkg/xray/user.go:328-355 | a dropped user is never reported again and its counter never shrinks, in every run |
| PoolTraffic.SafeForGoodExactly | pkg/xray/outbound.go:77-104 | nothing will be lost in any further run without another drop exactly when every dropped user has an empty counter and no dispatch in progress |
| PoolTraffic.RunLosesExactly | pkg/xray/user.go:460-475 | over a whole run nothing is ever lost exactly when every drop is of an empty counter and no byte is added to a dropped user |
| PoolTraffic.QuietUserLoses | pkg/xray/user.go:460-475 | any number of bytes is lost when their dispatch ends and the user is dropped before the next report |
| UserSync.TurnExactly | pkg/xray/user.go:420-444 | one turn with any faults keeps the invariant exactly when it meets no such removal; one that does fails |
| UserSync.SyncExactly | pkg/xray/user.go:413-455 | a whole call with any faults, in both loops, keeps: running exactly when on the inbound, with the current credentials, and only if enabled; exactly when no turn of its first loop meets a hard removal failure whose new profile asks for other credentials or none; such a call fails |
| UserSync.RunExactly | pkg/xray/user.go:281-455 | over every run of calls with any faults, the invariant always holds exactly when no call meets such a removal |
| UserSync.SyncKeepsInv | pkg/xray/user.go:413-455 | in particular a call keeps it, successful or not, whatever else fails, when removals of listed users fail only with "not found" |
| UserSync.RunningMeansServed | pkg/xray/user.go:281-455 | and so does every run of such calls |
| UserSync.ReconcileConverges | pkg/xray/user.go:421-443 | one successful turn leaves its user as the server wants it and the others alone |
| UserSync.CleanupDrops | pkg/xray/user.go:446-453 | dropping users keeps the invariant even when a removal really fails; when none does, exactly the walked users that are not listed are gone |
| UserSync.SyncConverges | pkg/xray/user.go:413-455 | after a successful call, whatever faults it was exposed to, the pool is the server's last entry per id and the inbound its enabled users with their credentials |
| UserSync.SyncServes | pkg/xray/user.go:413-455 | after a successful call a listed user is on the inbound exactly if its last entry enables it: with the level and the protocol it was created with, by this call's first entry or before, and the credentials of its last entry, spelled out by protocol |
| UserSync.SyncDescends | pkg/xray/user.go:420-428 | whatever fails in a call: a user it creates has the protocol and level of the first entry that names it, one that stays keeps its own |
| UserSync.OriginDecides | pkg/xray/user.go:420-428 | over every run: a user has the protocol and level of the first entry that named it in the call that created it, and has been in the pool since |
| UserSync.TurnFailsExactly | pkg/xray/user.go:420-444 | a turn fails exactly when it needs a removal that fails, or else an addition that fails or has no account |
| UserSync.FailedTurnLeaves | pkg/xray/user.go:420-444 | a failed turn has stored the profile; its user runs only if the removal failed, and nobody else is affected |
| UserSync.CleanupFailsExactly | pkg/xray/user.go:446-453 | the second loop fails exactly when some user it walks is not listed and cannot be removed |
| UserSync.AlreadyThere | pkg/xray/user.go:290-300 | a user on the inbound already keeps its entry there and counts as added |
| UserSync.SyncHeals | pkg/xray/user.go:413-455 | so after any successful call of an unbroken run, whatever failed before |
| UserSync.HardRemovalExactly | pkg/xray/user.go:430-436 | a real removal failure after the profile update breaks the invariant exactly when the new profile asks for other credentials or none, whatever else the turn meets |
| UserSync.HardRemovalSticks | pkg/xray/user.go:430-443 | the next turn with the same entry succeeds and repairs nothing |
| UserSync.StaysWrong | pkg/xray/user.go:413-455 | a whole call with any faults leaves a wrong user as it is if the fetch fails or names the user only with the profile it has |
| UserSync.StaysWrongForEver | pkg/xray/user.go:413-455 | so does every run of such calls |
| UserSync.SomeRunBreaks | pkg/xray/user.go:430-436 | a run of two calls that breaks: a password changes while the removal fails |
| UserSync.HealsExactly | pkg/xray/user.go:430-443 | a later turn puts such a user right exactly when its profile changes again, and the removal works or the new profile asks for what the inbound still holds |
| UserSync.FailureStops | pkg/xray/user.go:421-443 | once a turn fails, the rest of the list is not looked at |
| UserSync.UserPool.CreateUser | pkg/xray/user.go:220-235 | a new user that does not run, replacing any of that id |
| UserSync.UserPool.AddInboundUser | pkg/xray/user.go:281-301 | "already exists" is no failure, and keeps the inbound's old entry |
| UserSync.UserPool.RemoveInboundUser | pkg/xray/user.go:303-318 | "not found" is no failure; a failure leaves the user running |
| UserSync.UserPool.RefreshUser | pkg/xray/user.go:430-436 | a changed profile is stored before the removal that may fail |
| UserSync.UserPool.ReconcileOne | pkg/xray/user.go:421-443 | one turn of the loop over the server's users, on the shared objects |
| UserSync.UserPool.DropUser | pkg/xray/user.go:446-453 | off the inbound first, then out of the pool |
| UserSync.UserPool.ReconcileList | pkg/xray/user.go:421-443 | the loop over the server's users |
| UserSync.UserPool.GetAllUsers | pkg/xray/user.go:250-259 | every user once, in any order |
| UserSync.UserPool.CleanupPool | pkg/xray/user.go:446-453 | the loop that drops unlisted users, in that order |
| UserSync.UserPool.SyncUserConfigsFromServer | pkg/xray/user.go:413-455 | the whole call on the shared objects equals the value-level one, and a successful one walks the whole pool |
| RelayConf.AdjustedIsComplete | internal/relay/conf/cfg.go:100-115 | after `Adjust`: the label it had, or a default one; the options it had, or the defaults; each timeout in use is its own configured one if in range, or its own default of 3, 30, 5 and 0.3 seconds; nothing else changes, and adjusting again changes nothing |
| RelayConf.TimeoutsArePositive | internal/relay/conf/cfg.go:106-113 | so all timeouts are positive unless one is out of range |
| RelayConf.DefaultLabelIs | internal/relay/conf/cfg.go:172-176 | the default label, for two remotes |
| RelayConf.ListenersAreToldApart | internal/relay/conf/cfg.go:172-176 | relays without a label that differ only in where they listen get different labels |
| RelayConf.DurationExactly | internal/relay/conf/cfg.go:210-215 | a timeout in use is the configured one exactly up to 9223372036 seconds |
| RelayConf.NegativeExactly | internal/relay/conf/cfg.go:210-215 | it is negative exactly when 2^63 fits into the product an odd number of times |
| RelayConf.DifferentIsComplementOfEquivalence | internal/relay/conf/cfg.go:140-170 | not being `Different` is agreeing in label, listen address, both types and remotes; it is an equivalence, and `Clone` stays inside its class |
| RelayConf.CloneIs | internal/relay/conf/cfg.go:57-70 | the clone has everything of the original, but no timeouts |
| RelayConf.WellFormedExactly | internal/relay/conf/cfg.go:117-208 | what a configuration has to be, spelled out |
| RelayConf.RelayConfig.Adjust | internal/relay/conf/cfg.go:100-115 | fills label, options and timeouts |
| RelayConf.FirstProblemIsUnique | internal/relay/conf/cfg.go:117-138 | at most one problem comes first, and none in a well-formed configuration |
| RelayConf.FirstProblemExists | internal/relay/conf/cfg.go:117-138 | a configuration with options has a first problem exactly when it is not well formed |
| RelayConf.RelayConfig.Validate | internal/relay/conf/cfg.go:117-138 | adjusts, then reports the first problem exactly when the configuration is not well formed |
| RelayConf.RelayConfig.IsDifferent | internal/relay/conf/cfg.go:153-170 | the field-by-field comparison with its loop over the remotes |
| RelayConf.AdjustFile | internal/config/config.go:109-131 | a file is accepted exactly when every adjusted relay is well formed, no two labels are equal, and TLS can be set up if some relay needs it; else it is rejected for the first problem, in this order |
| RelayConf.ValidateAll | internal/config/config.go:109-113 | adjusts and validates every relay, up to the first that has a problem |
| RelayConf.SetUpTls | internal/config/config.go:124-131 | fails exactly when TLS cannot be set up and some relay needs it |
| RelayConf.CheckLabels | internal/config/config.go:116-122 | finds the first label that was there before, exactly when there is one |
| Reload.ComparedWithClone | internal/relay/server_reloader.go:16-20 | comparing with the clone of the last loaded configuration decides whether the running one is `Different` |
| Reload.ApplyIs | internal/relay/server_reloader.go:44-74 | no turn of the loop over the new configurations affects another one |
| Reload.StartsExactly | internal/relay/server_reloader.go:44-74 | a reload starts exactly the configurations that can be built and whose label does not run or runs a `Different` one |
| Reload.StopsExactly | internal/relay/server_reloader.go:33-74 | it stops exactly the relays whose label vanished or whose configuration is `Different`, whether or not their successors can be built; the others are not touched |
| Reload.OldConfigAlwaysFound | internal/relay/server_reloader.go:44-74 | the branch for a running relay without an old configuration is unreachable |
| Reload.RunsAfter | internal/relay/server_reloader.go:44-74 | what runs for a configuration afterwards: the relay just built, the one that ran, or nothing because a needed build failed |
| Reload.ReloadConverges | internal/relay/server_reloader.go:14-77 | once its starts are stored, in any order, only configured labels run and none with a `Different` configuration; all of them exactly when no needed build failed |
| Reload.DrainOrderIrrelevant | internal/relay/server.go:53-54 | the order in which the start goroutines store their relays does not matter |
| Reload.StartConverges | internal/relay/server.go:68-76 | a started server is converged |
| Reload.EveryRunConverges | internal/relay/server_reloader.go:14-77 | the same after every reload of every run of successful loads with the starts stored in between, whatever builds fail; converged after each reload in which none fails |
| Reload.OptionsTakenExactly | internal/relay/conf/cfg.go:153-170 | the running configurations are the loaded ones, options and all, exactly when every relay left running had the loaded options |
| Reload.NextReloadExactly | internal/relay/server.go:53-54 | a reload of any list, with some starts of the last one stored and others waiting, goes right in every order and starts nothing twice exactly when none waits |
| Reload.ReloadTooSoonStartsTwice | internal/relay/server.go:53-54 | for instance, the same list loaded again before any start is stored has every start twice |
| Reload.Server.StoreOne | internal/relay/server.go:53-54 | one goroutine stores its relay under its label |
| Reload.Server.StopVanished | internal/relay/server_reloader.go:33-45 | stops and deletes the relays without a label in the new list |
| Reload.Server.CloneConfigs | internal/relay/server_reloader.go:16-19 | clones of the loaded configurations by label; panics exactly when one has no options |
| Reload.Server.ApplyAll | internal/relay/server_reloader.go:44-74 | the loop over the new configurations, skipping relays that cannot be built |
| Reload.Server.Reload | internal/relay/server_reloader.go:14-77 | the whole call, for a load that succeeds, is skipped, cannot be read and clears the list, or is rejected and leaves the rejected list; panics before it exactly when the list in place holds a relay without options |
| Cmgr.ExactlyOnePlace | internal/cmgr/cmgr.go:134-164 | under the add-once, remove-once protocol every added connection is in exactly one of active, closed and drained, exactly once, and active until removed |
| Cmgr.LifecycleConserved | internal/cmgr/syncer.go:69-84 | adds are active plus closed plus drained, and per label the reported counts and bytes are those of the drained connections |
| Cmgr.ListedInOrder | internal/cmgr/cmgr.go:134-164 | in every reachable state the active connections of a label are listed in the order they were added, the closed ones in the order they were removed since the last push |
| Cmgr.RowTells | internal/cmgr/syncer.go:69-77 | a row has the label, the number and the sums of the bytes up and of the bytes down of its connections |
| Cmgr.MeanLatency | internal/cmgr/syncer.go:76-80 | and their mean latency rounded down, between the least and the largest, or 0 |
| Cmgr.RemoveMovesExactly | internal/cmgr/cmgr.go:145-164 | a removal moves the connection, losing and inventing nothing, exactly when it is active or its label unknown |
| Cmgr.RowsAddUp | internal/cmgr/syncer.go:69-82 | the rows of one drain add up, per label, to what its connections carried |
| Cmgr.RemoveKeeps | internal/transporter/base.go:147-152 | the removal at the end of a relayed connection keeps the invariant of the registry |
| Cmgr.PushKeeps | internal/cmgr/syncer.go:69-84 | a drain in any order keeps it |
| Cmgr.FlatSize | internal/cmgr/cmgr.go:93-132 | the total counted in map order is the length of the flattened list, so clamping to either is the same |
| Cmgr.PagesPartition | internal/cmgr/cmgr.go:93-132 | pages 1 to k together are the first k * pageSize connections of the sorted flattening |
| Cmgr.OnOnePage | internal/cmgr/cmgr.go:93-132 | every position is on exactly one page |
| Cmgr.PagedExactly | internal/cmgr/cmgr.go:107-131 | with 64-bit arithmetic, when a given list gets the page it should, exactly: among others whenever page * pageSize fits an int64 |
| Cmgr.WrappedStartPanics | internal/cmgr/cmgr.go:107-131 | page 3 of the largest size panics on every list, however short |
| Cmgr.NoPageZero | internal/cmgr/cmgr.go:107-131 | page 0 panics on every list |
| Cmgr.SortedUnique | internal/cmgr/cmgr.go:107-120 | a set of labels has one sorted listing, so pages do not depend on the order of the map |
| Cmgr.LessExactly | internal/cmgr/cmgr.go:121-122 | the order of the labels: a proper prefix first, otherwise the first character that differs decides |
| Cmgr.SortedLabels | internal/cmgr/cmgr.go:107-120 | the labels of a map, sorted and each once |
| Cmgr.CountAll | internal/cmgr/cmgr.go:174-192 | the number of connections, summed over the labels in any order |
| Cmgr.Flatten | internal/cmgr/cmgr.go:107-131 | the connections in the order of the labels |
| Cmgr.Without | internal/cmgr/cmgr.go:145-164 | finds and takes out the first occurrence |
| Cmgr.CmgrImpl.ListConnections | internal/cmgr/cmgr.go:93-132 | the page of the flattening in label order, empty past the end, for all arguments, including those on which slicing panics |
| Cmgr.CmgrImpl.AddConnection | internal/cmgr/cmgr.go:134-143 | files the connection under its label as active |
| Cmgr.CmgrImpl.RemoveConnection | internal/cmgr/cmgr.go:145-164 | takes it out and files it as closed; does nothing for an unknown label |
| Cmgr.CmgrImpl.PushStats | internal/cmgr/syncer.go:48-92 | one row per label of the closed map, which is emptied |
| Cmgr.CmgrImpl.Aggregate | internal/cmgr/syncer.go:70-81 | count, sums and mean latency of one label |
| ConnTracker.EmailRoundTrip | pkg/xray/conn_tracker.go:70-79 | the user id read back from the email is the id it was made from, exactly for ids that fit an int |
| ConnTracker.EmailIs | pkg/xray/user.go:88-91 | the email is the decimal number without leading zeros |
| ConnTracker.EntryTells | pkg/xray/conn_tracker.go:29-101 | an entry tells the user its session's email was made from, or 0 if it has none or no number; and email, source, target and network as they are |
| ConnTracker.RegisteredIsUsers | pkg/xray/conn_tracker.go:117-140 | a registered session is among those killed, listed and, exactly for a TCP target, counted for the user of its email, and for nobody else |
| ConnTracker.RegisterKeepsIndex | pkg/xray/conn_tracker.go:117-140 | registering keeps the two indexes in agreement under an id that is new |
| ConnTracker.UnregisterKeepsIndex | pkg/xray/conn_tracker.go:142-156 | unregistering keeps them in agreement, with no empty bucket left |
| ConnTracker.IndexesAgree | pkg/xray/conn_tracker.go:117-156 | in every reachable state the user index is the partition of the entries by user, and no id was issued twice |
| ConnTracker.TrackerRefinesDispatches | pkg/xray/outbound.go:98-100 | every question is answered as the plain set of dispatches between register and unregister would be asked about their sessions: the matching ids and their number |
| ConnTracker.CountsAreDispatches | pkg/xray/conn_tracker.go:170-240 | a user's connections, and the TCP ones, are as many as the dispatches in progress with the user's email |
| ConnTracker.ConnTracker.Register | pkg/xray/conn_tracker.go:117-140 | the next id, entered in both indexes under the user of the session's email and nobody else |
| ConnTracker.ConnTracker.Unregister | pkg/xray/conn_tracker.go:142-156 | removed from both indexes, a second time changes nothing |
| ConnTracker.ConnTracker.Kill | pkg/xray/conn_tracker.go:159-168 | kills the entry exactly if it is there |
| ConnTracker.ConnTracker.KillByUser | pkg/xray/conn_tracker.go:170-184 | closes the connections of that user and nobody else's, and returns their number |
| ConnTracker.ConnTracker.KillAll | pkg/xray/conn_tracker.go:186-197 | closes every connection and returns their number |
| ConnTracker.ConnTracker.List | pkg/xray/conn_tracker.go:200-218 | every connection of the user, or of everybody for 0, exactly once |
| ConnTracker.ConnTracker.Count | pkg/xray/conn_tracker.go:221-225 | the number of entries |
| ConnTracker.ConnTracker.CountTCPByUser | pkg/xray/conn_tracker.go:229-240 | the number of the user's TCP connections |
| OpStats.MaxIsExact | internal/cmgr/ms/stats.go:18-29 | with any number of callers, the maximum is at least every finished sample and is itself one, or 0 |
| OpStats.MaxNeverDecreases | internal/cmgr/ms/stats.go:23-28 | it never decreases |
| OpStats.RetryRaises | internal/cmgr/ms/stats.go:23-28 | a swap fails only because the maximum rose above the loaded one |
| OpStats.LoopEnds | internal/cmgr/ms/stats.go:23-28 | however others interfere, a call takes at most 2 * ns + 5 steps |
| OpStats.ExactAtRest | internal/cmgr/ms/stats.go:18-29 | when all calls have returned, count and total are exact and the total is at most count times maximum |
| OpStats.AverageBoundedExactly | internal/cmgr/ms/stats.go:18-29 | the total is at most count times maximum in every state with k calls between their addition to the total and their return exactly when k is 0 |
| OpStats.AverageBoundedAtRestExactly | internal/cmgr/ms/stats.go:18-29 | the same with k calls under way |
| OpStats.SnapshotCovers | internal/cmgr/ms/stats.go:47-58 | a snapshot taken meanwhile counts every call that had returned when it began and none not yet made; its maximum covers them and is a finished sample, or 0; its last sample was stored; its total lies between that of the calls that had returned and that of the calls made |
| OpStats.ConcurrentIsSequential | internal/cmgr/ms/stats.go:18-29 | at rest the counters are those of recording the samples one after the other |
| OpStats.SoloRunRecords | internal/cmgr/ms/stats.go:18-29 | a call that is not disturbed takes five steps, and they record its sample |
| OpStats.OpStats.Record | internal/cmgr/ms/stats.go:18-29 | one call alone: count, total, last, maximum |
| OpStats.OpStats.Reset | internal/cmgr/ms/stats.go:31-36 | all four fields are 0 |
| OpStats.OpStats.TakeSnapshot | internal/cmgr/ms/stats.go:47-58 | the fields, and an average that is 0 without samples |
| RoundRobin.Fair | internal/lb/round_robin.go:59-63 | among the first 2^63 tickets, in any window of k consecutive ones, under any interleaving, a node is chosen k / len times, plus one exactly when its distance from the start is below k % len |
| RoundRobin.NoFavourites | internal/lb/round_robin.go:59-63 | any two nodes are chosen equally often, up to one |
| RoundRobin.PickIs | internal/lb/round_robin.go:60-61 | the call with the c-th ticket gets node c % len, however late it picks |
| RoundRobin.ServesExactly | internal/lb/round_robin.go:60-61 | how many calls are served before the wrapped counter makes the index negative |
| RoundRobin.NeverPanicsExactly | internal/lb/round_robin.go:60-61 | over all tickets, only a single node is safe |
| RoundRobin.RoundRobin.Next | internal/lb/round_robin.go:59-63 | the next node, with the wrap of the counter |
| BufferPool.ExclusiveExactly | pkg/buffer/buffer.go:34-53 | over a whole run every buffer always has at most one owner or place in the pool exactly when every put is by a holder, of a buffer nobody has, or finds no room |
| BufferPool.OwnersKeepItExclusive | pkg/buffer/buffer.go:34-53 | so if every put is by a holder, and the pool stays within its bound |
| BufferPool.PutKeepsExactly | pkg/buffer/buffer.go:46-53 | when one put keeps ownership exclusive |
| BufferPool.TwoClosesShare | internal/conn/ws_conn.go:62-65 | two closes of one connection in a row give the next two owners one buffer |
| BufferPool.LateCloseShares | internal/conn/ws_conn.go:62-65 | so does a second close after somebody else got the buffer |
| BufferPool.BytePool.Get | pkg/buffer/buffer.go:34-43 | the oldest buffer or a new one, of the pool's width |
| BufferPool.BytePool.Put | pkg/buffer/buffer.go:46-53 | kept if there is room; the pool keeps its width exactly when the buffer has it or there is none |

## Left out

- Token buckets are those of golang.org/x/time/rate, which is not part of this model: a rate, a capacity, refill capped at the capacity, over reals; its rounding, and several clock readings within one call, are not modelled.
- Connections are assumed to lose no bytes on a failed read and to return from a blocked read by its deadline; a read that returns data together with an error is not modelled for the copy loop, nor a `wsConn` that times out in the middle of a frame.
- `io.CopyBuffer` is its documented loop; short cuts through `ReadFrom` and `WriteTo` are not modelled.
- `Stats.Record` is one step, although the two directions race on it; byte counters, ids and latencies are unbounded integers.
- CopySilence.SilentRelayEnds: a pending write has no deadline in the code, so nothing bounds a relay that waits for one.
- InnerConn.InnerConn.Read: the other direction's writes are a given list of times; in CopyConn a refused deadline is an ordinary read error.
- `CloseWrite` and `CloseRead` are calls in the log; `HalfClose` says what the former do, `CloseRead` is not followed further.
- WsConn.WsConn.Read: the opcode and the FIN bit are ignored, as the code does; control frames are not modelled.
- Sniffing over a `wsConn` is not covered: a first frame over 4096 bytes is consumed with an error.
- UdpListener.UDPListener.Close: `uc.Close` racing an enqueue and the accept queue are not modelled; in the step system a pseudo-connection is closed once, as the relay does, since a second close ends the program.
- UdpListener.InOrderDelivery: datagrams longer than the 1500-byte buffer are cut by the socket before they reach the model.
- Limiter: two collections racing between the unlocked check and the lock are not modelled; a limit of at least zero is assumed.
- UserSync: one proxy tag (`running` is one flag per user); ids stand for emails; Level and Protocol are not refreshed for existing users, as in the code; a failing inbound lookup is one more failing add or removal.
- UserTraffic: the recent IPs of a user without traffic are dropped with its row; the POST that may lose a batch is not modelled. PoolTraffic is about one direction; a dispatch that finds no user is not metered and not counted.
- `User.toMemoryUser` of an unknown protocol or a failing account is a failing add; cipher names are not checked.
- Reload.Server.Reload: after a failed load the baseline is lost, so convergence is not claimed for the reload that follows; a decoding error may also leave part of the list. `Listen` failures, and relays that stop by themselves, are not modelled.
- `DefaultLabel` is modelled without proving that labels differ; the log level and web host of `Config.Adjust` are left out.
- Cmgr.LifecycleConserved: a connection's statistics are final when it is removed; mean latencies of different drains do not add up and no claim is made.
- `sort.Strings` is its contract, realised by insertion; lock re-entrancy is not modelled.
- ConnTracker: sessions are immutable; the start time, and `Dispatch` itself beyond register and unregister, are left out, as are the metering reader and writer, which call the traffic counters with a sum of lengths.
- OpStats.OpStats.TakeSnapshot: one caller at a time (SnapshotCovers is about the others); milliseconds as floats, and `Reset` racing `record`, are not modelled.
- RoundRobin: `extractHost`, `Clone` and `GetAll` would only add easy members.
- BufferPool: buffers of another width arrive only if the global pool is replaced while buffers are out, which the program does not do.
- The web UI, HTTP handlers, CLI, updater, metrics, SQLite queries, TLS keys, the connection limit and real sockets are not modelled.
