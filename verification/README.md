# Verification of gotun's core

gotun forwards connections through tunnels. This project models the parts of it where behaviour spans
many steps, and proves what they guarantee over every run, every input and every interleaving:

- **Route selection** (`RouteQuality`, `RouteLegality`, `RouteMonitor`, `RouteRuns`, `RouteTheorems`,
  `RouteIsolation`, `RouteTiming`, `RouteProgress`, `RouteSelector`). A monitor probes the members of a
  route in rounds and keeps one of them preferred. The objects of the Go code are classes updated in
  place; each method is proved equal to a function of `RouteQuality`. `RouteRuns` is a transition system
  over those functions, at the grain of the code's locks: probes are launched, members are rebuilt,
  answers arrive, a commit checks one member after the other and is applied, and the monitor is asked
  or cancelled at any moment, also in the middle of a commit. Probe results are arbitrary. `Wf` and
  `Inv` hold in every reachable state (`RouteRuns.RunKeepsInv`), so a
  theorem that requires them holds in all runs.
- **The stream stack** (`Bytes`, `Gcm`, `Channel`, `Frames`, `FrameStream`, `Stack`, `Pipe`,
  `ProbeMatching`). Handshake, typed frames and AEAD records over a transport that splits its bytes as
  it likes. Each layer is given as what it will still deliver (`Remaining`, `View`), and every read and
  write is proved against that.
- **The probe-history store** (`HistoryStore`, `HistoryWriter`, `HistoryQuery`). A bounded queue and a
  single writer with batching, retry, flush and shutdown, over all interleavings; cursor pagination over
  a table that changes between pages; the pruning loop.
- **The registries** (`ServiceFiles`, `Manager`, `Challenges`). Replacing a running service, its
  registry entry and its file with rollback, as rename steps over a directory whose every primitive may
  fail: what the system does in an operation is an input of it, and its outcome is told from that, both
  ways; single-use login challenges.
- **The login page's SHA-256 and HMAC** (`Words`, `Fips180`, `Fips180Constants`, `Fips180Bits`,
  `Sha256Fallback`). Typed-array loops with JavaScript's 32-bit operators, proved equal to FIPS 180-4 and
  to section 2 of RFC 2104, both written down independently in `Fips180`. That the tables there are the
  standard's is proved from the roots of the primes, and that its functions are, bit by bit and by the
  trace of a hash.

Where events of a run are numbered or recorded (`log`, `since`, `switches`, `accepted`, `asked`,
`history`, `started`), the record is there to state properties; no decision reads it.

Assumptions. The AEAD is two functions with `open(n, seal(n, p)) = p` and a fixed overhead. Clocks,
random values, probe results, the outcome of every system call and of every transaction are arbitrary.
Random identifiers of challenges and backup file names are not drawn twice. Route members are neither
blank nor repeated, which `tun/route_config.go:91-103` enforces for full-path probing. The lock that a
Go method holds for its whole body makes that body one step.

## What turned out not to hold

- A round is committed although a member was registered and removed again between launch and commit:
  the code compares the service at both ends, and both are absent. It leaves no trace in anything that
  follows (`RouteIsolation.ComingAndGoingIsNotNoticed`). A member that was present at launch and then
  rebuilt or removed always stops the round (`RouteIsolation.RebuiltMidRoundNeverCommits`).
- Cancelling a monitor does not freeze it. A commit already under way still starts a rebuilt member's
  state afresh before the cancelled round is discarded (`RouteProgress.CancelledCommitRebinds` and, from
  the very start, `RouteProgress.CancelledFirstRound`), and asking still moves the preference, its time
  and the switch history (`RouteProgress.CancelledStillAnswers`). `RouteIsolation.CancelledOnlyRebinds`
  says that these two are all that can change.
- A record cut off by the transport is reported as a plain end of stream when the cut falls before the
  nonce, after the nonce, or after the sealed size; everywhere else it is an unexpected end
  (`Gcm.CutRecord`).
- Dropping one GCM reader for another on the same transport is unobservable exactly when nothing of the
  current record is left over (`Gcm.HandOff`); reading a message exactly leaves it so (`Gcm.ReadMessage`).
- The page's SHA-256 is right up to 2^31 - 73 bytes of message; beyond that its length arithmetic leaves
  32 bits and the page throws (`Sha256Fallback.Sha256Js`).
- While a service file is replaced there is a moment when no complete version stands under its own
  name, only in the staging directory: exactly when the backup rename succeeded, whether the
  replacement then does or not (`ServiceFiles.Directory.ReplaceFile`).
- Removing a service is not transactional: it deletes the file before it takes the lock. When `Close`
  then fails, the service stays registered without its file (`Manager.RemovalLeavesEntry`). When the
  service is switched off or edited between the two halves, all calls succeed, and a file stands
  without an entry (`Manager.InterleavedRemoval`). A deletion that falls into a replacement which then
  fails finds nothing, succeeds, and has the file put back behind it
  (`ServiceFiles.Directory.DeletionMissed`).
- Registry and directory come to differ on a name by exactly five outcomes (`Manager.StepDrift`,
  `Manager.AgreeThroughout`): a service added without writing its file; a rollback that fails with the
  old file in place; an old file that cannot be put back although its service runs again (both of these
  at once leave neither, and agree); the first half of a removal; and the second half of a removal while
  a file stands. A removal with both halves done ends in agreement exactly when no file stands at its
  second half, and one does only if the first half missed it or somebody wrote it in between
  (`Manager.RemovalCompletes`).
- A challenge whose clock reading is older than one the table has already seen may be refused although
  its time is not over: expired entries are pruned by the newest reading so far. What is accepted is
  always in time (`Challenges.AcceptedIsUnspent`); that everything in time is accepted needs a clock that
  has not been ahead before (`Challenges.AcceptedExactlyWhen`).

## Model

| member | source | states |
|---|---|---|
| RouteMonitor.RouteSwitchLog.RecordReason | tun/route_switch_log.go:29-36 | the log holds the last 20 of all events ever recorded, in order |
| RouteMonitor.RouteSwitchLog.List | tun/route_switch_log.go:39-47 | the copy is the full history read backwards from its newest event, at most 20 of it |
| RouteMonitor.RouteQualityMonitor.ChooseLocked | tun/route_quality.go:57-63 | choosing the current member changes nothing; any other choice logs one event and restarts the cooldown |
| RouteMonitor.RouteQualityMonitor.EnsureCurrentLocked | tun/route_quality.go:74-91 | the loop and its early exit refine EnsureCurrent, whose meaning FirstMeaning and EnsureExtends give |
| RouteMonitor.RouteQualityMonitor.AbsorbLocked | tun/route_quality.go:123-161 | visiting the results in any order gives the same states |
| RouteMonitor.RouteQualityMonitor.ApplyRound | tun/route_quality.go:111-171 | one in-place round equals the round of the specification on the state, log and cancellation included |
| RouteMonitor.RouteQualityMonitor.ApplyPriorityLocked | tun/route_quality.go:174-195 | the two loops that may return early refine ApplyPriority |
| RouteMonitor.RouteQualityMonitor.ApplyQualityLocked | tun/route_quality.go:197-219 | the scan for the best member refines ApplyQuality |
| RouteMonitor.RouteQualityMonitor.Preferred | tun/route_quality.go:93-98 | asking may only repair the preference, and returns it |
| RouteMonitor.RouteQualityMonitor.RebindLocked | tun/route_quality.go:288-292 | one member of a commit, under one hold of the monitor's lock: a fresh state exactly when its service has changed |
| RouteMonitor.RouteQualityMonitor.RebindWhileUnchanged | tun/route_quality.go:280-298 | members are rebound up to the first that is not the instance probed, and no further; if there is none, the running ones are collected in order |
| RouteMonitor.RouteQualityMonitor.CommitRound | tun/route_quality.go:275-299 | the commit half of a round, nothing falling between its members, equals Commit |
| RouteProgress.UninterruptedCommit | tun/route_quality.go:275-299 | Commit is what the single checks and the application of a commit come to in a run when nothing falls between them, whether or not all members agree |
| RouteQuality.FirstMeaning | tun/route_quality.go:80-88 | the loop's choice is the first list element in the set, and there is none exactly when no element is in the set |
| RouteQuality.AgreeingMeaning | tun/route_quality.go:280-286 | the number of members found unchanged is exactly the index of the first disagreement |
| RouteLegality.AllFailedMeaning | tun/route_quality.go:117-122 | a common failure is at least two members available and a failed result for every one of them |
| RouteLegality.BestMeaning | tun/route_quality.go:208-214 | the scan ends on the earliest of the best eligible members, or where it started when none is strictly better |
| RouteLegality.RepairChoice | tun/route_quality.go:74-91 | with the preferred member gone the choice is, under the priority policy, the first available member normal twice in a row, else the first available one, and nobody when none is; with it there, nothing changes |
| RouteLegality.RepairReason | tun/route_quality.go:74-91 | a repair is one event with its time and the reason for the choice made |
| RouteLegality.SwitchLegality | tun/route_quality.go:111-219 | an available member loses the preference to y if and only if the round counts, is no common failure, and the switch is a fault switch, or a cooled-down recovery or quality switch, to exactly that y |
| RouteLegality.RepairedRound | tun/route_quality.go:164-203 | a round that finds the preferred member gone ends with the repaired choice, whose cooldown starts anew, unless that one has failed three times and the fault switch leaves it again |
| RouteLegality.SwitchBookkeeping | tun/route_quality.go:57-63 | member, switch time and history change together or not at all |
| RouteLegality.SwitchReason | tun/route_quality.go:174-219 | the event of such a switch tells which kind it was and the counts of the moment |
| RouteTheorems.RunSwitchLegality | tun/route_quality.go:93-299 | for every kind of step of every run: an available member loses the preference only by a round that counts and is no common failure, and to y if and only if that switch is justified by the states after it |
| RouteTheorems.RoundEntersWindows | tun/route_quality.go:117-160 | in every reachable state, a round with at least two members available that all failed leaves every window as it is and shows a common failure; any other round enters every window |
| RouteTheorems.RoundCounts | tun/route_quality.go:129-148 | what any round that counts makes of the counters and of what is shown; a failure is not counted only when all failed and the connectivity of this member was fine |
| RouteTheorems.CommonFailureKeepsPreference | tun/route_quality.go:164-167 | a round in which all of at least two available members failed leaves nobody who is still available |
| RouteTheorems.PreferredIsRunning | tun/route_quality.go:74-171 | after a round that counts, and after asking, the preferred member is one of those seen running, and nobody only when there is none |
| RouteTheorems.CheckMeaning | tun/route_quality.go:280-298 | one check of a commit: the round goes on exactly when the member is the instance probed, its state starts afresh exactly when bound to another, and it counts as running exactly when it is and is registered |
| RouteTheorems.SwitchReadsSamples | tun/route_quality.go:111-219 | every such switch told in measured samples: three counted failures of the old and two normal rounds of the new member last, or a cooled-down switch to a twice normal or at least three better member with full windows |
| RouteRuns.AbsorbSummarises | tun/route_quality.go:123-161 | one incremental update equals recomputing window, counts and counters from the longer history |
| RouteRuns.StepKeepsInv | tun/route_quality.go:250-299 | every step of every interleaving keeps: a state summarises exactly the samples since its last fresh start, all measured on the instance it is bound to |
| RouteRuns.RunKeepsInv | tun/route_quality.go:250-299 | so does every run |
| RouteTheorems.StateRefinesHistory | tun/route_quality.go:110-160 | in every reachable state window, counts and counters of a member are those of all samples ever committed on its present instance, and of no other; what is shown of it, its time, duration, error and connectivity are those of the last one |
| RouteTheorems.CountersReadHistory | tun/route_quality.go:129-143 | three failures mean the last three samples failed, two normals the last two were normal, and the two counters are never both positive |
| RouteIsolation.RebuiltMidRoundNeverCommits | tun/route_quality.go:280-286 | once a probed member is rebuilt or removed, nothing of that round is committed, whatever happens until the next round begins |
| RouteIsolation.ComingAndGoingIsNotNoticed | tun/route_quality.go:280-286 | the exact exception: absent at launch, registered and removed again with any other events in between, that round and everything after it go on as if it had not been |
| RouteIsolation.CancelledOnlyRebinds | tun/route_quality.go:93-116 | after cancellation no sample is recorded; member states change only by rebinding in a commit under way, and preference, switch time and history only by asking |
| RouteProgress.CancelledCommitRebinds | tun/route_quality.go:280-292 | rebinding does happen: when the round is cancelled after its last answer, its commit starts every member afresh that is bound to another service than the registered one |
| RouteProgress.CancelledFirstRound | tun/route_quality.go:280-292 | so a monitor cancelled in its very first round still changes every registered member |
| RouteProgress.CancelledStillAnswers | tun/route_quality.go:74-98 | and so does asking: a cancelled monitor that prefers none of the running members prefers one afterwards, with a new switch time and event |
| RouteTiming.SwitchHistoryIsChain | tun/route_quality.go:57-63 | over every run each switch starts where the previous one ended, none is a self-loop, the newest ends at the current member |
| RouteTiming.PolicySwitchLandsOnHealthy | tun/route_quality.go:174-219 | every fault, recovery or quality switch of every run lands on a member with no current failure |
| RouteTiming.FailuresGrowSlowly | tun/route_quality.go:129-143 | over any run the failure counter grows by at most one per committed round |
| RouteTiming.MinimumDwell | tun/route_quality.go:174-219 | after a policy switch the member is left, while available, by a fault switch only in the third committed round or later, and by any other switch only 60 seconds later |
| RouteTiming.BoundedFailback | tun/route_quality.go:174-195 | while the first member stays registered, running and normal, every counting round that is at least the second and 60 seconds after the last switch leaves it preferred, and it stays preferred |
| RouteTiming.FailbackRun | tun/route_quality.go:74-91 | with two normal rounds of the first member in hand, every switch of a healthy run is to it |
| RouteTiming.Drift | tun/route_quality.go:149-158 | within k scored rounds a bad count moves by at most k, or the window holds at most k samples |
| RouteTiming.QualityHysteresis | tun/route_quality.go:206-218 | a quality switch is reversed by a quality switch at the earliest in the third scored round after it |
| RouteTiming.FreshMemberWaitsFullWindow | tun/route_quality.go:206-218 | a member with at most k samples takes part in a quality switch, on either side, only when k and the scored rounds since make up the window of 20 |
| RouteTiming.RebuiltMemberWaitsFullWindow | tun/route_quality.go:206-291 | a rebuilt member takes part in a quality switch, on either side, at the earliest in its twentieth scored round, the one whose commit finds it rebuilt included |
| RouteProgress.UndisturbedRoundCounts | tun/route_quality.go:250-299 | from any state without a round under way, launching all probes, taking their answers, whatever they are, and checking the members ends in a commit that counts with exactly those results |
| RouteProgress.PromptFaultSwitch | tun/route_quality.go:174-203 | the undisturbed round that brings the third failure in a row of a current member that is still the same instance moves the preference at once, cooldown or not and under either policy, to the first other available member that is then normal twice in a row, if there is one |
| RouteSelector.RotateToFront | tun/route_selector.go:61-62 | the overlapping copy moves one element to the front and keeps the order of the others |
| RouteSelector.MovedToFrontPermutes | tun/route_selector.go:59-65 | which is a permutation |
| RouteSelector.MovedToFrontKeepsOrder | tun/route_selector.go:61-62 | the element stands first and every other keeps its place among the others |
| RouteSelector.UsableIsSubsequence | tun/route_selector.go:42-56 | the candidates before promotion are exactly the members found that are enabled, running and, without full-path probing, not down, in increasing place |
| RouteSelector.PromotedMeaning | tun/route_selector.go:57-66 | the one promoted is the first of the preferred name, and the others follow in their order |
| RouteSelector.PreferredIsAvailable | tun/route_selector.go:58-58 | unless there is no running member, the monitor's choice is one of them |
| RouteSelector.RouteSelector.Candidates | tun/route_selector.go:42-68 | of the members as looked up one by one, the running ones in priority order with the monitor's choice moved to the front; without a monitor the alive ones |
| RouteSelector.RouteSelector.TryForward | tun/route_selector.go:93-113 | the candidates of the moment are tried in order up to the first success; without one all are tried and the last error any of them gave is returned; without candidates that is the error |
| RouteSelector.TryEach | tun/route_selector.go:95-112 | the same of the loop over a list of candidates |
| Bytes.NumberOfBigEndian | pkg/crypto/gcm.go:83-83 | reading k big-endian bytes gives back every number below 256^k |
| Bytes.NumberOfEight | tun/frame_stream.go:269-303 | what eight bytes stand for, the most significant first |
| Gcm.Writer.Layout | pkg/crypto/gcm.go:73-90 | the regions of nonce, sealed size and sealed payload, filled and sealed in one buffer, are adjacent, disjoint and fill it exactly |
| Gcm.Writer.Write | pkg/crypto/gcm.go:57-97 | a payload over 65535 bytes is refused with nothing written, an empty one writes nothing, any other is one record |
| Gcm.FirstRecordOfRecord | pkg/crypto/gcm.go:130-164 | a record in front of any bytes parses back to its payload and uses exactly its own length |
| Gcm.DecodeAppend | pkg/crypto/gcm.go:115-164 | decoding distributes over writing more records |
| Gcm.CutRecord | pkg/crypto/gcm.go:130-159 | what a truncated record reads as, for every place it may be cut |
| Gcm.CutWire | pkg/crypto/gcm.go:115-164 | wherever a wire of whole records is cut, what is decoded is a front part of what was sent |
| Gcm.ReadFull | pkg/crypto/gcm.go:132-140 | exactly the wanted bytes from any splitting of the transport, or the error for too few |
| Gcm.Reader.ReadRecord | pkg/crypto/gcm.go:130-164 | the transport is consumed up to the end of the record and not a byte further |
| Gcm.Reader.Read | pkg/crypto/gcm.go:115-128 | each read takes the next bytes off what remains; leftover is served first, and what does not fit is kept |
| Gcm.HandOff | tun/frpc.go:98-110 | a fresh reader on the same transport delivers the same exactly when nothing is left over |
| Gcm.ReadMessage | tun/frpc.go:147-170 | a message sent as one record and read exactly, in pieces of any sizes, leaves nothing over |
| Channel.CryptoStream.Read | tun/crypto_helper.go:152-154 | reads take the next plain bytes, with or without GCM |
| Channel.CryptoStream.Write | tun/crypto_helper.go:156-158 | what has been sent decodes to everything written as long as no transport write failed; when one does, it is a front part of a wire that does |
| Channel.RecordExtends | pkg/crypto/gcm.go:66-97 | one more record adds exactly its payload to what the far side decodes |
| Frames.ReqRoundTrip | tun/frame_stream.go:269-284 | every probe request, negative times included, survives encoding and decoding |
| Frames.RespRoundTrip | tun/frame_stream.go:286-303 | so does every probe response |
| Frames.ReqLayout | tun/frame_stream.go:269-274 | a request is its number and its send time in two's complement, eight bytes each |
| Frames.RespLayout | tun/frame_stream.go:286-292 | a response is the request it answers followed by the time of receipt |
| Frames.FrameLayout | tun/frame_stream.go:219-229 | a frame is its kind, the size of its payload in two bytes, high byte first, and the payload |
| Frames.FirstFrameOfFrame | tun/frame_stream.go:219-267 | a frame in front of any stream parses back, leaving that stream |
| Frames.CutFrame | tun/frame_stream.go:256-267 | what a truncated frame reads as, for every place it may be cut |
| Frames.InterpretFrames | tun/frame_stream.go:76-123 | for any mix of frames a reader gets exactly the business payloads, the requests and the responses, each in order |
| Frames.FrameMeaning | tun/frame_stream.go:76-123 | what a frame contributes by its kind: 0x00 business bytes, 0x01 a request of 16 bytes, 0x02 a response of 24 bytes |
| Frames.MixMeaning | tun/frame_stream.go:76-123 | what several frames contribute is the contributions one after the other |
| Frames.EndingFrame | tun/frame_stream.go:76-123 | after any frames the reader takes, the first it does not take ends the reading: a done frame where one is expected with the end of the stream, and a done frame elsewhere, an unknown kind, a request or response of the wrong size or an unexpected business frame as a bad frame; all before it is delivered |
| Frames.DoneFrame | tun/frame_stream.go:76-123 | told by role: a done frame ends a bandwidth stream and is an error on every other one |
| Frames.CutFrames | tun/frame_stream.go:76-123 | wherever a stream is cut, bytes, requests and responses are front parts of what there was |
| FrameStream.ReadFrame | tun/frame_stream.go:256-267 | exactly one frame is taken off the stream, or the error of the read that fell short |
| FrameStream.WriteFrame | tun/frame_stream.go:219-229 | one transport write per frame; a frame over a limit of any layer below is refused with nothing written |
| FrameStream.FrameStream.Turn | tun/frame_stream.go:83-122 | one frame of either loop: delivered, answered, handed on, or the end |
| FrameStream.FrameStream.ServeControlLoop | tun/frame_stream.go:179-211 | the frames written are one response per request that arrived, in order, echoing number and send time, up to the frame or error that ends the stream, or up to the first response that cannot be written |
| FrameStream.FrameStream.Read | tun/frame_stream.go:76-123 | each read takes the next business bytes, having answered exactly the requests met on the way |
| FrameStream.FrameStream.Write | tun/frame_stream.go:125-133 | business bytes are one frame; a write over 65532 bytes under GCM fails before any byte is sent |
| Stack.OpenMeaning | tun/stream_handshake.go:31-51 | a stream opens with a role exactly when it starts with that role's six bytes |
| Stack.HandshakeLayout | tun/stream_handshake.go:8-29 | the six bytes: GTH1, version 1, and the role |
| Stack.ReadStreamHandshake | tun/stream_handshake.go:31-51 | exactly six bytes are taken, and every other beginning is refused with its error |
| Stack.WriteStreamHandshake | tun/stream_handshake.go:18-29 | the six bytes of the role are written through the stream |
| Stack.WrapDst | tun/crypto_helper.go:228-240 | crypto, then the handshake, then frames, and a failed handshake gives no stream |
| Stack.WrapSrc | tun/crypto_helper.go:201-214 | the far side opens with the announced role, positioned at the first frame, or is refused |
| Stack.SenderWire | tun/crypto_helper.go:201-240 | whatever frames were sent, the wire opens with the sender's role and then reads as their payloads |
| Stack.ReceiveAll | tun/frame_stream.go:76-123 | successive reads with any buffer sizes together deliver, answer and hand on exactly the business bytes, requests and responses there are, each in order; or they break off at the first request that cannot be answered |
| Stack.Accept | tun/frame_stream.go:76-123 | whatever comes in is refused, or opened with its role and read to its end, and the wire back is one response per request, in order, echoing number and send time |
| Stack.MixEndToEnd | tun/crypto_helper.go:201-240 | through all layers of both sides, for any mix of frames, the bytes read are the business payloads and the wire back carries exactly one response per request; failing only when a transport write fails, on the reading side only when there are requests to answer |
| Stack.FrontOpens | tun/stream_handshake.go:31-51 | a front part of handshake and frames is refused or opens with the role and reads as a front part of the payloads |
| Stack.Offer | tun/crypto_helper.go:228-240 | whatever write fails, what has been sent is a front part of handshake and frames |
| Stack.EndToEnd | tun/crypto_helper.go:201-240 | through all layers, any transport splitting and any buffer sizes, and whatever write fails and wherever the transport is cut, the bytes read are a front part of the bytes written; all of them, then EOF, when neither happens |
| Pipe.UnidirectionalStream | core/pipe.go:66-101 | no error exactly when every write took everything and the source ended with EOF; then all bytes arrived, those that came together with the end included; otherwise the count is what arrived |
| ProbeMatching.ProbesMatch | tun/frame_stream.go:147-177 | over every run the waiter map holds at most the running probe, every probe ends at most once, never in a mismatch, and in success only on a response with its own number found while it waited |
| ProbeMatching.FoundWhileWaiting | tun/frame_stream.go:231-254 | a response is found only while the probe it goes to is the one running |
| ProbeMatching.StartTakesNextNumber | tun/frame_stream.go:147-154 | a probe that starts takes the next number modulo 2^64 and its own channel, and is the only one waited for |
| ProbeMatching.AnsweredProbeSucceeds | tun/frame_stream.go:147-177 | wherever a run has got to, the response to the running probe, looked up, delivered and received, ends it in a success on that response |
| ProbeMatching.ReceivedIsReturned | tun/frame_stream.go:168-173 | what lies in the channel of the running probe is what it returns, and any delivery for it gets there unless one was first |
| ProbeMatching.GivenUpEnds | tun/frame_stream.go:174-176 | giving up ends the running probe and unregisters it |
| ProbeMatching.HowProbesEnd | tun/frame_stream.go:147-177 | over every run a probe is abandoned only by giving up while it runs, and succeeds only by receiving, while it runs, what lies in its channel |
| HistoryStore.StoredIsBounded | pkg/probehistory/store.go:123-129 | no stored error text is longer than 2048, and shorter ones are stored as they are |
| HistoryStore.PutAccepts | pkg/probehistory/store.go:119-141 | on the steps: accepted exactly under those three conditions, and no other effect |
| HistoryStore.TakeMeaning | pkg/probehistory/store.go:213-234 | on the steps: nothing is taken while the batch holds 4096; otherwise batch, persisted records and answer after taking a request, told on the fields |
| HistoryWriter.Store.Record | pkg/probehistory/store.go:119-141 | accepted if and only if the record names its tunnel, the store is open and fewer than 4096 requests are queued, each refusal with its own error in that order; what is queued has its time filled in and its text cut |
| HistoryWriter.Store.Ask | pkg/probehistory/store.go:144-157 | a flush queues a request that remembers what was accepted before it, or is refused after close, or given up by its caller without a trace |
| HistoryWriter.Store.FlushBatch | pkg/probehistory/store.go:185-196 | the batch is persisted exactly when the transaction commits, and kept otherwise; no error exactly when it commits or there was nothing to write |
| HistoryWriter.Store.OnRequest | pkg/probehistory/store.go:222-234 | a record joins the batch, which is committed once it reaches 256; a flush commits what there is and is answered nil exactly when that succeeds or there was nothing; this is one step of the transition system |
| HistoryWriter.Store.OnTick | pkg/probehistory/store.go:235-236 | the timer commits the batch, or leaves it when the transaction fails |
| HistoryWriter.Store.Drain | pkg/probehistory/store.go:198-206 | draining moves all queued records to the batch in order and collects the waiters |
| HistoryWriter.Store.OnStopping | pkg/probehistory/store.go:197-211 | shutdown commits what is left, closes the database and answers every waiter with the joint error, which is nil exactly when the transaction commits or has nothing to write, and the database closes |
| HistoryStore.Conservation | pkg/probehistory/store.go:119-243 | over every interleaving accepted is persisted, then batch, then queue; the batch stays within 4096, and within 8192 after shutdown; a nil flush means everything accepted before it is persisted; a nil close means everything is |
| HistoryStore.StepKeepsInv | pkg/probehistory/store.go:178-243 | every step keeps that, and what queued flush requests vouch for |
| HistoryStore.OnlyGrows | pkg/probehistory/store.go:119-243 | the store refines an append-only log: accepted, persisted and answered records never change or disappear |
| HistoryStore.EveryFlushAnswered | pkg/probehistory/store.go:197-231 | flush requests are answered once each, in order, and all of them by the time the store is done |
| HistoryStore.RetryPersists | pkg/probehistory/store.go:185-196 | after any number of failed transactions one success persists the whole batch |
| HistoryStore.FlushSucceeds | pkg/probehistory/store.go:144-234 | from every state a run of an open store may reach with room in its queue: while transactions commit, taking the queue answers a flush asked now, and all before it, without error, with everything accepted persisted |
| HistoryStore.ShutdownMeaning | pkg/probehistory/store.go:159-211 | from every reachable state: Close returns nil exactly when the last transaction commits or nothing was left, and the database closes; on commit everything accepted is persisted |
| HistoryQuery.RunQuery | pkg/probehistory/store.go:283-332 | the page holds, newest first, exactly the rows of the tunnel with the kind, status, cursor and bounds asked for and not older than a week, down to the next cursor; the size asked for is kept between 1 and 100 and is 50 otherwise; there is a cursor exactly when rows are left |
| HistoryQuery.CursorContinues | pkg/probehistory/store.go:306-312 | moving the cursor to the last row of a page leaves exactly the rows after that page |
| HistoryQuery.CursorStable | pkg/probehistory/store.go:306-312 | behind a cursor neither new rows nor pruning show |
| HistoryQuery.PaginationComplete | pkg/probehistory/store.go:283-332 | with bounds inside retention, following the cursor ends and returns every row that matched at the first page exactly once, newest first, whatever is inserted or pruned between pages |
| HistoryQuery.Prune | pkg/probehistory/store.go:264-278 | deleting in chunks until one is not full removes exactly the rows older than a week |
| HistoryQuery.PruneEvolves | pkg/probehistory/store.go:264-278 | pruning is a change the pages do not notice |
| HistoryQuery.InsertEvolves | pkg/probehistory/store.go:245-262 | so is inserting |
| ServiceFiles.Directory.CreateFile | tun/config.go:175-193 | done exactly when no file of that name exists and writing and renaming succeed; nothing changes otherwise |
| ServiceFiles.Directory.DeleteFile | tun/config.go:123-133 | a missing file is no error; a failed removal leaves the file |
| ServiceFiles.Directory.Exchange | tun/config.go:150-172 | done exactly when the backup, if there is something to back up, and the move-in succeed; otherwise the old file is back, or lost exactly when putting it back failed as well; every state on the way has a complete version |
| ServiceFiles.Directory.ReplaceFile | tun/config.go:139-173 | the same for the whole replacement: which verdicts of the system make it succeed, leave the old file, or lose it, both ways; there is a moment when no version stands under its own name exactly when a backup rename succeeded; no staged file stays when cleaning up succeeds |
| ServiceFiles.Directory.DeletionMissed | tun/config.go:123-165 | a deletion while the file is set aside succeeds, and the file is put back behind it |
| Manager.Manager.Publish | tun/manager.go:125-135 | a started service is registered, with its file if wanted, exactly when no file is wanted or writing it succeeds; otherwise it is closed and not registered |
| Manager.Manager.AddService | tun/manager.go:108-136 | added exactly when the name is new and everything tried succeeds, the error otherwise being that of the first thing that failed, with nothing changed; identity and creation time are kept when given |
| Manager.Manager.Rollback | tun/manager.go:238-251 | the old name runs again on a new instance of the old configuration exactly when preparing and starting it succeed; otherwise it is unregistered and the error says so |
| Manager.Manager.Install | tun/manager.go:157-168 | registry entry and file both become new, or both stay old but for the two rollback failures, as the verdicts say |
| Manager.Manager.HandOver | tun/manager.go:161-177 | the replacement runs: file and entry become new exactly when the file can be replaced; otherwise it is closed and the old service brought back |
| Manager.Manager.Swap | tun/manager.go:149-170 | done exactly when preparing, closing the old, starting the new and replacing the file succeed; otherwise the error of the first that failed, marked as a failed rollback exactly when preparing or starting the old service failed too; disabled services never fail to prepare, start or close |
| Manager.Manager.GetServiceByUUID | tun/manager.go:229-236 | some registered service with that identity, or there is none |
| Manager.Manager.ReplaceServiceByUUID | tun/manager.go:138-178 | an edit keeps identity and creation time; refused for an unknown identity or a taken name, otherwise done or undone as Swap says; all other entries are untouched |
| Manager.Manager.SetServiceDisabled | tun/manager.go:180-216 | the same for switching on and off; nil and no change when the flag already stands so |
| Manager.Manager.DeleteServiceFile | tun/manager.go:66-70 | the first half of a removal, at any time: the file is gone, or the system refused |
| Manager.Manager.DropService | tun/manager.go:72-84 | the second half, under the lock: the entry goes exactly when its service closed or there was none |
| Manager.Manager.RemoveService | tun/manager.go:66-85 | the halves with nothing in between: entry and file both go, or neither, except that a failed Close keeps the entry without the file |
| Manager.StepAgreement | tun/manager.go:66-216 | whether registry and directory agree on a name after a step, read off the state before it |
| Manager.StepDrift | tun/manager.go:66-216 | from agreement on a name a step leads to disagreement if and only if it ends in one of five outcomes: a service added without its file, a failed rollback with the file kept, a lost file with the service running again, the file of a registered service deleted, an entry dropped while a file stands |
| Manager.AgreeThroughout | tun/manager.go:66-216 | a run that starts in agreement on a name stays so throughout if and only if none of the five hits that name |
| Manager.RemovalCompletes | tun/manager.go:66-85 | a removal with both halves done ends in agreement exactly when no file stands at its second half, and one does only if the first half missed it or another step wrote it in between |
| Manager.DriftIsBlamed | tun/manager.go:66-216 | at the end of any run they differ on a name only if they did at the start or one of the five hit that name |
| Manager.RemovalLeavesEntry | tun/manager.go:66-85 | removing a service whose Close fails leaves its entry without a file |
| Manager.InterleavedRemoval | tun/manager.go:66-216 | switching a service off between the halves of its removal: every call succeeds and a file stands without an entry |
| Manager.OthersUntouched | tun/manager.go:66-216 | over any run, entries and files of names that no operation names are as they were |
| Challenges.AuthManager.PruneExpiredChallengesLocked | admin/route/auth.go:596-602 | exactly the expired entries are deleted, in any order of iteration |
| Challenges.AuthManager.IssueChallenge | admin/route/auth.go:479-510 | the new challenge is entered with 120 seconds to live and the expired ones go |
| Challenges.AuthManager.ConsumeChallenge | admin/route/auth.go:512-563 | accepted exactly under all checks, told on the fields, and then the entry is gone; nothing expired stays |
| Challenges.SingleUse | admin/route/auth.go:512-563 | over every run no challenge is accepted twice, whatever is presented and whatever the clock does |
| Challenges.AcceptedExactlyWhen | admin/route/auth.go:479-563 | a challenge is accepted if and only if its user presents it with its signature within 120 seconds, in the same life of the server, for the first time; assuming signatures are not forged and no earlier clock reading was later than this one |
| Challenges.AcceptedIsUnspent | admin/route/auth.go:512-563 | the only-if half without any assumption on clock or signatures |
| Challenges.TableTracks | admin/route/auth.go:479-602 | within their lifetime the table holds exactly the unspent challenges of this life of the server |
| Challenges.OnlyLiveRemain | admin/route/auth.go:479-602 | after every call that reaches the table, what is in it has not expired; nothing live is removed but what is redeemed, or named by an otherwise good payload that disagrees with the entry about the user |
| Fips180.PaddingIsMinimal | admin/view/login.html:252-252 | the padding has the fewest zero bits that reach 448 modulo 512 (section 5.1.1 of FIPS 180-4) |
| Fips180.RotrMeaning | admin/view/login.html:222-224 | a rotation brings the n low bits to the top and moves the others down (section 3.2 of FIPS 180-4) |
| Words.BitMeaning | admin/view/login.html:222-307 | and, or and exclusive or work on every bit by itself |
| Fips180Constants.RoundConstants | admin/view/login.html:227-244 | each of the 64 constants is the first 32 bits of the fractional part of the cube root of its prime (section 4.2.2 of FIPS 180-4) |
| Fips180Constants.InitialHash | admin/view/login.html:245-248 | each initial hash word is the same of the square root (section 5.3.3) |
| Fips180Constants.PrimesAreAll | admin/view/login.html:227-244 | the primes meant are all primes up to 311 |
| Fips180Constants.PrimesIncrease | admin/view/login.html:227-244 | in increasing order |
| Fips180Bits.ChMeaning | admin/view/login.html:293-293 | each bit is chosen from f or g by the bit of e (section 4.1.2) |
| Fips180Bits.MajMeaning | admin/view/login.html:296-296 | each bit is the majority of three |
| Fips180Bits.SigmaMeaning | admin/view/login.html:277-295 | each bit of the four sigma functions is the parity of three bits at the places the standard gives |
| Fips180Bits.PadMeaning | admin/view/login.html:252-263 | the padded message told by its bytes: the message, 0x80, zeros, the bit length, and no block more than needed (section 5.1.1) |
| Fips180Bits.BlockMeaning | admin/view/login.html:267-275 | the words of a block are four bytes each, most significant first |
| Fips180Bits.CompressMeaning | admin/view/login.html:276-316 | the hash of a block told by its trace: a schedule and 65 sets of variables that satisfy the equations of section 6.2.2, the last added to the first modulo 2^32 |
| Fips180Bits.HashMeaning | admin/view/login.html:226-327 | the digest told by its trace: one hash value per block from the initial one on, the last in big-endian bytes |
| Fips180Bits.XorByteMeaning | admin/view/login.html:341-342 | masking a byte of the key turns exactly the bits set in the mask |
| Sha256Fallback.RightRotate | admin/view/login.html:222-224 | shifting and or-ing signed numbers is the rotation of section 3.2 of FIPS 180-4 |
| Sha256Fallback.TotalLength | admin/view/login.html:252-252 | the shifted length is the padded length up to 2^31 - 73 bytes of message, and never enough beyond |
| Sha256Fallback.PadMessage | admin/view/login.html:249-263 | the buffer is the padded message with its bit length as eight big-endian bytes, or the page throws |
| Sha256Fallback.PackIsBigEndian | admin/view/login.html:268-274 | four bytes put together by shifts are the big-endian word |
| Sha256Fallback.FillSchedule | admin/view/login.html:267-280 | the array filled in place is the message schedule of section 6.2.2 |
| Sha256Fallback.DoRound | admin/view/login.html:291-307 | one iteration is one round of section 6.2.2, every sum being exact (within 2^53) before it is wrapped |
| Sha256Fallback.CompressBlock | admin/view/login.html:282-316 | the hash words updated in place are the next hash value |
| Sha256Fallback.WriteDigest | admin/view/login.html:319-326 | the 32 bytes are the hash words in big-endian order |
| Sha256Fallback.Sha256Js | admin/view/login.html:226-327 | the digest of FIPS 180-4 exactly for messages up to 2^31 - 73 bytes; a longer one throws |
| Sha256Fallback.HmacSha256Js | admin/view/login.html:329-348 | the HMAC of section 2 of RFC 2104, written out with its two masks 0x36 and 0x5c, for keys of any length, exactly while the messages hashed stay within that bound |

## Left out

- Sockets, dialing, TLS, QUIC, KCP and the multiplexers, and how a probe is carried out: a transport is an adversarial byte stream and a probe an arbitrary result.
- AES-GCM, the HMAC of the Go code and randomness: abstract; nothing is said about cryptographic strength.
- RouteMonitor.RouteQualityMonitor.ApplyRound: a member's state is a value in a map, so sharing of a state object between the map and a local variable is not modelled; handing the round's record on to the history store is left out, and so are timestamps and wording of switch events.
- The endless loop around a round: each round is its own events, in any number and at any time.
- The older selection by single-hop health is modelled only as far as Candidates without a monitor goes.
- Wrapping without frame headers is plain CryptoStream; the end-to-end theorem is about the framed stack.
- Gcm.Writer.Layout: buffers come fresh instead of from the pool, so nothing is said about returning or reusing them.
- FrameStream.FrameStream.Write: the write lock is not modelled; a frame is one transport write in one step, and the stream methods run one at a time (the probe protocol with its concurrency is ProbeMatching).
- ProbeMatching.ProbesMatch: the round-trip time a probe returns is not modelled, nor is the probe's own write failing apart from giving up.
- The bandwidth measurement and its done frame are modelled on the reading side only.
- Pipe.UnidirectionalStream: the activity callback and the idle timeout that closes both streams are left out.
- HistoryWriter.Store.Record: making a cut text valid UTF-8 is a function it is given.
- HistoryWriter.Store.Ask: waiting for room in the queue is not being called yet; a request given up after it was queued is answered all the same.
- HistoryQuery.RunQuery: the table is a sequence of rows with increasing ids and a query is a scan of it; database errors of query and pruning, and the incremental vacuum, are left out.
- Manager: routes and their files, whose methods take the same steps behind a validation against the registered services, and loading all files at start are left out; running means that Run returned nil or has not returned in time.
- Challenges.AuthManager.ConsumeChallenge: the signature check is a verdict that comes with what is presented; sessions, the failed-attempt counter, the state file and the disabled mode are left out.
- JSON, configuration parsing, metrics, logging, the admin pages and update scripts: plumbing.
