# Verified model of mcanbus

Dafny models of the parts of the `mcanbus` CAN library (and of the text helpers of its MCP server)
that carry its guarantees, with proofs of those guarantees:

- an **ISO-TP endpoint** (ISO 15765-2 over classic CAN: single, first, consecutive and flow control
  frames, sequence numbers modulo 16, block size, separation time, Wait counting, one deadline): as
  decisions on frames (`IsoTp.dfy`), as what an endpoint sends, when, and with what result, given what
  its socket has ahead (`IsoTpPlan.dfy`), as the source's loops over a socket with a clock, proved to
  do just that (`IsoTpEndpoint.dfy`), and as two endpoints talking to each other (`IsoTpSession.dfy`);
  `IsoTpReassembly.dfy` says which responses a receiver accepts on a lossless, lossy or arbitrary bus;
- the **fan-out reader**: its one thread and any number of clients as interleaved atomic steps with a
  heap that reuses addresses (`FanOut.dfy`), what a subscription gets from the moment it is asked for
  (`FanOutSubscription.dfy`), who is culled (`FanOutCulling.dfy`), isolation of one subscriber from the
  others (`FanOutIsolation.dfy`), and the reader's own loops, proved to be runs of that machine
  (`FanOutReader.dfy`);
- **identifiers, filters, frames and their kernel wire format**, and the batch receive loop
  (`Bits.dfy`, `Ids.dfy`, `Frames.dfy`, `Sockets.dfy`);
- the **netlink attribute walk** that reads a controller's state (`Netlink.dfy`);
- the **text forms**: candump-style text and the hex and JSON forms of the MCP server (`TextForms.dfy`).

How the pieces fit: the decisions `OnFirst`, `OnConsecutive` and `OnFlowControl` are shared.  The
functions of `IsoTpPlan` apply them to a socket's future; the methods of `IsoTpEndpoint` are proved to
do exactly what those functions say, up to the first send the kernel refuses; and `IsoTpRequest.dfy`
says what that is, case by case, in terms of the frames heard and sent.  The machine of
`IsoTpSession` steps by the same decisions; `SenderIsTheLoop` ties its sending side to the loop.
Bytes, words and the arithmetic on them are bounded integers with remainders and quotients; the
`...Bitwise` lemmas say that these are the masks and shifts of the source.

Modelling choices a reader should know:

- A socket's future is a *script*: what each coming receive brings and how long it takes.  Sends are
  free but may be refused; sleeps are exact.  Time bounds assume that no receive takes longer than the
  socket's receive timeout (`Prompt`).
- In the two-endpoint machine each direction is a first-in first-out queue of datagrams that the other
  side alone reads; unrelated datagrams may be added anywhere, and no deadline expires.
- In the fan-out machine a step is one lock section, channel operation, counter update or reference
  drop.  Histories (what was tried, taken, when a subscriber joined) are part of its state and steer
  nothing.
- The kernel's byte order is a parameter.
- Slicing a frame's 64-byte buffer beyond its end panics in the source; that is the only reason for
  `len <= 64` in preconditions.

Where code and documentation differ the model follows the code:

- `isotp.rs:110-111` announces Unsupported for every non-zero block size; the code accepts one that
  covers all frames to come (`SendVerdict`, `Exchange`).
- `isotp.rs:80-82` promises a limit on Wait frames; the counter is a `u8`, so the promise holds exactly
  for limits up to 254 (`AwaitFcMeetsSpec`).
- `reader.rs:193-194` says `recv` ends after shutdown; each subscriber keeps its own sending half alive
  (`reader.rs:90-101`), so no receive-side disconnection is modelled.

## Model

| member | source | states |
|---|---|---|
| IsoTpSession.Exchange | mcanbus/src/isotp.rs:113-156 | every maximal interleaving of two endpoints ends with the server holding exactly the request and the client returning exactly the response, if and only if each advertised block size is 0 or covers the other's frames; all lengths 1..4095 both ways |
| IsoTpSession.Safety | mcanbus/src/isotp.rs:326-412 | at every point of every run, whatever block sizes: an accepted payload is the one sent, no reception fails, a sender fails only as Unsupported |
| IsoTpSession.NeverStuck | mcanbus/src/isotp.rs:221-256 | with covering block sizes a run that is not finished can be continued (no deadlock between flow control and data) |
| IsoTpSession.RunsEnd | mcanbus/src/isotp.rs:113-156 | every run is finite, with a bound in frames to send and unrelated datagrams |
| IsoTpSession.FinalNeedsCover | mcanbus/src/isotp.rs:240-245 | no run completes when a block size does not cover |
| IsoTpSession.StepWorks | mcanbus/src/isotp.rs:232-249 | each step of either side, or of other traffic, uses up a measure |
| IsoTpSession.InvStep | mcanbus/src/isotp.rs:274-412 | every step keeps: sender state, receiver state and frames in flight are those of one segmented payload |
| IsoTpSession.SenderIsTheLoop | mcanbus/src/isotp.rs:229-250 | the machine's sending step emits the send loop's next frame, and stops with that loop's outcome |
| IsoTpSession.FcIsTheReply | mcanbus/src/isotp.rs:253-256 | the flow control frame the machine sends is the one the endpoint sends |
| IsoTpSession.NoisePossible | mcanbus/src/isotp.rs:265-270 | unrelated traffic can reach either side at any time |
| IsoTpSession.KernelLinkCarries | mcanbus/src/frame.rs:330-451 | the kernel wire format carries an endpoint's frames exactly when its identifier is in range |
| IsoTpReassembly.RoundTrip | mcanbus/src/isotp.rs:160-184 | segmenting any payload of 1..4095 bytes with any padding and receiving the frames gives that payload |
| IsoTpReassembly.CfReceived | mcanbus/src/isotp.rs:381-397 | the expected consecutive frame advances reception by its chunk, across sequence wrap and last-frame padding |
| IsoTpReassembly.AcceptedIsExact | mcanbus/src/isotp.rs:373-399 | under loss, repetition and reordering by at most 14 places back, an accepted response is the payload sent, and its frames arrived first and in order |
| IsoTpReassembly.ReorderingLimit | mcanbus/src/isotp.rs:388-397 | acceptance is sound for every payload and delivery order if and only if no frame comes more than 14 places before its predecessor |
| IsoTpReassembly.BackFifteenIsNotDetected | mcanbus/src/isotp.rs:388-397 | a concrete 125-byte payload whose repeated first frame, 15 places late, is accepted for the seventeenth |
| IsoTpReassembly.LossIsDetected | mcanbus/src/isotp.rs:373-399 | with losses only, however long, a response is accepted exactly when nothing was lost, and is the payload |
| IsoTpReassembly.AcceptedResponses | mcanbus/src/isotp.rs:326-412 | on any frames of any length: exactly which sequences are accepted and with what result (a single frame's content, or a first frame completed by frames numbered 1, 2, ... modulo 16, cut to the announced length) |
| IsoTp.FirstOutcome | mcanbus/src/isotp.rs:339-411 | exactly which first frames complete a response and with what, which open one with what total and first chunk, and that all others are invalid |
| IsoTp.ConsecutiveOutcome | mcanbus/src/isotp.rs:381-397 | exactly which consecutive frames are refused, and which bytes of the others are taken: up to seven, and never past the announced length |
| IsoTp.AwaitFcMeetsSpec | mcanbus/src/isotp.rs:274-324 | waiting for flow control ignores empty frames, tolerates exactly the allowed leading Waits and obeys the next frame, on every stream if and only if the limit is at most 254 |
| IsoTp.FcRoundTrip | mcanbus/src/isotp.rs:186-203 | a flow control frame we send is read as the advertised block size and the separation time capped at 127 |
| IsoTp.AwaitFcUnlimited | mcanbus/src/isotp.rs:280-313 | with a limit of 255 any number of Waits is tolerated |
| IsoTp.FcTakesExact | mcanbus/src/isotp.rs:281-323 | the wait for flow control takes exactly the frames that decide it, no more and no fewer |
| IsoTp.RxTakesExact | mcanbus/src/isotp.rs:333-399 | reception takes exactly the frames that decide it; it times out at the deadline, fails with the I/O error on a failed receive, and otherwise only as invalid data |
| IsoTp.UnusedIsPadding | mcanbus/src/isotp.rs:160-193 | every byte of a frame that carries nothing is the padding byte |
| IsoTp.StMinRoundsUp | mcanbus/src/isotp.rs:195-203 | the separation time kept is the shortest whole number of milliseconds not below what is asked, and the longest there is for reserved values |
| IsoTp.PciIsBitwise | mcanbus/src/isotp.rs:43-52 | type and low nibble of a control byte are the source's masks |
| IsoTp.TypeIsBitwise | mcanbus/src/isotp.rs:160-192 | setting the type bits is addition |
| IsoTp.LengthIsBitwise | mcanbus/src/isotp.rs:359-359 | joining the two parts of a length is shift and or |
| IsoTpEndpoint.RecvWithId | mcanbus/src/isotp.rs:260-272 | the next frame of the expected id received before the deadline, or none, or the I/O error; other ids and empty receives are passed over; which receives it has used up and the time then |
| IsoTpEndpoint.WaitForFc | mcanbus/src/isotp.rs:274-324 | the outcome AwaitFc gives on what arrives in time, having listened exactly as far as that takes |
| IsoTpEndpoint.ReceiveResponse | mcanbus/src/isotp.rs:326-412 | the verdict of Receive on what arrives in time, one flow control frame exactly when a first frame is accepted and at that moment, and the receives used up; only the refusal of that frame changes it |
| IsoTpEndpoint.CollectRest | mcanbus/src/isotp.rs:373-399 | the consecutive-frame loop ends with the verdict of Receive and the receives that takes, on any arrivals, including frames that carry nothing |
| IsoTpEndpoint.SendLoop | mcanbus/src/isotp.rs:229-250 | the send loop for every block size: which frames, in which order, at which times, and how many until all are out, the grant runs out or a send is refused |
| IsoTpEndpoint.SendConsecutiveFrames | mcanbus/src/isotp.rs:221-251 | it sends what BlockPlan says: all frames and success if covered, else exactly as many as granted and Unsupported; up to the first refused send |
| IsoTpEndpoint.SendCf | mcanbus/src/isotp.rs:233-235 | the frame sent is the next one of the paced log |
| IsoTpEndpoint.SendSegmented | mcanbus/src/isotp.rs:142-151 | frames, times, outcome and future left of the segmented request phase |
| IsoTpEndpoint.Request | mcanbus/src/isotp.rs:113-156 | every frame sent and when, the result, and the future left, as functions of the future found; up to the first refused send, which it returns as its error |
| IsoTpRequest.BadSizeRefused | mcanbus/src/isotp.rs:120-134 | payloads of 0 or more than 4095 bytes, and only those, are refused as invalid input with nothing sent |
| IsoTpRequest.SingleRequest | mcanbus/src/isotp.rs:139-155 | up to seven bytes: one frame carrying them goes out at once, then the response is awaited |
| IsoTpRequest.RefusedRequest | mcanbus/src/isotp.rs:274-324 | flow control refused (Overflow, deadline, too many Waits, failed receive, any other frame): that error is the result, and the first frame is all that was sent |
| IsoTpRequest.GrantedRequest | mcanbus/src/isotp.rs:142-155 | flow control granted: the first frame at once; from the moment of the grant the segments in order, the i-th exactly i granted separation times later, as many as the block size lets out; then the response, or Unsupported if that was not all |
| IsoTpRequest.ResponseAnswered | mcanbus/src/isotp.rs:253-371 | a response that opens with a first frame is answered then by one flow control frame, to the right id, from which every peer reads the block size and capped separation time asked for; any other response by nothing |
| IsoTpRequest.AwaitedByBytes | mcanbus/src/isotp.rs:281-323 | which frames refuse flow control with which error, and which grant what, for every limit |
| IsoTpPlan.SegmentedAnswered | mcanbus/src/isotp.rs:142-155 | a segmented request that hears in time a covering grant and then, once all is sent, the segments of a response, both among any other traffic, returns that response |
| IsoTpPlan.SingleAnswered | mcanbus/src/isotp.rs:139-155 | likewise for a single frame |
| IsoTpPlan.GrantAfterWaits | mcanbus/src/isotp.rs:298-313 | a clear-to-send after Waits within the limit grants its block size and capped separation time |
| IsoTpPlan.ResponseAmongOthers | mcanbus/src/isotp.rs:260-412 | the frames of any payload, received in time among frames of other ids and empty receives, make the response that payload |
| IsoTpPlan.RequestTime | mcanbus/src/isotp.rs:136-155 | a request takes no longer than its timeout, one receive timeout and the pacing |
| IsoTpPlan.PacingBound | mcanbus/src/isotp.rs:195-248 | the pacing is none for single frames and at most 584 gaps of 127 ms otherwise |
| IsoTpPlan.AfterBound | mcanbus/src/isotp.rs:265-271 | listening ends within one receive timeout of the deadline |
| IsoTpPlan.ListensUntilDeadline | mcanbus/src/isotp.rs:265-271 | exactly the receives that start before the deadline count, and of those what comes from the expected id or fails |
| IsoTpPlan.DeadlineReached | mcanbus/src/isotp.rs:265-271 | with nothing to hear, listening goes on until the deadline |
| IsoTpPlan.SeparationKept | mcanbus/src/isotp.rs:246-248 | any two frames of a paced log are exactly their distance in separation times apart |
| IsoTpPlan.PacedAt | mcanbus/src/isotp.rs:232-249 | which frame is i-th in a paced log, and when |
| IsoTpPlan.BusCarriesSegments | mcanbus/src/isotp.rs:207-219 | what the send path puts on the bus for a payload is its segments |
| IsoTpPlan.CarriedAll | mcanbus/src/isotp.rs:232-235 | a sender with no send refused puts everything on the bus |
| IsoTpPlan.CarriedUpTo | mcanbus/src/isotp.rs:232-235 | otherwise exactly what comes before the first refusal |
| FanOutCulling.GoneBeforeItsTurn | mcanbus/src/reader.rs:255-286 | in every run: a subscriber whose receiver is gone before its turn in a fan-out is not in the list once that fan-out is over, nor ever after |
| FanOutCulling.NothingToCull | mcanbus/src/reader.rs:281-283 | a fan-out that notes nobody leaves nobody who should be culled |
| FanOut.CullingExact | mcanbus/src/reader.rs:283-286 | in every reachable state: culling by address removes exactly the subscribers found disconnected, and no live one |
| FanOut.FreshIsNotNoted | mcanbus/src/reader.rs:262-286 | while addresses are noted, even after the snapshot is released, no new subscriber can get one of them |
| FanOut.UnboundedHasAll | mcanbus/src/reader.rs:134-143 | in every reachable state an unbounded live subscriber's consumed frames followed by its queue are all batches since its first snapshot and the part of the current one that reached it; it dropped nothing |
| FanOut.SettledHasAll | mcanbus/src/reader.rs:134-143 | between fan-outs an unbounded live subscriber has every batch since its first snapshot, whole |
| FanOut.BoundedHasAccepted | mcanbus/src/reader.rs:145-156 | the same of what was tried, for any live subscriber; it holds the accepted part, in order, within its capacity |
| FanOut.Conservation | mcanbus/src/reader.rs:265-280 | counters at every instant: consumed + pending and attempts exceed received (and dropped) by one exactly between a send and its count |
| FanOut.StopIsClean | mcanbus/src/reader.rs:241-287 | at most one batch begins its fan-out after stop is set; a stopped reader has fanned out whole every batch it began |
| FanOutSubscription.OpenedUnbounded | mcanbus/src/reader.rs:134-143 | in every run a subscriber opened without a bound holds everything it is owed while it lives, and dropped nothing |
| FanOutSubscription.OpenedBounded | mcanbus/src/reader.rs:145-156 | one opened with a bound never queues more than that, and holds the accepted part of what it is owed |
| FanOutSubscription.RegisteredHasAll | mcanbus/src/reader.rs:141-142 | in every run, between fan-outs, an unbounded live subscriber has exactly the batches begun since it was registered |
| FanOutSubscription.RegisteredIsServed | mcanbus/src/reader.rs:257-260 | a live subscriber is served from the first batch begun after its registration, none passing it by |
| FanOutSubscription.AllocatedAsAsked | mcanbus/src/reader.rs:134-156 | a new subscriber has the queue asked for, empty, and counters at zero |
| FanOutSubscription.SubscriptionStays | mcanbus/src/reader.rs:90-101 | no step changes a subscriber's capacity |
| FanOutSubscription.TurnedAwayWhenFull | mcanbus/src/reader.rs:267-273 | in every reachable state a frame is dropped exactly when the queue is at its capacity |
| FanOutSubscription.ConsumeTakesOldest | mcanbus/src/reader.rs:195-207 | a receive takes the oldest queued frame |
| FanOutSubscription.DroppedIsGone | mcanbus/src/reader.rs:96-101 | dropping a subscriber leaves it to be culled |
| FanOutSubscription.AtMostOneAfterStop | mcanbus/src/reader.rs:171-188 | in every run at most one more batch begins once stop is set |
| FanOutSubscription.ShutdownStops | mcanbus/src/reader.rs:171-241 | shutdown sets the flag, and the reader stops the next time it looks |
| FanOutSubscription.SubscribeAnytime | mcanbus/src/reader.rs:134-156 | the reader never keeps anyone from subscribing |
| FanOut.LiveIsListed | mcanbus/src/reader.rs:141-154 | a live subscriber is in the list exactly once |
| FanOut.NextKeeps | mcanbus/src/reader.rs:235-288 | every step of the reader or a client keeps the invariant on list, snapshot, addresses, counters and streams |
| FanOut.KeptInOrder | mcanbus/src/reader.rs:285-285 | retain keeps, in order, exactly the members whose address is not noted |
| FanOutIsolation.Isolation | mcanbus/src/reader.rs:257-286 | two runs whose batch streams agree and in which a subscriber's own sends, counts and receives came in the same order leave it the same frames and counters, whatever other subscribers did |
| FanOutIsolation.ReachableReplays | mcanbus/src/reader.rs:265-279 | a live subscriber's queue, consumed frames and counters are a replay of its own events alone |
| FanOutIsolation.OwedFromStream | mcanbus/src/reader.rs:241-280 | what a subscriber is owed is a prefix of the batches since its first snapshot |
| FanOutReader.Reader.RunReader | mcanbus/src/reader.rs:235-288 | under any schedule of client actions, every execution of the loops is a run of the machine; each answer's data frames become one batch, finished before the stop flag is read again; in the end every live unbounded subscriber has all batches since it joined |
| FanOutReader.Reader.FanOutBatch | mcanbus/src/reader.rs:255-287 | one batch from snapshot to cull, whatever clients do in between |
| FanOutReader.Reader.SendAll | mcanbus/src/reader.rs:265-280 | the inner loop: all frames to one subscriber and nothing noted, or it is disconnected and its address is noted once |
| FanOutReader.Reader.TrySend | mcanbus/src/reader.rs:267-278 | accepted, full or disconnected as the receiver and queue have it, each the machine step of that name |
| FanOutReader.Reader.Act | mcanbus/src/reader.rs:134-207 | a client action is one machine step |
| FanOutReader.ClientStepIsAction | mcanbus/src/reader.rs:134-207 | every client step of the machine is an action a schedule can name |
| FanOutReader.EveryClientStepActs | mcanbus/src/reader.rs:134-207 | an action is possible exactly when its step is, and then is that step |
| FanOutReader.ActedInOrder | mcanbus/src/reader.rs:134-207 | scheduled actions take effect one after another |
| FanOutReader.Reader.ValidIsReachable | mcanbus/src/reader.rs:235-288 | so the theorems on reachable states hold of the loops' state |
| FanOutReader.BatchesHoldAll | mcanbus/src/reader.rs:242-253 | the batches of any kernel answers, put together, are the data frames of all their messages in order; none is empty |
| Sockets.RecvBatch | mcanbus/src/socket.rs:539-600 | the data frames of the kernel's messages, in order, as a prefix of the buffer, the rest of it untouched; at most the buffer's length and 64; the error cases |
| Sockets.DataFramesAppend | mcanbus/src/socket.rs:582-599 | the frames of messages one after another are those of each in turn |
| Sockets.DataFramesOfOne | mcanbus/src/socket.rs:594-597 | a message gives the frame it decodes to, or none |
| Sockets.RecvOutcome | mcanbus/src/socket.rs:451-456 | a single receive gives a frame exactly for data frames: nothing short, no remote, no error frame |
| Sockets.RecvDropsShort | mcanbus/src/socket.rs:582-586 | the length test before decoding never drops what would decode |
| Sockets.DataFramesOfSent | mcanbus/src/socket.rs:582-599 | well-formed frames sent one per message come out of a batch as they were, in order |
| Sockets.SentIsReceived | mcanbus/src/socket.rs:451-456 | one well-formed frame sent is received |
| Frames.WireRoundTrip | mcanbus/src/frame.rs:330-451 | a sent frame decodes to a data frame with the same id, kind and data and the given timestamp exactly when it was well-formed |
| Frames.SentIsData | mcanbus/src/frame.rs:330-451 | what any sent frame decodes to: id masked, data cut to the kind's limit |
| Frames.DecodeOutcome | mcanbus/src/frame.rs:384-451 | which outcome every buffer has, by its flags; data frames are well-formed, and data, error class and error bytes come from the buffer |
| Frames.DecodeNormalForm | mcanbus/src/frame.rs:384-451 | re-encoding a decoded data frame and decoding again gives the same frame |
| Frames.NewClassic | mcanbus/src/frame.rs:212-228 | accepts exactly up to 8 bytes, which it keeps; well-formed exactly for an id in range |
| Frames.NewFd | mcanbus/src/frame.rs:231-247 | accepts exactly up to 64 bytes, which it keeps |
| Frames.FlagsRoundTrip | mcanbus/src/frame.rs:104-122 | both FD flags survive their wire byte |
| Frames.FlagsAreBitwise | mcanbus/src/frame.rs:104-122 | flag reading and writing are the source's bit operations |
| Frames.Put32Bytes | mcanbus/src/frame.rs:384-397 | the bytes of a word in memory, in both byte orders |
| Frames.SentRestIsZero | mcanbus/src/frame.rs:314-339 | reserved bytes, unused data and a classic frame's flags are sent as zero |
| Frames.NewRestIsZero | mcanbus/src/frame.rs:212-247 | a new frame's buffer is zero after its data |
| Ids.IdRoundTrip | mcanbus/src/frame.rs:61-78 | an identifier survives packing exactly when in range; packing sets neither RTR nor ERR |
| Ids.WireIdNormalForm | mcanbus/src/frame.rs:61-78 | every 32-bit word decodes to an identifier in range that repacks to itself |
| Ids.MasksAreBitwise | mcanbus/src/frame.rs:61-78 | remainders and comparisons are the source's masks and flag tests |
| Ids.IdsAreBitwise | mcanbus/src/frame.rs:33-78 | packing, unpacking and the constructors in the source's own masks and flags |
| Ids.StandardExactAgrees | mcanbus/src/socket.rs:47-56 | the filter accepts a wire id exactly when it decodes to the masked standard id |
| Ids.ExtendedExactAgrees | mcanbus/src/socket.rs:57-63 | likewise for extended ids |
| Ids.StandardMaskedAgrees | mcanbus/src/socket.rs:65-72 | the filter accepts exactly the standard ids that agree with the pattern on the truncated mask |
| Ids.FiltersAreBitwise | mcanbus/src/socket.rs:47-72 | the filters' words are the source's bit operations |
| Netlink.FindAttr | mcanbus/src/iface.rs:309-323 | terminates in bounds on any bytes with what the walk finds |
| Netlink.WalkInverts | mcanbus/src/iface.rs:309-323 | over any attributes laid out with 4-byte alignment (last padding optional, flag bits allowed, anything that stops the walk after them) the walk finds what a lookup finds |
| Netlink.LookupIsFirst | mcanbus/src/iface.rs:308-318 | a lookup is the payload of the first attribute of the type, or none if there is none |
| Netlink.WalkFindsFirst | mcanbus/src/iface.rs:308-323 | arbitrary bytes are such a layout plus a remainder, so there too the walk finds the first of each type |
| Netlink.ParseReply | mcanbus/src/iface.rs:399-445 | the early returns compute the reply's meaning |
| Netlink.ReplyOutcome | mcanbus/src/iface.rs:399-445 | on any bytes: an error exactly for an error message of 32 bytes or more with a non-zero number; a state exactly when one is nested in link info of kind "can"; all else gives none |
| Netlink.ErrorRead | mcanbus/src/iface.rs:404-411 | an error reply yields the error number the kernel negated, an acknowledgement yields no state |
| Netlink.NestedStateRead | mcanbus/src/iface.rs:413-445 | three levels deep: a state is returned exactly when the first kind attribute says "can" and the first state attribute has four bytes, and it is those bytes |
| Netlink.EncodedStateReturned | mcanbus/src/iface.rs:36-52 | a state encoded in a well-formed reply is read back as that state |
| Netlink.Raw | mcanbus/src/iface.rs:40-52 | each state has exactly one number |
| Netlink.RawInOrder | mcanbus/src/iface.rs:40-52 | the states are numbered 0 to 5 in their order, other numbers are none |
| Netlink.Put16Bytes | mcanbus/src/iface.rs:312-313 | the bytes of a 16-bit value in memory, in both byte orders |
| Netlink.AlignIsBitwise | mcanbus/src/iface.rs:303-306 | alignment is the source's mask, for any word width |
| Netlink.TypeMaskIsBitwise | mcanbus/src/iface.rs:301-313 | the attribute type is the source's mask |
| TextForms.Display | mcanbus/src/frame.rs:273-287 | the loop writes the frame's text |
| TextForms.TextIsInjective | mcanbus/src/frame.rs:81-88 | well-formed frames print alike exactly when they are the same message |
| TextForms.TextReads | mcanbus/src/frame.rs:273-287 | a reader of the candump format gets back id, kind, flags and data of every well-formed frame |
| TextForms.TextLooks | mcanbus/src/frame.rs:81-88 | digits, capital letters and `#` only, at the length the format gives |
| TextForms.JsonRoundTrip | socketcan-mcp/src/main.rs:240-322 | building a frame from the JSON of a frame gives it back, but for ESI and timestamp, exactly for well-formed frames |
| TextForms.JsonShowsFrame | socketcan-mcp/src/main.rs:240-266 | each field of the JSON shows its part of the frame, and JSON values are equal exactly for the same message and timestamp |
| TextForms.BuildOutcome | socketcan-mcp/src/main.rs:306-322 | the frame the arguments ask for, or the first error in the order of the fields |
| TextForms.IdTextParses | socketcan-mcp/src/main.rs:271-280 | reading a printed identifier gives it back, truncated to its range |
| TextForms.BytesTextParses | socketcan-mcp/src/main.rs:288-304 | reading printed data bytes gives them back |
| TextForms.DigitsReadBack | socketcan-mcp/src/main.rs:288-304 | strings of printed digits are read exactly if of even length, to bytes that print as them |
| TextForms.BadPairReported | socketcan-mcp/src/main.rs:296-303 | the first pair that is no byte is the one reported |
| TextForms.PrefixesTrimmed | socketcan-mcp/src/main.rs:272-289 | a prefix in front of digits is trimmed |
| TextForms.HexOverflows | socketcan-mcp/src/main.rs:273-274 | a number too large for its type is refused |

## Left out

- All system calls: `Socket::open`, `send`, `recvmsg`, `recvmmsg`, `sendmmsg`, timestamps from control messages, `nl_set_iface_up`, sysfs, the `ip` shell-out. The kernel is a source of byte buffers, empty receives and errors.
- Multi-block ISO-TP: the source sends one flow control frame and does not wait for a second.
- IsoTp.OnFlowControl: models the `u8` Wait counter as wrapping; a build with overflow checks panics instead at the 256th Wait, which needs a limit of 255.
- IsoTpSession.Exchange: no deadline expires in the two-endpoint machine; what a deadline does to one endpoint is in IsoTpEndpoint.
- IsoTpPlan.RequestTime: time is in whole nanoseconds with exact sleeps and sends that take no time; a real sleep may be longer.
- FanOutReader.Reader.RunReader: a run ends when the kernel has no more answers; how long a receive blocks, the pause after an error and the join at shutdown are not modelled.
- Zero-capacity bounded channels (rendezvous), receivers cloned through `as_receiver`, counter wrap at 2^64, memory ordering beyond interleaving, mutex poisoning, `subscriber_count`, and `kernel_drops`, which is always 0.
- `Frame` and `WireFrame` as buffers written in place: they are values here, written once by their constructors.
- Remote and error frames beyond their recognition: neither core consumes them.
- `recv_decoded` apart from the decoding it wraps, and `send_batch`.
- Netlink replies longer than one buffer, the request that is sent, and a build with overflow checks, which panics on the one error number that has no negation.
- Error message texts; non-ASCII strings in the hex parsers, where slicing may panic.
- `build_filters`, `parse_single_hex_byte`, allowlists, JSON encoding of strings, tool routing and the rest of the MCP server.
