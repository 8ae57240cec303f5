/** One endpoint of an ISO-TP exchange, step by step over a socket (mcanbus/src/isotp.rs).

  Each method is proved to do what IsoTpPlan says of the future it finds: the frames it sends and
  when, up to the first one refused, its result, and the future it leaves.
 */
module IsoTpEndpoint {
  import opened Bits
  import opened Ids
  import opened Frames
  import opened IsoTp
  import opened IsoTpReassembly
  import opened IsoTpPlan

  class Socket {
    const recvTimeout: pos
    const refused: iset<nat> // the sends the kernel refuses, by number
    var clock: nat
    var script: seq<Rx>
    var attempts: nat          // sends tried
    ghost var sent: seq<Sent>  // what went on the bus

    constructor (recvTimeout: pos, refused: iset<nat>, script: seq<Rx>)
      ensures Ahead() == Future(script, 0) && Out() == Outbox(0, [])
      ensures this.recvTimeout == recvTimeout && this.refused == refused
    {
      this.recvTimeout, this.refused, this.clock, this.script := recvTimeout, refused, 0, script;
      attempts, sent := 0, [];
    }

    function Ahead(): Future
      reads this`script, this`clock
    {
      Future(script, clock)
    }

    ghost function Out(): Outbox
      reads this`attempts, this`sent
    {
      Outbox(attempts, sent)
    }

    function For(id: CanId, deadline: nat): Ear {
      Ear(id, deadline, recvTimeout)
    }

    method Send(frame: Frame) returns (r: Result<(), Error>)
      modifies this`attempts, this`sent
      ensures r == if old(attempts) in refused then Err(Io) else Ok(())
      ensures Out() == Outbox(old(attempts) + 1, if r.Ok? then old(sent) + [Sent(frame, clock)] else old(sent))
    {
      attempts := attempts + 1;
      if attempts - 1 in refused {
        return Err(Io);
      }
      sent := sent + [Sent(frame, clock)];
      return Ok(());
    }

    method Recv() returns (r: RxOutcome)
      modifies this`clock, this`script
      ensures r == if old(script) == [] then Nothing else old(script)[0].outcome
      ensures Ahead() == old(Ahead()).Next(recvTimeout)
    {
      if script == [] {
        clock := clock + recvTimeout;
        return Nothing;
      }
      r := script[0].outcome;
      clock, script := clock + script[0].took, script[1..];
    }

    method Sleep(ms: nat)
      modifies this`clock
      ensures clock == old(clock) + ms * NANOS_PER_MS
    {
      clock := clock + ms * NANOS_PER_MS;
    }
  }

  // ---------------------------------------------------------------- receiving

  /** `recv_with_id`: the next arrival, or None at the deadline. */
  method RecvWithId(s: Socket, id: CanId, deadline: nat) returns (r: Result<Option<ReadableFrame>, Error>)
    modifies s`clock, s`script
    ensures var ear := s.For(id, deadline);
            var before, after := Arrivals(old(s.Ahead()), ear), Arrivals(s.Ahead(), ear);
            && s.Ahead() == AfterNext(old(s.Ahead()), ear)
            && match r
               case Ok(None) => before == []
               case Ok(Some(frame)) => frame.id == id && before == [Content(frame.Data())] + after
               case Err(e) => e == Io && before == [Fault] + after
  {
    ghost var ear := s.For(id, deadline);
    while s.clock < deadline
      invariant Arrivals(s.Ahead(), ear) == Arrivals(old(s.Ahead()), ear)
      invariant AfterNext(s.Ahead(), ear) == AfterNext(old(s.Ahead()), ear)
      decreases |s.script|, deadline - s.clock
    {
      var outcome := s.Recv();
      match outcome {
        case Broken => return Err(Io);
        case Nothing =>
        case Got(frame) =>
          if frame.id == id {
            return Ok(Some(frame));
          }
      }
    }
    return Ok(None);
  }

  /** `wait_for_fc`: the outcome AwaitFc gives on what arrives in time, which is that of the stream
      specification for limits up to 254 (AwaitFcMeetsSpec); it listens no further than that takes. */
  method WaitForFc(s: Socket, rxId: CanId, deadline: nat, opts: Options) returns (r: Result<Grant, Error>)
    modifies s`clock, s`script
    ensures var ear := s.For(rxId, deadline);
            && r == AwaitFc(0, Arrivals(old(s.Ahead()), ear), opts.maxWaits)
            && s.Ahead() == AfterFc(old(s.Ahead()), ear, opts.maxWaits)
  {
    var waits: byte := 0;
    ghost var ear := s.For(rxId, deadline);
    ghost var heard := Arrivals(s.Ahead(), ear);
    while true
      invariant AwaitFc(waits, Arrivals(s.Ahead(), ear), opts.maxWaits) == AwaitFc(0, heard, opts.maxWaits)
      invariant After(s.Ahead(), ear, FcTakes(waits, Arrivals(s.Ahead(), ear), opts.maxWaits))
             == AfterFc(old(s.Ahead()), ear, opts.maxWaits)
      decreases |Arrivals(s.Ahead(), ear)|
    {
      ghost var was := Arrivals(s.Ahead(), ear);
      var got := RecvWithId(s, rxId, deadline);
      if got.Err? {
        return Err(got.error);
      }
      if got.value.None? {
        return Err(TimedOut);
      }
      var data := got.value.value.Data();
      assert was[0] == Content(data) && was[1..] == Arrivals(s.Ahead(), ear);
      if |data| == 0 {
        continue;
      }
      if data[0] / 16 != 3 {
        return Err(InvalidData);
      }
      match data[0] % 16 {
        case 0 =>
          var bs := if |data| >= 2 then data[1] else 0;
          var st := if |data| >= 3 then data[2] else 0;
          return Ok(Grant(bs, DecodeStMin(st)));
        case 1 =>
          waits := (waits + 1) % 0x100;
          if waits > opts.maxWaits {
            return Err(TimedOut);
          }
        case 2 =>
          return Err(Overflow);
        case _ =>
          return Err(InvalidData);
      }
    }
  }

  method SendFc(s: Socket, txId: CanId, opts: Options) returns (r: Result<(), Error>)
    modifies s`attempts, s`sent
    ensures r == if old(s.attempts) in s.refused then Err(Io) else Ok(())
    ensures s.Out() == Outbox(old(s.attempts) + 1,
                              if r.Ok? then old(s.sent) + [Sent(FcFrame(txId, opts), s.clock)] else old(s.sent))
  {
    r := s.Send(FcFrame(txId, opts));
  }

  /** `receive_response`: the verdict of IsoTp.Receive on what arrives in time, and one flow control
      frame exactly when a first frame is accepted; only its refusal changes the outcome. */
  method ReceiveResponse(s: Socket, txId: CanId, rxId: CanId, deadline: nat, opts: Options)
    returns (r: Result<seq<byte>, Error>)
    modifies s
    ensures var plan := ResponsePlan(old(s.Ahead()), s.For(rxId, deadline), FcFrame(txId, opts));
            && s.Out() == Carried(s.refused, old(s.Out()), plan.log)
            && s.clock <= plan.end.now
            && if plan.log != [] && old(s.attempts) in s.refused then r == Err(Io)
               else r == plan.verdict && s.Ahead() == plan.end
  {
    ghost var ear := s.For(rxId, deadline);
    ghost var heard := Arrivals(s.Ahead(), ear);
    var first := RecvWithId(s, rxId, deadline);
    CarriedOne(s.refused, s.Out(), Sent(FcFrame(txId, opts), s.clock));
    if first.Err? {
      return Err(first.error);
    }
    if first.value.None? {
      return Err(TimedOut);
    }
    var data := first.value.value.Data();
    ResponseTo(old(s.Ahead()), ear, FcFrame(txId, opts), data);
    if |data| == 0 {
      return Err(InvalidData);
    }
    match data[0] / 16 {
      case 0 =>
        var len := data[0] % 16;
        if len == 0 || len > SF_MAX_LEN || 1 + len > |data| {
          return Err(InvalidData);
        }
        return Ok(data[1..1 + len]);
      case 1 =>
        if |data| < 2 {
          return Err(InvalidData);
        }
        var total := Announced(data);
        if total <= SF_MAX_LEN {
          return Err(InvalidData);
        }
        var out := data[2..2 + Min(|data| - 2, total)];
        r := ReplyAndCollect(s, txId, rxId, deadline, opts, total, out);
      case _ =>
        return Err(InvalidData);
    }
  }

  /** The answer to a first frame, and what follows it. */
  method ReplyAndCollect(s: Socket, txId: CanId, rxId: CanId, deadline: nat, opts: Options,
                         total: nat, first: seq<byte>)
    returns (r: Result<seq<byte>, Error>)
    requires RxReply(total, first).Valid()
    modifies s
    ensures var ear, reply := s.For(rxId, deadline), Sent(FcFrame(txId, opts), old(s.clock));
            var heard := Arrivals(old(s.Ahead()), ear);
            var end := After(old(s.Ahead()), ear, RxTakes(RxReply(total, first), heard));
            && s.clock <= end.now
            && if old(s.attempts) in s.refused then r == Err(Io) && s.Out() == Outbox(old(s.attempts) + 1, old(s.sent))
               else
                 && s.Out() == Outbox(old(s.attempts) + 1, old(s.sent) + [reply])
                 && r == Verdict(Receive(RxReply(total, first), heard)) && s.Ahead() == end
  {
    ghost var ear := s.For(rxId, deadline);
    AfterBound(s.Ahead(), ear, RxTakes(RxReply(total, first), Arrivals(s.Ahead(), ear)));
    var fc := SendFc(s, txId, opts);
    if fc.Err? {
      return Err(fc.error);
    }
    r := CollectRest(s, rxId, deadline, total, first);
  }

  /** The consecutive-frame loop of `receive_response`. */
  method CollectRest(s: Socket, rxId: CanId, deadline: nat, total: nat, first: seq<byte>)
    returns (r: Result<seq<byte>, Error>)
    requires RxReply(total, first).Valid()
    modifies s`clock, s`script
    ensures var ear := s.For(rxId, deadline);
            var heard := Arrivals(old(s.Ahead()), ear);
            && r == Verdict(Receive(RxReply(total, first), heard))
            && s.Ahead() == After(old(s.Ahead()), ear, RxTakes(RxReply(total, first), heard))
  {
    var out := first;
    var expected: byte := 1;
    ghost var ear := s.For(rxId, deadline);
    ghost var heard := Arrivals(s.Ahead(), ear);
    ghost var state := AfterReply(total, first);
    while |out| < total
      invariant state.Valid() && state == if |out| < total then RxCollect(total, out, expected) else RxDone(out)
      invariant Receive(state, Arrivals(s.Ahead(), ear)) == Receive(RxReply(total, first), heard)
      invariant After(s.Ahead(), ear, RxTakes(state, Arrivals(s.Ahead(), ear)))
             == After(old(s.Ahead()), ear, RxTakes(RxReply(total, first), heard))
      decreases |Arrivals(s.Ahead(), ear)|
    {
      ghost var was := Arrivals(s.Ahead(), ear);
      var got := RecvWithId(s, rxId, deadline);
      if got.Err? {
        return Err(got.error);
      }
      if got.value.None? {
        return Err(TimedOut);
      }
      var data := got.value.value.Data();
      assert was[0] == Content(data) && was[1..] == Arrivals(s.Ahead(), ear);
      ReceiveNext(state, was);
      state := OnConsecutive(total, out, expected, data);
      if |data| == 0 || data[0] / 16 != 2 {
        return Err(InvalidData);
      }
      if data[0] % 16 != expected {
        return Err(InvalidData);
      }
      var remaining := total - |out|;
      var take := Min(Min(remaining, |data| - 1), CF_PAYLOAD);
      out := out + data[1..1 + take];
      expected := (expected + 1) % 16;
    }
    return Ok(out);
  }

  // ---------------------------------------------------------------- sending

  /** Sends consecutive frame i, the next one of a paced log. */
  method SendCf(s: Socket, txId: CanId, sn: byte, chunk: seq<byte>, padding: byte, ghost rest: seq<byte>, ghost i: nat,
                ghost first: Outbox, ghost start: nat, ghost gap: nat)
    returns (r: Result<(), Error>)
    requires i < NumCf(|rest|)
    requires sn == (i + 1) % 16 && chunk == rest[7 * i..Min(7 * i + 7, |rest|)]
    requires SentSoFar(s.refused, first, s.Out(), CfFrames(txId, rest, padding), i, start, gap)
    requires s.clock == start + Pauses(i, gap)
    modifies s`attempts, s`sent
    ensures var frames := CfFrames(txId, rest, padding);
            match r
            case Ok(_) => SentSoFar(s.refused, first, s.Out(), frames, i + 1, start, gap)
            case Err(e) => e == Io && StoppedAt(s.refused, first, s.Out(), frames, i, start, gap)
  {
    var buf := EncodeCf(sn, chunk, padding);
    r := s.Send(Classic8(txId, buf));
    PacedNext(first.log, CfFrames(txId, rest, padding), i, start, gap, s.clock);
  }

  /** n paced frames are out since `first`. */
  ghost predicate SentSoFar(refused: iset<nat>, first: Outbox, now: Outbox, frames: seq<Frame>,
                            n: nat, start: nat, gap: nat) {
    && n <= |frames| && AllAccepted(refused, first.attempts, n)
    && now == Outbox(first.attempts + n, first.log + Paced(frames, n, start, gap))
  }

  /** And the next one was refused. */
  ghost predicate StoppedAt(refused: iset<nat>, first: Outbox, now: Outbox, frames: seq<Frame>,
                            n: nat, start: nat, gap: nat) {
    && n < |frames| && AllAccepted(refused, first.attempts, n) && first.attempts + n in refused
    && now == Outbox(first.attempts + n + 1, first.log + Paced(frames, n, start, gap))
  }

  /** A log of n frames since `before`, and one frame more. */
  lemma PacedNext(before: seq<Sent>, frames: seq<Frame>, n: nat, start: nat, gap: nat, at: nat)
    requires n < |frames| && at == start + Pauses(n, gap)
    ensures before + Paced(frames, n, start, gap) + [Sent(frames[n], at)] == before + Paced(frames, n + 1, start, gap)
  {
  }

  /** The send loop, for every block size: it stops after all frames, or after as many as granted, or
      with the first refused one; the frames are numbered 1, 2, ... modulo 16, carry the payload in
      order, and are exactly the separation time apart. */
  method SendLoop(s: Socket, txId: CanId, rest: seq<byte>, bs: byte, stMinMs: byte, opts: Options)
    returns (r: Result<(), Error>, ghost n: nat)
    modifies s`clock, s`attempts, s`sent
    ensures var all, gap := NumCf(|rest|), stMinMs * NANOS_PER_MS;
            var frames := CfFrames(txId, rest, opts.padding);
            if r == Err(Io) then
              && n < Allowed(all, bs) && s.clock == old(s.clock) + Pauses(n, gap)
              && StoppedAt(s.refused, old(s.Out()), s.Out(), frames, n, old(s.clock), gap)
            else
              && n == Allowed(all, bs) && r == SendVerdict(all, bs) && s.clock == old(s.clock) + Slept(n, gap)
              && SentSoFar(s.refused, old(s.Out()), s.Out(), frames, n, old(s.clock), gap)
  {
    var sn: byte := 1;
    var blockCount: byte := 0;
    var offset := 0;
    n := 0;
    ghost var gap, first, start := stMinMs * NANOS_PER_MS, s.Out(), s.clock;
    ghost var frames := CfFrames(txId, rest, opts.padding);
    while offset < |rest|
      invariant Cursor(offset, sn, blockCount, n, |rest|)
      invariant n <= Allowed(NumCf(|rest|), bs) && (offset < |rest| ==> n < Allowed(NumCf(|rest|), bs))
      invariant SentSoFar(s.refused, first, s.Out(), frames, n, start, gap)
      invariant s.clock == start + if offset < |rest| then Pauses(n, gap) else Slept(n, gap)
    {
      var end := Min(offset + CF_PAYLOAD, |rest|);
      CursorStep(offset, sn, blockCount, n, |rest|);
      assert end == Min(7 * n + 7, |rest|);
      var ok := SendCf(s, txId, sn, rest[offset..end], opts.padding, rest, n, first, start, gap);
      if ok.Err? {
        return Err(ok.error), n;
      }
      offset := end;
      sn := (sn + 1) % 16;
      blockCount := if blockCount == 255 then 255 else blockCount + 1;
      n := n + 1;
      if bs != 0 && blockCount == bs && offset < |rest| {
        return Err(Unsupported), n;
      }
      if stMinMs > 0 && offset < |rest| {
        s.Sleep(stMinMs);
      }
    }
    return Ok(()), n;
  }

  /** The loop variables after n frames. */
  ghost predicate Cursor(offset: nat, sn: byte, blockCount: byte, n: nat, length: nat) {
    && offset == Min(7 * n, length) && sn == (n + 1) % 16 && blockCount == Min(n, 255)
    && n <= NumCf(length) && (offset < length <==> n < NumCf(length))
  }

  lemma CursorStep(offset: nat, sn: byte, blockCount: byte, n: nat, length: nat)
    requires Cursor(offset, sn, blockCount, n, length) && offset < length
    ensures offset == 7 * n
    ensures Cursor(Min(offset + CF_PAYLOAD, length), (sn + 1) % 16, if blockCount == 255 then 255 else blockCount + 1,
                   n + 1, length)
  {
    NextSn(n);
  }

  /** `send_consecutive_frames`: what BlockPlan says, up to the first refusal. */
  method SendConsecutiveFrames(s: Socket, txId: CanId, rest: seq<byte>, bs: byte, stMinMs: byte, opts: Options)
    returns (r: Result<(), Error>)
    modifies s`clock, s`attempts, s`sent
    ensures var plan := BlockPlan(old(s.Ahead()), Grant(bs, stMinMs), CfFrames(txId, rest, opts.padding));
            && s.Out() == Carried(s.refused, old(s.Out()), plan.log)
            && s.clock <= plan.end.now
            && if AllAccepted(s.refused, old(s.attempts), |plan.log|) then r == plan.verdict && s.Ahead() == plan.end
               else r == Err(Io)
  {
    ghost var n;
    r, n := SendLoop(s, txId, rest, bs, stMinMs, opts);
    ghost var frames, m := CfFrames(txId, rest, opts.padding), Allowed(NumCf(|rest|), bs);
    ghost var gap := stMinMs * NANOS_PER_MS;
    ghost var log := Paced(frames, m, old(s.clock), gap);
    PacedPrefix(frames, n, m, old(s.clock), gap);
    if n < m {
      PausesGrow(n, m - 1, gap);
      CarriedUpTo(s.refused, old(s.Out()), log, n);
    } else {
      CarriedAll(s.refused, old(s.Out()), log);
    }
  }

  // ---------------------------------------------------------------- the whole exchange

  /** A first frame, the wait for flow control, and the consecutive frames it grants. */
  method SendSegmented(s: Socket, txId: CanId, rxId: CanId, deadline: nat, first: Frame, rest: seq<byte>, opts: Options)
    returns (r: Result<(), Error>)
    modifies s
    ensures var plan := SegmentedPlan(old(s.Ahead()), s.For(rxId, deadline), opts.maxWaits, first,
                                      CfFrames(txId, rest, opts.padding));
            && s.Out() == Carried(s.refused, old(s.Out()), plan.log)
            && s.clock <= plan.end.now
            && if AllAccepted(s.refused, old(s.attempts), |plan.log|) then r == plan.verdict && s.Ahead() == plan.end
               else r == Err(Io)
  {
    ghost var ear, opening := s.For(rxId, deadline), [Sent(first, s.clock)];
    AfterBound(s.Ahead(), ear, FcTakes(0, Arrivals(s.Ahead(), ear), opts.maxWaits));
    CarriedOne(s.refused, s.Out(), opening[0]);
    ghost var decided := AfterFc(s.Ahead(), ear, opts.maxWaits);
    ghost var granted := AwaitFc(0, Arrivals(s.Ahead(), ear), opts.maxWaits);
    if granted.Ok? {
      ghost var block := BlockPlan(decided, granted.value, CfFrames(txId, rest, opts.padding)).log;
      CarriedThen(s.refused, s.Out(), opening, block);
      AcceptedThen(s.refused, s.attempts, 1, |block|);
    }
    r := s.Send(first);
    if r.Err? {
      return;
    }
    var grant := WaitForFc(s, rxId, deadline, opts);
    if grant.Err? {
      return Err(grant.error);
    }
    r := SendConsecutiveFrames(s, txId, rest, grant.value.bs, grant.value.st, opts);
  }

  /** The request phase: a single frame, or all of the above. */
  method SendRequest(s: Socket, txId: CanId, rxId: CanId, deadline: nat, opening: Frame, payload: seq<byte>,
                     opts: Options)
    returns (r: Result<(), Error>)
    requires |payload| <= MAX_FF_LENGTH
    modifies s
    ensures var plan := SendPlan(old(s.Ahead()), s.For(rxId, deadline), txId, opening, payload, opts);
            && s.Out() == Carried(s.refused, old(s.Out()), plan.log)
            && s.clock <= plan.end.now
            && if AllAccepted(s.refused, old(s.attempts), |plan.log|) then r == plan.verdict && s.Ahead() == plan.end
               else r == Err(Io)
  {
    if |payload| <= SF_MAX_LEN {
      CarriedOne(s.refused, s.Out(), Sent(opening, s.clock));
      r := s.Send(opening);
    } else {
      r := SendSegmented(s, txId, rxId, deadline, opening, Rest(payload), opts);
    }
  }

  /** Both phases, with any opening frame. */
  method Transact(s: Socket, txId: CanId, rxId: CanId, deadline: nat, opening: Frame, payload: seq<byte>, opts: Options)
    returns (r: Result<seq<byte>, Error>)
    requires |payload| <= MAX_FF_LENGTH
    modifies s
    ensures var ear := s.For(rxId, deadline);
            var sending := SendPlan(old(s.Ahead()), ear, txId, opening, payload, opts);
            var plan := Then(sending, ResponsePlan(sending.end, ear, FcFrame(txId, opts)));
            && s.Out() == Carried(s.refused, old(s.Out()), plan.log)
            && s.clock <= plan.end.now
            && if AllAccepted(s.refused, old(s.attempts), |plan.log|) then r == plan.verdict && s.Ahead() == plan.end
               else r == Err(Io)
  {
    ghost var ear, fc := s.For(rxId, deadline), FcFrame(txId, opts);
    ghost var sending := SendPlan(s.Ahead(), ear, txId, opening, payload, opts);
    ghost var response := ResponsePlan(sending.end, ear, fc);
    CarriedThen(s.refused, s.Out(), sending.log, response.log);
    AcceptedThen(s.refused, s.attempts, |sending.log|, |response.log|);
    AfterBound(sending.end, ear, RxTakes(RxFirst, Arrivals(sending.end, ear)));
    var phase1 := SendRequest(s, txId, rxId, deadline, opening, payload, opts);
    if phase1.Err? {
      return Err(phase1.error);
    }
    CarriedCount(s.refused, old(s.Out()), sending.log);
    r := ReceiveResponse(s, txId, rxId, deadline, opts);
  }

  /** `request`: what RequestPlan says of the future it finds, up to the first refused send. */
  method Request(s: Socket, txId: CanId, rxId: CanId, payload: seq<byte>, opts: Options)
    returns (r: Result<seq<byte>, Error>)
    modifies s
    ensures var ear := s.For(rxId, old(s.clock) + opts.timeout);
            var plan := RequestPlan(old(s.Ahead()), ear, txId, payload, opts);
            && s.Out() == Carried(s.refused, old(s.Out()), plan.log)
            && s.clock <= plan.end.now
            && if AllAccepted(s.refused, old(s.attempts), |plan.log|) then r == plan.verdict && s.Ahead() == plan.end
               else r == Err(Io)
  {
    if |payload| == 0 {
      return Err(InvalidInput);
    }
    if |payload| > MAX_FF_LENGTH {
      return Err(InvalidInput);
    }
    var deadline := s.clock + opts.timeout;
    r := Transact(s, txId, rxId, deadline, OpeningFrame(txId, payload, opts.padding), payload, opts);
  }
}
