/** What a request does, case by case, said of the frames heard and sent (mcanbus/src/isotp.rs:113-156).

  IsoTpEndpoint.Request is proved to follow IsoTpPlan.RequestPlan.  The lemmas here say what that plan
  is for every payload and everything that can be heard: which sizes are refused, what a refusal of
  flow control leaves undone, which frames a grant lets out and when, and what answers a response.
 */
module IsoTpRequest {
  import opened Bits
  import opened Ids
  import opened Frames
  import opened IsoTp
  import opened IsoTpReassembly
  import opened IsoTpPlan

  // ---------------------------------------------------------------- what is heard

  /** The limit on Waits in effect: the largest one is none (IsoTp.AwaitFcUnlimited). */
  function Limit(maxWaits: byte, heard: seq<Arrival>): nat {
    if maxWaits == 255 then |heard| else maxWaits
  }

  /** Flow control is refused: too many Waits, none before the deadline, a failed receive, Overflow, or
      any other frame. */
  ghost predicate RefusedFor(heard: seq<Arrival>, limit: nat, e: Error) {
    var stream := WithoutEmpty(heard);
    var w := LeadingWaits(stream);
    if w > limit || w == |stream| then e == TimedOut
    else if stream[w].Fault? then e == Io
    else
      && stream[w].data != [] && stream[w].data[0] != 0x30
      && e == if stream[w].data[0] == 0x32 then Overflow else InvalidData
  }

  /** A clear-to-send comes after Waits within the limit. */
  ghost predicate GrantedBy(heard: seq<Arrival>, limit: nat, grant: Grant) {
    var stream := WithoutEmpty(heard);
    var w := LeadingWaits(stream);
    && w <= limit && w < |stream| && stream[w].Content?
    && var d := stream[w].data;
       && d != [] && d[0] == 0x30
       && grant.bs == (if |d| >= 2 then d[1] else 0)
       && grant.st == DecodeStMin(if |d| >= 3 then d[2] else 0)
  }

  lemma FcSpecByBytes(heard: seq<Arrival>, limit: nat)
    ensures forall e :: FcSpec(heard, 0, limit) == Err(e) <==> RefusedFor(heard, limit, e)
    ensures forall grant :: FcSpec(heard, 0, limit) == Ok(grant) <==> GrantedBy(heard, limit, grant)
  {
    var stream := WithoutEmpty(heard);
    WithoutEmptyHasNone(heard);
    var w := LeadingWaits(stream);
    if w < |stream| {
      assert stream[w] in stream;
    }
  }

  /** The wait for flow control, by the bytes of the frame that decides it; for every limit. */
  lemma AwaitedByBytes(heard: seq<Arrival>, maxWaits: byte)
    ensures forall e :: AwaitFc(0, heard, maxWaits) == Err(e) <==> RefusedFor(heard, Limit(maxWaits, heard), e)
    ensures forall grant ::
              AwaitFc(0, heard, maxWaits) == Ok(grant) <==> GrantedBy(heard, Limit(maxWaits, heard), grant)
  {
    if maxWaits == 255 {
      AwaitFcUnlimited(heard);
    } else {
      AwaitFcFrom(0, heard, maxWaits);
    }
    FcSpecByBytes(heard, Limit(maxWaits, heard));
  }

  /** The first arrival announces a segmented response. */
  ghost predicate Opens(heard: seq<Arrival>) {
    && heard != [] && heard[0].Content?
    && var d := heard[0].data;
       |d| >= 2 && 0x10 <= d[0] < 0x20 && (d[0] as int - 0x10) * 0x100 + d[1] as int > SF_MAX_LEN
  }

  lemma OpensIsAnswered(heard: seq<Arrival>)
    ensures WantsFc(heard) <==> Opens(heard)
  {
    if Opens(heard) {
      var d := heard[0].data;
      var total := (d[0] as int - 0x10) * 0x100 + d[1] as int;
      assert [0x10 + total / 0x100, total % 0x100] <= d by {
        assert total / 0x100 == d[0] as int - 0x10 && total % 0x100 == d[1] as int;
      }
      FirstOutcome(d, [], total, d[2..][..Min(|d| - 2, total)]);
    } else if WantsFc(heard) {
      var d := heard[0].data;
      FirstOutcome(d, [], OnFirst(d).total, OnFirst(d).out);
    }
  }

  // ---------------------------------------------------------------- what is sent

  /** The frame carries segment k of the payload to txId. */
  ghost predicate CarriesSegment(frame: Frame, txId: CanId, payload: seq<byte>, padding: byte, k: nat)
    requires 1 <= |payload| <= MAX_FF_LENGTH && k < |Segments(payload, padding)|
  {
    && frame.id == txId && frame.kind == Classic && frame.len as nat == FRAME_DLC
    && frame.Data() == Segments(payload, padding)[k]
  }

  /** The frame is our flow control: every peer reads from it the block size and the separation time
      asked for, the latter capped. */
  ghost predicate FlowControlAsAsked(frame: Frame, txId: CanId, opts: Options) {
    && frame.id == txId && frame.kind == Classic && frame.len as nat == FRAME_DLC
    && [0x30, opts.blockSize, Min(opts.stMinMs, MAX_ST_MS)] <= frame.Data()
    && PaddedFrom(frame.Data(), 3, opts.padding)
    && forall waits, maxWaits ::
         OnFlowControl(waits, frame.Data(), maxWaits) == FcClear(opts.blockSize, Min(opts.stMinMs, MAX_ST_MS))
  }

  lemma FcFrameAsAsked(txId: CanId, opts: Options)
    ensures FlowControlAsAsked(FcFrame(txId, opts), txId, opts)
  {
    UnusedIsPadding([], 0, 0, opts.blockSize, opts.stMinMs, opts.padding);
    forall waits, maxWaits
      ensures OnFlowControl(waits, FcFrame(txId, opts).Data(), maxWaits)
           == FcClear(opts.blockSize, Min(opts.stMinMs, MAX_ST_MS))
    {
      FcRoundTrip(waits, opts.blockSize, opts.stMinMs, opts.padding, maxWaits);
    }
  }

  lemma OpeningCarries(txId: CanId, payload: seq<byte>, padding: byte)
    requires 1 <= |payload| <= MAX_FF_LENGTH
    ensures |Segments(payload, padding)| > 0
    ensures CarriesSegment(OpeningFrame(txId, payload, padding), txId, payload, padding, 0)
  {
    BusCarriesSegments(txId, payload, padding);
  }

  // ---------------------------------------------------------------- receiving a response

  /** What goes out meanwhile: one flow control frame, at the moment the first frame is in, or nothing. */
  ghost predicate Answering(reply: seq<Sent>, f: Future, ear: Ear, txId: CanId, opts: Options) {
    if Opens(Arrivals(f, ear)) then
      |reply| == 1 && reply[0].at == AfterNext(f, ear).now && FlowControlAsAsked(reply[0].frame, txId, opts)
    else reply == []
  }

  /** The verdict on all that is heard from f on, and listening no longer than that takes. */
  ghost predicate Concludes(plan: Plan<seq<byte>>, f: Future, ear: Ear) {
    var heard := Arrivals(f, ear);
    plan.verdict == Verdict(Receive(RxFirst, heard)) && plan.end == After(f, ear, RxTakes(RxFirst, heard))
  }

  /** `receive_response`: its flow control frame and its verdict. */
  lemma ResponseAnswered(f: Future, ear: Ear, txId: CanId, opts: Options)
    ensures var plan := ResponsePlan(f, ear, FcFrame(txId, opts));
            Answering(plan.log, f, ear, txId, opts) && Concludes(plan, f, ear)
  {
    OpensIsAnswered(Arrivals(f, ear));
    FcFrameAsAsked(txId, opts);
  }

  // ---------------------------------------------------------------- the four cases

  /** A payload of no bytes, or of more than a length field holds: nothing happens. */
  lemma BadSizeRefused(f: Future, ear: Ear, txId: CanId, payload: seq<byte>, opts: Options)
    ensures |payload| == 0 || |payload| > 0xFFF <==>
              RequestPlan(f, ear, txId, payload, opts) == Plan([], Err(InvalidInput), f)
  {
    if 1 <= |payload| <= MAX_FF_LENGTH {
      LogStarts(f, ear, txId, payload, opts);
    }
  }

  lemma LogStarts(f: Future, ear: Ear, txId: CanId, payload: seq<byte>, opts: Options)
    requires 1 <= |payload| <= MAX_FF_LENGTH
    ensures RequestPlan(f, ear, txId, payload, opts).log != []
  {
  }

  /** Up to seven bytes: one frame, then the response. */
  lemma SingleRequest(f: Future, ear: Ear, txId: CanId, payload: seq<byte>, opts: Options)
    requires 1 <= |payload| <= SF_MAX_LEN
    ensures var plan := RequestPlan(f, ear, txId, payload, opts);
            && |Segments(payload, opts.padding)| == 1
            && plan.log != [] && plan.log[0].at == f.now
            && CarriesSegment(plan.log[0].frame, txId, payload, opts.padding, 0)
            && Answering(plan.log[1..], f, ear, txId, opts) && Concludes(plan, f, ear)
  {
    OpeningCarries(txId, payload, opts.padding);
    ResponseAnswered(f, ear, txId, opts);
    var response := ResponsePlan(f, ear, FcFrame(txId, opts));
    assert ([Sent(OpeningFrame(txId, payload, opts.padding), f.now)] + response.log)[1..] == response.log;
  }

  /** Refused flow control: the first frame is all that was sent, and the refusal is the result. */
  lemma RefusedRequest(f: Future, ear: Ear, txId: CanId, payload: seq<byte>, opts: Options, e: Error)
    requires SF_MAX_LEN < |payload| <= MAX_FF_LENGTH
    requires RefusedFor(Arrivals(f, ear), Limit(opts.maxWaits, Arrivals(f, ear)), e)
    ensures var plan := RequestPlan(f, ear, txId, payload, opts);
            && plan.verdict == Err(e)
            && |plan.log| == 1 && plan.log[0].at == f.now
            && |Segments(payload, opts.padding)| > 0
            && CarriesSegment(plan.log[0].frame, txId, payload, opts.padding, 0)
            && plan.end == After(f, ear, FcTakes(0, Arrivals(f, ear), opts.maxWaits))
  {
    AwaitedByBytes(Arrivals(f, ear), opts.maxWaits);
    OpeningCarries(txId, payload, opts.padding);
  }

  /** The consecutive frames of a payload, n of them from place 1 of the log: its segments in order,
      the i-th one i separation times after the grant was decided. */
  ghost predicate SentAsGranted(log: seq<Sent>, n: nat, decided: nat, st: nat, txId: CanId, payload: seq<byte>,
                                padding: byte)
    requires SF_MAX_LEN < |payload| <= MAX_FF_LENGTH
  {
    && n < |log| && n < |Segments(payload, padding)|
    && forall i :: 0 <= i < n ==>
         && log[1 + i].at == decided + i * (st * NANOS_PER_MS)
         && CarriesSegment(log[1 + i].frame, txId, payload, padding, 1 + i)
  }

  lemma PacedAsGranted(log: seq<Sent>, txId: CanId, payload: seq<byte>, padding: byte, n: nat, decided: nat, st: nat)
    requires SF_MAX_LEN < |payload| <= MAX_FF_LENGTH && n <= NumCf(|Rest(payload)|) && n < |log|
    requires log[1..1 + n] == Paced(CfFrames(txId, Rest(payload), padding), n, decided, st * NANOS_PER_MS)
    ensures SentAsGranted(log, n, decided, st, txId, payload, padding)
  {
    var frames := CfFrames(txId, Rest(payload), padding);
    BusCarriesSegments(txId, payload, padding);
    forall i | 0 <= i < n
      ensures log[1 + i].at == decided + i * (st * NANOS_PER_MS)
      ensures 1 + i < |Segments(payload, padding)| && CarriesSegment(log[1 + i].frame, txId, payload, padding, 1 + i)
    {
      PacedAt(frames, n, decided, st * NANOS_PER_MS, i);
      assert log[1 + i] == log[1..1 + n][i];
      assert frames[i] == CfFrame(txId, Rest(payload), i, padding);
    }
  }

  /** The future once n frames are out. */
  ghost function Later(decided: Future, n: nat, st: nat): Future {
    Future(decided.script, decided.now + if n == 0 then 0 else (n - 1) * (st * NANOS_PER_MS))
  }

  lemma SleptIs(n: nat, gap: nat)
    ensures Slept(n, gap) == if n == 0 then 0 else (n - 1) * gap
  {
    PausesAre(if n == 0 then 0 else n - 1, gap);
  }

  /** How many of `all` consecutive frames a block size lets out. */
  function LetOut(all: nat, bs: byte): nat {
    if bs == 0 || all <= bs then all else bs
  }

  /** Under a grant exactly the frames it lets out are sent, as granted... */
  lemma GrantedSending(f: Future, ear: Ear, txId: CanId, payload: seq<byte>, opts: Options, grant: Grant)
    requires SF_MAX_LEN < |payload| <= MAX_FF_LENGTH
    requires GrantedBy(Arrivals(f, ear), Limit(opts.maxWaits, Arrivals(f, ear)), grant)
    ensures var sending := SendPlan(f, ear, txId, OpeningFrame(txId, payload, opts.padding), payload, opts);
            var decided, n := AfterFc(f, ear, opts.maxWaits), LetOut(NumCf(|Rest(payload)|), grant.bs);
            && |sending.log| == 1 + n
            && sending.log[0] == Sent(OpeningFrame(txId, payload, opts.padding), f.now)
            && sending.log[1..] ==
               Paced(CfFrames(txId, Rest(payload), opts.padding), n, decided.now, grant.st * NANOS_PER_MS)
            && sending.end == Later(decided, n, grant.st)
            && sending.verdict == if n == NumCf(|Rest(payload)|) then Ok(()) else Err(Unsupported)
  {
    AwaitedByBytes(Arrivals(f, ear), opts.maxWaits);
    SleptIs(LetOut(NumCf(|Rest(payload)|), grant.bs), grant.st * NANOS_PER_MS);
  }

  /** What follows: nothing if the block size stopped the sending, else the response, heard from when
      the last frame is out. */
  ghost predicate Follows(plan: Plan<seq<byte>>, rest: seq<Sent>, n: nat, all: nat, sent: Future, ear: Ear, txId: CanId,
                          opts: Options) {
    if n < all then rest == [] && plan.verdict == Err(Unsupported) && plan.end == sent
    else Answering(rest, sent, ear, txId, opts) && Concludes(plan, sent, ear)
  }

  lemma SendingThenResponse(f: Future, ear: Ear, txId: CanId, payload: seq<byte>, opts: Options, n: nat)
    requires SF_MAX_LEN < |payload| <= MAX_FF_LENGTH
    requires var sending := SendPlan(f, ear, txId, OpeningFrame(txId, payload, opts.padding), payload, opts);
             && |sending.log| == 1 + n && n <= NumCf(|Rest(payload)|)
             && sending.verdict == if n == NumCf(|Rest(payload)|) then Ok(()) else Err(Unsupported)
    ensures var sending := SendPlan(f, ear, txId, OpeningFrame(txId, payload, opts.padding), payload, opts);
            var plan := RequestPlan(f, ear, txId, payload, opts);
            && 1 + n <= |plan.log| && plan.log[..1 + n] == sending.log
            && Follows(plan, plan.log[1 + n..], n, NumCf(|Rest(payload)|), sending.end, ear, txId, opts)
  {
    var sending := SendPlan(f, ear, txId, OpeningFrame(txId, payload, opts.padding), payload, opts);
    ResponseAnswered(sending.end, ear, txId, opts);
    var response := ResponsePlan(sending.end, ear, FcFrame(txId, opts));
    assert (sending.log + response.log)[1 + n..] == response.log;
  }

  /** ...and so for the whole request: the first frame at once; once the grant is decided, the segments in
      order and exactly the granted separation time apart, as many as the block size lets out; then the
      response, or Unsupported if that was not all. */
  lemma GrantedRequest(f: Future, ear: Ear, txId: CanId, payload: seq<byte>, opts: Options, grant: Grant)
    requires SF_MAX_LEN < |payload| <= MAX_FF_LENGTH
    requires GrantedBy(Arrivals(f, ear), Limit(opts.maxWaits, Arrivals(f, ear)), grant)
    ensures var plan := RequestPlan(f, ear, txId, payload, opts);
            var all := NumCf(|Rest(payload)|);
            var decided, n := After(f, ear, FcTakes(0, Arrivals(f, ear), opts.maxWaits)), LetOut(all, grant.bs);
            && |Segments(payload, opts.padding)| == 1 + all && 1 + n <= |plan.log|
            && plan.log[0].at == f.now && CarriesSegment(plan.log[0].frame, txId, payload, opts.padding, 0)
            && SentAsGranted(plan.log, n, decided.now, grant.st, txId, payload, opts.padding)
            && Follows(plan, plan.log[1 + n..], n, all, Later(decided, n, grant.st), ear, txId, opts)
  {
    var plan := RequestPlan(f, ear, txId, payload, opts);
    var decided, n := AfterFc(f, ear, opts.maxWaits), LetOut(NumCf(|Rest(payload)|), grant.bs);
    GrantedSending(f, ear, txId, payload, opts, grant);
    SendingThenResponse(f, ear, txId, payload, opts, n);
    OpeningCarries(txId, payload, opts.padding);
    BusCarriesSegments(txId, payload, opts.padding);
    assert plan.log[1..1 + n] == plan.log[..1 + n][1..];
    assert plan.log[0] == plan.log[..1 + n][0];
    PacedAsGranted(plan.log, txId, payload, opts.padding, n, decided.now, grant.st);
  }
}
