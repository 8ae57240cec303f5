/** What an ISO-TP endpoint does with what is ahead of it (mcanbus/src/isotp.rs:113-412).

  A socket's future is a script: what each coming receive brings and how long it takes.  Sends are
  free but may be refused, sleeps exact, and a receive with nothing left to hear runs into the
  receive timeout.  The functions here say which frames an endpoint then sends, at which times, and
  with what result; IsoTpEndpoint has the loops that do it.
 */
module IsoTpPlan {
  import opened Bits
  import opened Ids
  import opened Frames
  import opened IsoTp
  import opened IsoTpReassembly

  const NANOS_PER_MS: nat := 1_000_000

  type pos = n: int | 0 < n witness 1

  datatype RxOutcome = Got(frame: ReadableFrame) | Nothing | Broken
  datatype Rx = Rx(outcome: RxOutcome, took: nat)

  // ---------------------------------------------------------------- listening

  datatype Future = Future(script: seq<Rx>, now: nat) {
    /** After one receive. */
    function Next(wait: pos): Future {
      if script == [] then Future([], now + wait) else Future(script[1..], now + script[0].took)
    }
  }

  /** Whom an endpoint listens to, until when, and how long a receive waits for anything at all. */
  datatype Ear = Ear(id: CanId, deadline: nat, wait: pos) {
    /** The endpoint takes notice of this receive. */
    predicate Notices(rx: Rx) {
      rx.outcome.Broken? || (rx.outcome.Got? && rx.outcome.frame.id == id)
    }

    function Hears(rx: Rx): Arrival
      requires Notices(rx)
    {
      if rx.outcome.Broken? then Fault else Content(rx.outcome.frame.Data())
    }
  }

  /** What the receives started before the deadline bring. */
  ghost function Arrivals(f: Future, ear: Ear): seq<Arrival>
    decreases |f.script|
  {
    if f.script == [] || f.now >= ear.deadline then []
    else
      var later := Arrivals(f.Next(ear.wait), ear);
      if ear.Notices(f.script[0]) then [ear.Hears(f.script[0])] + later else later
  }

  /** What is ahead after the next arrival, or after the deadline. */
  ghost function AfterNext(f: Future, ear: Ear): Future
    decreases |f.script|, if f.now < ear.deadline then ear.deadline - f.now else 0
  {
    if f.now >= ear.deadline then f
    else if f.script != [] && ear.Notices(f.script[0]) then f.Next(ear.wait)
    else AfterNext(f.Next(ear.wait), ear)
  }

  /** What is ahead after k of them. */
  ghost function After(f: Future, ear: Ear, k: nat): Future
    decreases k
  {
    if k == 0 then f else After(AfterNext(f, ear), ear, k - 1)
  }

  /** No receive takes longer than the receive timeout. */
  ghost predicate Prompt(f: Future, wait: pos) {
    forall r :: r in f.script ==> r.took <= wait
  }

  lemma {:induction false} AfterNextBound(f: Future, ear: Ear)
    ensures f.now <= AfterNext(f, ear).now
    ensures Prompt(f, ear.wait) ==>
              Prompt(AfterNext(f, ear), ear.wait)
              && (AfterNext(f, ear).now == f.now || AfterNext(f, ear).now < ear.deadline + ear.wait)
    decreases |f.script|, if f.now < ear.deadline then ear.deadline - f.now else 0
  {
    if f.now < ear.deadline {
      assert f.script != [] ==> f.script[0] in f.script;
      if !(f.script != [] && ear.Notices(f.script[0])) {
        AfterNextBound(f.Next(ear.wait), ear);
      }
    }
  }

  /** Listening ends within one receive timeout of the deadline. */
  lemma {:induction false} AfterBound(f: Future, ear: Ear, k: nat)
    ensures f.now <= After(f, ear, k).now
    ensures Prompt(f, ear.wait) ==>
              Prompt(After(f, ear, k), ear.wait)
              && (After(f, ear, k).now == f.now || After(f, ear, k).now < ear.deadline + ear.wait)
    decreases k
  {
    if k > 0 {
      AfterNextBound(f, ear);
      AfterBound(AfterNext(f, ear), ear, k - 1);
    }
  }

  /** With nothing to take notice of, listening goes on until the deadline. */
  lemma {:induction false} DeadlineReached(f: Future, ear: Ear)
    requires Arrivals(f, ear) == []
    ensures AfterNext(f, ear).now >= ear.deadline
    decreases |f.script|, if f.now < ear.deadline then ear.deadline - f.now else 0
  {
    if f.now < ear.deadline {
      DeadlineReached(f.Next(ear.wait), ear);
    }
  }

  // ---------------------------------------------------------------- frames to send

  datatype Sent = Sent(frame: Frame, at: nat)

  function Classic8(id: CanId, d: seq<byte>): Frame
    requires |d| == FRAME_DLC
  {
    NewClassic(id, d).value
  }

  function FcFrame(txId: CanId, opts: Options): Frame {
    Classic8(txId, EncodeFc(0, opts.blockSize, opts.stMinMs, opts.padding))
  }

  /** The first frame `request` sends. */
  function OpeningFrame(txId: CanId, payload: seq<byte>, padding: byte): Frame
    requires 1 <= |payload| <= MAX_FF_LENGTH
  {
    Classic8(txId, if |payload| <= SF_MAX_LEN then EncodeSf(payload, padding) else FfData(payload, padding))
  }

  function CfFrame(txId: CanId, rest: seq<byte>, i: nat, padding: byte): Frame
    requires i < NumCf(|rest|)
  {
    Classic8(txId, CfData(rest, i, padding))
  }

  /** The consecutive frames for the bytes after the first frame. */
  function CfFrames(txId: CanId, rest: seq<byte>, padding: byte): (frames: seq<Frame>)
    ensures |frames| == NumCf(|rest|)
  {
    seq(NumCf(|rest|), i requires 0 <= i < NumCf(|rest|) => CfFrame(txId, rest, i, padding))
  }

  /** What the send path puts on the bus for a payload is its segments. */
  lemma BusCarriesSegments(txId: CanId, payload: seq<byte>, padding: byte)
    requires 1 <= |payload| <= MAX_FF_LENGTH
    ensures Segments(payload, padding)[0] == OpeningFrame(txId, payload, padding).Data()
    ensures |payload| <= SF_MAX_LEN ==> |Segments(payload, padding)| == 1
    ensures |payload| > SF_MAX_LEN ==>
              var frames := CfFrames(txId, Rest(payload), padding);
              && |Segments(payload, padding)| == 1 + |frames|
              && forall i :: 0 <= i < |frames| ==> frames[i].Data() == Segments(payload, padding)[1 + i]
  {
  }

  // ---------------------------------------------------------------- pacing

  /** n gaps. */
  ghost function Pauses(n: nat, gap: nat): nat {
    if n == 0 then 0 else Pauses(n - 1, gap) + gap
  }

  lemma {:induction false} PausesAre(n: nat, gap: nat)
    ensures Pauses(n, gap) == n * gap
  {
    if n > 0 {
      PausesAre(n - 1, gap);
    }
  }

  lemma {:induction false} PausesGrow(n: nat, m: nat, gap: nat)
    requires n <= m
    ensures Pauses(n, gap) <= Pauses(m, gap)
    decreases m - n
  {
    if n < m {
      PausesGrow(n, m - 1, gap);
    }
  }

  /** Time slept while n frames go out: none after the last. */
  ghost function Slept(n: nat, gap: nat): nat {
    Pauses(if n == 0 then 0 else n - 1, gap)
  }

  /** The first n frames on the bus, `gap` apart. */
  ghost function Paced(frames: seq<Frame>, n: nat, start: nat, gap: nat): (l: seq<Sent>)
    requires n <= |frames|
    ensures |l| == n
  {
    if n == 0 then []
    else Paced(frames, n - 1, start, gap) + [Sent(frames[n - 1], start + Pauses(n - 1, gap))]
  }

  lemma {:induction false} PacedPrefix(frames: seq<Frame>, n: nat, m: nat, start: nat, gap: nat)
    requires n <= m <= |frames|
    ensures Paced(frames, m, start, gap)[..n] == Paced(frames, n, start, gap)
    decreases m - n
  {
    if n < m {
      PacedPrefix(frames, n, m - 1, start, gap);
    }
  }

  /** Each of them and its time. */
  lemma {:induction false} PacedAt(frames: seq<Frame>, n: nat, start: nat, gap: nat, i: nat)
    requires i < n <= |frames|
    ensures Paced(frames, n, start, gap)[i] == Sent(frames[i], start + i * gap)
  {
    if i < n - 1 {
      PacedAt(frames, n - 1, start, gap, i);
    } else {
      PausesAre(i, gap);
    }
  }

  /** Any two of them are exactly their distance in gaps apart. */
  lemma SeparationKept(frames: seq<Frame>, n: nat, start: nat, gap: nat, i: nat, j: nat)
    requires i < j < n <= |frames|
    ensures Paced(frames, n, start, gap)[j].at - Paced(frames, n, start, gap)[i].at == (j - i) * gap
  {
    PacedAt(frames, n, start, gap, i);
    PacedAt(frames, n, start, gap, j);
  }

  // ---------------------------------------------------------------- sends the kernel refuses

  /** Sends tried so far, and what went on the bus. */
  datatype Outbox = Outbox(attempts: nat, log: seq<Sent>)

  ghost predicate AllAccepted(refused: iset<nat>, from: nat, n: nat) {
    forall m: nat :: from <= m < from + n ==> m !in refused
  }

  /** The outbox of a sender that gives up at the first refusal. */
  ghost function Carried(refused: iset<nat>, box: Outbox, todo: seq<Sent>): Outbox
    decreases |todo|
  {
    if todo == [] then box
    else if box.attempts in refused then Outbox(box.attempts + 1, box.log)
    else Carried(refused, Outbox(box.attempts + 1, box.log + [todo[0]]), todo[1..])
  }

  /** A single thing to send, or none. */
  lemma CarriedOne(refused: iset<nat>, box: Outbox, x: Sent)
    ensures Carried(refused, box, []) == box
    ensures Carried(refused, box, [x]) ==
            Outbox(box.attempts + 1, if box.attempts in refused then box.log else box.log + [x])
  {
  }

  /** With nothing refused everything goes out... */
  lemma {:induction false} CarriedAll(refused: iset<nat>, box: Outbox, todo: seq<Sent>)
    requires AllAccepted(refused, box.attempts, |todo|)
    ensures Carried(refused, box, todo) == Outbox(box.attempts + |todo|, box.log + todo)
    decreases |todo|
  {
    if todo != [] {
      CarriedAll(refused, Outbox(box.attempts + 1, box.log + [todo[0]]), todo[1..]);
      assert box.log + [todo[0]] + todo[1..] == box.log + todo;
    }
  }

  lemma CarriedCount(refused: iset<nat>, box: Outbox, todo: seq<Sent>)
    requires AllAccepted(refused, box.attempts, |todo|)
    ensures Carried(refused, box, todo).attempts == box.attempts + |todo|
  {
    CarriedAll(refused, box, todo);
  }

  /** ...otherwise exactly what comes before the first refusal. */
  lemma {:induction false} CarriedUpTo(refused: iset<nat>, box: Outbox, todo: seq<Sent>, n: nat)
    requires n < |todo| && AllAccepted(refused, box.attempts, n) && box.attempts + n in refused
    ensures Carried(refused, box, todo) == Outbox(box.attempts + n + 1, box.log + todo[..n])
    ensures !AllAccepted(refused, box.attempts, |todo|)
    decreases |todo|
  {
    if n > 0 {
      CarriedUpTo(refused, Outbox(box.attempts + 1, box.log + [todo[0]]), todo[1..], n - 1);
      assert box.log + [todo[0]] + todo[1..][..n - 1] == box.log + todo[..n];
    } else {
      assert box.log + todo[..0] == box.log;
    }
  }

  /** One thing to send after another. */
  lemma {:induction false} CarriedThen(refused: iset<nat>, box: Outbox, first: seq<Sent>, later: seq<Sent>)
    ensures Carried(refused, box, first + later) ==
            if AllAccepted(refused, box.attempts, |first|) then Carried(refused, Carried(refused, box, first), later)
            else Carried(refused, box, first)
    decreases |first|
  {
    if first == [] {
      assert first + later == later;
    } else if box.attempts !in refused {
      assert (first + later)[1..] == first[1..] + later;
      CarriedThen(refused, Outbox(box.attempts + 1, box.log + [first[0]]), first[1..], later);
      assert AllAccepted(refused, box.attempts, |first|)
        <==> AllAccepted(refused, box.attempts + 1, |first| - 1);
    }
  }

  lemma AcceptedThen(refused: iset<nat>, from: nat, a: nat, b: nat)
    ensures AllAccepted(refused, from, a + b)
            <==> AllAccepted(refused, from, a) && AllAccepted(refused, from + a, b)
  {
  }

  // ---------------------------------------------------------------- what is done when nothing is refused

  /** What goes out, what comes of it, and what is ahead then. */
  datatype Plan<T> = Plan(log: seq<Sent>, verdict: Result<T, Error>, end: Future)

  /** Whether the first arrival makes the receiver answer with flow control. */
  ghost predicate WantsFc(arrivals: seq<Arrival>) {
    arrivals != [] && arrivals[0].Content? && OnFirst(arrivals[0].data).RxReply?
  }

  ghost function ResponsePlan(f: Future, ear: Ear, fc: Frame): Plan<seq<byte>> {
    var heard := Arrivals(f, ear);
    Plan(if WantsFc(heard) then [Sent(fc, AfterNext(f, ear).now)] else [],
         Verdict(Receive(RxFirst, heard)),
         After(f, ear, RxTakes(RxFirst, heard)))
  }

  /** It is decided by the first arrival, up to a first frame's answer and what follows it. */
  lemma ResponseTo(f: Future, ear: Ear, fc: Frame, d: seq<byte>)
    requires Arrivals(f, ear) == [Content(d)] + Arrivals(AfterNext(f, ear), ear)
    ensures var next := AfterNext(f, ear);
            ResponsePlan(f, ear, fc) ==
            if OnFirst(d).Terminal() then Plan([], Verdict(OnFirst(d)), next)
            else Plan([Sent(fc, next.now)],
                      Verdict(Receive(OnFirst(d), Arrivals(next, ear))),
                      After(next, ear, RxTakes(OnFirst(d), Arrivals(next, ear))))
  {
    var heard := Arrivals(f, ear);
    ReceiveNext(RxFirst, heard);
    assert heard[1..] == Arrivals(AfterNext(f, ear), ear);
    assert RxTakes(RxFirst, heard) == 1 + RxTakes(OnFirst(d), heard[1..]);
  }

  /** What becomes of sending `all` consecutive frames under a grant. */
  function SendVerdict(all: nat, bs: byte): Result<(), Error> {
    if bs == 0 || all <= bs then Ok(()) else Err(Unsupported)
  }

  /** Consecutive frames under a grant. */
  ghost function BlockPlan(f: Future, grant: Grant, frames: seq<Frame>): Plan<()> {
    var n, gap := Allowed(|frames|, grant.bs), grant.st * NANOS_PER_MS;
    Plan(Paced(frames, n, f.now, gap), SendVerdict(|frames|, grant.bs), Future(f.script, f.now + Slept(n, gap)))
  }

  /** What is ahead once flow control is decided. */
  ghost function AfterFc(f: Future, ear: Ear, maxWaits: byte): Future {
    After(f, ear, FcTakes(0, Arrivals(f, ear), maxWaits))
  }

  /** A first frame, the wait for a grant, and what it lets out. */
  ghost function SegmentedPlan(f: Future, ear: Ear, maxWaits: byte, first: Frame, frames: seq<Frame>): Plan<()> {
    match AwaitFc(0, Arrivals(f, ear), maxWaits)
    case Err(e) => Plan([Sent(first, f.now)], Err(e), AfterFc(f, ear, maxWaits))
    case Ok(grant) =>
      var block := BlockPlan(AfterFc(f, ear, maxWaits), grant, frames);
      block.(log := [Sent(first, f.now)] + block.log)
  }

  /** A single frame, or a segmented payload. */
  ghost function SendPlan(f: Future, ear: Ear, txId: CanId, opening: Frame, payload: seq<byte>, opts: Options)
    : Plan<()>
  {
    if |payload| <= SF_MAX_LEN then Plan([Sent(opening, f.now)], Ok(()), f)
    else SegmentedPlan(f, ear, opts.maxWaits, opening, CfFrames(txId, Rest(payload), opts.padding))
  }

  /** One thing after another, unless the first fails. */
  ghost function Then(sending: Plan<()>, response: Plan<seq<byte>>): Plan<seq<byte>> {
    match sending.verdict
    case Err(e) => Plan(sending.log, Err(e), sending.end)
    case Ok(_) => response.(log := sending.log + response.log)
  }

  ghost function RequestPlan(f: Future, ear: Ear, txId: CanId, payload: seq<byte>, opts: Options): Plan<seq<byte>> {
    if |payload| == 0 || |payload| > MAX_FF_LENGTH then Plan([], Err(InvalidInput), f)
    else
      var sending := SendPlan(f, ear, txId, OpeningFrame(txId, payload, opts.padding), payload, opts);
      Then(sending, ResponsePlan(sending.end, ear, FcFrame(txId, opts)))
  }

  // ---------------------------------------------------------------- how long it takes

  /** The most `request` can sleep between consecutive frames: nothing for a single frame. */
  ghost function Pacing(payload: seq<byte>, granted: Result<Grant, Error>): nat {
    if |payload| <= SF_MAX_LEN || granted.Err? then 0
    else Slept(NumCf(|payload| - FF_FIRST_PAYLOAD), granted.value.st * NANOS_PER_MS)
  }

  lemma SleptAtMost(n: nat, m: nat, gap: nat)
    requires n <= m
    ensures Slept(n, gap) <= Slept(m, gap)
  {
    if 0 < n {
      PausesGrow(n - 1, m - 1, gap);
    }
  }

  /** That is at most 584 gaps of 127 milliseconds. */
  lemma PacingBound(payload: seq<byte>, arrivals: seq<Arrival>, maxWaits: byte)
    requires |payload| <= MAX_FF_LENGTH
    ensures Pacing(payload, AwaitFc(0, arrivals, maxWaits)) <= 584 * 127 * NANOS_PER_MS
  {
    var granted := AwaitFc(0, arrivals, maxWaits);
    if |payload| > SF_MAX_LEN && granted.Ok? {
      var n, gap := NumCf(|payload| - FF_FIRST_PAYLOAD), granted.value.st * NANOS_PER_MS;
      PausesAre(n - 1, gap);
      Product(n - 1, 584, gap);
    }
  }

  lemma Product(a: nat, b: nat, c: nat)
    requires a <= b
    ensures a * c <= b * c
  {
  }

  lemma SendTime(f: Future, ear: Ear, txId: CanId, opening: Frame, payload: seq<byte>, opts: Options)
    requires Prompt(f, ear.wait) && f.now <= ear.deadline
    ensures var end := SendPlan(f, ear, txId, opening, payload, opts).end;
            && f.now <= end.now && Prompt(end, ear.wait)
            && end.now <= ear.deadline + ear.wait + Pacing(payload, AwaitFc(0, Arrivals(f, ear), opts.maxWaits))
  {
    AfterBound(f, ear, FcTakes(0, Arrivals(f, ear), opts.maxWaits));
    var granted := AwaitFc(0, Arrivals(f, ear), opts.maxWaits);
    if |payload| > SF_MAX_LEN && granted.Ok? {
      var all := NumCf(|Rest(payload)|);
      SleptAtMost(Allowed(all, granted.value.bs), all, granted.value.st * NANOS_PER_MS);
    }
  }

  /** `request` takes no longer than its timeout, one receive timeout and the pacing. */
  lemma RequestTime(f: Future, ear: Ear, txId: CanId, payload: seq<byte>, opts: Options)
    requires Prompt(f, ear.wait) && ear.deadline == f.now + opts.timeout && |payload| <= MAX_FF_LENGTH
    ensures RequestPlan(f, ear, txId, payload, opts).end.now <=
            f.now + opts.timeout + ear.wait + Pacing(payload, AwaitFc(0, Arrivals(f, ear), opts.maxWaits))
  {
    if payload != [] {
      var opening := OpeningFrame(txId, payload, opts.padding);
      SendTime(f, ear, txId, opening, payload, opts);
      var began := SendPlan(f, ear, txId, opening, payload, opts).end;
      AfterBound(began, ear, RxTakes(RxFirst, Arrivals(began, ear)));
    }
  }

  // ---------------------------------------------------------------- among other traffic

  /** What the receives bring from id, in order, failures included. */
  ghost function HeardFrom(script: seq<Rx>, id: CanId): seq<Arrival> {
    if script == [] then []
    else
      var later := HeardFrom(script[1..], id);
      match script[0].outcome
      case Nothing => later
      case Broken => [Fault] + later
      case Got(frame) => if frame.id == id then [Content(frame.Data())] + later else later
  }

  /** Every receive starts before the deadline. */
  ghost predicate InTime(script: seq<Rx>, now: nat, deadline: nat) {
    script != [] ==> now < deadline && InTime(script[1..], now + script[0].took, deadline)
  }

  ghost function Elapsed(script: seq<Rx>): nat {
    if script == [] then 0 else script[0].took + Elapsed(script[1..])
  }

  lemma {:induction false} OthersIgnored(script: seq<Rx>, later: seq<Rx>, now: nat, ear: Ear)
    requires InTime(script, now, ear.deadline)
    ensures HeardFrom(script, ear.id) <= Arrivals(Future(script + later, now), ear)
    ensures later == [] || now + Elapsed(script) >= ear.deadline ==>
              Arrivals(Future(script + later, now), ear) == HeardFrom(script, ear.id)
  {
    if script != [] {
      assert (script + later)[1..] == script[1..] + later;
      OthersIgnored(script[1..], later, now + script[0].took, ear);
    } else {
      assert script + later == later;
    }
  }

  /** Exactly what is listened to: the receives that start before the deadline, and of those what comes
      from id or fails. */
  lemma {:induction false} ListensUntilDeadline(f: Future, ear: Ear) returns (n: nat)
    ensures n <= |f.script| && InTime(f.script[..n], f.now, ear.deadline)
    ensures n == |f.script| || f.now + Elapsed(f.script[..n]) >= ear.deadline
    ensures Arrivals(f, ear) == HeardFrom(f.script[..n], ear.id)
    decreases |f.script|
  {
    if f.script == [] || f.now >= ear.deadline {
      n := 0;
    } else {
      var later := ListensUntilDeadline(Future(f.script[1..], f.now + f.script[0].took), ear);
      n := 1 + later;
      assert f.script[..n][1..] == f.script[1..][..later];
    }
  }

  /** Once the last of some arrivals is taken, what follows it is ahead. */
  lemma {:induction false} AfterHeard(script: seq<Rx>, later: seq<Rx>, now: nat, ear: Ear)
    requires InTime(script, now, ear.deadline)
    requires script != [] ==> ear.Notices(script[|script| - 1])
    ensures After(Future(script + later, now), ear, |HeardFrom(script, ear.id)|) == Future(later, now + Elapsed(script))
    ensures script != [] ==> HeardFrom(script, ear.id) != []
  {
    if script == [] {
      assert script + later == later;
    } else {
      assert (script + later)[1..] == script[1..] + later;
      AfterHeard(script[1..], later, now + script[0].took, ear);
      if !ear.Notices(script[0]) {
        assert AfterNext(Future(script + later, now), ear)
            == AfterNext(Future(script[1..] + later, now + script[0].took), ear);
      }
    }
  }

  /** Round trip: the frames of any payload, with any padding, received in time among frames of other
      ids and empty receives, make the response that payload. */
  lemma ResponseAmongOthers(script: seq<Rx>, later: seq<Rx>, now: nat, ear: Ear, payload: seq<byte>, padding: byte)
    requires 1 <= |payload| <= MAX_FF_LENGTH
    requires InTime(script, now, ear.deadline) && HeardFrom(script, ear.id) == Datas(Segments(payload, padding))
    ensures Verdict(Receive(RxFirst, Arrivals(Future(script + later, now), ear))) == Ok(payload)
  {
    OthersIgnored(script, later, now, ear);
    var heard, ds := Arrivals(Future(script + later, now), ear), Segments(payload, padding);
    assert heard == Datas(ds) + heard[|ds|..];
    RoundTrip(payload, padding, heard[|ds|..]);
  }

  /** What decides a grant decides it whatever follows. */
  lemma {:induction false} GrantStands(waits: byte, heard: seq<Arrival>, later: seq<Arrival>, maxWaits: byte)
    requires AwaitFc(waits, heard, maxWaits).Ok?
    ensures AwaitFc(waits, heard + later, maxWaits) == AwaitFc(waits, heard, maxWaits)
    ensures FcTakes(waits, heard + later, maxWaits) == FcTakes(waits, heard, maxWaits)
    decreases |heard|
  {
    assert (heard + later)[1..] == heard[1..] + later;
    match OnFlowControl(waits, heard[0].data, maxWaits)
    case FcAgain(more) => GrantStands(more, heard[1..], later, maxWaits);
    case _ =>
  }

  /** A clear-to-send after Waits within the limit grants what it says. */
  lemma {:induction false} GrantAfterWaits(waits: byte, heard: seq<Arrival>, bs: byte, st: byte, padding: byte,
                                           maxWaits: byte)
    requires heard != [] && waits as int + |heard| - 1 <= maxWaits as int
    requires forall i :: 0 <= i < |heard| - 1 ==> IsWait(heard[i])
    requires heard[|heard| - 1] == Content(EncodeFc(0, bs, st, padding))
    ensures AwaitFc(waits, heard, maxWaits) == Ok(Grant(bs, Min(st, MAX_ST_MS)))
    ensures FcTakes(waits, heard, maxWaits) == |heard|
    decreases |heard|
  {
    if |heard| > 1 {
      assert IsWait(heard[0]);
      GrantAfterWaits(waits + 1, heard[1..], bs, st, padding, maxWaits);
    } else {
      FcRoundTrip(waits, bs, st, padding, maxWaits);
    }
  }

  /** The receives of `script` end with the frame that decides the grant. */
  ghost predicate Grants(script: seq<Rx>, ear: Ear, grant: Grant, maxWaits: byte) {
    var heard := HeardFrom(script, ear.id);
    && script != [] && ear.Notices(script[|script| - 1])
    && AwaitFc(0, heard, maxWaits) == Ok(grant) && FcTakes(0, heard, maxWaits) == |heard|
  }

  lemma GrantTaken(script: seq<Rx>, later: seq<Rx>, now: nat, ear: Ear, grant: Grant, maxWaits: byte)
    requires InTime(script, now, ear.deadline) && Grants(script, ear, grant, maxWaits)
    ensures AwaitFc(0, Arrivals(Future(script + later, now), ear), maxWaits) == Ok(grant)
    ensures AfterFc(Future(script + later, now), ear, maxWaits) == Future(later, now + Elapsed(script))
  {
    OthersIgnored(script, later, now, ear);
    AfterHeard(script, later, now, ear);
    var heard, all := HeardFrom(script, ear.id), Arrivals(Future(script + later, now), ear);
    assert all == heard + all[|heard|..];
    GrantStands(0, heard, all[|heard|..], maxWaits);
  }

  /** A single frame answered in time is answered. */
  lemma SingleAnswered(answer: seq<Rx>, later: seq<Rx>, now: nat, ear: Ear, txId: CanId, payload: seq<byte>,
                       opts: Options, response: seq<byte>, padding: byte)
    requires 1 <= |payload| <= SF_MAX_LEN && 1 <= |response| <= MAX_FF_LENGTH
    requires InTime(answer, now, ear.deadline) && HeardFrom(answer, ear.id) == Datas(Segments(response, padding))
    ensures RequestPlan(Future(answer + later, now), ear, txId, payload, opts).verdict == Ok(response)
  {
    ResponseAmongOthers(answer, later, now, ear, response, padding);
  }

  /** Under a covering grant everything is sent... */
  lemma GrantedSends(f: Future, ear: Ear, txId: CanId, opening: Frame, payload: seq<byte>, opts: Options, grant: Grant)
    requires |payload| > SF_MAX_LEN && SendVerdict(NumCf(|Rest(payload)|), grant.bs).Ok?
    requires AwaitFc(0, Arrivals(f, ear), opts.maxWaits) == Ok(grant)
    ensures var sending, decided := SendPlan(f, ear, txId, opening, payload, opts), AfterFc(f, ear, opts.maxWaits);
            && sending.verdict == Ok(())
            && sending.end ==
               Future(decided.script, decided.now + Slept(NumCf(|Rest(payload)|), grant.st * NANOS_PER_MS))
  {
  }

  /** ...and the verdict is that of what is heard from then on. */
  lemma GrantedVerdict(f: Future, ear: Ear, txId: CanId, payload: seq<byte>, opts: Options, grant: Grant, sent: Future)
    requires SF_MAX_LEN < |payload| <= MAX_FF_LENGTH && SendVerdict(NumCf(|Rest(payload)|), grant.bs).Ok?
    requires AwaitFc(0, Arrivals(f, ear), opts.maxWaits) == Ok(grant)
    requires var decided := AfterFc(f, ear, opts.maxWaits);
             sent == Future(decided.script, decided.now + Slept(NumCf(|Rest(payload)|), grant.st * NANOS_PER_MS))
    ensures RequestPlan(f, ear, txId, payload, opts).verdict == Verdict(Receive(RxFirst, Arrivals(sent, ear)))
  {
    GrantedSends(f, ear, txId, OpeningFrame(txId, payload, opts.padding), payload, opts, grant);
  }

  /** The receives bring a covering grant in time, and then in time, once everything is sent, the
      segments of a response, both among any other traffic. */
  ghost predicate Answers(granting: seq<Rx>, grant: Grant, answer: seq<Rx>, now: nat, ear: Ear, maxWaits: byte,
                          all: nat, segments: seq<Arrival>) {
    && InTime(granting, now, ear.deadline) && Grants(granting, ear, grant, maxWaits) && SendVerdict(all, grant.bs).Ok?
    && InTime(answer, now + Elapsed(granting) + Slept(all, grant.st * NANOS_PER_MS), ear.deadline)
    && HeardFrom(answer, ear.id) == segments
  }

  lemma AnswerHeard(granting: seq<Rx>, grant: Grant, answer: seq<Rx>, later: seq<Rx>, now: nat, ear: Ear,
                    maxWaits: byte, all: nat, response: seq<byte>, padding: byte, f: Future, sent: Future)
    requires 1 <= |response| <= MAX_FF_LENGTH
    requires Answers(granting, grant, answer, now, ear, maxWaits, all, Datas(Segments(response, padding)))
    requires f == Future(granting + (answer + later), now)
    requires sent == Future(answer + later, now + Elapsed(granting) + Slept(all, grant.st * NANOS_PER_MS))
    ensures AwaitFc(0, Arrivals(f, ear), maxWaits) == Ok(grant)
    ensures var decided := AfterFc(f, ear, maxWaits);
            sent == Future(decided.script, decided.now + Slept(all, grant.st * NANOS_PER_MS))
    ensures Verdict(Receive(RxFirst, Arrivals(sent, ear))) == Ok(response)
  {
    GrantTaken(granting, answer + later, now, ear, grant, maxWaits);
    ResponseAmongOthers(answer, later, sent.now, ear, response, padding);
  }

  /** A segmented request so answered returns that response. */
  lemma SegmentedAnswered(granting: seq<Rx>, grant: Grant, answer: seq<Rx>, later: seq<Rx>, now: nat, ear: Ear,
                          txId: CanId, payload: seq<byte>, opts: Options, response: seq<byte>, padding: byte, f: Future)
    requires SF_MAX_LEN < |payload| <= MAX_FF_LENGTH && 1 <= |response| <= MAX_FF_LENGTH
    requires Answers(granting, grant, answer, now, ear, opts.maxWaits, NumCf(|Rest(payload)|),
                     Datas(Segments(response, padding)))
    requires f == Future(granting + (answer + later), now)
    ensures RequestPlan(f, ear, txId, payload, opts).verdict == Ok(response)
  {
    var all := NumCf(|Rest(payload)|);
    var sent := Future(answer + later, now + Elapsed(granting) + Slept(all, grant.st * NANOS_PER_MS));
    AnswerHeard(granting, grant, answer, later, now, ear, opts.maxWaits, all, response, padding, f, sent);
    GrantedVerdict(f, ear, txId, payload, opts, grant, sent);
  }
}
