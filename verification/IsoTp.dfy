/** ISO 15765-2 over classic CAN: frame contents, and the decisions an endpoint makes on each
  frame it receives (mcanbus/src/isotp.rs).

  The endpoint methods in IsoTpEndpoint and the two-endpoint machine in IsoTpSession both use
  these encoders and decisions.
 */
module IsoTp {
  import opened Bits
  import opened Frames

  datatype Error = InvalidInput | TimedOut | InvalidData | Unsupported | Overflow | Io

  datatype Options = Options(padding: byte, blockSize: byte, stMinMs: byte, timeout: nat, maxWaits: byte)

  const SF_MAX_LEN: nat := 7
  const FF_FIRST_PAYLOAD: nat := 6
  const CF_PAYLOAD: nat := 7
  const FRAME_DLC: nat := 8
  const MAX_FF_LENGTH: nat := 0xFFF
  const MAX_ST_MS: byte := 0x7F

  // ---------------------------------------------------------------- encoding

  function Filled(head: seq<byte>, padding: byte): (d: seq<byte>)
    requires |head| <= FRAME_DLC
    ensures |d| == FRAME_DLC && head <= d
  {
    head + seq(FRAME_DLC - |head|, i => padding)
  }

  function EncodeSf(payload: seq<byte>, padding: byte): seq<byte>
    requires |payload| <= SF_MAX_LEN
  {
    Filled([|payload|] + payload, padding)
  }

  function EncodeFf(total: u16, chunk: seq<byte>, padding: byte): seq<byte>
    requires |chunk| == FF_FIRST_PAYLOAD
  {
    Filled([0x10 + total / 0x100 % 16, total % 0x100] + chunk, padding)
  }

  function EncodeCf(sn: byte, chunk: seq<byte>, padding: byte): seq<byte>
    requires |chunk| <= CF_PAYLOAD
  {
    Filled([0x20 + sn % 16] + chunk, padding)
  }

  function EncodeFc(status: byte, blockSize: byte, stMinMs: byte, padding: byte): seq<byte> {
    Filled([0x30 + status % 16, blockSize, Min(stMinMs, MAX_ST_MS)], padding)
  }

  function DecodeStMin(b: byte): byte {
    if b <= 0x7F then b else if 0xF1 <= b <= 0xF9 then 1 else MAX_ST_MS
  }

  /** The separation time a byte asks for, in microseconds, by section 9.6.5 of ISO 15765-2; reserved
      values ask for none. */
  function AskedMicros(b: byte): Option<nat> {
    if b <= 0x7F then Some(1000 * b) else if 0xF1 <= b <= 0xF9 then Some(100 * (b - 0xF0)) else None
  }

  /** What is granted is the shortest whole number of milliseconds that is long enough, and the
      longest there is for reserved values. */
  lemma StMinRoundsUp(b: byte)
    ensures AskedMicros(b).Some? ==>
              var us, ms := AskedMicros(b).value, DecodeStMin(b);
              us <= 1000 * ms < us + 1000
    ensures AskedMicros(b).None? ==> forall c :: DecodeStMin(c) <= DecodeStMin(b)
  {
  }

  /** The arithmetic on protocol control bytes, here and below, is the source's masking... */
  lemma PciIsBitwise(b: byte)
    ensures And(b, 0xF0) == 16 * (b / 16) && And(b, 0x0F) == b % 16
  {
    NibbleMasks(b / 16, b % 16);
  }

  /** ...setting of the type bits... */
  lemma TypeIsBitwise(low: byte)
    requires low < 16
    ensures Or(0x10, low) == 0x10 + low && Or(0x20, low) == 0x20 + low && Or(0x30, low) == 0x30 + low
  {
    NibbleMasks(1, low);
    NibbleMasks(2, low);
    NibbleMasks(3, low);
  }

  /** ...and joining of the two parts of a length. */
  lemma LengthIsBitwise(high: nat, low: byte)
    ensures Or(Shl(high, 8), low) == 0x100 * high + low
  {
    ShlIsProduct(high, 8);
    assert Shl(1, 8) == 0x100;
    OrAbove(8, 0x100, high, low);
  }

  ghost predicate PaddedFrom(d: seq<byte>, n: nat, padding: byte) {
    |d| == FRAME_DLC && forall i :: n <= i < FRAME_DLC ==> d[i] == padding
  }

  /** What each encoder leaves unused holds the padding byte. */
  lemma UnusedIsPadding(payload: seq<byte>, sn: byte, status: byte, bs: byte, st: byte, padding: byte)
    requires |payload| <= SF_MAX_LEN
    ensures PaddedFrom(EncodeSf(payload, padding), 1 + |payload|, padding)
    ensures PaddedFrom(EncodeCf(sn, payload, padding), 1 + |payload|, padding)
    ensures PaddedFrom(EncodeFc(status, bs, st, padding), 3, padding)
  {
  }

  // ---------------------------------------------------------------- segmentation

  /** Consecutive frames needed for n bytes. */
  function NumCf(n: nat): nat {
    (n + 6) / 7
  }

  /** How many of n consecutive frames a grant lets out before the sender gives up. */
  function Allowed(n: nat, bs: byte): nat {
    if bs == 0 then n else Min(n, bs)
  }

  /** Consecutive frame i (counted from 0) for the bytes after the first frame. */
  function CfData(rest: seq<byte>, i: nat, padding: byte): (d: seq<byte>)
    requires i < NumCf(|rest|)
    ensures |d| == FRAME_DLC
  {
    EncodeCf((i + 1) % 16, rest[7 * i..Min(7 * i + 7, |rest|)], padding)
  }

  function FfData(payload: seq<byte>, padding: byte): (d: seq<byte>)
    requires SF_MAX_LEN < |payload| <= MAX_FF_LENGTH
    ensures |d| == FRAME_DLC
  {
    EncodeFf(|payload|, payload[..FF_FIRST_PAYLOAD], padding)
  }

  function Rest(payload: seq<byte>): seq<byte>
    requires |payload| >= FF_FIRST_PAYLOAD
  {
    payload[FF_FIRST_PAYLOAD..]
  }

  /** Consecutive frames i..j of a payload. */
  function CfRange(rest: seq<byte>, i: nat, j: nat, padding: byte): (ds: seq<seq<byte>>)
    requires i <= j <= NumCf(|rest|)
    ensures |ds| == j - i
  {
    seq(j - i, x requires 0 <= x < j - i => CfData(rest, i + x, padding))
  }

  // ---------------------------------------------------------------- receiving a response

  datatype RxState =
    | RxFirst
    | RxReply(total: nat, out: seq<byte>)
    | RxCollect(total: nat, out: seq<byte>, expected: byte)
    | RxDone(payload: seq<byte>)
    | RxFailed(error: Error)
  {
    predicate Terminal() { RxDone? || RxFailed? }

    predicate Valid() {
      match this
      case RxReply(total, out) => SF_MAX_LEN < total <= MAX_FF_LENGTH && |out| <= total
      case RxCollect(total, out, expected) => SF_MAX_LEN < total <= MAX_FF_LENGTH && |out| < total && expected < 16
      case _ => true
    }
  }

  function Announced(d: seq<byte>): nat
    requires |d| >= 2
  {
    (d[0] as int) % 16 * 0x100 + d[1] as int
  }

  /** The first frame of a response. */
  function OnFirst(d: seq<byte>): (s: RxState)
    ensures s.Valid() && !s.RxFirst? && !s.RxCollect?
  {
    if d == [] then RxFailed(InvalidData)
    else
      match d[0] / 16
      case 0 =>
        var len := d[0] % 16;
        if len == 0 || len > SF_MAX_LEN || 1 + len > |d| then RxFailed(InvalidData)
        else RxDone(d[1..1 + len])
      case 1 =>
        if |d| < 2 then RxFailed(InvalidData)
        else
          var total := Announced(d);
          if total <= SF_MAX_LEN then RxFailed(InvalidData)
          else RxReply(total, d[2..2 + Min(|d| - 2, total)])
      case _ => RxFailed(InvalidData)
  }

  /** Once the flow control frame is out. */
  function AfterReply(total: nat, out: seq<byte>): (s: RxState)
    requires RxReply(total, out).Valid()
    ensures s.Valid() && (s.RxCollect? || s.RxDone?)
  {
    if |out| < total then RxCollect(total, out, 1) else RxDone(out)
  }

  function OnConsecutive(total: nat, out: seq<byte>, expected: byte, d: seq<byte>): (s: RxState)
    requires RxCollect(total, out, expected).Valid()
    ensures s.Valid() && !s.RxFirst? && !s.RxReply?
  {
    if d == [] || d[0] / 16 != 2 then RxFailed(InvalidData)
    else if d[0] % 16 != expected then RxFailed(InvalidData)
    else
      var take := Min(Min(total - |out|, |d| - 1), CF_PAYLOAD);
      var more := out + d[1..1 + take];
      if |more| < total then RxCollect(total, more, (expected + 1) % 16) else RxDone(more)
  }

  lemma PrefixParts(payload: seq<byte>, d: seq<byte>)
    requires |payload| < 0x100
    ensures [|payload|] + payload <= d <==> 1 + |payload| <= |d| && d[0] == |payload| && d[1..1 + |payload|] == payload
  {
    if 1 + |payload| <= |d| {
      assert d[..1 + |payload|] == [d[0]] + d[1..1 + |payload|];
      assert ([|payload|] + payload)[1..] == payload;
    }
  }

  /** Exactly which first frames complete a response, which open one, and that all others fail. */
  lemma FirstOutcome(d: seq<byte>, payload: seq<byte>, total: nat, out: seq<byte>)
    ensures OnFirst(d) == RxDone(payload) <==> 1 <= |payload| <= SF_MAX_LEN && [|payload|] + payload <= d
    ensures OnFirst(d) == RxReply(total, out) <==>
              && SF_MAX_LEN < total <= MAX_FF_LENGTH && [0x10 + total / 0x100, total % 0x100] <= d
              && out == d[2..][..Min(|d| - 2, total)]
    ensures OnFirst(d).RxFailed? ==> OnFirst(d).error == InvalidData
  {
    if |payload| <= SF_MAX_LEN {
      PrefixParts(payload, d);
    }
    if |d| >= 2 {
      assert d[2..][..Min(|d| - 2, total)] == d[2..2 + Min(|d| - 2, total)];
    }
  }

  lemma SliceOfSlice(d: seq<byte>, m: nat, take: nat)
    requires 1 + take <= m <= |d|
    ensures d[1..m][..take] == d[1..1 + take]
  {
  }

  lemma CutAppend(out: seq<byte>, piece: seq<byte>, total: nat)
    requires |out| <= total
    ensures out + piece[..Min(|piece|, total - |out|)] == (out + piece)[..Min(|out| + |piece|, total)]
  {
  }

  /** Exactly which consecutive frames are taken, and what of them: the bytes after the control byte, up
      to seven, until the announced length is reached. */
  lemma ConsecutiveOutcome(total: nat, out: seq<byte>, expected: byte, d: seq<byte>)
    requires RxCollect(total, out, expected).Valid()
    ensures OnConsecutive(total, out, expected, d) ==
            if d == [] || d[0] as int != 0x20 + expected as int then RxFailed(InvalidData)
            else
              var more := out + d[1..Min(|d|, 8)];
              if |more| < total then RxCollect(total, more, (expected + 1) % 16) else RxDone(more[..total])
  {
    if d != [] {
      var piece := d[1..Min(|d|, 8)];
      var take := Min(Min(total - |out|, |d| - 1), CF_PAYLOAD);
      CutAppend(out, piece, total);
      SliceOfSlice(d, Min(|d|, 8), take);
    }
  }

  function OnFrame(s: RxState, d: seq<byte>): (s': RxState)
    requires s.Valid() && (s.RxFirst? || s.RxCollect?)
    ensures s'.Valid() && !s'.RxFirst?
  {
    if s.RxFirst? then OnFirst(d) else OnConsecutive(s.total, s.out, s.expected, d)
  }

  /** What a wait for a frame can bring before the deadline: frame contents or an I/O error.
      The end of a sequence of arrivals is the deadline. */
  datatype Arrival = Content(data: seq<byte>) | Fault

  /** The outcome of receiving a response when every send succeeds. */
  function Receive(s: RxState, arrivals: seq<Arrival>): (end: RxState)
    requires s.Valid()
    ensures end.Valid() && end.Terminal()
    decreases |arrivals|, if s.RxReply? then 1 else 0
  {
    match s
    case RxDone(_) => s
    case RxFailed(_) => s
    case RxReply(total, out) => Receive(AfterReply(total, out), arrivals)
    case _ =>
      if arrivals == [] then RxFailed(TimedOut)
      else if arrivals[0].Fault? then RxFailed(Io)
      else Receive(OnFrame(s, arrivals[0].data), arrivals[1..])
  }

  /** How many arrivals that takes, the deadline counting as one. */
  function RxTakes(s: RxState, arrivals: seq<Arrival>): nat
    requires s.Valid()
    decreases |arrivals|, if s.RxReply? then 1 else 0
  {
    match s
    case RxDone(_) => 0
    case RxFailed(_) => 0
    case RxReply(total, out) => RxTakes(AfterReply(total, out), arrivals)
    case _ =>
      if arrivals == [] || arrivals[0].Fault? then 1
      else 1 + RxTakes(OnFrame(s, arrivals[0].data), arrivals[1..])
  }

  /** Reception takes exactly the arrivals that decide it: fewer leave it waiting for the deadline, more
      change nothing.  The last one taken says how it fails. */
  lemma {:induction false} RxTakesExact(s: RxState, arrivals: seq<Arrival>)
    requires s.Valid()
    ensures var n, end := RxTakes(s, arrivals), Receive(s, arrivals);
            && n <= |arrivals| + 1
            && (n == |arrivals| + 1 <==> end == RxFailed(TimedOut) && !s.Terminal())
            && (n <= |arrivals| ==> Receive(s, arrivals[..n]) == end)
            && (0 < n <= |arrivals| ==>
                  && (arrivals[n - 1].Fault? ==> end == RxFailed(Io))
                  && (arrivals[n - 1].Content? && end.RxFailed? ==> end.error == InvalidData))
    ensures forall m: nat :: m < RxTakes(s, arrivals) && m <= |arrivals| ==>
              Receive(s, arrivals[..m]) == RxFailed(TimedOut)
    decreases |arrivals|, if s.RxReply? then 1 else 0
  {
    if s.RxReply? {
      RxTakesExact(AfterReply(s.total, s.out), arrivals);
    } else if !s.Terminal() && arrivals != [] && arrivals[0].Content? {
      var s', n := OnFrame(s, arrivals[0].data), RxTakes(s, arrivals);
      RxTakesExact(s', arrivals[1..]);
      RxTakesPrefix(s, arrivals, n);
      forall m: nat | m < n && m <= |arrivals|
        ensures Receive(s, arrivals[..m]) == RxFailed(TimedOut)
      {
        RxTakesPrefix(s, arrivals, m);
      }
    }
  }

  /** The first of some arrivals, and the others. */
  lemma RxTakesPrefix(s: RxState, arrivals: seq<Arrival>, m: nat)
    requires s.Valid() && (s.RxFirst? || s.RxCollect?) && arrivals != [] && arrivals[0].Content?
    ensures 0 < m <= |arrivals| ==>
              Receive(s, arrivals[..m]) == Receive(OnFrame(s, arrivals[0].data), arrivals[1..][..m - 1])
    ensures m == 0 ==> Receive(s, arrivals[..m]) == RxFailed(TimedOut)
  {
    if 0 < m <= |arrivals| {
      assert arrivals[..m][1..] == arrivals[1..][..m - 1];
    }
  }

  function Verdict(end: RxState): Result<seq<byte>, Error>
    requires end.Terminal()
  {
    if end.RxDone? then Ok(end.payload) else Err(end.error)
  }

  function Datas(ds: seq<seq<byte>>): (a: seq<Arrival>)
    ensures |a| == |ds|
    ensures forall i :: 0 <= i < |ds| ==> a[i] == Content(ds[i])
  {
    seq(|ds|, i requires 0 <= i < |ds| => Content(ds[i]))
  }

  // ---------------------------------------------------------------- waiting for flow control

  datatype FcStep = FcAgain(waits: byte) | FcClear(bs: byte, st: byte) | FcFailed(error: Error)

  /** One frame while waiting for flow control.  The Wait counter is a `u8`; this is the arithmetic
      of a build without overflow checks. */
  function OnFlowControl(waits: byte, d: seq<byte>, maxWaits: byte): (r: FcStep)
    ensures r.FcClear? ==> r.st <= MAX_ST_MS
  {
    if d == [] then FcAgain(waits)
    else if d[0] / 16 != 3 then FcFailed(InvalidData)
    else
      match d[0] % 16
      case 0 => FcClear(if |d| >= 2 then d[1] else 0, DecodeStMin(if |d| >= 3 then d[2] else 0))
      case 1 =>
        var more := (waits + 1) % 0x100;
        if more > maxWaits then FcFailed(TimedOut) else FcAgain(more)
      case 2 => FcFailed(Overflow)
      case _ => FcFailed(InvalidData)
  }

  datatype Grant = Grant(bs: byte, st: byte)

  function AwaitFc(waits: byte, arrivals: seq<Arrival>, maxWaits: byte): (r: Result<Grant, Error>)
    ensures r.Ok? ==> r.value.st <= MAX_ST_MS
    decreases |arrivals|
  {
    if arrivals == [] then Err(TimedOut)
    else if arrivals[0].Fault? then Err(Io)
    else
      match OnFlowControl(waits, arrivals[0].data, maxWaits)
      case FcAgain(more) => AwaitFc(more, arrivals[1..], maxWaits)
      case FcClear(bs, st) => Ok(Grant(bs, st))
      case FcFailed(e) => Err(e)
  }

  /** How many arrivals that takes, the deadline counting as one. */
  function FcTakes(waits: byte, arrivals: seq<Arrival>, maxWaits: byte): (n: nat)
    ensures n > 0
    decreases |arrivals|
  {
    if arrivals == [] || arrivals[0].Fault? then 1
    else
      match OnFlowControl(waits, arrivals[0].data, maxWaits)
      case FcAgain(more) => 1 + FcTakes(more, arrivals[1..], maxWaits)
      case _ => 1
  }

  const CTS: seq<Arrival> := [Content([0x30])]

  /** The wait takes exactly the arrivals that decide it: more change nothing, and after fewer a
      clear-to-send would still be obeyed. */
  lemma {:induction false} FcTakesExact(waits: byte, arrivals: seq<Arrival>, maxWaits: byte)
    ensures var n := FcTakes(waits, arrivals, maxWaits);
            && n <= |arrivals| + 1
            && (n <= |arrivals| ==>
                  forall later :: AwaitFc(waits, arrivals[..n] + later, maxWaits) == AwaitFc(waits, arrivals, maxWaits))
            && (n == |arrivals| + 1 ==> AwaitFc(waits, arrivals, maxWaits) == Err(TimedOut))
    ensures forall m: nat :: m < FcTakes(waits, arrivals, maxWaits) && m <= |arrivals| ==>
              AwaitFc(waits, arrivals[..m] + CTS, maxWaits) == Ok(Grant(0, 0))
    decreases |arrivals|
  {
    var n := FcTakes(waits, arrivals, maxWaits);
    if arrivals != [] && arrivals[0].Content? && OnFlowControl(waits, arrivals[0].data, maxWaits).FcAgain? {
      var more := OnFlowControl(waits, arrivals[0].data, maxWaits).waits;
      FcTakesExact(more, arrivals[1..], maxWaits);
      if n <= |arrivals| {
        forall later
          ensures AwaitFc(waits, arrivals[..n] + later, maxWaits) == AwaitFc(waits, arrivals, maxWaits)
        {
          AwaitFcNext(waits, arrivals, n, later, maxWaits);
        }
      }
      forall m: nat | m < n && m <= |arrivals|
        ensures AwaitFc(waits, arrivals[..m] + CTS, maxWaits) == Ok(Grant(0, 0))
      {
        if m > 0 {
          AwaitFcNext(waits, arrivals, m, CTS, maxWaits);
        }
      }
    } else {
      assert arrivals[..0] + CTS == CTS;
    }
  }

  lemma AwaitFcNext(waits: byte, arrivals: seq<Arrival>, m: nat, later: seq<Arrival>, maxWaits: byte)
    requires 0 < m <= |arrivals| && arrivals[0].Content?
    requires OnFlowControl(waits, arrivals[0].data, maxWaits).FcAgain?
    ensures AwaitFc(waits, arrivals[..m] + later, maxWaits)
         == AwaitFc(OnFlowControl(waits, arrivals[0].data, maxWaits).waits, arrivals[1..][..m - 1] + later, maxWaits)
  {
    assert (arrivals[..m] + later)[1..] == arrivals[1..][..m - 1] + later;
  }

  // ---- the same, said about the whole stream

  predicate IsEmptyFrame(a: Arrival) { a.Content? && a.data == [] }

  predicate IsWait(a: Arrival) { a.Content? && a.data != [] && a.data[0] == 0x31 }

  function WithoutEmpty(arrivals: seq<Arrival>): seq<Arrival> {
    if arrivals == [] then []
    else if IsEmptyFrame(arrivals[0]) then WithoutEmpty(arrivals[1..])
    else [arrivals[0]] + WithoutEmpty(arrivals[1..])
  }

  function LeadingWaits(arrivals: seq<Arrival>): (n: nat)
    ensures n <= |arrivals|
    ensures forall i :: 0 <= i < n ==> IsWait(arrivals[i])
    ensures n < |arrivals| ==> !IsWait(arrivals[n])
  {
    if arrivals == [] || !IsWait(arrivals[0]) then 0 else 1 + LeadingWaits(arrivals[1..])
  }

  /** What the first frame that is no Wait dictates. */
  function FcVerdict(a: Arrival): Result<Grant, Error>
    requires !IsEmptyFrame(a) && !IsWait(a)
  {
    if a.Fault? then Err(Io)
    else if a.data[0] == 0x30 then
      Ok(Grant(if |a.data| >= 2 then a.data[1] else 0, DecodeStMin(if |a.data| >= 3 then a.data[2] else 0)))
    else if a.data[0] == 0x32 then Err(Overflow)
    else Err(InvalidData)
  }

  lemma {:induction false} WithoutEmptyHasNone(arrivals: seq<Arrival>)
    ensures forall a :: a in WithoutEmpty(arrivals) ==> !IsEmptyFrame(a)
  {
    if arrivals != [] {
      WithoutEmptyHasNone(arrivals[1..]);
    }
  }

  /** Ignore empty frames, tolerate exactly maxWaits leading Waits, then obey the next frame. */
  ghost function FcSpec(arrivals: seq<Arrival>, seen: nat, maxWaits: nat): Result<Grant, Error> {
    var stream := WithoutEmpty(arrivals);
    var waits := LeadingWaits(stream);
    WithoutEmptyHasNone(arrivals);
    if seen + waits > maxWaits || waits == |stream| then Err(TimedOut) else FcVerdict(stream[waits])
  }

  lemma FcSpecSkips(arrivals: seq<Arrival>, seen: nat, maxWaits: nat)
    requires arrivals != [] && IsEmptyFrame(arrivals[0])
    ensures FcSpec(arrivals, seen, maxWaits) == FcSpec(arrivals[1..], seen, maxWaits)
  {
  }

  lemma FcSpecHead(arrivals: seq<Arrival>)
    requires arrivals != [] && !IsEmptyFrame(arrivals[0])
    ensures WithoutEmpty(arrivals)[0] == arrivals[0]
    ensures WithoutEmpty(arrivals)[1..] == WithoutEmpty(arrivals[1..])
  {
  }

  lemma FcSpecCounts(arrivals: seq<Arrival>, seen: nat, maxWaits: nat)
    requires arrivals != [] && IsWait(arrivals[0])
    ensures FcSpec(arrivals, seen, maxWaits) ==
            if seen + 1 > maxWaits then Err(TimedOut) else FcSpec(arrivals[1..], seen + 1, maxWaits)
  {
    FcSpecHead(arrivals);
  }

  lemma FcSpecObeys(arrivals: seq<Arrival>, seen: nat, maxWaits: nat)
    requires arrivals != [] && !IsEmptyFrame(arrivals[0]) && !IsWait(arrivals[0]) && seen <= maxWaits
    ensures FcSpec(arrivals, seen, maxWaits) == FcVerdict(arrivals[0])
  {
    FcSpecHead(arrivals);
  }

  lemma AwaitFcWaits(waits: byte, arrivals: seq<Arrival>, maxWaits: byte)
    requires arrivals != [] && IsWait(arrivals[0]) && waits <= maxWaits <= 254
    ensures AwaitFc(waits, arrivals, maxWaits) ==
            if waits < maxWaits then AwaitFc(waits + 1, arrivals[1..], maxWaits) else Err(TimedOut)
  {
  }

  lemma AwaitFcObeys(waits: byte, arrivals: seq<Arrival>, maxWaits: byte)
    requires arrivals != [] && !IsEmptyFrame(arrivals[0]) && !IsWait(arrivals[0])
    ensures AwaitFc(waits, arrivals, maxWaits) == FcVerdict(arrivals[0])
  {
  }

  lemma {:induction false} AwaitFcFrom(waits: byte, arrivals: seq<Arrival>, maxWaits: byte)
    requires waits <= maxWaits <= 254
    ensures AwaitFc(waits, arrivals, maxWaits) == FcSpec(arrivals, waits, maxWaits)
    decreases |arrivals|
  {
    if arrivals == [] {
    } else if IsEmptyFrame(arrivals[0]) {
      FcSpecSkips(arrivals, waits, maxWaits);
      AwaitFcFrom(waits, arrivals[1..], maxWaits);
    } else if IsWait(arrivals[0]) {
      FcSpecCounts(arrivals, waits, maxWaits);
      AwaitFcWaits(waits, arrivals, maxWaits);
      if waits < maxWaits {
        AwaitFcFrom(waits + 1, arrivals[1..], maxWaits);
      }
    } else {
      FcSpecObeys(arrivals, waits, maxWaits);
      AwaitFcObeys(waits, arrivals, maxWaits);
    }
  }

  function Waits(n: nat): (a: seq<Arrival>)
    ensures |a| == n
    ensures forall i :: 0 <= i < n ==> IsWait(a[i])
  {
    seq(n, i => Content([0x31]))
  }

  lemma WaitsTail(n: nat)
    requires n > 0
    ensures (Waits(n) + CTS)[1..] == Waits(n - 1) + CTS
    ensures (Waits(n) + CTS)[0] == Content([0x31])
  {
  }

  lemma {:induction false} WaitsPass(waits: byte, n: nat)
    ensures AwaitFc(waits, Waits(n) + CTS, 255) == Ok(Grant(0, 0))
    decreases n
  {
    if n > 0 {
      WaitsTail(n);
      WaitsPass((waits + 1) % 0x100, n - 1);
    }
  }

  lemma {:induction false} WaitsCount(n: nat)
    ensures WithoutEmpty(Waits(n) + CTS) == Waits(n) + CTS
    ensures LeadingWaits(Waits(n) + CTS) == n
  {
    var all := Waits(n) + CTS;
    if n > 0 {
      WaitsTail(n);
      WaitsCount(n - 1);
      assert all == [all[0]] + all[1..];
    }
  }

  /** The Wait limit is kept on every stream exactly for limits up to 254: at 255 the counter wraps
      before it can exceed the limit. */
  lemma AwaitFcMeetsSpec(maxWaits: byte)
    ensures (forall arrivals: seq<Arrival> :: AwaitFc(0, arrivals, maxWaits) == FcSpec(arrivals, 0, maxWaits))
            <==> maxWaits <= 254
  {
    if maxWaits <= 254 {
      forall arrivals: seq<Arrival>
        ensures AwaitFc(0, arrivals, maxWaits) == FcSpec(arrivals, 0, maxWaits)
      {
        AwaitFcFrom(0, arrivals, maxWaits);
      }
    } else {
      WaitsPass(0, 256);
      WaitsCount(256);
      var all := Waits(256) + CTS;
      assert AwaitFc(0, all, maxWaits) != FcSpec(all, 0, maxWaits);
    }
  }

  lemma {:induction false} AwaitFcUnlimitedFrom(waits: byte, arrivals: seq<Arrival>, seen: nat, limit: nat)
    requires seen + |arrivals| <= limit
    ensures AwaitFc(waits, arrivals, 255) == FcSpec(arrivals, seen, limit)
    decreases |arrivals|
  {
    if arrivals == [] {
    } else if IsEmptyFrame(arrivals[0]) {
      FcSpecSkips(arrivals, seen, limit);
      AwaitFcUnlimitedFrom(waits, arrivals[1..], seen, limit);
    } else if IsWait(arrivals[0]) {
      FcSpecCounts(arrivals, seen, limit);
      AwaitFcUnlimitedFrom((waits + 1) % 0x100, arrivals[1..], seen + 1, limit);
    } else {
      FcSpecObeys(arrivals, seen, limit);
      AwaitFcObeys(waits, arrivals, 255);
    }
  }

  /** The largest limit is none at all. */
  lemma AwaitFcUnlimited(arrivals: seq<Arrival>)
    ensures AwaitFc(0, arrivals, 255) == FcSpec(arrivals, 0, |arrivals|)
  {
    AwaitFcUnlimitedFrom(0, arrivals, 0, |arrivals|);
  }

  /** A flow control frame we send grants the block size and the capped separation time we ask. */
  lemma FcRoundTrip(waits: byte, bs: byte, stMinMs: byte, padding: byte, maxWaits: byte)
    ensures OnFlowControl(waits, EncodeFc(0, bs, stMinMs, padding), maxWaits) == FcClear(bs, Min(stMinMs, MAX_ST_MS))
  {
  }
}
