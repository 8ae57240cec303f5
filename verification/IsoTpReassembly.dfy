/** What a response receiver makes of the frames it hears (mcanbus/src/isotp.rs:326-412). */
module IsoTpReassembly {
  import opened Bits
  import opened Frames
  import opened IsoTp

  // ---------------------------------------------------------------- the sender's own frames, in order

  predicate Segmented(payload: seq<byte>) {
    SF_MAX_LEN < |payload| <= MAX_FF_LENGTH
  }

  /** The receiver of `payload` after k consecutive frames. */
  function RxAt(payload: seq<byte>, k: nat): (s: RxState)
    requires Segmented(payload) && k <= NumCf(|Rest(payload)|)
    ensures s.Valid()
  {
    if k == NumCf(|Rest(payload)|) then RxDone(payload)
    else RxCollect(|payload|, payload[..FF_FIRST_PAYLOAD + 7 * k], (k + 1) % 16)
  }

  lemma SfReceived(payload: seq<byte>, padding: byte)
    requires 1 <= |payload| <= SF_MAX_LEN
    ensures OnFirst(EncodeSf(payload, padding)) == RxDone(payload)
  {
  }

  lemma FfReceived(payload: seq<byte>, padding: byte)
    requires Segmented(payload)
    ensures OnFirst(FfData(payload, padding)) == RxReply(|payload|, payload[..FF_FIRST_PAYLOAD])
    ensures AfterReply(|payload|, payload[..FF_FIRST_PAYLOAD]) == RxAt(payload, 0)
  {
    var d := FfData(payload, padding);
    assert d[2..8] == payload[..FF_FIRST_PAYLOAD];
  }

  /** The expected consecutive frame advances the receiver by one, across sequence wrap and the
      padding of the last frame. */
  lemma CfReceived(payload: seq<byte>, k: nat, padding: byte)
    requires Segmented(payload) && k < NumCf(|Rest(payload)|)
    ensures OnFrame(RxAt(payload, k), CfData(Rest(payload), k, padding)) == RxAt(payload, k + 1)
  {
    var rest := Rest(payload);
    var d := CfData(rest, k, padding);
    var chunk := rest[7 * k..Min(7 * k + 7, |rest|)];
    assert d[1..1 + |chunk|] == chunk;
    CfNumber(rest, k + 1, padding);
    NextSn(k);
    assert payload[..FF_FIRST_PAYLOAD + 7 * k] + chunk == payload[..Min(FF_FIRST_PAYLOAD + 7 * (k + 1), |payload|)];
  }

  /** One frame at a time. */
  lemma ReceiveNext(s: RxState, arrivals: seq<Arrival>)
    requires s.Valid() && (s.RxFirst? || s.RxCollect?)
    requires arrivals != [] && arrivals[0].Content?
    ensures Receive(s, arrivals) == Receive(OnFrame(s, arrivals[0].data), arrivals[1..])
    ensures OnFrame(s, arrivals[0].data).RxFailed? ==> Receive(s, arrivals).RxFailed?
  {
  }

  lemma NextReceived(payload: seq<byte>, k: nat, padding: byte, arrivals: seq<Arrival>)
    requires Segmented(payload) && k < NumCf(|Rest(payload)|)
    requires arrivals != [] && arrivals[0] == Content(CfData(Rest(payload), k, padding))
    ensures Receive(RxAt(payload, k), arrivals) == Receive(RxAt(payload, k + 1), arrivals[1..])
  {
    CfReceived(payload, k, padding);
    ReceiveNext(RxAt(payload, k), arrivals);
  }

  lemma RangeTail(rest: seq<byte>, k: nat, n: nat, padding: byte, later: seq<Arrival>)
    requires k < n <= NumCf(|rest|)
    ensures var heard := Datas(CfRange(rest, k, n, padding)) + later;
            && heard[0] == Content(CfData(rest, k, padding))
            && heard[1..] == Datas(CfRange(rest, k + 1, n, padding)) + later
  {
  }

  lemma {:induction false} InOrderReceived(payload: seq<byte>, k: nat, padding: byte, later: seq<Arrival>)
    requires Segmented(payload) && k <= NumCf(|Rest(payload)|)
    ensures var heard := Datas(CfRange(Rest(payload), k, NumCf(|Rest(payload)|), padding)) + later;
            Receive(RxAt(payload, k), heard) == RxDone(payload)
    decreases NumCf(|Rest(payload)|) - k
  {
    var rest := Rest(payload);
    var n := NumCf(|rest|);
    if k < n {
      RangeTail(rest, k, n, padding, later);
      NextReceived(payload, k, padding, Datas(CfRange(rest, k, n, padding)) + later);
      InOrderReceived(payload, k + 1, padding, later);
    }
  }

  function Segments(payload: seq<byte>, padding: byte): seq<seq<byte>>
    requires 1 <= |payload| <= MAX_FF_LENGTH
  {
    if |payload| <= SF_MAX_LEN then [EncodeSf(payload, padding)]
    else [FfData(payload, padding)] + CfRange(Rest(payload), 0, NumCf(|Rest(payload)|), padding)
  }

  /** Segmentation and reassembly are inverse for every payload the protocol carries. */
  lemma RoundTrip(payload: seq<byte>, padding: byte, later: seq<Arrival>)
    requires 1 <= |payload| <= MAX_FF_LENGTH
    ensures Receive(RxFirst, Datas(Segments(payload, padding)) + later) == RxDone(payload)
  {
    var heard := Datas(Segments(payload, padding)) + later;
    if |payload| <= SF_MAX_LEN {
      SfReceived(payload, padding);
    } else {
      FfReceived(payload, padding);
      var rest := Rest(payload);
      assert heard[1..] == Datas(CfRange(rest, 0, NumCf(|rest|), padding)) + later;
      InOrderReceived(payload, 0, padding, later);
    }
  }

  // ---------------------------------------------------------------- loss, duplication, reordering

  /** Delivered consecutive frames by number, 1 being the first; the first frame counts as 0. */
  predicate Numbers(js: seq<nat>, n: nat) {
    forall m :: 0 <= m < |js| ==> 1 <= js[m] <= n
  }

  /** No frame arrives more than `back` places before the one delivered just before it. */
  predicate BackAtMost(js: seq<nat>, prev: nat, back: nat) {
    && (js != [] ==> js[0] + back >= prev)
    && forall m :: 0 < m < |js| ==> js[m] + back >= js[m - 1]
  }

  function Heard(rest: seq<byte>, js: seq<nat>, padding: byte): (a: seq<Arrival>)
    requires Numbers(js, NumCf(|rest|))
    ensures |a| == |js|
  {
    seq(|js|, m requires 0 <= m < |js| => Content(CfData(rest, js[m] - 1, padding)))
  }

  lemma BackTail(js: seq<nat>, n: nat, prev: nat, back: nat)
    requires js != [] && Numbers(js, n) && BackAtMost(js, prev, back)
    ensures Numbers(js[1..], n) && BackAtMost(js[1..], js[0], back)
  {
  }

  lemma HeardShift(rest: seq<byte>, js: seq<nat>, padding: byte)
    requires js != [] && Numbers(js, NumCf(|rest|)) && Numbers(js[1..], NumCf(|rest|))
    ensures Heard(rest, js, padding)[0] == Content(CfData(rest, js[0] - 1, padding))
    ensures Heard(rest, js, padding)[1..] == Heard(rest, js[1..], padding)
  {
  }

  lemma HeardTail(rest: seq<byte>, js: seq<nat>, padding: byte, prev: nat, back: nat)
    requires js != [] && Numbers(js, NumCf(|rest|)) && BackAtMost(js, prev, back)
    ensures Numbers(js[1..], NumCf(|rest|)) && BackAtMost(js[1..], js[0], back)
    ensures js[0] + back >= prev
    ensures Heard(rest, js, padding)[0] == Content(CfData(rest, js[0] - 1, padding))
    ensures Heard(rest, js, padding)[1..] == Heard(rest, js[1..], padding)
  {
    BackTail(js, NumCf(|rest|), prev, back);
    HeardShift(rest, js, padding);
  }

  lemma CfNumber(rest: seq<byte>, j: nat, padding: byte)
    requires 1 <= j <= NumCf(|rest|)
    ensures var d := CfData(rest, j - 1, padding);
            |d| == FRAME_DLC && d[0] / 16 == 2 && d[0] % 16 == j % 16
  {
  }

  lemma NextNumber(prev: nat, m: nat, j: nat)
    requires prev % 16 == m % 16 && j % 16 == (m + 1) % 16 && j + 14 >= prev
    ensures j == prev + 1 || j >= prev + 17
  {
  }

  lemma NextSn(m: nat)
    ensures ((m + 1) % 16 + 1) % 16 == (m + 2) % 16 && (m + 1) % 16 < 16
  {
  }

  lemma CfRefused(total: nat, out: seq<byte>, expected: byte, rest: seq<byte>, j: nat, padding: byte)
    requires RxCollect(total, out, expected).Valid() && 1 <= j <= NumCf(|rest|)
    requires j % 16 != expected
    ensures OnConsecutive(total, out, expected, CfData(rest, j - 1, padding)) == RxFailed(InvalidData)
  {
    CfNumber(rest, j, padding);
  }

  lemma CfMistaken(total: nat, out: seq<byte>, expected: byte, rest: seq<byte>, j: nat, padding: byte)
    requires RxCollect(total, out, expected).Valid() && 1 <= j <= NumCf(|rest|)
    requires j % 16 == expected && |out| + 7 < total
    ensures OnConsecutive(total, out, expected, CfData(rest, j - 1, padding))
            == RxCollect(total, out + CfData(rest, j - 1, padding)[1..8], (expected + 1) % 16)
  {
    CfNumber(rest, j, padding);
  }

  lemma FarFromEnd(payload: seq<byte>, m: nat, j: nat)
    requires Segmented(payload) && j <= NumCf(|Rest(payload)|) && j >= m + 2
    ensures FF_FIRST_PAYLOAD + 7 * (m + 1) < |payload|
  {
  }

  /** A frame further on with the right sequence number is taken for the expected one. */
  lemma TakenForNext(payload: seq<byte>, out: seq<byte>, m: nat, j: nat, padding: byte) returns (more: seq<byte>)
    requires Segmented(payload) && |out| == FF_FIRST_PAYLOAD + 7 * m < |payload|
    requires m + 2 <= j <= NumCf(|Rest(payload)|) && j % 16 == (m + 1) % 16
    ensures |more| == FF_FIRST_PAYLOAD + 7 * (m + 1) < |payload|
    ensures OnFrame(RxCollect(|payload|, out, (m + 1) % 16), CfData(Rest(payload), j - 1, padding))
            == RxCollect(|payload|, more, (m + 2) % 16)
  {
    FarFromEnd(payload, m, j);
    NextSn(m);
    CfMistaken(|payload|, out, (m + 1) % 16, Rest(payload), j, padding);
    more := out + CfData(Rest(payload), j - 1, padding)[1..8];
  }

  /** Having once skipped ahead by a multiple of 16, the receiver runs out of frames. */
  lemma {:induction false} AheadNeverDone(payload: seq<byte>, out: seq<byte>, m: nat, prev: nat, js: seq<nat>,
                                          padding: byte)
    requires Segmented(payload)
    requires |out| == FF_FIRST_PAYLOAD + 7 * m < |payload|
    requires prev <= NumCf(|Rest(payload)|) && prev % 16 == m % 16 && prev >= m + 16
    requires Numbers(js, NumCf(|Rest(payload)|)) && BackAtMost(js, prev, 14)
    ensures !Receive(RxCollect(|payload|, out, (m + 1) % 16), Heard(Rest(payload), js, padding)).RxDone?
    decreases |js|
  {
    var rest := Rest(payload);
    if js != [] {
      var j := js[0];
      HeardTail(rest, js, padding, prev, 14);
      ReceiveNext(RxCollect(|payload|, out, (m + 1) % 16), Heard(rest, js, padding));
      if j % 16 == (m + 1) % 16 {
        NextNumber(prev, m, j);
        var more := TakenForNext(payload, out, m, j, padding);
        AheadNeverDone(payload, more, m + 1, j, js[1..], padding);
      } else {
        CfRefused(|payload|, out, (m + 1) % 16, rest, j, padding);
      }
    }
  }

  /** The whole payload from the m-th frame on was accepted, from the head of js. */
  predicate ExactFrom(payload: seq<byte>, m: nat, js: seq<nat>, end: RxState)
    requires Segmented(payload) && m <= NumCf(|Rest(payload)|)
  {
    end.RxDone? ==>
      && end.payload == payload
      && |js| >= NumCf(|Rest(payload)|) - m
      && forall x :: 0 <= x < NumCf(|Rest(payload)|) - m ==> js[x] == m + 1 + x
  }

  lemma ExactStep(payload: seq<byte>, m: nat, js: seq<nat>, end: RxState)
    requires Segmented(payload) && m < NumCf(|Rest(payload)|) && js != []
    requires js[0] == m + 1 && ExactFrom(payload, m + 1, js[1..], end)
    ensures ExactFrom(payload, m, js, end)
  {
    if end.RxDone? {
      forall x | 0 <= x < NumCf(|Rest(payload)|) - m
        ensures js[x] == m + 1 + x
      {
        if x > 0 {
          assert js[x] == js[1..][x - 1];
        }
      }
    }
  }

  lemma SkippedTaken(payload: seq<byte>, m: nat, js: seq<nat>, padding: byte)
    requires Segmented(payload) && m < NumCf(|Rest(payload)|)
    requires js != [] && Numbers(js, NumCf(|Rest(payload)|)) && BackAtMost(js[1..], js[0], 14)
    requires Numbers(js[1..], NumCf(|Rest(payload)|))
    requires js[0] % 16 == (m + 1) % 16 && js[0] >= m + 17
    ensures !Receive(OnFrame(RxAt(payload, m), CfData(Rest(payload), js[0] - 1, padding)),
                     Heard(Rest(payload), js[1..], padding)).RxDone?
  {
    var out, next := payload[..FF_FIRST_PAYLOAD + 7 * m], m + 1;
    assert RxAt(payload, m) == RxCollect(|payload|, out, next % 16);
    var more := TakenForNext(payload, out, m, js[0], padding);
    AheadNeverDone(payload, more, next, js[0], js[1..], padding);
  }

  lemma SkippedNeverDone(payload: seq<byte>, m: nat, js: seq<nat>, padding: byte)
    requires Segmented(payload) && m < NumCf(|Rest(payload)|)
    requires Numbers(js, NumCf(|Rest(payload)|)) && BackAtMost(js, m, 14)
    requires js != [] && js[0] != m + 1
    ensures !Receive(RxAt(payload, m), Heard(Rest(payload), js, padding)).RxDone?
  {
    var rest, j := Rest(payload), js[0];
    HeardTail(rest, js, padding, m, 14);
    ReceiveNext(RxAt(payload, m), Heard(rest, js, padding));
    if j % 16 == (m + 1) % 16 {
      NextNumber(m, m, j);
      SkippedTaken(payload, m, js, padding);
    } else {
      CfRefused(|payload|, payload[..FF_FIRST_PAYLOAD + 7 * m], (m + 1) % 16, rest, j, padding);
    }
  }

  lemma HeardInOrder(payload: seq<byte>, m: nat, js: seq<nat>, padding: byte)
    requires Segmented(payload) && m < NumCf(|Rest(payload)|)
    requires Numbers(js, NumCf(|Rest(payload)|)) && BackAtMost(js, m, 14)
    requires js != [] && js[0] == m + 1
    ensures Numbers(js[1..], NumCf(|Rest(payload)|)) && BackAtMost(js[1..], m + 1, 14)
    ensures Receive(RxAt(payload, m), Heard(Rest(payload), js, padding))
         == Receive(RxAt(payload, m + 1), Heard(Rest(payload), js[1..], padding))
  {
    HeardTail(Rest(payload), js, padding, m, 14);
    ReceiveNext(RxAt(payload, m), Heard(Rest(payload), js, padding));
    CfReceived(payload, m, padding);
  }

  lemma {:induction false} OkFrom(payload: seq<byte>, m: nat, js: seq<nat>, padding: byte)
    requires Segmented(payload) && m <= NumCf(|Rest(payload)|)
    requires Numbers(js, NumCf(|Rest(payload)|)) && BackAtMost(js, m, 14)
    ensures ExactFrom(payload, m, js, Receive(RxAt(payload, m), Heard(Rest(payload), js, padding)))
    decreases |js|
  {
    var rest := Rest(payload);
    if js == [] || m == NumCf(|rest|) {
    } else if js[0] == m + 1 {
      HeardInOrder(payload, m, js, padding);
      OkFrom(payload, m + 1, js[1..], padding);
      ExactStep(payload, m, js, Receive(RxAt(payload, m + 1), Heard(rest, js[1..], padding)));
    } else {
      SkippedNeverDone(payload, m, js, padding);
    }
  }

  function HeardAll(payload: seq<byte>, js: seq<nat>, padding: byte): seq<Arrival>
    requires Segmented(payload) && Numbers(js, NumCf(|Rest(payload)|))
  {
    [Content(FfData(payload, padding))] + Heard(Rest(payload), js, padding)
  }

  /** Whatever is lost, repeated or reordered, as long as no frame arrives more than 14 places
      before its predecessor: a response accepted is the payload sent, and its frames were the
      first ones delivered, in order. */
  lemma AcceptedIsExact(payload: seq<byte>, js: seq<nat>, padding: byte)
    requires Segmented(payload) && Numbers(js, NumCf(|Rest(payload)|)) && BackAtMost(js, 0, 14)
    ensures var end := Receive(RxFirst, HeardAll(payload, js, padding));
            end.RxDone? ==>
              && end.payload == payload
              && |js| >= NumCf(|Rest(payload)|)
              && forall x :: 0 <= x < NumCf(|Rest(payload)|) ==> js[x] == x + 1
  {
    FfReceived(payload, padding);
    assert HeardAll(payload, js, padding)[1..] == Heard(Rest(payload), js, padding);
    OkFrom(payload, 0, js, padding);
  }

  /** Losses alone never go back, so they need no bound at all. */
  lemma LossIsDetected(payload: seq<byte>, js: seq<nat>, padding: byte)
    requires Segmented(payload) && Numbers(js, NumCf(|Rest(payload)|))
    requires forall a, b :: 0 <= a < b < |js| ==> js[a] < js[b]
    ensures var end := Receive(RxFirst, HeardAll(payload, js, padding));
            && (end.RxDone? ==> end.payload == payload)
            && (end.RxDone? <==> |js| == NumCf(|Rest(payload)|))
  {
    var n := NumCf(|Rest(payload)|);
    Ascending(js, n);
    AcceptedIsExact(payload, js, padding);
    if |js| == n {
      AscendingFull(js, n);
      assert HeardAll(payload, js, padding) == Datas(Segments(payload, padding)) + [];
      RoundTrip(payload, padding, []);
    }
  }

  lemma {:induction false} Ascending(js: seq<nat>, n: nat)
    requires Numbers(js, n)
    requires forall a, b :: 0 <= a < b < |js| ==> js[a] < js[b]
    ensures |js| <= n
    ensures forall m :: 0 <= m < |js| ==> js[m] >= m + 1
    decreases n
  {
    if js != [] {
      var last := |js| - 1;
      assert forall m :: 0 <= m < last ==> js[..last][m] < js[last] <= n;
      Ascending(js[..last], js[last] - 1);
      assert forall m :: 0 <= m < last ==> js[m] == js[..last][m];
    }
  }

  lemma AscendingFull(js: seq<nat>, n: nat)
    requires Numbers(js, n) && |js| == n
    requires forall a, b :: 0 <= a < b < |js| ==> js[a] < js[b]
    ensures forall m :: 0 <= m < |js| ==> js[m] == m + 1
  {
    forall m | 0 <= m < |js| ensures js[m] == m + 1 {
      Ascending(js, n);
      Ascending(js[..m + 1], js[m]);
      AtMost(js, n, m);
    }
  }

  lemma {:induction false} AtMost(js: seq<nat>, n: nat, m: nat)
    requires Numbers(js, n) && m < |js| == n
    requires forall a, b :: 0 <= a < b < |js| ==> js[a] < js[b]
    ensures js[m] <= m + 1
    decreases n - m
  {
    if m + 1 < n {
      AtMost(js, n, m + 1);
    }
  }

  // ---- the bound is sharp

  const SHARP: seq<byte> := seq(125, i => if i < 118 then 0 else 1)
  const SHARP_ORDER: seq<nat> := seq(17, i => if i < 16 then i + 1 else 1)

  /** Going back 15 places hides behind the 4-bit sequence number: a repeated first frame passes
      for the seventeenth. */
  lemma BackFifteenIsNotDetected()
    ensures Segmented(SHARP) && Numbers(SHARP_ORDER, NumCf(|Rest(SHARP)|)) && BackAtMost(SHARP_ORDER, 0, 15)
    ensures Receive(RxFirst, HeardAll(SHARP, SHARP_ORDER, 0)) == RxDone(seq(125, i => 0))
    ensures SHARP != seq(125, i => 0)
  {
    assert |Rest(SHARP)| == 119 && NumCf(119) == 17;
    forall m | 0 <= m < 17
      ensures 1 <= SHARP_ORDER[m] <= 17 && (m > 0 ==> SHARP_ORDER[m] + 15 >= SHARP_ORDER[m - 1])
    {
    }
    FfReceived(SHARP, 0);
    var heard := Heard(Rest(SHARP), SHARP_ORDER, 0);
    assert HeardAll(SHARP, SHARP_ORDER, 0)[1..] == heard;
    SharpPrefix(SHARP, 0, heard);
    SharpLast();
    assert SHARP[124] == 1;
  }

  lemma {:induction false} SharpPrefix(payload: seq<byte>, k: nat, heard: seq<Arrival>)
    requires Segmented(payload) && NumCf(|Rest(payload)|) == 17
    requires k <= 16 && |heard| == 17 - k
    requires forall x :: 0 <= x < 16 - k ==> heard[x] == Content(CfData(Rest(payload), k + x, 0))
    ensures Receive(RxAt(payload, k), heard) == Receive(RxAt(payload, 16), [heard[16 - k]])
    decreases 16 - k
  {
    if k < 16 {
      NextReceived(payload, k, 0, heard);
      SharpPrefix(payload, k + 1, heard[1..]);
    } else {
      assert heard == [heard[0]];
    }
  }

  lemma SharpLast()
    requires Segmented(SHARP) && NumCf(|Rest(SHARP)|) == 17
    ensures Receive(RxAt(SHARP, 16), [Content(CfData(Rest(SHARP), 0, 0))]) == RxDone(seq(125, i => 0))
  {
    var d := CfData(Rest(SHARP), 0, 0);
    assert d[1..8] == seq(7, i => 0);
    assert SHARP[..118] + d[1..8] == seq(125, i => 0);
  }

  ghost predicate SoundFor(back: nat, payload: seq<byte>, js: seq<nat>, padding: byte) {
    Segmented(payload) && Numbers(js, NumCf(|Rest(payload)|)) && BackAtMost(js, 0, back) ==>
      var end := Receive(RxFirst, HeardAll(payload, js, padding));
      end.RxDone? ==> end.payload == payload
  }

  /** Exactly how much reordering the receiver can bear. */
  lemma ReorderingLimit(back: nat)
    ensures (forall payload, js, padding :: SoundFor(back, payload, js, padding)) <==> back <= 14
  {
    if back <= 14 {
      forall payload, js, padding
        ensures SoundFor(back, payload, js, padding)
      {
        if Segmented(payload) && Numbers(js, NumCf(|Rest(payload)|)) && BackAtMost(js, 0, back) {
          AcceptedIsExact(payload, js, padding);
        }
      }
    } else {
      BackFifteenIsNotDetected();
      assert !SoundFor(back, SHARP, SHARP_ORDER, 0);
    }
  }

  // ---------------------------------------------------------------- any frames at all

  /** The payload bytes of the first frame and of consecutive frames 1..k, padding included. */
  ghost function Gathered(arrivals: seq<Arrival>, k: nat): seq<byte>
    requires k < |arrivals|
    requires arrivals[0].Content? && |arrivals[0].data| >= 2
    requires forall i :: 1 <= i <= k ==> arrivals[i].Content? && |arrivals[i].data| >= 1
  {
    if k == 0 then arrivals[0].data[2..]
    else Gathered(arrivals, k - 1) + arrivals[k].data[1..Min(|arrivals[k].data|, 8)]
  }

  ghost predicate Announces(arrivals: seq<Arrival>) {
    && arrivals != [] && arrivals[0].Content? && |arrivals[0].data| >= 2
    && arrivals[0].data[0] / 16 == 1 && Announced(arrivals[0].data) > SF_MAX_LEN
  }

  ghost predicate InSequence(arrivals: seq<Arrival>, k: nat) {
    && Announces(arrivals) && k < |arrivals|
    && forall i :: 1 <= i <= k ==>
         arrivals[i].Content? && |arrivals[i].data| >= 1 && arrivals[i].data[0] == 0x20 + i % 16
  }

  /** Frames 0..k are a first frame and correctly numbered consecutive frames, the last of which
      completes the announced length; the response is what they carry, cut to that length. */
  ghost predicate Completes(arrivals: seq<Arrival>, k: nat, payload: seq<byte>) {
    && InSequence(arrivals, k)
    && var total := Announced(arrivals[0].data);
       && |Gathered(arrivals, k)| >= total
       && (k > 0 ==> |Gathered(arrivals, k - 1)| < total)
       && payload == Gathered(arrivals, k)[..total]
  }

  ghost predicate IsSingle(arrivals: seq<Arrival>, payload: seq<byte>) {
    && arrivals != [] && arrivals[0].Content?
    && 1 <= |payload| <= SF_MAX_LEN
    && [|payload|] + payload <= arrivals[0].data
  }

  lemma {:induction false} GatheredGrows(arrivals: seq<Arrival>, k: nat, j: nat)
    requires k <= j && InSequence(arrivals, j)
    ensures |Gathered(arrivals, k)| <= |Gathered(arrivals, j)|
    decreases j - k
  {
    if k < j {
      GatheredGrows(arrivals, k, j - 1);
    }
  }

  /** At frame k the gathered bytes first reach the announced length, so no later frame completes. */
  lemma NoLaterCompletion(arrivals: seq<Arrival>, k: nat, payload: seq<byte>)
    requires InSequence(arrivals, k) && |Gathered(arrivals, k)| >= Announced(arrivals[0].data)
    ensures forall j :: k < j ==> !Completes(arrivals, j, payload)
  {
    forall j | k < j
      ensures !Completes(arrivals, j, payload)
    {
      if InSequence(arrivals, j) {
        assert InSequence(arrivals, j - 1);
        GatheredGrows(arrivals, k, j - 1);
      }
    }
  }

  /** A frame out of place ends the reception, and nothing completes it. */
  lemma OutOfSequence(arrivals: seq<Arrival>, k: nat, payload: seq<byte>)
    requires InSequence(arrivals, k) && |Gathered(arrivals, k)| < Announced(arrivals[0].data)
    requires !InSequence(arrivals, k + 1)
    ensures Receive(RxCollect(Announced(arrivals[0].data), Gathered(arrivals, k), (k + 1) % 16),
                    arrivals[k + 1..]).RxFailed?
    ensures forall j :: k < j ==> !Completes(arrivals, j, payload)
  {
    forall j | k < j
      ensures !InSequence(arrivals, j)
    {
      if InSequence(arrivals, j) {
        assert InSequence(arrivals, k + 1);
      }
    }
    if k + 1 < |arrivals| {
      assert arrivals[k + 1..][0] == arrivals[k + 1];
    }
  }

  lemma Taken(total: nat, out: seq<byte>, expected: byte, arrivals: seq<Arrival>, more: seq<byte>)
    requires RxCollect(total, out, expected).Valid()
    requires arrivals != [] && arrivals[0].Content? && |arrivals[0].data| >= 1
    requires arrivals[0].data[0] as int == 0x20 + expected as int
    requires more == out + arrivals[0].data[1..Min(|arrivals[0].data|, 8)]
    ensures Receive(RxCollect(total, out, expected), arrivals) ==
            if |more| < total then Receive(RxCollect(total, more, (expected + 1) % 16), arrivals[1..])
            else RxDone(more[..total])
  {
    ConsecutiveOutcome(total, out, expected, arrivals[0].data);
    ReceiveNext(RxCollect(total, out, expected), arrivals);
  }

  lemma InSequenceStep(arrivals: seq<Arrival>, k: nat)
    requires InSequence(arrivals, k + 1) && |Gathered(arrivals, k)| < Announced(arrivals[0].data)
    ensures var total, more := Announced(arrivals[0].data), Gathered(arrivals, k + 1);
            Receive(RxCollect(total, Gathered(arrivals, k), (k + 1) % 16), arrivals[k + 1..]) ==
            if |more| < total then Receive(RxCollect(total, more, (k + 2) % 16), arrivals[k + 2..])
            else RxDone(more[..total])
  {
    var later := arrivals[k + 1..];
    assert later[0] == arrivals[k + 1] && later[1..] == arrivals[k + 2..];
    NextSn(k);
    Taken(Announced(arrivals[0].data), Gathered(arrivals, k), (k + 1) % 16, later, Gathered(arrivals, k + 1));
  }

  lemma {:induction false} CollectedExactly(arrivals: seq<Arrival>, k: nat, payload: seq<byte>)
    requires InSequence(arrivals, k) && |Gathered(arrivals, k)| < Announced(arrivals[0].data)
    ensures Receive(RxCollect(Announced(arrivals[0].data), Gathered(arrivals, k), (k + 1) % 16), arrivals[k + 1..])
            == RxDone(payload)
            <==> exists j :: k < j && Completes(arrivals, j, payload)
    decreases |arrivals| - k
  {
    if !InSequence(arrivals, k + 1) {
      OutOfSequence(arrivals, k, payload);
    } else {
      var total, more := Announced(arrivals[0].data), Gathered(arrivals, k + 1);
      InSequenceStep(arrivals, k);
      if |more| < total {
        CollectedExactly(arrivals, k + 1, payload);
        assert !Completes(arrivals, k + 1, payload);
      } else {
        NoLaterCompletion(arrivals, k + 1, payload);
        assert Completes(arrivals, k + 1, payload) <==> payload == more[..total];
      }
    }
  }

  /** A first frame that announces a length opens the reception, or completes it at once. */
  lemma AnnouncedOpens(arrivals: seq<Arrival>)
    requires Announces(arrivals)
    ensures InSequence(arrivals, 0) && Gathered(arrivals, 0) == arrivals[0].data[2..]
    ensures var total, out := Announced(arrivals[0].data), Gathered(arrivals, 0);
            Receive(RxFirst, arrivals) ==
            if |out| < total then Receive(RxCollect(total, out, 1), arrivals[1..]) else RxDone(out[..total])
  {
    var d := arrivals[0].data;
    var total := Announced(d);
    var out := d[2..2 + Min(|d| - 2, total)];
    ReceiveNext(RxFirst, arrivals);
    assert Receive(RxReply(total, out), arrivals[1..]) == Receive(AfterReply(total, out), arrivals[1..]);
    assert out == if |d| - 2 < total then d[2..] else d[2..][..total];
  }

  lemma FirstFrameAccepted(arrivals: seq<Arrival>, payload: seq<byte>)
    requires Announces(arrivals)
    ensures Receive(RxFirst, arrivals) == RxDone(payload) <==> exists k :: Completes(arrivals, k, payload)
  {
    var total, out := Announced(arrivals[0].data), Gathered(arrivals, 0);
    AnnouncedOpens(arrivals);
    if |out| < total {
      CollectedExactly(arrivals, 0, payload);
      assert !Completes(arrivals, 0, payload);
    } else {
      NoLaterCompletion(arrivals, 0, payload);
      assert Completes(arrivals, 0, payload) <==> payload == out[..total];
    }
  }

  /** Exactly which responses the receiver accepts, on any frames of any length: a single frame's
      content, or a first frame completed by correctly numbered consecutive frames. */
  lemma AcceptedResponses(arrivals: seq<Arrival>, payload: seq<byte>)
    ensures Receive(RxFirst, arrivals) == RxDone(payload)
            <==> IsSingle(arrivals, payload) || exists k :: Completes(arrivals, k, payload)
  {
    if Announces(arrivals) {
      FirstFrameAccepted(arrivals, payload);
    } else if arrivals != [] && arrivals[0].Content? {
      assert IsSingle(arrivals, payload) ==> arrivals[0].data[1..1 + |payload|] == payload;
    }
  }
}
