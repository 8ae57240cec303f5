/** Two endpoints built from the same code over one link: a client running `request` and a server
  running `receive_response` and then the send path (mcanbus/src/isotp.rs:113-156, 221-256, 274-412).

  Each direction is a first-in first-out queue of datagrams, as the kernel holds them.  The steps of
  both sides and of an environment that adds unrelated datagrams interleave in any order; no
  deadline expires.
 */
module IsoTpSession {
  import opened Bits
  import opened Ids
  import opened Frames
  import Sockets
  import IsoTpPlan
  import opened IsoTp
  import opened IsoTpReassembly

  // ---------------------------------------------------------------- the link

  /** What a send puts into the other side's queue and what a receive makes of it. */
  datatype Link = Link(encode: Frame -> seq<byte>, decode: seq<byte> -> Option<Frame>)

  function FrameFor(id: CanId, d: seq<byte>): Frame
    requires |d| == FRAME_DLC
  {
    NewClassic(id, d).value
  }

  /** The content a receiver of `id` hears in a datagram, if any. */
  function Hears(link: Link, id: CanId, datagram: seq<byte>): Option<seq<byte>> {
    match link.decode(datagram)
    case Some(f) => if f.id == id && f.len <= MAX_FD_DATA_LEN then Some(f.Data()) else None
    case None => None
  }

  ghost predicate CarriesFrames(link: Link, id: CanId) {
    forall d: seq<byte> :: |d| == FRAME_DLC ==> Hears(link, id, link.encode(FrameFor(id, d))) == Some(d)
  }

  /** `Socket::send` and `Socket::recv` over the kernel's wire format. */
  function KernelLink(o: ByteOrder, ts: Option<nat>): Link {
    Link((f: Frame) => if f.len <= MAX_FD_DATA_LEN then SentBytes(o, f) else [],
         (b: seq<byte>) => Sockets.Recv(o, Sockets.Message(b, ts)))
  }

  /** The kernel link carries an endpoint's frames exactly when its identifier is in range. */
  lemma KernelLinkCarries(o: ByteOrder, ts: Option<nat>, id: CanId)
    ensures CarriesFrames(KernelLink(o, ts), id) <==> id.InRange()
  {
    var link := KernelLink(o, ts);
    forall d: seq<byte> | |d| == FRAME_DLC
      ensures Hears(link, id, link.encode(FrameFor(id, d))) == Some(d) <==> id.InRange()
    {
      var f := FrameFor(id, d);
      SentIsData(o, f, ts);
      IdRoundTrip(id);
      assert f.Data()[..8] == d;
    }
    assert |Zeros(8)| == FRAME_DLC;
  }

  // ---------------------------------------------------------------- one endpoint

  datatype TxState =
    | TxStart
    | TxAwait(waits: byte)
    | TxBlock(offset: nat, sn: byte, blockCount: byte, bs: byte, st: byte)
    | TxDone
    | TxFailed(error: Error)

  datatype Node = Node(tx: TxState, rx: RxState)

  /** A client transmits first; a server transmits once it has received. */
  datatype Side = Side(id: CanId, payload: seq<byte>, opts: Options, isClient: bool) {
    ghost predicate Valid() { 1 <= |payload| <= MAX_FF_LENGTH }

    predicate Transmitting(n: Node) { isClient || n.rx.RxDone? }

    predicate Receiving(n: Node) { !isClient || n.tx.TxDone? }

    predicate CanSendTx(n: Node) {
      Transmitting(n) && (n.tx.TxStart? || (n.tx.TxBlock? && FF_FIRST_PAYLOAD + n.tx.offset < |payload|))
    }

    predicate CanSendFc(n: Node) { Receiving(n) && n.rx.RxReply? && n.rx.Valid() }

    predicate AwaitsFc(n: Node) { Transmitting(n) && n.tx.TxAwait? }

    predicate AwaitsFrame(n: Node) { Receiving(n) && (n.rx.RxFirst? || n.rx.RxCollect?) && n.rx.Valid() }
  }

  function TxData(side: Side, tx: TxState): (d: seq<byte>)
    requires 1 <= |side.payload| <= MAX_FF_LENGTH
    requires tx.TxStart? || (tx.TxBlock? && FF_FIRST_PAYLOAD + tx.offset < |side.payload|)
    ensures |d| == FRAME_DLC
  {
    if tx.TxStart? then
      if |side.payload| <= SF_MAX_LEN then EncodeSf(side.payload, side.opts.padding)
      else FfData(side.payload, side.opts.padding)
    else
      var rest := Rest(side.payload);
      EncodeCf(tx.sn, rest[tx.offset..Min(tx.offset + CF_PAYLOAD, |rest|)], side.opts.padding)
  }

  /** The sender after a frame is out: the checks at the end of the loop body and at its head. */
  function AfterTx(side: Side, tx: TxState): TxState
    requires 1 <= |side.payload| <= MAX_FF_LENGTH
    requires tx.TxStart? || (tx.TxBlock? && FF_FIRST_PAYLOAD + tx.offset < |side.payload|)
  {
    if tx.TxStart? then
      if |side.payload| <= SF_MAX_LEN then TxDone else TxAwait(0)
    else
      var length := |Rest(side.payload)|;
      var offset := Min(tx.offset + CF_PAYLOAD, length);
      var count: byte := if tx.blockCount == 255 then 255 else tx.blockCount + 1;
      if tx.bs != 0 && count == tx.bs && offset < length then TxFailed(Unsupported)
      else if offset < length then TxBlock(offset, (tx.sn + 1) % 16, count, tx.bs, tx.st)
      else TxDone
  }

  function AfterFc(side: Side, waits: byte, d: seq<byte>): TxState {
    match OnFlowControl(waits, d, side.opts.maxWaits)
    case FcAgain(more) => TxAwait(more)
    case FcClear(bs, st) => TxBlock(0, 1, 0, bs, st)
    case FcFailed(e) => TxFailed(e)
  }

  function FcData(opts: Options): (d: seq<byte>)
    ensures |d| == FRAME_DLC
  {
    EncodeFc(0, opts.blockSize, opts.stMinMs, opts.padding)
  }

  /** The answer to a first frame is the flow control frame of IsoTpPlan. */
  lemma FcIsTheReply(side: Side)
    ensures FrameFor(side.id, FcData(side.opts)) == IsoTpPlan.FcFrame(side.id, side.opts)
    ensures IsoTpPlan.FcFrame(side.id, side.opts).Data() == FcData(side.opts)
  {
  }

  function AfterHearing(side: Side, n: Node, heard: Option<seq<byte>>): Node
    requires side.AwaitsFc(n) || side.AwaitsFrame(n)
  {
    match heard
    case None => n
    case Some(d) =>
      if side.AwaitsFc(n) then n.(tx := AfterFc(side, n.tx.waits, d))
      else n.(rx := OnFrame(n.rx, d))
  }

  // ---------------------------------------------------------------- both together

  datatype Config = Config(link: Link, client: Side, server: Side) {
    ghost predicate Valid() {
      && client.Valid() && server.Valid() && client.isClient && !server.isClient
      && CarriesFrames(link, client.id) && CarriesFrames(link, server.id)
    }
  }

  datatype State = State(client: Node, server: Node, toServer: seq<seq<byte>>, toClient: seq<seq<byte>>, noise: nat)

  ghost predicate Init(s: State) {
    && s.client == Node(TxStart, RxFirst) && s.server == Node(TxStart, RxFirst)
    && s.toServer == [] && s.toClient == []
  }

  /** A step of one side: its node, the queue it reads and the queue it writes, before and after. */
  ghost predicate SideStep(link: Link, side: Side, peer: CanId,
                           n: Node, inq: seq<seq<byte>>, outq: seq<seq<byte>>,
                           n': Node, inq': seq<seq<byte>>, outq': seq<seq<byte>>)
    requires side.Valid()
  {
    || (side.CanSendTx(n) && n' == n.(tx := AfterTx(side, n.tx))
        && inq' == inq && outq' == outq + [link.encode(FrameFor(side.id, TxData(side, n.tx)))])
    || (side.CanSendFc(n) && n' == n.(rx := AfterReply(n.rx.total, n.rx.out))
        && inq' == inq && outq' == outq + [link.encode(FrameFor(side.id, FcData(side.opts)))])
    || ((side.AwaitsFc(n) || side.AwaitsFrame(n)) && inq != []
        && n' == AfterHearing(side, n, Hears(link, peer, inq[0])) && inq' == inq[1..] && outq' == outq)
  }

  ghost predicate ClientStep(c: Config, s: State, s': State)
    requires c.Valid()
  {
    && SideStep(c.link, c.client, c.server.id, s.client, s.toClient, s.toServer, s'.client, s'.toClient, s'.toServer)
    && s'.server == s.server && s'.noise == s.noise
  }

  ghost predicate ServerStep(c: Config, s: State, s': State)
    requires c.Valid()
  {
    && SideStep(c.link, c.server, c.client.id, s.server, s.toServer, s.toClient, s'.server, s'.toServer, s'.toClient)
    && s'.client == s.client && s'.noise == s.noise
  }

  /** Other traffic: a datagram in which the receiver hears nothing (another identifier, a remote or
      error frame, a fragment), or a receive that times out, which changes nothing here. */
  ghost predicate NoiseStep(c: Config, s: State, s': State, datagram: seq<byte>) {
    && s.noise > 0 && s'.noise == s.noise - 1 && s'.client == s.client && s'.server == s.server
    && ((&& Hears(c.link, c.client.id, datagram) == None
         && s'.toServer == s.toServer + [datagram] && s'.toClient == s.toClient)
        || (&& Hears(c.link, c.server.id, datagram) == None
            && s'.toClient == s.toClient + [datagram] && s'.toServer == s.toServer))
  }

  /** Other traffic can come at any time, on either side, as long as some is to come. */
  lemma NoisePossible(c: Config, s: State, datagram: seq<byte>)
    requires s.noise > 0
    ensures Hears(c.link, c.client.id, datagram) == None ==>
              NoiseStep(c, s, s.(toServer := s.toServer + [datagram], noise := s.noise - 1), datagram)
    ensures Hears(c.link, c.server.id, datagram) == None ==>
              NoiseStep(c, s, s.(toClient := s.toClient + [datagram], noise := s.noise - 1), datagram)
  {
  }

  ghost predicate Next(c: Config, s: State, s': State)
    requires c.Valid()
  {
    ClientStep(c, s, s') || ServerStep(c, s, s') || exists datagram :: NoiseStep(c, s, s', datagram)
  }

  ghost predicate CanStep(c: Config, s: State)
    requires c.Valid()
  {
    exists s': State :: Next(c, s, s')
  }

  ghost predicate Run(c: Config, run: seq<State>)
    requires c.Valid()
  {
    && run != [] && Init(run[0])
    && forall i :: 0 <= i < |run| - 1 ==> Next(c, run[i], run[i + 1])
  }

  /** Both sides are through: the server holds the request, the client returns the response. */
  predicate Final(c: Config, s: State) {
    && s.client == Node(TxDone, RxDone(c.server.payload))
    && s.server == Node(TxDone, RxDone(c.client.payload))
  }

  /** The receiver's advertised block size covers the sender's consecutive frames. */
  predicate Covers(payload: seq<byte>, bs: byte) {
    |payload| <= SF_MAX_LEN || bs == 0 || NumCf(|payload| - FF_FIRST_PAYLOAD) <= bs
  }

  ghost predicate BlocksCover(c: Config) {
    Covers(c.client.payload, c.server.opts.blockSize) && Covers(c.server.payload, c.client.opts.blockSize)
  }

  // ---------------------------------------------------------------- one direction

  /** What a queue still holds for its receiver. */
  function Held(link: Link, id: CanId, q: seq<seq<byte>>): seq<seq<byte>> {
    if q == [] then []
    else
      var later := Held(link, id, q[1..]);
      match Hears(link, id, q[0])
      case Some(d) => [d] + later
      case None => later
  }

  lemma {:induction false} HeldAppend(link: Link, id: CanId, q: seq<seq<byte>>, datagram: seq<byte>)
    ensures Held(link, id, q + [datagram]) ==
            Held(link, id, q) + match Hears(link, id, datagram) { case Some(d) => [d] case None => [] }
  {
    if q == [] {
      assert (q + [datagram])[1..] == [];
    } else {
      assert (q + [datagram])[1..] == q[1..] + [datagram];
      HeldAppend(link, id, q[1..], datagram);
    }
  }

  /** The sender of a segmented payload after i consecutive frames. */
  function TxAt(payload: seq<byte>, i: nat, bs: byte, st: byte): TxState
    requires Segmented(payload)
  {
    if i >= NumCf(|Rest(payload)|) then TxDone
    else if bs != 0 && i == bs then TxFailed(Unsupported)
    else TxBlock(7 * i, (i + 1) % 16, Min(i, 255), bs, st)
  }

  /** After i frames are out and k of them in. */
  ghost predicate Streaming(payload: seq<byte>, padding: byte, bs: byte, st: byte, tx: TxState, rx: RxState,
                            fwd: seq<seq<byte>>, i: nat, k: nat)
    requires Segmented(payload)
  {
    && k <= i <= Allowed(NumCf(|Rest(payload)|), bs)
    && tx == TxAt(payload, i, bs, st) && rx == RxAt(payload, k)
    && fwd == CfRange(Rest(payload), k, i, padding)
  }

  /** A transfer under way: sender and receiver state and what is in flight between them. */
  ghost predicate Transfer(payload: seq<byte>, padding: byte, ro: Options, tx: TxState, rx: RxState,
                           fwd: seq<seq<byte>>, back: seq<seq<byte>>)
    requires 1 <= |payload| <= MAX_FF_LENGTH
  {
    || (tx == TxStart && rx == RxFirst && fwd == [] && back == [])
    || (|payload| <= SF_MAX_LEN && tx == TxDone && back == []
        && ((rx == RxFirst && fwd == [EncodeSf(payload, padding)]) || (rx == RxDone(payload) && fwd == [])))
    || (Segmented(payload) && tx == TxAwait(0)
        && ((rx == RxFirst && fwd == [FfData(payload, padding)] && back == [])
            || (rx == RxReply(|payload|, payload[..FF_FIRST_PAYLOAD]) && fwd == [] && back == [])
            || (rx == RxAt(payload, 0) && fwd == [] && back == [FcData(ro)])))
    || (Segmented(payload) && back == []
        && exists i: nat, k: nat ::
             Streaming(payload, padding, ro.blockSize, Min(ro.stMinMs, MAX_ST_MS), tx, rx, fwd, i, k))
  }

  lemma CfOut(side: Side, i: nat, bs: byte, st: byte)
    requires side.Valid() && Segmented(side.payload) && TxAt(side.payload, i, bs, st).TxBlock?
    requires i < NumCf(|Rest(side.payload)|) && (bs == 0 || i < bs)
    ensures var tx := TxAt(side.payload, i, bs, st);
            && FF_FIRST_PAYLOAD + tx.offset < |side.payload|
            && TxData(side, tx) == CfData(Rest(side.payload), i, side.opts.padding)
            && AfterTx(side, tx) == TxAt(side.payload, i + 1, bs, st)
  {
    NextSn(i);
  }

  /** The sender here and the loop of IsoTpEndpoint.SendConsecutiveFrames are the same: as long as the
      grant allows, this step sends that loop's next frame, and then the outcome is that loop's. */
  lemma SenderIsTheLoop(side: Side, i: nat, bs: byte, st: byte)
    requires side.Valid() && Segmented(side.payload)
    requires i <= Allowed(NumCf(|Rest(side.payload)|), bs)
    ensures var (rest, n, tx) := (Rest(side.payload), NumCf(|Rest(side.payload)|), TxAt(side.payload, i, bs, st));
            if i < Allowed(n, bs) then
              && tx.TxBlock? && FF_FIRST_PAYLOAD + tx.offset < |side.payload|
              && FrameFor(side.id, TxData(side, tx)) == IsoTpPlan.CfFrames(side.id, rest, side.opts.padding)[i]
              && AfterTx(side, tx) == TxAt(side.payload, i + 1, bs, st)
            else
              && (tx.TxDone? || tx.TxFailed?)
              && IsoTpPlan.SendVerdict(n, bs) == if tx.TxDone? then Ok(()) else Err(tx.error)
  {
    if i < Allowed(NumCf(|Rest(side.payload)|), bs) {
      CfOut(side, i, bs, st);
    }
  }

  /** The sender puts its next frame into flight. */
  lemma TransferSend(side: Side, ro: Options, tx: TxState, rx: RxState, fwd: seq<seq<byte>>, back: seq<seq<byte>>)
    requires side.Valid() && Transfer(side.payload, side.opts.padding, ro, tx, rx, fwd, back)
    requires tx.TxStart? || tx.TxBlock?
    ensures tx.TxBlock? ==> FF_FIRST_PAYLOAD + tx.offset < |side.payload|
    ensures Transfer(side.payload, side.opts.padding, ro, AfterTx(side, tx), rx, fwd + [TxData(side, tx)], back)
  {
    if tx.TxBlock? {
      var p, bs, st := side.payload, ro.blockSize, Min(ro.stMinMs, MAX_ST_MS);
      var i: nat, k: nat :| Streaming(p, side.opts.padding, bs, st, tx, rx, fwd, i, k);
      CfOut(side, i, bs, st);
      assert CfRange(Rest(p), k, i, side.opts.padding) + [CfData(Rest(p), i, side.opts.padding)]
             == CfRange(Rest(p), k, i + 1, side.opts.padding);
      assert Streaming(p, side.opts.padding, bs, st, AfterTx(side, tx), rx, fwd + [TxData(side, tx)], i + 1, k);
    }
  }

  lemma RangeNext(rest: seq<byte>, k: nat, i: nat, padding: byte)
    requires k < i <= NumCf(|rest|)
    ensures CfRange(rest, k, i, padding)[0] == CfData(rest, k, padding)
    ensures CfRange(rest, k, i, padding)[1..] == CfRange(rest, k + 1, i, padding)
  {
  }

  lemma StreamingHear(payload: seq<byte>, padding: byte, bs: byte, st: byte, tx: TxState, rx: RxState,
                      fwd: seq<seq<byte>>, i: nat, k: nat)
    requires Segmented(payload) && Streaming(payload, padding, bs, st, tx, rx, fwd, i, k)
    requires rx.RxCollect? && rx.Valid() && fwd != []
    ensures Streaming(payload, padding, bs, st, tx, OnFrame(rx, fwd[0]), fwd[1..], i, k + 1)
  {
    RangeNext(Rest(payload), k, i, padding);
    CfReceived(payload, k, padding);
  }

  /** The receiver takes the next frame out of flight. */
  lemma TransferHear(payload: seq<byte>, padding: byte, ro: Options, tx: TxState, rx: RxState,
                     fwd: seq<seq<byte>>, back: seq<seq<byte>>)
    requires 1 <= |payload| <= MAX_FF_LENGTH && Transfer(payload, padding, ro, tx, rx, fwd, back)
    requires rx.Valid() && (rx.RxFirst? || rx.RxCollect?) && fwd != []
    ensures Transfer(payload, padding, ro, tx, OnFrame(rx, fwd[0]), fwd[1..], back)
  {
    if rx.RxFirst? {
      if |payload| <= SF_MAX_LEN {
        SfReceived(payload, padding);
      } else {
        FfReceived(payload, padding);
      }
    } else {
      var bs, st := ro.blockSize, Min(ro.stMinMs, MAX_ST_MS);
      var i: nat, k: nat :| Streaming(payload, padding, bs, st, tx, rx, fwd, i, k);
      StreamingHear(payload, padding, bs, st, tx, rx, fwd, i, k);
    }
  }

  /** The receiver answers the first frame. */
  lemma TransferReply(payload: seq<byte>, padding: byte, ro: Options, tx: TxState, rx: RxState,
                      fwd: seq<seq<byte>>, back: seq<seq<byte>>)
    requires 1 <= |payload| <= MAX_FF_LENGTH && Transfer(payload, padding, ro, tx, rx, fwd, back)
    requires rx.RxReply? && rx.Valid()
    ensures Transfer(payload, padding, ro, tx, AfterReply(rx.total, rx.out), fwd, back + [FcData(ro)])
  {
    FfReceived(payload, padding);
  }

  /** The sender hears the answer. */
  lemma TransferGrant(side: Side, ro: Options, tx: TxState, rx: RxState, fwd: seq<seq<byte>>, back: seq<seq<byte>>)
    requires side.Valid() && Transfer(side.payload, side.opts.padding, ro, tx, rx, fwd, back)
    requires tx.TxAwait? && back != []
    ensures Transfer(side.payload, side.opts.padding, ro, AfterFc(side, tx.waits, back[0]), rx, fwd, back[1..])
  {
    var bs, st := ro.blockSize, Min(ro.stMinMs, MAX_ST_MS);
    FcRoundTrip(0, ro.blockSize, ro.stMinMs, ro.padding, side.opts.maxWaits);
    assert Streaming(side.payload, side.opts.padding, bs, st, TxBlock(0, 1, 0, bs, st), rx, [], 0, 0);
  }

  /** Nothing is in flight towards a sender that does not wait for it. */
  lemma TransferBack(payload: seq<byte>, padding: byte, ro: Options, tx: TxState, rx: RxState,
                     fwd: seq<seq<byte>>, back: seq<seq<byte>>)
    requires 1 <= |payload| <= MAX_FF_LENGTH && Transfer(payload, padding, ro, tx, rx, fwd, back)
    ensures back != [] ==> tx == TxAwait(0)
    ensures rx.RxDone? ==> rx.payload == payload && back == []
    ensures tx.TxDone? && rx.RxDone? ==> fwd == []
    ensures tx.TxDone? ==> Covers(payload, ro.blockSize)
    ensures Covers(payload, ro.blockSize) ==> !tx.TxFailed?
    ensures rx.Valid() && !rx.RxFailed? && (tx.TxFailed? ==> tx.error == Unsupported)
    ensures rx.RxDone? ==> tx.TxDone?
  {
  }

  // ---------------------------------------------------------------- queues

  /** A transfer seen through the queues it uses. */
  ghost predicate Flow(link: Link, sender: Side, receiver: Side, tx: TxState, rx: RxState,
                       fq: seq<seq<byte>>, bq: seq<seq<byte>>)
    requires sender.Valid()
  {
    Transfer(sender.payload, sender.opts.padding, receiver.opts, tx, rx,
             Held(link, sender.id, fq), Held(link, receiver.id, bq))
  }

  /** A step of the side that is transmitting. */
  lemma FlowSender(link: Link, sender: Side, receiver: Side, rx: RxState,
                   n: Node, bq: seq<seq<byte>>, fq: seq<seq<byte>>, n': Node, bq': seq<seq<byte>>, fq': seq<seq<byte>>)
    requires sender.Valid() && CarriesFrames(link, sender.id)
    requires Flow(link, sender, receiver, n.tx, rx, fq, bq)
    requires if sender.isClient then !n.tx.TxDone? else n.rx.RxDone?
    requires SideStep(link, sender, receiver.id, n, bq, fq, n', bq', fq')
    ensures n'.rx == n.rx && Flow(link, sender, receiver, n'.tx, rx, fq', bq')
  {
    var fwd, back := Held(link, sender.id, fq), Held(link, receiver.id, bq);
    if sender.CanSendTx(n) && fq' != fq {
      TransferSend(sender, receiver.opts, n.tx, rx, fwd, back);
      HeldAppend(link, sender.id, fq, link.encode(FrameFor(sender.id, TxData(sender, n.tx))));
    } else if Hears(link, receiver.id, bq[0]).Some? {
      TransferGrant(sender, receiver.opts, n.tx, rx, fwd, back);
    }
  }

  /** A step of the side that is receiving. */
  lemma FlowReceiver(link: Link, sender: Side, receiver: Side, tx: TxState,
                     n: Node, fq: seq<seq<byte>>, bq: seq<seq<byte>>,
                     n': Node, fq': seq<seq<byte>>, bq': seq<seq<byte>>)
    requires sender.Valid() && receiver.Valid() && CarriesFrames(link, receiver.id)
    requires Flow(link, sender, receiver, tx, n.rx, fq, bq)
    requires if receiver.isClient then n.tx.TxDone? else !n.rx.RxDone?
    requires SideStep(link, receiver, sender.id, n, fq, bq, n', fq', bq')
    ensures n'.tx == n.tx && Flow(link, sender, receiver, tx, n'.rx, fq', bq')
  {
    var fwd, back := Held(link, sender.id, fq), Held(link, receiver.id, bq);
    if receiver.CanSendFc(n) && bq' != bq {
      TransferReply(sender.payload, sender.opts.padding, receiver.opts, tx, n.rx, fwd, back);
      HeldAppend(link, receiver.id, bq, link.encode(FrameFor(receiver.id, FcData(receiver.opts))));
    } else if Hears(link, sender.id, fq[0]).Some? {
      TransferHear(sender.payload, sender.opts.padding, receiver.opts, tx, n.rx, fwd, back);
    }
  }

  // ---------------------------------------------------------------- every reachable state

  ghost predicate Requesting(c: Config, s: State)
    requires c.Valid()
  {
    && Flow(c.link, c.client, c.server, s.client.tx, s.server.rx, s.toServer, s.toClient)
    && s.server.tx == TxStart && s.client.rx == RxFirst
  }

  ghost predicate Responding(c: Config, s: State)
    requires c.Valid()
  {
    && Flow(c.link, c.server, c.client, s.server.tx, s.client.rx, s.toClient, s.toServer)
    && s.client.tx == TxDone && s.server.rx == RxDone(c.client.payload)
    && Covers(c.client.payload, c.server.opts.blockSize)
  }

  ghost predicate Inv(c: Config, s: State)
    requires c.Valid()
  {
    Requesting(c, s) || Responding(c, s)
  }

  lemma RequestFacts(c: Config, s: State)
    requires c.Valid() && Requesting(c, s)
    ensures Held(c.link, c.server.id, s.toClient) != [] ==> s.client.tx == TxAwait(0)
    ensures s.server.rx.RxDone? ==> Responding(c, s)
    ensures s.server.rx.Valid()
  {
    TransferBack(c.client.payload, c.client.opts.padding, c.server.opts, s.client.tx, s.server.rx,
                 Held(c.link, c.client.id, s.toServer), Held(c.link, c.server.id, s.toClient));
  }

  lemma ResponseFacts(c: Config, s: State)
    requires c.Valid() && Responding(c, s)
    ensures s.client.rx.RxDone? ==> s.client.rx.payload == c.server.payload
    ensures s.client.rx.Valid()
  {
    TransferBack(c.server.payload, c.server.opts.padding, c.client.opts, s.server.tx, s.client.rx,
                 Held(c.link, c.server.id, s.toClient), Held(c.link, c.client.id, s.toServer));
  }

  lemma NoiseKeeps(c: Config, s: State, s': State, datagram: seq<byte>)
    requires c.Valid() && NoiseStep(c, s, s', datagram)
    ensures Held(c.link, c.client.id, s'.toServer) == Held(c.link, c.client.id, s.toServer)
    ensures Held(c.link, c.server.id, s'.toClient) == Held(c.link, c.server.id, s.toClient)
  {
    HeldAppend(c.link, c.client.id, s.toServer, datagram);
    HeldAppend(c.link, c.server.id, s.toClient, datagram);
  }

  lemma InvStep(c: Config, s: State, s': State)
    requires c.Valid() && Inv(c, s) && Next(c, s, s')
    ensures Inv(c, s')
  {
    if datagram :| NoiseStep(c, s, s', datagram) {
      NoiseKeeps(c, s, s', datagram);
    } else if Requesting(c, s) && !s.server.rx.RxDone? {
      RequestStep(c, s, s');
    } else {
      if Requesting(c, s) {
        RequestFacts(c, s);
      }
      ResponseStep(c, s, s');
    }
  }

  lemma RequestStep(c: Config, s: State, s': State)
    requires c.Valid() && Requesting(c, s) && !s.server.rx.RxDone?
    requires ClientStep(c, s, s') || ServerStep(c, s, s')
    ensures Requesting(c, s')
  {
    RequestFacts(c, s);
    if ServerStep(c, s, s') {
      FlowReceiver(c.link, c.client, c.server, s.client.tx,
                   s.server, s.toServer, s.toClient, s'.server, s'.toServer, s'.toClient);
    } else if !s.client.tx.TxDone? {
      FlowSender(c.link, c.client, c.server, s.server.rx,
                 s.client, s.toClient, s.toServer, s'.client, s'.toClient, s'.toServer);
    }
  }

  lemma ResponseStep(c: Config, s: State, s': State)
    requires c.Valid() && Responding(c, s)
    requires ClientStep(c, s, s') || ServerStep(c, s, s')
    ensures Responding(c, s')
  {
    if ServerStep(c, s, s') {
      FlowSender(c.link, c.server, c.client, s.client.rx,
                 s.server, s.toServer, s.toClient, s'.server, s'.toServer, s'.toClient);
    } else {
      FlowReceiver(c.link, c.server, c.client, s.server.tx,
                   s.client, s.toClient, s.toServer, s'.client, s'.toClient, s'.toServer);
    }
  }

  lemma {:induction false} RunInv(c: Config, run: seq<State>, i: nat)
    requires c.Valid() && Run(c, run) && i < |run|
    ensures Inv(c, run[i])
  {
    if i > 0 {
      RunInv(c, run, i - 1);
      assert Next(c, run[i - 1], run[i - 1 + 1]);
      InvStep(c, run[i - 1], run[i]);
    }
  }

  /** Safety, whatever block sizes are advertised: nothing but the right payload is ever accepted, no
      reception fails, and a sender fails only as Unsupported. */
  lemma Safety(c: Config, run: seq<State>, i: nat)
    requires c.Valid() && Run(c, run) && i < |run|
    ensures var s := run[i];
            && (s.server.rx.RxDone? ==> s.server.rx.payload == c.client.payload)
            && (s.client.rx.RxDone? ==> s.client.rx.payload == c.server.payload)
            && !s.server.rx.RxFailed? && !s.client.rx.RxFailed?
            && (s.client.tx.TxFailed? ==> s.client.tx.error == Unsupported)
            && (s.server.tx.TxFailed? ==> s.server.tx.error == Unsupported)
  {
    RunInv(c, run, i);
    var s := run[i];
    if Requesting(c, s) {
      TransferBack(c.client.payload, c.client.opts.padding, c.server.opts, s.client.tx, s.server.rx,
                   Held(c.link, c.client.id, s.toServer), Held(c.link, c.server.id, s.toClient));
    } else {
      TransferBack(c.server.payload, c.server.opts.padding, c.client.opts, s.server.tx, s.client.rx,
                   Held(c.link, c.server.id, s.toClient), Held(c.link, c.client.id, s.toServer));
    }
  }

  /** An exchange can complete only when both advertised block sizes cover the frames to come. */
  lemma FinalNeedsCover(c: Config, run: seq<State>, i: nat)
    requires c.Valid() && Run(c, run) && i < |run| && Final(c, run[i])
    ensures BlocksCover(c)
  {
    RunInv(c, run, i);
    var s := run[i];
    if Requesting(c, s) {
      RequestFacts(c, s);
    }
    TransferBack(c.server.payload, c.server.opts.padding, c.client.opts, s.server.tx, s.client.rx,
                 Held(c.link, c.server.id, s.toClient), Held(c.link, c.client.id, s.toServer));
  }

  // ---------------------------------------------------------------- progress

  /** A transfer that is not complete can go on: someone can send, or a receiver waits for a frame in
      flight. */
  lemma TransferGoesOn(side: Side, ro: Options, tx: TxState, rx: RxState, fwd: seq<seq<byte>>, back: seq<seq<byte>>)
    requires side.Valid() && Transfer(side.payload, side.opts.padding, ro, tx, rx, fwd, back)
    requires Covers(side.payload, ro.blockSize) && !(tx.TxDone? && rx.RxDone?)
    ensures rx.Valid()
    ensures || tx.TxStart?
            || (tx.TxBlock? && FF_FIRST_PAYLOAD + tx.offset < |side.payload|)
            || rx.RxReply?
            || (tx.TxAwait? && back != [])
            || ((rx.RxFirst? || rx.RxCollect?) && fwd != [])
    ensures rx.RxDone? ==> tx.TxDone?
  {
  }

  predicate Enabled(side: Side, n: Node, inq: seq<seq<byte>>) {
    side.CanSendTx(n) || side.CanSendFc(n) || ((side.AwaitsFc(n) || side.AwaitsFrame(n)) && inq != [])
  }

  lemma EnabledSteps(link: Link, side: Side, peer: CanId, n: Node, inq: seq<seq<byte>>, outq: seq<seq<byte>>)
    returns (n': Node, inq': seq<seq<byte>>, outq': seq<seq<byte>>)
    requires side.Valid() && Enabled(side, n, inq)
    ensures SideStep(link, side, peer, n, inq, outq, n', inq', outq')
  {
    if side.CanSendTx(n) {
      n', inq' := n.(tx := AfterTx(side, n.tx)), inq;
      outq' := outq + [link.encode(FrameFor(side.id, TxData(side, n.tx)))];
    } else if side.CanSendFc(n) {
      n', inq' := n.(rx := AfterReply(n.rx.total, n.rx.out)), inq;
      outq' := outq + [link.encode(FrameFor(side.id, FcData(side.opts)))];
    } else {
      n', inq', outq' := AfterHearing(side, n, Hears(link, peer, inq[0])), inq[1..], outq;
    }
  }

  lemma FlowGoesOn(link: Link, sender: Side, receiver: Side, ns: Node, nr: Node, fq: seq<seq<byte>>, bq: seq<seq<byte>>)
    requires sender.Valid() && Flow(link, sender, receiver, ns.tx, nr.rx, fq, bq)
    requires Covers(sender.payload, receiver.opts.blockSize) && !(ns.tx.TxDone? && nr.rx.RxDone?)
    requires sender.Transmitting(ns) && (receiver.isClient ==> nr.tx.TxDone?)
    ensures Enabled(sender, ns, bq) || Enabled(receiver, nr, fq)
  {
    TransferGoesOn(sender, receiver.opts, ns.tx, nr.rx, Held(link, sender.id, fq), Held(link, receiver.id, bq));
  }

  lemma SomeoneEnabled(c: Config, s: State)
    requires c.Valid() && BlocksCover(c) && Inv(c, s) && !Final(c, s)
    ensures Enabled(c.client, s.client, s.toClient) || Enabled(c.server, s.server, s.toServer)
  {
    if Requesting(c, s) && !s.server.rx.RxDone? {
      FlowGoesOn(c.link, c.client, c.server, s.client, s.server, s.toServer, s.toClient);
    } else {
      if Requesting(c, s) {
        RequestFacts(c, s);
      }
      ResponseFacts(c, s);
      FlowGoesOn(c.link, c.server, c.client, s.server, s.client, s.toClient, s.toServer);
    }
  }

  /** With block sizes that cover, a run that has not reached a final state can be continued. */
  lemma NeverStuck(c: Config, run: seq<State>)
    requires c.Valid() && BlocksCover(c) && Run(c, run) && !Final(c, run[|run| - 1])
    ensures CanStep(c, run[|run| - 1])
  {
    var s := run[|run| - 1];
    RunInv(c, run, |run| - 1);
    SomeoneEnabled(c, s);
    if Enabled(c.client, s.client, s.toClient) {
      var n', in', out' := EnabledSteps(c.link, c.client, c.server.id, s.client, s.toClient, s.toServer);
      var s' := s.(client := n', toClient := in', toServer := out');
      assert ClientStep(c, s, s') && Next(c, s, s');
    } else {
      var n', in', out' := EnabledSteps(c.link, c.server, c.client.id, s.server, s.toServer, s.toClient);
      var s' := s.(server := n', toServer := in', toClient := out');
      assert ServerStep(c, s, s') && Next(c, s, s');
    }
  }

  // ---------------------------------------------------------------- termination

  function TxWork(side: Side, tx: TxState): nat {
    var n := if |side.payload| <= FF_FIRST_PAYLOAD then 0 else NumCf(|side.payload| - FF_FIRST_PAYLOAD);
    match tx
    case TxStart => 2 * n + 2
    case TxAwait(_) => 2 * n
    case TxBlock(offset, _, _, _, _) =>
      if FF_FIRST_PAYLOAD + offset < |side.payload| then 2 * NumCf(|side.payload| - FF_FIRST_PAYLOAD - offset) else 0
    case _ => 0
  }

  function RxWork(rx: RxState): nat {
    if rx.RxFirst? || rx.RxReply? then 2 else 0
  }

  function NodeWork(side: Side, n: Node): nat {
    TxWork(side, n.tx) + RxWork(n.rx)
  }

  /** Frames still to send count twice, frames and noise in flight once, noise to come twice. */
  function Work(c: Config, s: State): nat {
    NodeWork(c.client, s.client) + NodeWork(c.server, s.server) + |s.toServer| + |s.toClient| + 2 * s.noise
  }

  lemma SideStepWorks(link: Link, side: Side, peer: CanId, n: Node, inq: seq<seq<byte>>, outq: seq<seq<byte>>,
                      n': Node, inq': seq<seq<byte>>, outq': seq<seq<byte>>)
    requires side.Valid() && SideStep(link, side, peer, n, inq, outq, n', inq', outq')
    ensures NodeWork(side, n') + |inq'| + |outq'| < NodeWork(side, n) + |inq| + |outq|
  {
    if side.CanSendTx(n) && n.tx.TxBlock? {
      var left := |side.payload| - FF_FIRST_PAYLOAD - n.tx.offset;
      assert left > 7 ==> NumCf(left - 7) == NumCf(left) - 1;
    }
  }

  lemma StepWorks(c: Config, s: State, s': State)
    requires c.Valid() && Next(c, s, s')
    ensures Work(c, s') < Work(c, s)
  {
    if ClientStep(c, s, s') {
      SideStepWorks(c.link, c.client, c.server.id, s.client, s.toClient, s.toServer,
                    s'.client, s'.toClient, s'.toServer);
    } else if ServerStep(c, s, s') {
      SideStepWorks(c.link, c.server, c.client.id, s.server, s.toServer, s.toClient,
                    s'.server, s'.toServer, s'.toClient);
    }
  }

  lemma {:induction false} WorkUsed(c: Config, run: seq<State>, i: nat)
    requires c.Valid() && Run(c, run) && i < |run|
    ensures i + Work(c, run[i]) <= Work(c, run[0])
  {
    if i > 0 {
      WorkUsed(c, run, i - 1);
      assert Next(c, run[i - 1], run[i - 1 + 1]);
      StepWorks(c, run[i - 1], run[i]);
    }
  }

  /** Every run is finite: each step uses up work, of which there are two units per frame to send,
      two per unrelated datagram and eight besides. */
  lemma RunsEnd(c: Config, run: seq<State>)
    requires c.Valid() && Run(c, run)
    ensures var (req, resp) := (c.client.payload, c.server.payload);
            |run| <= 9 + 2 * run[0].noise
                     + (if |req| <= FF_FIRST_PAYLOAD then 0 else 2 * NumCf(|req| - FF_FIRST_PAYLOAD))
                     + (if |resp| <= FF_FIRST_PAYLOAD then 0 else 2 * NumCf(|resp| - FF_FIRST_PAYLOAD))
  {
    WorkUsed(c, run, |run| - 1);
  }

  ghost predicate Maximal(c: Config, run: seq<State>)
    requires c.Valid()
  {
    Run(c, run) && !CanStep(c, run[|run| - 1])
  }

  /** The exchange: with covering block sizes every interleaving that has run its course has ended
      with the request delivered and the response returned; without, none ever does. */
  lemma Exchange(c: Config, run: seq<State>)
    requires c.Valid() && Maximal(c, run)
    ensures Final(c, run[|run| - 1]) <==> BlocksCover(c)
  {
    var last := |run| - 1;
    if Final(c, run[last]) {
      FinalNeedsCover(c, run, last);
    }
    if BlocksCover(c) && !Final(c, run[last]) {
      NeverStuck(c, run);
    }
  }
}
