/** CAN frames and their kernel wire format (mcanbus/src/frame.rs).

  `from_ne_bytes` depends on the machine, hence the ByteOrder parameter.
 */
module Frames {
  import opened Bits
  import opened Ids

  datatype Option<+T> = None | Some(value: T)
  datatype Result<+T, +E> = Ok(value: T) | Err(error: E)

  const CANFD_BRS: byte := 0x01
  const CANFD_ESI: byte := 0x02
  const CAN_FRAME_SIZE: nat := 16
  const CANFD_FRAME_SIZE: nat := 72
  const MAX_DATA_LEN: nat := 8
  const MAX_FD_DATA_LEN: nat := 64
  const HEADER_SIZE: nat := 8

  function Min(a: nat, b: nat): nat {
    if a <= b then a else b
  }

  function Zeros(n: nat): (s: seq<byte>)
    ensures |s| == n
  {
    seq(n, i => 0)
  }

  // ---------------------------------------------------------------- frames

  datatype FdFlags = FdFlags(brs: bool, esi: bool) {
    function ToWire(): byte {
      (if brs then CANFD_BRS else 0) + (if esi then CANFD_ESI else 0)
    }
  }

  /** Bits 0 and 1 of the flags byte; the others are ignored. */
  function FlagsFromWire(wire: byte): FdFlags {
    FdFlags(wire % 2 == 1, wire / 2 % 2 == 1)
  }

  datatype FrameKind = Classic | Fd(flags: FdFlags)

  type DataBuf = s: seq<byte> | |s| == 64 witness Zeros(64)

  datatype Frame = Frame(id: CanId, kind: FrameKind, len: byte, dataBuf: DataBuf, timestamp: Option<nat>) {
    /** Slicing a 64-byte buffer by `len` panics beyond 64. */
    function Data(): seq<byte>
      requires len <= MAX_FD_DATA_LEN
    {
      dataBuf[..len]
    }

    function MaxLen(): nat {
      if kind.Classic? then MAX_DATA_LEN else MAX_FD_DATA_LEN
    }

    predicate WellFormed() {
      id.InRange() && len <= MaxLen()
    }
  }

  /** A frame whose contents can be read. */
  type ReadableFrame = f: Frame | f.len <= MAX_FD_DATA_LEN witness Frame(Standard(0), Classic, 0, Zeros(64), None)

  datatype FrameError = DataTooLong(len: nat, max: nat)

  function Padded(data: seq<byte>): DataBuf
    requires |data| <= MAX_FD_DATA_LEN
  {
    data + Zeros(MAX_FD_DATA_LEN - |data|)
  }

  function NewClassic(id: CanId, data: seq<byte>): (r: Result<Frame, FrameError>)
    ensures r.Ok? <==> |data| <= MAX_DATA_LEN
    ensures r.Ok? ==> r.value.len == |data| && r.value.Data() == data && r.value.id == id
    ensures r.Ok? ==> (r.value.WellFormed() <==> id.InRange())
    ensures r.Ok? ==> r.value.kind == Classic && r.value.timestamp == None
  {
    if |data| > MAX_DATA_LEN then Err(DataTooLong(|data|, MAX_DATA_LEN))
    else Ok(Frame(id, Classic, |data|, Padded(data), None))
  }

  function NewFd(id: CanId, data: seq<byte>, flags: FdFlags): (r: Result<Frame, FrameError>)
    ensures r.Ok? <==> |data| <= MAX_FD_DATA_LEN
    ensures r.Ok? ==> r.value.len == |data| && r.value.Data() == data && r.value.id == id
    ensures r.Ok? ==> (r.value.WellFormed() <==> id.InRange())
    ensures r.Ok? ==> r.value.kind == Fd(flags) && r.value.timestamp == None
  {
    if |data| > MAX_FD_DATA_LEN then Err(DataTooLong(|data|, MAX_FD_DATA_LEN))
    else Ok(Frame(id, Fd(flags), |data|, Padded(data), None))
  }

  // ---------------------------------------------------------------- wire format

  datatype ByteOrder = LittleEndian | BigEndian

  function Put32(o: ByteOrder, x: u32): (s: seq<byte>)
    ensures |s| == 4
  {
    var b0, b1, b2, b3 := x % 0x100, x / 0x100 % 0x100, x / 0x1_0000 % 0x100, x / 0x100_0000;
    if o.LittleEndian? then [b0, b1, b2, b3] else [b3, b2, b1, b0]
  }

  function Join(b0: int, b1: int, b2: int, b3: int): int {
    b0 + 0x100 * b1 + 0x1_0000 * b2 + 0x100_0000 * b3
  }

  function Get32(o: ByteOrder, s: seq<byte>): u32
    requires |s| == 4
  {
    if o.LittleEndian? then Join(s[0], s[1], s[2], s[3]) else Join(s[3], s[2], s[1], s[0])
  }

  lemma JoinParts(x: u32)
    ensures Join(x % 0x100, x / 0x100 % 0x100, x / 0x1_0000 % 0x100, x / 0x100_0000) == x
  {
    assert x / 0x1_0000 == x / 0x100 / 0x100 && x / 0x100_0000 == x / 0x1_0000 / 0x100;
  }

  lemma Get32Put32(o: ByteOrder, x: u32)
    ensures Get32(o, Put32(o, x)) == x
  {
    JoinParts(x);
  }

  lemma LowByte(x: nat)
    ensures And(x, 0xFF) == x % 0x100
  {
    assert Shl(1, 8) == 0x100;
    AndLow(8, 0x100, x / 0x100, x % 0x100, 0xFF);
  }

  /** Memory holds the bytes of a value lowest first, or highest first. */
  lemma Put32Bytes(x: u32)
    ensures Put32(LittleEndian, x) == [And(x, 0xFF), And(x / 0x100, 0xFF), And(x / 0x1_0000, 0xFF), x / 0x100_0000]
    ensures Put32(BigEndian, x) == [x / 0x100_0000, And(x / 0x1_0000, 0xFF), And(x / 0x100, 0xFF), And(x, 0xFF)]
  {
    LowByte(x);
    LowByte(x / 0x100);
    LowByte(x / 0x1_0000);
  }

  datatype WireFrame = WireFrame(canId: u32, len: byte, flags: byte, data: DataBuf) {
    /** The `repr(C)` image of the struct; both reserved bytes are zero. */
    function Image(o: ByteOrder): (s: seq<byte>)
      ensures |s| == CANFD_FRAME_SIZE
    {
      Put32(o, canId) + [len, flags, 0, 0] + data
    }
  }

  function FromFrame(f: Frame): WireFrame
    requires f.len <= MAX_FD_DATA_LEN
  {
    WireFrame(f.id.ToWire(), f.len, if f.kind.Fd? then f.kind.flags.ToWire() else 0, Padded(f.Data()))
  }

  function WireSize(isFd: bool): nat {
    if isFd then CANFD_FRAME_SIZE else CAN_FRAME_SIZE
  }

  /** What `Socket::send` writes. */
  function SentBytes(o: ByteOrder, f: Frame): (s: seq<byte>)
    requires f.len <= MAX_FD_DATA_LEN
    ensures |s| == WireSize(f.kind.Fd?)
  {
    FromFrame(f).Image(o)[..WireSize(f.kind.Fd?)]
  }

  datatype DecodedFrame =
    | Data(frame: Frame)
    | Rtr(id: CanId, len: byte)
    | ErrorFrame(errClass: u32, errData: seq<byte>, errLen: byte)

  function DecodeWire(o: ByteOrder, buf: seq<byte>, timestamp: Option<nat>): Option<DecodedFrame> {
    if |buf| < CAN_FRAME_SIZE then None
    else Some(DecodeBody(Get32(o, buf[..4]), buf[4], buf[5], buf, timestamp))
  }

  function DecodeBody(canId: u32, payloadLen: byte, fdFlags: byte, buf: seq<byte>, timestamp: Option<nat>): DecodedFrame
    requires |buf| >= CAN_FRAME_SIZE
  {
    if IsError(canId) then
      var n := Min(Min(payloadLen, 8), |buf| - HEADER_SIZE);
      ErrorFrame(canId % 0x2000_0000, buf[HEADER_SIZE..HEADER_SIZE + n] + Zeros(8 - n), n)
    else if IsRtr(canId) then
      Rtr(FromWire(canId), payloadLen)
    else
      var isFd := |buf| == CANFD_FRAME_SIZE;
      var len := Min(payloadLen, if isFd then MAX_FD_DATA_LEN else MAX_DATA_LEN);
      var take := Min(len, |buf| - HEADER_SIZE);
      var kind := if isFd then Fd(FlagsFromWire(fdFlags)) else Classic;
      Data(Frame(FromWire(canId), kind, take, Padded(buf[HEADER_SIZE..HEADER_SIZE + take]), timestamp))
  }

  /** A frame and the frame a receiver got from its bytes agree on all but buffer tail and time. */
  predicate SameMessage(f: Frame, g: Frame)
    requires f.len <= MAX_FD_DATA_LEN && g.len <= MAX_FD_DATA_LEN
  {
    f.id == g.id && f.kind == g.kind && f.Data() == g.Data()
  }

  /** Reading and writing the flags is masking with, and setting, their bits. */
  lemma FlagsAreBitwise(flags: FdFlags, wire: byte)
    ensures FlagsFromWire(wire) == FdFlags(And(wire, CANFD_BRS) != 0, And(wire, CANFD_ESI) != 0)
    ensures flags.ToWire() as nat == Or(if flags.brs then CANFD_BRS else 0, if flags.esi then CANFD_ESI else 0)
  {
    FlagByte(wire);
    assert Or(1, 2) == 3;
  }

  lemma FlagsRoundTrip(flags: FdFlags)
    ensures FlagsFromWire(flags.ToWire()) == flags
  {
  }

  lemma SentHeader(o: ByteOrder, f: Frame)
    requires f.len <= MAX_FD_DATA_LEN
    ensures var s := SentBytes(o, f);
            && s[..4] == Put32(o, f.id.ToWire())
            && s[4] == f.len
            && (f.kind.Fd? ==> s[5] == f.kind.flags.ToWire())
            && s[HEADER_SIZE..] == Padded(f.Data())[..|s| - HEADER_SIZE]
  {
    var w := FromFrame(f);
    var image := w.Image(o);
    assert image == Put32(o, w.canId) + ([w.len, w.flags, 0, 0] + w.data);
    assert image[HEADER_SIZE..] == w.data;
  }

  /** What is sent besides: reserved bytes, unused data and the flags of a classic frame are zero. */
  lemma SentRestIsZero(o: ByteOrder, f: Frame)
    requires f.len <= MAX_FD_DATA_LEN
    ensures var s := SentBytes(o, f);
            && s[6] == 0 && s[7] == 0 && (f.kind.Classic? ==> s[5] == 0)
            && forall i :: HEADER_SIZE + f.len as nat <= i < |s| ==> s[i] == 0
  {
    var w := FromFrame(f);
    assert w.Image(o) == Put32(o, w.canId) + ([w.len, w.flags, 0, 0] + w.data);
  }

  /** A new frame's buffer is zero after its data. */
  lemma NewRestIsZero(id: CanId, data: seq<byte>, flags: FdFlags, i: nat)
    requires |data| <= i < MAX_FD_DATA_LEN
    ensures NewClassic(id, data).Ok? ==> NewClassic(id, data).value.dataBuf[i] == 0
    ensures NewFd(id, data, flags).Ok? ==> NewFd(id, data, flags).value.dataBuf[i] == 0
  {
  }

  lemma SentDecodes(w: u32, flags: byte, f: Frame, s: seq<byte>, ts: Option<nat>)
    requires f.len <= MAX_FD_DATA_LEN && |s| == WireSize(f.kind.Fd?)
    requires !IsRtr(w) && !IsError(w)
    requires f.kind.Fd? ==> FlagsFromWire(flags) == f.kind.flags
    requires s[HEADER_SIZE..] == Padded(f.Data())[..|s| - HEADER_SIZE]
    ensures var take := Min(f.len, f.MaxLen());
            DecodeBody(w, f.len, flags, s, ts) == Data(Frame(FromWire(w), f.kind, take, Padded(f.Data()[..take]), ts))
  {
    var take := Min(f.len, f.MaxLen());
    assert s[HEADER_SIZE..HEADER_SIZE + take] == s[HEADER_SIZE..][..take] == f.Data()[..take];
  }

  ghost function Received(f: Frame, ts: Option<nat>): (g: Frame)
    requires f.len <= MAX_FD_DATA_LEN
    ensures g.len <= MAX_FD_DATA_LEN && g.Data() == f.Data()[..Min(f.len, f.MaxLen())]
  {
    var take := Min(f.len, f.MaxLen());
    Frame(FromWire(f.id.ToWire()), f.kind, take, Padded(f.Data()[..take]), ts)
  }

  /** Everything sent is received as a data frame: the frame masked into range and cut to the
      limit of its kind... */
  lemma SentIsData(o: ByteOrder, f: Frame, ts: Option<nat>)
    requires f.len <= MAX_FD_DATA_LEN
    ensures DecodeWire(o, SentBytes(o, f), ts) == Some(Data(Received(f, ts)))
  {
    SentHeader(o, f);
    Get32Put32(o, f.id.ToWire());
    IdRoundTrip(f.id);
    if f.kind.Fd? {
      FlagsRoundTrip(f.kind.flags);
    }
    SentDecodes(f.id.ToWire(), SentBytes(o, f)[5], f, SentBytes(o, f), ts);
  }

  /** ...so the message survives exactly when the frame was well-formed. */
  lemma WireRoundTrip(o: ByteOrder, f: Frame, ts: Option<nat>)
    requires f.len <= MAX_FD_DATA_LEN
    ensures Carries(DecodeWire(o, SentBytes(o, f), ts), f, ts) <==> f.WellFormed()
  {
    SentIsData(o, f, ts);
    IdRoundTrip(f.id);
    assert f.WellFormed() ==> f.Data()[..f.len] == f.Data();
  }

  ghost predicate Carries(d: Option<DecodedFrame>, f: Frame, ts: Option<nat>)
    requires f.len <= MAX_FD_DATA_LEN
  {
    && d.Some? && d.value.Data?
    && var g := d.value.frame;
       g.len <= MAX_FD_DATA_LEN && SameMessage(f, g) && g.timestamp == ts
  }

  /** Which of the four outcomes a buffer has, for every buffer; data frames are well-formed. */
  lemma DecodeOutcome(o: ByteOrder, buf: seq<byte>, ts: Option<nat>)
    ensures DecodeWire(o, buf, ts).None? <==> |buf| < CAN_FRAME_SIZE
    ensures |buf| >= CAN_FRAME_SIZE ==>
              var w, d := Get32(o, buf[..4]), DecodeWire(o, buf, ts).value;
              && (d.ErrorFrame? <==> IsError(w))
              && (d.Rtr? <==> !IsError(w) && IsRtr(w))
              && (d.Rtr? ==> d.id == FromWire(w) && d.len == buf[4])
              && (d.ErrorFrame? ==> d.errClass < 0x2000_0000 && d.errClass == And(w, CAN_EFF_MASK))
              && (d.ErrorFrame? ==>
                    && |d.errData| == 8 && d.errLen == Min(Min(buf[4], 8), |buf| - HEADER_SIZE)
                    && d.errData[..d.errLen] <= buf[HEADER_SIZE..])
              && (d.Data? ==>
                    && d.frame.WellFormed()
                    && d.frame.id == FromWire(w)
                    && d.frame.timestamp == ts
                    && d.frame.kind == (if |buf| == CANFD_FRAME_SIZE then Fd(FlagsFromWire(buf[5])) else Classic)
                    && d.frame.len == Min(buf[4], d.frame.MaxLen())
                    && d.frame.Data() <= buf[HEADER_SIZE..])
  {
    if |buf| >= CAN_FRAME_SIZE {
      WireIdNormalForm(Get32(o, buf[..4]));
      MasksAreBitwise(Get32(o, buf[..4]));
    }
  }

  /** Decoding is a normal form: re-encoding a decoded frame and decoding again gives the same
      frame, buffer tail included. */
  lemma DecodeNormalForm(o: ByteOrder, buf: seq<byte>, ts: Option<nat>)
    ensures var d := DecodeWire(o, buf, ts);
            d.Some? && d.value.Data? ==>
              var f := d.value.frame;
              f.WellFormed() && DecodeWire(o, SentBytes(o, f), ts) == Some(Data(f))
  {
    DecodeOutcome(o, buf, ts);
    var d := DecodeWire(o, buf, ts);
    if d.Some? && d.value.Data? {
      var f := d.value.frame;
      SentIsData(o, f, ts);
      IdRoundTrip(f.id);
      assert f.dataBuf == Padded(f.Data());
      assert f.Data()[..f.len] == f.Data();
    }
  }
}
