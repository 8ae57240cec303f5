/** Reading a CAN controller's state from an RTM_GETLINK reply: netlink attributes, three levels
  deep (mcanbus/src/iface.rs:295-447, after the socket calls).
 */
module Netlink {
  import opened Bits
  import opened Frames

  const IFLA_LINKINFO: u16 := 18
  const IFLA_INFO_KIND: u16 := 1
  const IFLA_INFO_DATA: u16 := 2
  const IFLA_CAN_STATE: u16 := 4
  const NLMSG_ERROR: u16 := 2
  const NLA_HEADER: nat := 4
  const MESSAGE_HEADER: nat := 16
  const ATTRS_START: nat := 32 // after nlmsghdr and ifinfomsg

  // ---------------------------------------------------------------- integers in memory

  function Put16(o: ByteOrder, x: u16): (s: seq<byte>)
    ensures |s| == 2
  {
    if o.LittleEndian? then [x % 0x100, x / 0x100] else [x / 0x100, x % 0x100]
  }

  function Join16(low: int, high: int): int {
    low + 0x100 * high
  }

  function Get16(o: ByteOrder, s: seq<byte>): u16
    requires |s| == 2
  {
    if o.LittleEndian? then Join16(s[0], s[1]) else Join16(s[1], s[0])
  }

  lemma Put16Get16(o: ByteOrder, s: seq<byte>)
    requires |s| == 2
    ensures Put16(o, Get16(o, s)) == s
  {
    var low, high: int := if o.LittleEndian? then s[0] else s[1], if o.LittleEndian? then s[1] else s[0];
    assert Join16(low, high) / 0x100 == high && Join16(low, high) % 0x100 == low;
  }

  /** Memory holds the bytes of a value lowest first, or highest first. */
  lemma Put16Bytes(x: u16)
    ensures Put16(LittleEndian, x) == [And(x, 0xFF), x / 0x100]
    ensures Put16(BigEndian, x) == [x / 0x100, And(x, 0xFF)]
  {
    assert Shl(1, 8) == 0x100;
    AndLow(8, 0x100, x / 0x100, x % 0x100, 0xFF);
  }

  function NlaAlign(len: nat): (n: nat)
    ensures n >= len
  {
    (len + 3) / 4 * 4
  }

  function AttrType(raw: u16): u16 {
    raw % 0x4000
  }

  /** `(len + 3) & !3` in a machine word of k + 2 bits. */
  lemma AlignIsBitwise(k: nat, len: nat)
    requires len + 3 < 4 * Shl(1, k)
    ensures NlaAlign(len) == And(len + 3, 4 * (Shl(1, k) - 1))
  {
    var n := len + 3;
    assert Shl(1, 2) == 4;
    AndSplit(2, 4, n / 4, n % 4, Shl(1, k) - 1, 0);
    AndOnes(k, n / 4);
    assert And(n % 4, 0) == 0;
  }

  /** `& NLA_TYPE_MASK` */
  lemma TypeMaskIsBitwise(raw: u16)
    ensures AttrType(raw) == And(raw, 0x3FFF)
  {
    assert Shl(1, 10) == 1024;
    assert Shl(1, 14) == 0x4000;
    AndLow(14, 0x4000, raw / 0x4000, raw % 0x4000, 0x3FFF);
  }

  // ---------------------------------------------------------------- attributes and their layout

  datatype Attr = Attr(rawType: u16, payload: seq<byte>, padding: seq<byte>) {
    function Length(): nat { NLA_HEADER + |payload| }

    predicate Fits() { Length() < 0x1_0000 }

    function Bytes(o: ByteOrder): (s: seq<byte>)
      requires Fits()
      ensures |s| == Length() + |padding|
    {
      Put16(o, Length()) + Put16(o, rawType) + payload + padding
    }
  }

  predicate Aligned(a: Attr) {
    a.Length() + |a.padding| == NlaAlign(a.Length())
  }

  /** Each attribute is padded to a multiple of four bytes, the last one possibly less. */
  predicate Laid(attrs: seq<Attr>) {
    forall i :: 0 <= i < |attrs| ==>
      && attrs[i].Fits()
      && attrs[i].Length() + |attrs[i].padding| <= NlaAlign(attrs[i].Length())
      && (i < |attrs| - 1 ==> Aligned(attrs[i]))
  }

  /** Only an aligned attribute can have bytes after it. */
  predicate Followable(attrs: seq<Attr>, tail: seq<byte>) {
    tail != [] && attrs != [] ==> Aligned(attrs[|attrs| - 1])
  }

  function Serialize(o: ByteOrder, attrs: seq<Attr>): seq<byte>
    requires forall i :: 0 <= i < |attrs| ==> attrs[i].Fits()
  {
    if attrs == [] then [] else attrs[0].Bytes(o) + Serialize(o, attrs[1..])
  }

  /** The payload of the first attribute of a type; flag bits in the stored type do not matter. */
  function Lookup(attrs: seq<Attr>, ty: u16): Option<seq<byte>> {
    if attrs == [] then None
    else if AttrType(attrs[0].rawType) == ty then Some(attrs[0].payload)
    else Lookup(attrs[1..], ty)
  }

  ghost predicate FirstOf(attrs: seq<Attr>, ty: u16, i: nat) {
    && i < |attrs| && AttrType(attrs[i].rawType) == ty
    && forall j :: 0 <= j < i ==> AttrType(attrs[j].rawType) != ty
  }

  lemma {:induction false} LookupIsFirst(attrs: seq<Attr>, ty: u16)
    ensures forall i: nat :: FirstOf(attrs, ty, i) ==> Lookup(attrs, ty) == Some(attrs[i].payload)
    ensures Lookup(attrs, ty).None? <==> forall i :: 0 <= i < |attrs| ==> AttrType(attrs[i].rawType) != ty
  {
    if attrs != [] {
      LookupIsFirst(attrs[1..], ty);
      forall i: nat | FirstOf(attrs, ty, i)
        ensures Lookup(attrs, ty) == Some(attrs[i].payload)
      {
        if i > 0 {
          assert FirstOf(attrs[1..], ty, i - 1);
        }
      }
    }
  }

  // ---------------------------------------------------------------- the walk

  function LengthAt(o: ByteOrder, buf: seq<byte>): u16
    requires |buf| >= NLA_HEADER
  {
    Get16(o, buf[..2])
  }

  /** Nothing more to walk: no room for a header, or a length out of range. */
  predicate Stuck(o: ByteOrder, buf: seq<byte>) {
    |buf| < NLA_HEADER || LengthAt(o, buf) < NLA_HEADER || LengthAt(o, buf) > |buf|
  }

  /** What is found in `buf`. */
  function Walk(o: ByteOrder, buf: seq<byte>, ty: u16): Option<seq<byte>>
    decreases |buf|
  {
    if Stuck(o, buf) then None
    else
      var len := LengthAt(o, buf);
      if AttrType(Get16(o, buf[2..4])) == ty then Some(buf[NLA_HEADER..len])
      else if NlaAlign(len) > |buf| then None
      else Walk(o, buf[NlaAlign(len)..], ty)
  }

  /** `nl_find_attr` */
  method FindAttr(o: ByteOrder, buf: seq<byte>, ty: u16) returns (r: Option<seq<byte>>)
    ensures r == Walk(o, buf, ty)
  {
    var off := 0;
    while off + NLA_HEADER <= |buf|
      invariant if off <= |buf| then Walk(o, buf[off..], ty) == Walk(o, buf, ty) else Walk(o, buf, ty) == None
      decreases |buf| - off
    {
      assert buf[off..][..2] == buf[off..off + 2] && buf[off..][2..4] == buf[off + 2..off + 4];
      var nlaLen := Get16(o, buf[off..off + 2]);
      var found := AttrType(Get16(o, buf[off + 2..off + 4]));
      if nlaLen < NLA_HEADER || off + nlaLen > |buf| {
        break;
      }
      if found == ty {
        assert buf[off..][NLA_HEADER..nlaLen] == buf[off + NLA_HEADER..off + nlaLen];
        return Some(buf[off + NLA_HEADER..off + nlaLen]);
      }
      assert off + NlaAlign(nlaLen) <= |buf| ==> buf[off..][NlaAlign(nlaLen)..] == buf[off + NlaAlign(nlaLen)..];
      off := off + NlaAlign(nlaLen);
    }
    return None;
  }

  /** The head of a serialised attribute reads back. */
  lemma HeadReads(o: ByteOrder, a: Attr, later: seq<byte>)
    requires a.Fits()
    ensures var buf := a.Bytes(o) + later;
            && LengthAt(o, buf) == a.Length() <= |buf|
            && Get16(o, buf[2..4]) == a.rawType
            && buf[NLA_HEADER..a.Length()] == a.payload
            && buf[a.Length() + |a.padding|..] == later
  {
    var buf := a.Bytes(o) + later;
    assert buf[..2] == Put16(o, a.Length()) && buf[2..4] == Put16(o, a.rawType);
  }

  /** The walk passes over one attribute. */
  lemma WalkOver(o: ByteOrder, buf: seq<byte>, a: Attr, later: seq<byte>, ty: u16)
    requires |buf| >= NLA_HEADER && LengthAt(o, buf) == a.Length() <= |buf|
    requires Get16(o, buf[2..4]) == a.rawType && buf[NLA_HEADER..a.Length()] == a.payload
    requires if Aligned(a) then NlaAlign(a.Length()) <= |buf| && buf[NlaAlign(a.Length())..] == later
             else NlaAlign(a.Length()) > |buf| && later == []
    ensures Walk(o, buf, ty) == if AttrType(a.rawType) == ty then Some(a.payload) else Walk(o, later, ty)
  {
  }

  lemma SerializeCons(o: ByteOrder, a: Attr, others: seq<Attr>, tail: seq<byte>)
    requires a.Fits() && Laid(others)
    ensures forall i :: 0 <= i < |[a] + others| ==> ([a] + others)[i].Fits()
    ensures Serialize(o, [a] + others) + tail == a.Bytes(o) + (Serialize(o, others) + tail)
  {
    assert ([a] + others)[1..] == others;
  }

  /** Attributes laid out one after another, and the bytes after them. */
  lemma LaidCons(o: ByteOrder, a: Attr, others: seq<Attr>, tail: seq<byte>)
    requires a.Fits() && a.Length() + |a.padding| <= NlaAlign(a.Length())
    requires Laid(others) && Followable(others, tail)
    requires Aligned(a) || (others == [] && tail == [])
    ensures Laid([a] + others) && Followable([a] + others, tail)
  {
    var attrs := [a] + others;
    assert forall i :: 0 < i < |attrs| ==> attrs[i] == others[i - 1];
  }

  lemma LaidTail(attrs: seq<Attr>, tail: seq<byte>)
    requires attrs != [] && Laid(attrs) && Followable(attrs, tail)
    ensures Laid(attrs[1..]) && Followable(attrs[1..], tail)
    ensures attrs == [attrs[0]] + attrs[1..]
    ensures Aligned(attrs[0]) || (attrs[1..] == [] && tail == [])
  {
  }

  /** The walk inverts serialisation, whatever stops it after the attributes. */
  lemma {:induction false} WalkInverts(o: ByteOrder, attrs: seq<Attr>, tail: seq<byte>, ty: u16)
    requires Laid(attrs) && Stuck(o, tail) && Followable(attrs, tail)
    ensures Walk(o, Serialize(o, attrs) + tail, ty) == Lookup(attrs, ty)
  {
    if attrs == [] {
      assert Serialize(o, attrs) + tail == tail;
    } else {
      var a, later := attrs[0], Serialize(o, attrs[1..]) + tail;
      LaidTail(attrs, tail);
      WalkInverts(o, attrs[1..], tail, ty);
      HeadReads(o, a, later);
      assert !Aligned(a) ==> later == [];
      SerializeCons(o, a, attrs[1..], tail);
      WalkOver(o, a.Bytes(o) + later, a, later, ty);
    }
  }

  function AttrAt(o: ByteOrder, buf: seq<byte>): (a: Attr)
    requires !Stuck(o, buf)
    ensures a.Fits() && a.Length() + |a.padding| == Min(NlaAlign(a.Length()), |buf|)
  {
    var len := LengthAt(o, buf);
    Attr(Get16(o, buf[2..4]), buf[NLA_HEADER..len], buf[len..Min(NlaAlign(len), |buf|)])
  }

  lemma AttrAtReads(o: ByteOrder, buf: seq<byte>)
    requires !Stuck(o, buf)
    ensures buf == AttrAt(o, buf).Bytes(o) + buf[Min(NlaAlign(LengthAt(o, buf)), |buf|)..]
  {
    Put16Get16(o, buf[..2]);
    Put16Get16(o, buf[2..4]);
  }

  /** Any bytes at all are attributes laid out that way and a remainder that stops the walk. */
  lemma {:induction false} AnyBytes(o: ByteOrder, buf: seq<byte>) returns (attrs: seq<Attr>, tail: seq<byte>)
    ensures Laid(attrs) && Stuck(o, tail) && buf == Serialize(o, attrs) + tail
    ensures Followable(attrs, tail)
    decreases |buf|
  {
    if Stuck(o, buf) {
      attrs, tail := [], buf;
    } else {
      var a, next := AttrAt(o, buf), Min(NlaAlign(LengthAt(o, buf)), |buf|);
      AttrAtReads(o, buf);
      var others;
      others, tail := AnyBytes(o, buf[next..]);
      assert !Aligned(a) ==> buf[next..] == [];
      LaidCons(o, a, others, tail);
      SerializeCons(o, a, others, tail);
      attrs := [a] + others;
    }
  }

  /** So on any bytes the walk finds the first attribute of each type. */
  lemma WalkFindsFirst(o: ByteOrder, buf: seq<byte>) returns (attrs: seq<Attr>, tail: seq<byte>)
    ensures Laid(attrs) && Stuck(o, tail) && Followable(attrs, tail) && buf == Serialize(o, attrs) + tail
    ensures forall ty :: Walk(o, buf, ty) == Lookup(attrs, ty)
  {
    attrs, tail := AnyBytes(o, buf);
    forall ty
      ensures Walk(o, buf, ty) == Lookup(attrs, ty)
    {
      WalkInverts(o, attrs, tail, ty);
    }
  }

  // ---------------------------------------------------------------- the reply

  /** The bytes before the first NUL. */
  function UpToNul(b: seq<byte>): seq<byte> {
    if b == [] || b[0] == 0 then [] else [b[0]] + UpToNul(b[1..])
  }

  const CAN: seq<byte> := [99, 97, 110]

  /** A 32-bit signed integer, and its negation in the same width. */
  function Signed(x: u32): int {
    if x < 0x8000_0000 then x else x - 0x1_0000_0000
  }

  function Errno(code: u32): int {
    if code == 0x8000_0000 then -0x8000_0000 else -Signed(code)
  }

  function StateIn(o: ByteOrder, infoData: seq<byte>): Option<u32> {
    match Walk(o, infoData, IFLA_CAN_STATE)
    case Some(b) => if |b| >= 4 then Some(Get32(o, b[..4])) else None
    case None => None
  }

  function LinkInfoState(o: ByteOrder, linkinfo: seq<byte>): Option<u32> {
    var kind := match Walk(o, linkinfo, IFLA_INFO_KIND) case Some(b) => UpToNul(b) case None => [];
    if kind != CAN then None
    else
      match Walk(o, linkinfo, IFLA_INFO_DATA)
      case Some(data) => StateIn(o, data)
      case None => None
  }

  function ErrorIn(o: ByteOrder, word: seq<byte>): Result<Option<u32>, int>
    requires |word| == 4
  {
    var code := Get32(o, word);
    if code == 0 then Ok(None) else Err(Errno(code))
  }

  /** What a reply says of the controller's state, or the error number it carries. */
  function ReplyState(o: ByteOrder, reply: seq<byte>): Result<Option<u32>, int> {
    if |reply| < ATTRS_START then Ok(None)
    else if Get16(o, reply[4..6]) == NLMSG_ERROR then ErrorIn(o, reply[MESSAGE_HEADER..MESSAGE_HEADER + 4])
    else
      match Walk(o, reply[ATTRS_START..], IFLA_LINKINFO)
      case Some(linkinfo) => Ok(LinkInfoState(o, linkinfo))
      case None => Ok(None)
  }

  lemma {:induction false} NulEnds(b: seq<byte>, n: nat)
    requires n <= |b| && (forall i :: 0 <= i < n ==> b[i] != 0) && (n < |b| ==> b[n] == 0)
    ensures UpToNul(b) == b[..n]
  {
    if n > 0 {
      NulEnds(b[1..], n - 1);
      assert b[..n] == [b[0]] + b[1..][..n - 1];
    }
  }

  method PositionOfNul(b: seq<byte>) returns (n: nat)
    ensures n <= |b| && b[..n] == UpToNul(b)
  {
    n := 0;
    while n < |b| && b[n] != 0
      invariant n <= |b| && forall i :: 0 <= i < n ==> b[i] != 0
    {
      n := n + 1;
    }
    NulEnds(b, n);
  }

  method ReadState(o: ByteOrder, infoData: seq<byte>) returns (r: Option<u32>)
    ensures r == StateIn(o, infoData)
  {
    var state := FindAttr(o, infoData, IFLA_CAN_STATE);
    if state.None? || |state.value| < 4 {
      return None;
    }
    return Some(Get32(o, state.value[..4]));
  }

  method ReadLinkInfo(o: ByteOrder, linkinfo: seq<byte>) returns (r: Option<u32>)
    ensures r == LinkInfoState(o, linkinfo)
  {
    var kindAttr := FindAttr(o, linkinfo, IFLA_INFO_KIND);
    var kind: seq<byte> := [];
    if kindAttr.Some? {
      var len := PositionOfNul(kindAttr.value);
      kind := kindAttr.value[..len];
    }
    if kind != CAN {
      return None;
    }
    var infoData := FindAttr(o, linkinfo, IFLA_INFO_DATA);
    if infoData.None? {
      return None;
    }
    r := ReadState(o, infoData.value);
  }

  /** `get_can_state_raw` once the reply is there. */
  method ParseReply(o: ByteOrder, reply: seq<byte>) returns (r: Result<Option<u32>, int>)
    ensures r == ReplyState(o, reply)
  {
    if |reply| < ATTRS_START {
      return Ok(None);
    }
    if Get16(o, reply[4..6]) == NLMSG_ERROR {
      var code := Get32(o, reply[MESSAGE_HEADER..MESSAGE_HEADER + 4]);
      return if code == 0 then Ok(None) else Err(Errno(code));
    }
    var attrs := reply[ATTRS_START..];
    if attrs == [] {
      return Ok(None);
    }
    var linkinfo := FindAttr(o, attrs, IFLA_LINKINFO);
    if linkinfo.None? {
      return Ok(None);
    }
    var state := ReadLinkInfo(o, linkinfo.value);
    return Ok(state);
  }

  /** The kernel reports an error as the negated number in two's complement. */
  lemma ErrorRead(o: ByteOrder, reply: seq<byte>, errno: int)
    requires |reply| >= ATTRS_START && Get16(o, reply[4..6]) == NLMSG_ERROR
    requires 0 <= errno < 0x8000_0000
    requires reply[MESSAGE_HEADER..MESSAGE_HEADER + 4] == Put32(o, if errno == 0 then 0 else 0x1_0000_0000 - errno)
    ensures ReplyState(o, reply) == if errno == 0 then Ok(None) else Err(errno)
  {
    Get32Put32(o, if errno == 0 then 0 else 0x1_0000_0000 - errno);
  }

  // ---- what a reply means, on any bytes

  /** The first attribute of a type, in bytes that are attributes laid out with some remainder. */
  ghost predicate Holds(o: ByteOrder, buf: seq<byte>, ty: u16, payload: seq<byte>) {
    exists attrs: seq<Attr>, tail: seq<byte> ::
      && Laid(attrs) && Stuck(o, tail) && Followable(attrs, tail) && buf == Serialize(o, attrs) + tail
      && Lookup(attrs, ty) == Some(payload)
  }

  lemma WalkHolds(o: ByteOrder, buf: seq<byte>, ty: u16, payload: seq<byte>)
    ensures Walk(o, buf, ty) == Some(payload) <==> Holds(o, buf, ty, payload)
  {
    if Walk(o, buf, ty) == Some(payload) {
      var attrs, tail := WalkFindsFirst(o, buf);
      assert Lookup(attrs, ty) == Some(payload);
    }
    if Holds(o, buf, ty, payload) {
      var attrs: seq<Attr>, tail: seq<byte> :|
        && Laid(attrs) && Stuck(o, tail) && Followable(attrs, tail) && buf == Serialize(o, attrs) + tail
        && Lookup(attrs, ty) == Some(payload);
      WalkInverts(o, attrs, tail, ty);
    }
  }

  /** The kind reads "can", with nothing or a NUL after it. */
  ghost predicate SaysCan(kind: seq<byte>) {
    [99, 97, 110] <= kind && (|kind| == 3 || kind[3] == 0)
  }

  lemma UpToNulIsCan(kind: seq<byte>)
    ensures UpToNul(kind) == CAN <==> SaysCan(kind)
  {
    if SaysCan(kind) {
      NulEnds(kind, 3);
    } else {
      var n := PrefixBeforeNul(kind);
    }
  }

  lemma {:induction false} PrefixBeforeNul(b: seq<byte>) returns (n: nat)
    ensures n <= |b| && UpToNul(b) == b[..n] && (n < |b| ==> b[n] == 0)
  {
    if b == [] || b[0] == 0 {
      n := 0;
    } else {
      var later := PrefixBeforeNul(b[1..]);
      n := later + 1;
      assert b[..n] == [b[0]] + b[1..][..later];
    }
  }

  /** The nested state: in the data a state of four bytes... */
  ghost predicate StateHeld(o: ByteOrder, data: seq<byte>, state: u32) {
    exists b :: Holds(o, data, 4, b) && |b| >= 4 && Get32(o, b[..4]) == state
  }

  /** ...in the link info a kind that says "can" and such data... */
  ghost predicate LinkInfoHeld(o: ByteOrder, linkinfo: seq<byte>, state: u32) {
    && (exists kind :: Holds(o, linkinfo, 1, kind) && SaysCan(kind))
    && (exists data :: Holds(o, linkinfo, 2, data) && StateHeld(o, data, state))
  }

  /** ...and among the attributes such link info. */
  ghost predicate StateNested(o: ByteOrder, attrs: seq<byte>, state: u32) {
    exists linkinfo :: Holds(o, attrs, 18, linkinfo) && LinkInfoHeld(o, linkinfo, state)
  }

  /** Such an attribute is the one the walk finds, so there is only one. */
  lemma HeldAsWalked(o: ByteOrder, buf: seq<byte>, ty: u16) returns (found: Option<seq<byte>>)
    ensures found == Walk(o, buf, ty)
    ensures forall payload :: Holds(o, buf, ty, payload) <==> found == Some(payload)
  {
    found := Walk(o, buf, ty);
    forall payload
      ensures Holds(o, buf, ty, payload) <==> found == Some(payload)
    {
      WalkHolds(o, buf, ty, payload);
    }
  }

  lemma StateHeldIff(o: ByteOrder, data: seq<byte>, state: u32)
    ensures StateIn(o, data) == Some(state) <==> StateHeld(o, data, state)
  {
    var found := HeldAsWalked(o, data, IFLA_CAN_STATE);
    if found.Some? {
      assert Holds(o, data, IFLA_CAN_STATE, found.value);
    }
  }

  lemma LinkInfoHeldIff(o: ByteOrder, linkinfo: seq<byte>, state: u32)
    ensures LinkInfoState(o, linkinfo) == Some(state) <==> LinkInfoHeld(o, linkinfo, state)
  {
    var kind := HeldAsWalked(o, linkinfo, IFLA_INFO_KIND);
    var data := HeldAsWalked(o, linkinfo, IFLA_INFO_DATA);
    if kind.Some? {
      assert Holds(o, linkinfo, IFLA_INFO_KIND, kind.value);
      UpToNulIsCan(kind.value);
    }
    if data.Some? {
      assert Holds(o, linkinfo, IFLA_INFO_DATA, data.value);
      StateHeldIff(o, data.value, state);
    }
  }

  lemma StateNestedIff(o: ByteOrder, attrs: seq<byte>, state: u32)
    ensures StateNested(o, attrs, state) <==>
              exists linkinfo ::
                Walk(o, attrs, IFLA_LINKINFO) == Some(linkinfo) && LinkInfoState(o, linkinfo) == Some(state)
  {
    var found := HeldAsWalked(o, attrs, IFLA_LINKINFO);
    if found.Some? {
      assert Holds(o, attrs, IFLA_LINKINFO, found.value);
      LinkInfoHeldIff(o, found.value, state);
    }
  }

  /** The reply is an error message that carries a number. */
  predicate CarriesError(o: ByteOrder, reply: seq<byte>) {
    |reply| >= 32 && Get16(o, reply[4..6]) == 2 && reply[16..20] != [0, 0, 0, 0]
  }

  lemma JoinZero(b0: byte, b1: byte, b2: byte, b3: byte)
    ensures Join(b0, b1, b2, b3) == 0 <==> b0 == 0 && b1 == 0 && b2 == 0 && b3 == 0
  {
  }

  lemma ZeroBytes(o: ByteOrder, s: seq<byte>)
    requires |s| == 4
    ensures Get32(o, s) == 0 <==> s == [0, 0, 0, 0]
  {
    JoinZero(s[0], s[1], s[2], s[3]);
    JoinZero(s[3], s[2], s[1], s[0]);
    assert s == [s[0], s[1], s[2], s[3]];
  }

  lemma ErrorInIff(o: ByteOrder, word: seq<byte>)
    requires |word| == 4
    ensures ErrorIn(o, word).Err? <==> word != [0, 0, 0, 0]
    ensures ErrorIn(o, word).Ok? ==> ErrorIn(o, word).value == None
  {
    ZeroBytes(o, word);
  }

  lemma WordDecides(o: ByteOrder, reply: seq<byte>, word: seq<byte>)
    requires |reply| >= ATTRS_START && Get16(o, reply[4..6]) == NLMSG_ERROR
    requires word == reply[MESSAGE_HEADER..MESSAGE_HEADER + 4]
    ensures ReplyState(o, reply) == ErrorIn(o, word)
  {
  }

  lemma AttributesDecide(o: ByteOrder, reply: seq<byte>, attrs: seq<byte>, found: Option<seq<byte>>)
    requires |reply| >= ATTRS_START && attrs == reply[ATTRS_START..] && found == Walk(o, attrs, IFLA_LINKINFO)
    requires Get16(o, reply[4..6]) != NLMSG_ERROR
    ensures ReplyState(o, reply) == Ok(if found.Some? then LinkInfoState(o, found.value) else None)
  {
  }

  lemma ErrorReply(o: ByteOrder, reply: seq<byte>, word: seq<byte>)
    requires |reply| >= ATTRS_START && Get16(o, reply[4..6]) == NLMSG_ERROR
    requires word == reply[MESSAGE_HEADER..MESSAGE_HEADER + 4]
    ensures ReplyState(o, reply).Err? <==> word != [0, 0, 0, 0]
    ensures ReplyState(o, reply).Ok? ==> ReplyState(o, reply).value == None
  {
    var r := ErrorIn(o, word);
    ErrorInIff(o, word);
    WordDecides(o, reply, word);
    assert ReplyState(o, reply) == r;
  }

  lemma AttributeReply(o: ByteOrder, reply: seq<byte>, state: u32)
    requires |reply| >= ATTRS_START && Get16(o, reply[4..6]) != NLMSG_ERROR
    ensures ReplyState(o, reply).Ok?
    ensures ReplyState(o, reply).value == Some(state) <==> StateNested(o, reply[ATTRS_START..], state)
  {
    var attrs := reply[ATTRS_START..];
    AttributesDecide(o, reply, attrs, Walk(o, attrs, IFLA_LINKINFO));
    StateNestedIff(o, attrs, state);
  }

  /** Any reply at all: it is an error exactly if it carries one, and gives a state exactly if one is
      nested in it; all else, short or without attributes or of another kind, gives nothing. */
  lemma ReplyOutcome(o: ByteOrder, reply: seq<byte>, state: u32)
    ensures ReplyState(o, reply).Err? <==> CarriesError(o, reply)
    ensures ReplyState(o, reply) == Ok(Some(state)) <==>
              |reply| >= 32 && Get16(o, reply[4..6]) != 2 && StateNested(o, reply[32..], state)
  {
    if |reply| >= ATTRS_START {
      if Get16(o, reply[4..6]) == NLMSG_ERROR {
        ErrorReply(o, reply, reply[MESSAGE_HEADER..MESSAGE_HEADER + 4]);
      } else {
        AttributeReply(o, reply, state);
      }
    }
  }

  // ---- what that means for attribute trees

  /** A reply whose three levels are these attributes. */
  ghost predicate Encodes(o: ByteOrder, reply: seq<byte>, top: seq<Attr>, info: seq<Attr>, data: seq<Attr>) {
    && |reply| >= ATTRS_START && Get16(o, reply[4..6]) != NLMSG_ERROR
    && Laid(top) && Laid(info) && Laid(data)
    && reply[ATTRS_START..] == Serialize(o, top)
    && Lookup(top, IFLA_LINKINFO) == Some(Serialize(o, info))
    && Lookup(info, IFLA_INFO_DATA) == Some(Serialize(o, data))
  }

  lemma StateRead(o: ByteOrder, data: seq<Attr>)
    requires Laid(data)
    ensures StateIn(o, Serialize(o, data)) ==
            match Lookup(data, IFLA_CAN_STATE)
            case Some(b) => if |b| >= 4 then Some(Get32(o, b[..4])) else None
            case None => None
  {
    assert Serialize(o, data) + [] == Serialize(o, data);
    WalkInverts(o, data, [], IFLA_CAN_STATE);
  }

  lemma LinkInfoRead(o: ByteOrder, info: seq<Attr>)
    requires Laid(info)
    ensures LinkInfoState(o, Serialize(o, info)) ==
            if Lookup(info, IFLA_INFO_KIND).None? || UpToNul(Lookup(info, IFLA_INFO_KIND).value) != CAN then None
            else if Lookup(info, IFLA_INFO_DATA).None? then None
            else StateIn(o, Lookup(info, IFLA_INFO_DATA).value)
  {
    assert Serialize(o, info) + [] == Serialize(o, info);
    WalkInverts(o, info, [], IFLA_INFO_KIND);
    WalkInverts(o, info, [], IFLA_INFO_DATA);
  }

  /** The state is read exactly when the first kind attribute says "can" and the first state
      attribute has its four bytes, and it is those four bytes. */
  lemma NestedStateRead(o: ByteOrder, reply: seq<byte>, top: seq<Attr>, info: seq<Attr>, data: seq<Attr>, state: u32)
    requires Encodes(o, reply, top, info, data)
    ensures ReplyState(o, reply) == Ok(Some(state)) <==>
              && Lookup(info, IFLA_INFO_KIND).Some? && UpToNul(Lookup(info, IFLA_INFO_KIND).value) == CAN
              && Lookup(data, IFLA_CAN_STATE).Some?
              && var b := Lookup(data, IFLA_CAN_STATE).value; |b| >= 4 && Get32(o, b[..4]) == state
  {
    assert Serialize(o, top) + [] == Serialize(o, top);
    WalkInverts(o, top, [], IFLA_LINKINFO);
    LinkInfoRead(o, info);
    StateRead(o, data);
  }

  // ---------------------------------------------------------------- controller states

  datatype CanState = ErrorActive | ErrorWarning | ErrorPassive | BusOff | Stopped | Sleeping

  function FromRaw(v: u32): Option<CanState> {
    match v
    case 0 => Some(ErrorActive)
    case 1 => Some(ErrorWarning)
    case 2 => Some(ErrorPassive)
    case 3 => Some(BusOff)
    case 4 => Some(Stopped)
    case 5 => Some(Sleeping)
    case _ => None
  }

  lemma CanIsCan()
    ensures UpToNul(CAN + [0]) == CAN
  {
    assert (CAN + [0])[1..] == [97, 110, 0];
    assert [97, 110, 0][1..] == [110, 0];
    assert [110, 0][1..] == [0];
  }

  /** A driver that encodes a state in the three nested attributes is understood, whatever other
      attributes it adds around or after them. */
  lemma EncodedStateReturned(o: ByteOrder, reply: seq<byte>, top: seq<Attr>, info: seq<Attr>, data: seq<Attr>,
                             state: CanState)
    requires Encodes(o, reply, top, info, data)
    requires Lookup(info, IFLA_INFO_KIND) == Some(CAN + [0])
    requires Lookup(data, IFLA_CAN_STATE) == Some(Put32(o, Raw(state)))
    ensures ReplyState(o, reply) == Ok(Some(Raw(state))) && FromRaw(Raw(state)) == Some(state)
  {
    CanIsCan();
    var b := Put32(o, Raw(state));
    assert b[..4] == b;
    Get32Put32(o, Raw(state));
    NestedStateRead(o, reply, top, info, data, Raw(state));
  }

  /** The states are numbered in their order, from 0. */
  lemma RawInOrder()
    ensures Raw(ErrorActive) < Raw(ErrorWarning) < Raw(ErrorPassive) < Raw(BusOff) < Raw(Stopped) < Raw(Sleeping) == 5
    ensures forall v: u32 :: v > 5 ==> FromRaw(v) == None
  {
  }

  /** The kernel's number of a state. */
  function Raw(state: CanState): (v: u32)
    ensures FromRaw(v) == Some(state)
    ensures forall w: u32 :: FromRaw(w) == Some(state) ==> w == v
  {
    match state
    case ErrorActive => 0
    case ErrorWarning => 1
    case ErrorPassive => 2
    case BusOff => 3
    case Stopped => 4
    case Sleeping => 5
  }
}
