/** CAN identifiers, their packing into the kernel's `can_id`, and receive filters
  (mcanbus/src/frame.rs, mcanbus/src/socket.rs).

  Masks are written as remainders and flag tests as comparisons; Bits proves them equal to the
  bitwise operators, and the lemmas MasksAreBitwise and FiltersAreBitwise apply that here.
 */
module Ids {
  import opened Bits

  const CAN_EFF_FLAG: u32 := 0x8000_0000
  const CAN_RTR_FLAG: u32 := 0x4000_0000
  const CAN_ERR_FLAG: u32 := 0x2000_0000
  const CAN_EFF_MASK: u32 := 0x1FFF_FFFF
  const CAN_SFF_MASK: u32 := 0x0000_07FF

  // ---------------------------------------------------------------- identifiers

  /** The variants are public, so a value need not be in range. */
  datatype CanId = Standard(sid: u16) | Extended(eid: u32) {
    predicate InRange() {
      match this
      case Standard(id) => id < 0x800
      case Extended(id) => id < 0x2000_0000
    }

    function ToWire(): u32 {
      match this
      case Standard(id) => id % 0x800
      case Extended(id) => 0x8000_0000 + id % 0x2000_0000
    }
  }

  function StandardId(id: u16): CanId { Standard(id % 0x800) }

  function ExtendedId(id: u32): CanId { Extended(id % 0x2000_0000) }

  predicate IsExtended(wire: u32) { wire / 0x8000_0000 % 2 == 1 }

  predicate IsRtr(wire: u32) { wire / 0x4000_0000 % 2 == 1 }

  predicate IsError(wire: u32) { wire / 0x2000_0000 % 2 == 1 }

  function FromWire(wire: u32): CanId {
    if IsExtended(wire) then Extended(wire % 0x2000_0000) else Standard(wire % 0x800)
  }

  /** The remainders and comparisons above are the source's masks and flag tests. */
  lemma MasksAreBitwise(w: u32)
    ensures And(w, CAN_SFF_MASK) == w % 0x800 && And(w, CAN_EFF_MASK) == w % 0x2000_0000
    ensures And(w, CAN_EFF_FLAG) != 0 <==> IsExtended(w)
    ensures And(w, CAN_RTR_FLAG) != 0 <==> IsRtr(w)
    ensures And(w, CAN_ERR_FLAG) != 0 <==> IsError(w)
    ensures Or(CAN_EFF_FLAG, And(w, CAN_EFF_MASK)) == 0x8000_0000 + w % 0x2000_0000
  {
    WordMasks(w);
    WordFlags(w);
    SetExtended(w % 0x2000_0000);
  }

  /** Packing, unpacking and the constructors in the source's own operations. */
  lemma IdsAreBitwise(id: CanId, w: u32, raw: u16)
    ensures match FromWire(w)
            case Extended(eid) => And(w, 0x8000_0000) != 0 && eid as nat == And(w, 0x1FFF_FFFF)
            case Standard(sid) => And(w, 0x8000_0000) == 0 && sid as nat == And(w, 0x7FF)
    ensures id.Standard? ==> id.ToWire() as nat == And(id.sid, 0x7FF)
    ensures id.Extended? ==> id.ToWire() as nat == Or(0x8000_0000, And(id.eid, 0x1FFF_FFFF))
    ensures StandardId(raw).Standard? && StandardId(raw).sid as nat == And(raw, 0x7FF)
    ensures ExtendedId(w).Extended? && ExtendedId(w).eid as nat == And(w, 0x1FFF_FFFF)
  {
    MasksAreBitwise(w);
    MasksAreBitwise(raw);
    MasksAreBitwise(match id case Standard(sid) => sid case Extended(eid) => eid);
  }

  /** Packing masks an identifier into range, sets neither RTR nor ERR, and loses nothing exactly
      on identifiers already in range. */
  lemma IdRoundTrip(id: CanId)
    ensures FromWire(id.ToWire()).InRange()
    ensures FromWire(id.ToWire()) == id <==> id.InRange()
    ensures !IsRtr(id.ToWire()) && !IsError(id.ToWire())
  {
  }

  /** Every wire word decodes to an identifier in range, which repacking reproduces. */
  lemma WireIdNormalForm(wire: u32)
    ensures FromWire(wire).InRange()
    ensures FromWire(FromWire(wire).ToWire()) == FromWire(wire)
  {
  }

  // ---------------------------------------------------------------- filters

  datatype CanFilter = CanFilter(id: u32, mask: u32) {
    /** The kernel's match rule for a `CAN_RAW_FILTER` entry. */
    predicate Accepts(wire: u32) {
      And(wire, mask) == And(id, mask)
    }
  }

  function StandardExact(id: u16): CanFilter {
    CanFilter(id % 0x800, 0x8000_0000 + 0x7FF)
  }

  function ExtendedExact(id: u32): CanFilter {
    CanFilter(0x8000_0000 + id % 0x2000_0000, 0x8000_0000 + 0x1FFF_FFFF)
  }

  function StandardMasked(pattern: u16, mask: u16): CanFilter {
    CanFilter(pattern % 0x800, 0x8000_0000 + mask % 0x800)
  }

  lemma FiltersAreBitwise(id: u16, mask: u16)
    ensures And(id, CAN_SFF_MASK) == id % 0x800
    ensures Or(CAN_EFF_FLAG, And(mask, CAN_SFF_MASK)) == 0x8000_0000 + mask % 0x800
    ensures Or(CAN_EFF_FLAG, CAN_EFF_MASK) == 0x8000_0000 + 0x1FFF_FFFF
  {
    WordMasks(id);
    WordMasks(mask);
    SetExtended(mask % 0x800);
    SetExtended(CAN_EFF_MASK);
  }

  lemma Parts11(w: u32) returns (flag: nat, high: nat, low: nat)
    ensures w == 0x8000_0000 * flag + (0x800 * high + low)
    ensures flag <= 1 && 0x800 * high + low < 0x8000_0000 && low < 0x800
    ensures flag == (if IsExtended(w) then 1 else 0) && low == w % 0x800
  {
    var rest := w % 0x8000_0000;
    flag, high, low := w / 0x8000_0000, rest / 0x800, rest % 0x800;
  }

  lemma Parts29(w: u32) returns (flag: nat, high: nat, low: nat)
    ensures w == 0x8000_0000 * flag + (0x2000_0000 * high + low)
    ensures flag <= 1 && 0x2000_0000 * high + low < 0x8000_0000 && low < 0x2000_0000
    ensures flag == (if IsExtended(w) then 1 else 0) && low == w % 0x2000_0000
  {
    var rest := w % 0x8000_0000;
    flag, high, low := w / 0x8000_0000, rest / 0x2000_0000, rest % 0x2000_0000;
  }

  lemma MaskedWord(w: u32, m: nat) returns (flag: nat, a: nat)
    requires m < 0x800
    ensures And(w, 0x8000_0000 + m) == 0x8000_0000 * flag + a
    ensures flag == (if IsExtended(w) then 1 else 0) && a == And(w % 0x800, m) && a < 0x800
    ensures m == 0x7FF ==> a == w % 0x800
  {
    var high, low;
    flag, high, low := Parts11(w);
    FlagAndLow11(flag, high, low, m);
    AndAtMost(low, m);
    a := And(low, m);
  }

  lemma SmallPattern(pattern: u16, m: nat)
    requires m < 0x800
    ensures And(pattern, m) == And(pattern % 0x800, m)
    ensures !IsExtended(pattern % 0x800) && pattern % 0x800 % 0x800 == pattern % 0x800
  {
    Powers();
    AndLow(11, 0x800, pattern / 0x800, pattern % 0x800, m);
  }

  /** A masked filter accepts precisely the words of standard identifiers agreeing with its
      pattern on the low 11 bits of its mask... */
  lemma StandardMaskedAgrees(w: u32, pattern: u16, mask: u16)
    ensures StandardMasked(pattern, mask).Accepts(w) <==>
            FromWire(w).Standard? && And(FromWire(w).sid, mask % 0x800) == And(pattern, mask % 0x800)
  {
    SmallPattern(pattern, mask % 0x800);
    var flagW, a := MaskedWord(w, mask % 0x800);
    var flagP, b := MaskedWord(pattern % 0x800, mask % 0x800);
  }

  /** ...and an exact one precisely those decoding to its identifier. */
  lemma StandardExactAgrees(w: u32, id: u16)
    ensures StandardExact(id).Accepts(w) <==> FromWire(w) == StandardId(id)
  {
    SmallPattern(id, 0x7FF);
    var flagW, a := MaskedWord(w, 0x7FF);
    var flagP, b := MaskedWord(id % 0x800, 0x7FF);
  }

  lemma MaskedExtended(w: u32) returns (flag: nat)
    ensures And(w, 0x9FFF_FFFF) == 0x8000_0000 * flag + w % 0x2000_0000
    ensures flag == if IsExtended(w) then 1 else 0
  {
    var high, low;
    flag, high, low := Parts29(w);
    FlagAndLow29(flag, high, low);
  }

  lemma ExtendedExactAgrees(w: u32, id: u32)
    ensures ExtendedExact(id).Accepts(w) <==> FromWire(w) == ExtendedId(id)
  {
    var flag := MaskedExtended(w);
    FlagAndLow29(1, 0, id % 0x2000_0000);
  }
}
