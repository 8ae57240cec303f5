/** The candump-style text of frames (mcanbus/src/frame.rs:81-88, 273-287) and the MCP server's hex
  and JSON forms (socketcan-mcp/src/main.rs:228-322), over ASCII strings.
 */
module TextForms {
  import opened Bits
  import opened Ids
  import opened Frames

  // ---------------------------------------------------------------- printing hexadecimal

  const DIGITS: string := "0123456789ABCDEF"

  function Digit(d: nat): (c: char)
    requires d < 16
    ensures DigitValue(c) == Some(d) && IsDigit(c)
  {
    DIGITS[d]
  }

  /** A digit as the printers write it. */
  predicate IsDigit(c: char) {
    '0' <= c <= '9' || 'A' <= c <= 'F'
  }

  predicate AllDigits(s: string) {
    forall i {:trigger IsDigit(s[i])} :: 0 <= i < |s| ==> IsDigit(s[i])
  }

  /** The digits of n, without leading zeros. */
  function Digits(n: nat): (s: string)
    ensures s != ""
  {
    if n < 16 then [Digit(n)] else Digits(n / 16) + [Digit(n % 16)]
  }

  function ZeroDigits(n: nat): (s: string)
    ensures |s| == n
  {
    if n == 0 then "" else ZeroDigits(n - 1) + "0"
  }

  /** `{:0wX}`: at least w digits. */
  function Hex(n: nat, w: nat): (s: string)
    ensures s != "" && |s| >= w
  {
    var digits := Digits(n);
    if |digits| >= w then digits else ZeroDigits(w - |digits|) + digits
  }

  lemma {:induction false} ZerosAreDigits(n: nat)
    ensures AllDigits(ZeroDigits(n))
  {
    if n > 0 {
      ZerosAreDigits(n - 1);
    }
  }

  lemma {:induction false} DigitsAreDigits(n: nat)
    ensures AllDigits(Digits(n))
  {
    if n >= 16 {
      DigitsAreDigits(n / 16);
    }
  }

  lemma HexIsDigits(n: nat, w: nat)
    ensures AllDigits(Hex(n, w))
  {
    DigitsAreDigits(n);
    if |Digits(n)| < w {
      ZerosAreDigits(w - |Digits(n)|);
    }
  }

  function Power16(k: nat): nat {
    if k == 0 then 1 else 16 * Power16(k - 1)
  }

  lemma {:induction false} DigitsFit(n: nat, k: nat)
    requires n < Power16(k) && k > 0
    ensures |Digits(n)| <= k
  {
    if n >= 16 {
      DigitsFit(n / 16, k - 1);
    }
  }

  // ---------------------------------------------------------------- parsing hexadecimal

  function DigitValue(c: char): Option<nat> {
    if '0' <= c <= '9' then Some(c as int - '0' as int)
    else if 'A' <= c <= 'F' then Some(c as int - 'A' as int + 10)
    else if 'a' <= c <= 'f' then Some(c as int - 'a' as int + 10)
    else None
  }

  function Value(s: string): Option<nat> {
    if s == "" then Some(0)
    else
      match (Value(s[..|s| - 1]), DigitValue(s[|s| - 1]))
      case (Some(high), Some(low)) => Some(16 * high + low)
      case _ => None
  }

  /** `from_str_radix(s, 16)` for an unsigned type of the given maximum. */
  function FromStrRadix16(s: string, max: nat): Option<nat> {
    var digits := if s != "" && s[0] == '+' then s[1..] else s;
    if digits == "" then None
    else
      match Value(digits)
      case Some(n) => if n <= max then Some(n) else None
      case None => None
  }

  function TrimStartMatches(s: string, prefix: string): string
    requires prefix != ""
  {
    if prefix <= s then TrimStartMatches(s[|prefix|..], prefix) else s
  }

  function WithoutPrefixes(s: string): string {
    TrimStartMatches(TrimStartMatches(s, "0x"), "0X")
  }

  datatype ParseError = BadId | OddLength | BadByte(offset: nat) | InvalidFrame(FrameError)

  function IdOf(raw: u32, extended: bool): CanId {
    if extended then ExtendedId(raw) else StandardId(raw % 0x1_0000)
  }

  function ParseHexId(s: string, extended: bool): Result<CanId, ParseError> {
    match FromStrRadix16(WithoutPrefixes(s), 0xFFFF_FFFF)
    case Some(raw) => Ok(IdOf(raw, extended))
    case None => Err(BadId)
  }

  /** Byte by byte from an offset on, up to the first bad one. */
  function HexPairs(s: string, offset: nat): Result<seq<byte>, ParseError>
    requires offset <= |s| && (|s| - offset) % 2 == 0
    decreases |s| - offset
  {
    if offset == |s| then Ok([])
    else
      match FromStrRadix16(s[offset..offset + 2], 0xFF)
      case None => Err(BadByte(offset))
      case Some(b) =>
        match HexPairs(s, offset + 2)
        case Ok(later) => Ok([b as byte] + later)
        case Err(e) => Err(e)
  }

  function ParseHexBytes(s: string): Result<seq<byte>, ParseError> {
    var t := WithoutPrefixes(s);
    if |t| % 2 != 0 then Err(OddLength) else HexPairs(t, 0)
  }

  // ---------------------------------------------------------------- parsing undoes printing

  lemma ValueNext(s: string, high: nat, c: char, low: nat)
    requires Value(s) == Some(high) && DigitValue(c) == Some(low)
    ensures Value(s + [c]) == Some(16 * high + low)
  {
    assert (s + [c])[..|s|] == s;
  }

  lemma {:induction false} ValueOfDigits(n: nat)
    ensures Value(Digits(n)) == Some(n)
  {
    if n >= 16 {
      ValueOfDigits(n / 16);
      ValueNext(Digits(n / 16), n / 16, Digit(n % 16), n % 16);
    } else {
      ValueNext("", 0, Digit(n), n);
      assert "" + [Digit(n)] == [Digit(n)];
    }
  }

  lemma {:induction false} ValueOfZeros(n: nat)
    ensures Value(ZeroDigits(n)) == Some(0)
  {
    if n > 0 {
      ValueOfZeros(n - 1);
      ValueNext(ZeroDigits(n - 1), 0, '0', 0);
    }
  }

  lemma {:induction false} ValueOfPadded(n: nat, s: string)
    ensures Value(ZeroDigits(n) + s) == Value(s)
  {
    var zeros := ZeroDigits(n);
    if s != "" {
      assert (zeros + s)[..|zeros + s| - 1] == zeros + s[..|s| - 1];
      ValueOfPadded(n, s[..|s| - 1]);
    } else {
      assert zeros + s == zeros;
      ValueOfZeros(n);
    }
  }

  lemma HexParses(n: nat, w: nat, max: nat)
    requires n <= max
    ensures FromStrRadix16(Hex(n, w), max) == Some(n)
  {
    ValueOfDigits(n);
    if |Digits(n)| < w {
      ValueOfPadded(w - |Digits(n)|, Digits(n));
    }
    HexIsDigits(n, w);
    assert IsDigit(Hex(n, w)[0]);
  }

  lemma NotAPrefix(s: string, prefix: string)
    requires AllDigits(s)
    requires |prefix| == 2 && !IsDigit(prefix[1])
    ensures !(prefix <= s)
  {
    assert |s| >= 2 ==> IsDigit(s[1]);
  }

  /** There is no prefix to trim from digits. */
  lemma DigitsKept(s: string)
    requires AllDigits(s)
    ensures WithoutPrefixes(s) == s
  {
    NotAPrefix(s, "0x");
    NotAPrefix(s, "0X");
  }

  /** The first bad pair is the one reported. */
  lemma {:induction false} BadPairReported(s: string, offset: nat, bad: nat)
    requires offset <= bad && bad + 2 <= |s| && (|s| - offset) % 2 == 0 && (bad - offset) % 2 == 0
    requires FromStrRadix16(s[bad..bad + 2], 0xFF) == None
    requires forall k {:trigger s[k..k + 2]} :: offset <= k < bad && (k - offset) % 2 == 0 ==>
               FromStrRadix16(s[k..k + 2], 0xFF).Some?
    ensures HexPairs(s, offset) == Err(BadByte(bad))
    decreases bad - offset
  {
    if offset < bad {
      assert FromStrRadix16(s[offset..offset + 2], 0xFF).Some?;
      BadPairReported(s, offset + 2, bad);
    }
  }

  /** Prefixes in front of digits are trimmed. */
  lemma PrefixesTrimmed(s: string)
    requires AllDigits(s)
    ensures WithoutPrefixes("0x" + s) == s && WithoutPrefixes("0X" + s) == s
  {
    DigitsKept(s);
    NotAPrefix(s, "0x");
    NotAPrefix(s, "0X");
    assert ("0x" + s)[2..] == s && ("0X" + s)[2..] == s;
    assert !("0x" <= "0X" + s) by {
      assert ("0X" + s)[1] == 'X';
    }
  }

  /** A number too large for the type is refused. */
  lemma HexOverflows(n: nat, w: nat, max: nat)
    requires n > max
    ensures FromStrRadix16(Hex(n, w), max) == None
  {
    ValueOfDigits(n);
    if |Digits(n)| < w {
      ValueOfPadded(w - |Digits(n)|, Digits(n));
    }
    HexIsDigits(n, w);
    assert IsDigit(Hex(n, w)[0]);
  }

  // ---------------------------------------------------------------- frames as text

  function IdText(id: CanId): string {
    Hex(IdNumber(id), IdWidth(id))
  }

  function IdNumber(id: CanId): u32 {
    match id
    case Standard(sid) => sid
    case Extended(eid) => eid
  }

  function IdWidth(id: CanId): nat {
    if id.Extended? then 8 else 3
  }

  function BytesText(data: seq<byte>): string {
    if data == [] then "" else BytesText(data[..|data| - 1]) + Hex(data[|data| - 1], 2)
  }

  function KindText(kind: FrameKind): string {
    match kind
    case Classic => "#"
    case Fd(flags) => "##" + Hex(flags.ToWire(), 0)
  }

  function Text(f: Frame): string
    requires f.len <= MAX_FD_DATA_LEN
  {
    IdText(f.id) + KindText(f.kind) + BytesText(f.Data())
  }

  lemma BytesTextNext(data: seq<byte>, i: nat)
    requires i < |data|
    ensures BytesText(data[..i + 1]) == BytesText(data[..i]) + Hex(data[i], 2)
  {
    assert data[..i + 1][..i] == data[..i];
  }

  lemma Regroup(a: string, b: string, c: string)
    ensures a + b + c == a + (b + c)
  {
  }

  method WriteBytes(head: string, data: seq<byte>) returns (s: string)
    ensures s == head + BytesText(data)
  {
    s := head;
    for i := 0 to |data|
      invariant s == head + BytesText(data[..i])
    {
      BytesTextNext(data, i);
      var digits := Hex(data[i], 2);
      Regroup(head, BytesText(data[..i]), digits);
      s := s + digits;
    }
    assert data[..|data|] == data;
  }

  /** `Display for Frame` */
  method Display(f: Frame) returns (s: string)
    requires f.len <= MAX_FD_DATA_LEN
    ensures s == Text(f)
  {
    s := IdText(f.id);
    match f.kind {
      case Classic => s := s + "#";
      case Fd(flags) => s := s + ("##" + Hex(flags.ToWire(), 0));
    }
    s := WriteBytes(s, f.Data());
  }

  lemma HexIdParses(n: u32, w: nat, extended: bool)
    ensures ParseHexId(Hex(n, w), extended) == Ok(IdOf(n, extended))
  {
    HexIsDigits(n, w);
    DigitsKept(Hex(n, w));
    HexParses(n, w, 0xFFFF_FFFF);
  }

  /** The constructors truncate an identifier out of range. */
  function Truncated(id: CanId): CanId {
    match id
    case Standard(sid) => StandardId(sid)
    case Extended(eid) => ExtendedId(eid)
  }

  lemma TruncatedInRange(id: CanId)
    ensures Truncated(id) == id <==> id.InRange()
  {
  }

  lemma NumberTruncated(id: CanId)
    ensures IdOf(IdNumber(id), id.Extended?) == Truncated(id)
  {
  }

  lemma IdTextParses(id: CanId)
    ensures ParseHexId(IdText(id), id.Extended?) == Ok(Truncated(id))
  {
    HexIdParses(IdNumber(id), IdWidth(id), id.Extended?);
    NumberTruncated(id);
  }

  lemma TwoDigits(b: byte)
    ensures |Hex(b, 2)| == 2
  {
    assert Power16(1) == 16;
    assert Power16(2) == 0x100;
    DigitsFit(b, 2);
  }

  lemma {:induction false} BytesTextDigits(data: seq<byte>)
    ensures AllDigits(BytesText(data))
  {
    if data != [] {
      BytesTextDigits(data[..|data| - 1]);
      HexIsDigits(data[|data| - 1], 2);
    }
  }

  lemma {:induction false} BytesTextLength(data: seq<byte>)
    ensures |BytesText(data)| == 2 * |data|
  {
    if data != [] {
      BytesTextLength(data[..|data| - 1]);
      TwoDigits(data[|data| - 1]);
    }
  }

  lemma {:induction false} ByteTextAt(data: seq<byte>, i: nat)
    requires i < |data|
    ensures |BytesText(data)| == 2 * |data|
    ensures BytesText(data)[2 * i..2 * i + 2] == Hex(data[i], 2)
  {
    BytesTextLength(data);
    var n := |data| - 1;
    BytesTextLength(data[..n]);
    if i < n {
      ByteTextAt(data[..n], i);
      assert BytesText(data)[2 * i..2 * i + 2] == BytesText(data[..n])[2 * i..2 * i + 2];
    } else {
      assert BytesText(data)[2 * n..] == Hex(data[n], 2);
    }
  }

  lemma PairsNext(s: string, offset: nat, b: byte, later: seq<byte>)
    requires offset + 2 <= |s| && (|s| - offset) % 2 == 0
    requires FromStrRadix16(s[offset..offset + 2], 0xFF) == Some(b) && HexPairs(s, offset + 2) == Ok(later)
    ensures HexPairs(s, offset) == Ok([b] + later)
  {
  }

  lemma ByteParses(data: seq<byte>, i: nat)
    requires i < |data|
    ensures |BytesText(data)| == 2 * |data|
    ensures FromStrRadix16(BytesText(data)[2 * i..2 * i + 2], 0xFF) == Some(data[i])
  {
    ByteTextAt(data, i);
    HexParses(data[i], 2, 0xFF);
  }

  lemma {:induction false} PairsParse(data: seq<byte>, s: string, i: nat)
    requires i <= |data| && |s| == 2 * |data|
    requires forall k {:trigger data[k]} :: 0 <= k < |data| ==>
               FromStrRadix16(s[2 * k..2 * k + 2], 0xFF) == Some(data[k])
    ensures HexPairs(s, 2 * i) == Ok(data[i..])
    decreases |data| - i
  {
    if i < |data| {
      PairsParse(data, s, i + 1);
      PairsNext(s, 2 * i, data[i], data[i + 1..]);
      assert data[i..] == [data[i]] + data[i + 1..];
    } else {
      assert data[i..] == [];
    }
  }

  lemma PairsOfText(data: seq<byte>, s: string)
    requires s == BytesText(data)
    ensures |s| == 2 * |data| && HexPairs(s, 0) == Ok(data)
  {
    BytesTextLength(data);
    forall k | 0 <= k < |data|
      ensures FromStrRadix16(s[2 * k..2 * k + 2], 0xFF) == Some(data[k])
    {
      ByteParses(data, k);
    }
    PairsParse(data, s, 0);
    assert data[0..] == data;
  }

  lemma PairsSuffice(s: string, data: seq<byte>)
    requires AllDigits(s) && |s| == 2 * |data| && HexPairs(s, 0) == Ok(data)
    ensures ParseHexBytes(s) == Ok(data)
  {
    DigitsKept(s);
  }

  /** Reading hex bytes undoes printing them. */
  lemma BytesTextParses(data: seq<byte>)
    ensures ParseHexBytes(BytesText(data)) == Ok(data)
  {
    BytesTextDigits(data);
    PairsOfText(data, BytesText(data));
    PairsSuffice(BytesText(data), data);
  }

  // ---------------------------------------------------------------- the text tells frames apart

  /** Identifiers in range take three or eight digits. */
  lemma IdTextLength(id: CanId)
    requires id.InRange()
    ensures |IdText(id)| == if id.Extended? then 8 else 3
  {
    assert Power16(2) == 0x100;
    assert Power16(4) == 0x100 * Power16(2);
    assert Power16(6) == 0x100 * Power16(4);
    match id
    case Standard(sid) => DigitsFit(sid, 3);
    case Extended(eid) => DigitsFit(eid, 8);
  }

  ghost predicate FirstHash(s: string, n: nat) {
    n < |s| && s[n] == '#' && forall i :: 0 <= i < n ==> s[i] != '#'
  }

  lemma HashAfterDigits(a: string, s: string)
    requires AllDigits(a) && s != "" && s[0] == '#'
    ensures FirstHash(a + s, |a|)
  {
    assert forall i :: 0 <= i < |a| ==> IsDigit(a[i]);
  }

  lemma FirstHashUnique(s: string, n: nat, m: nat)
    requires FirstHash(s, n) && FirstHash(s, m)
    ensures n == m
  {
  }

  /** The digits before the first `#` are the identifier. */
  lemma SameHead(a: string, s: string, b: string, t: string)
    requires AllDigits(a) && AllDigits(b)
    requires s != "" && s[0] == '#' && t != "" && t[0] == '#' && a + s == b + t
    ensures a == b && s == t
  {
    HashAfterDigits(a, s);
    HashAfterDigits(b, t);
    FirstHashUnique(a + s, |a|, |b|);
    assert a == (a + s)[..|a|] && b == (b + t)[..|b|];
    assert s == (a + s)[|a|..] && t == (b + t)[|b|..];
  }

  lemma IdTextDistinct(id: CanId, id': CanId)
    requires id.InRange() && id'.InRange() && IdText(id) == IdText(id')
    ensures id == id'
  {
    IdTextLength(id);
    IdTextLength(id');
    IdTextParses(id);
    IdTextParses(id');
    TruncatedInRange(id);
    TruncatedInRange(id');
  }

  lemma FlagsText(flags: FdFlags)
    ensures Hex(flags.ToWire(), 0) == [Digit(flags.ToWire())]
  {
  }

  /** The kind shows in the second character, and the flags in the third. */
  lemma TailShape(kind: FrameKind, digits: string)
    requires AllDigits(digits)
    ensures var s := KindText(kind) + digits;
            && s != "" && s[0] == '#'
            && (kind.Fd? <==> |s| > 1 && s[1] == '#')
            && (kind.Fd? ==> |s| > 2 && s[2] == Digit(kind.flags.ToWire()) && s[3..] == digits)
            && (kind.Classic? ==> s[1..] == digits)
  {
    if kind.Fd? {
      FlagsText(kind.flags);
    } else if digits != "" {
      assert IsDigit(digits[0]);
    }
  }

  lemma TailDistinct(kind: FrameKind, data: seq<byte>, kind': FrameKind, data': seq<byte>)
    requires KindText(kind) + BytesText(data) == KindText(kind') + BytesText(data')
    ensures kind == kind' && data == data'
  {
    BytesTextDigits(data);
    BytesTextDigits(data');
    TailShape(kind, BytesText(data));
    TailShape(kind', BytesText(data'));
    if kind.Fd? {
      FlagsRoundTrip(kind.flags);
      FlagsRoundTrip(kind'.flags);
    }
    BytesTextParses(data);
    BytesTextParses(data');
  }

  lemma SameParts(a: string, k: string, d: string, a': string, k': string, d': string)
    requires AllDigits(a) && AllDigits(a')
    requires k != "" && k[0] == '#' && k' != "" && k'[0] == '#'
    requires a + k + d == a' + k' + d'
    ensures a == a' && k + d == k' + d'
  {
    Regroup(a, k, d);
    Regroup(a', k', d');
    SameHead(a, k + d, a', k' + d');
  }

  lemma PartsDistinct(id: CanId, kind: FrameKind, data: seq<byte>, id': CanId, kind': FrameKind, data': seq<byte>)
    requires id.InRange() && id'.InRange()
    requires IdText(id) + KindText(kind) + BytesText(data) == IdText(id') + KindText(kind') + BytesText(data')
    ensures id == id' && kind == kind' && data == data'
  {
    HexIsDigits(IdNumber(id), IdWidth(id));
    HexIsDigits(IdNumber(id'), IdWidth(id'));
    SameParts(IdText(id), KindText(kind), BytesText(data), IdText(id'), KindText(kind'), BytesText(data'));
    IdTextDistinct(id, id');
    TailDistinct(kind, data, kind', data');
  }

  /** Well-formed frames print alike exactly when they are the same message. */
  lemma TextIsInjective(f: Frame, g: Frame)
    requires f.WellFormed() && g.WellFormed()
    ensures Text(f) == Text(g) <==> SameMessage(f, g)
  {
    if Text(f) == Text(g) {
      PartsDistinct(f.id, f.kind, f.Data(), g.id, g.kind, g.Data());
    }
  }

  // ---------------------------------------------------------------- reading the text

  /** A reader of the candump format: identifier of three or eight digits, `#` or `##` and a flags digit,
      then two digits a byte. */
  function ReadText(s: string): Option<(CanId, FrameKind, seq<byte>)> {
    var n := BeforeHash(s);
    if n == |s| then None
    else
      match (ParseHexId(s[..n], n == 8), ReadTail(s[n..]))
      case (Ok(id), Some(tail)) => Some((id, tail.0, tail.1))
      case _ => None
  }

  function BeforeHash(s: string): (n: nat)
    ensures n <= |s| && (n < |s| ==> s[n] == '#')
  {
    if s == "" || s[0] == '#' then 0 else 1 + BeforeHash(s[1..])
  }

  function ReadTail(s: string): Option<(FrameKind, seq<byte>)>
    requires s != "" && s[0] == '#'
  {
    if |s| > 2 && s[1] == '#' then
      match (DigitValue(s[2]), ParseHexBytes(s[3..]))
      case (Some(d), Ok(data)) => Some((Fd(FlagsFromWire(d)), data))
      case _ => None
    else
      match ParseHexBytes(s[1..])
      case Ok(data) => Some((Classic, data))
      case Err(_) => None
  }

  lemma {:induction false} BeforeHashIs(a: string, s: string)
    requires AllDigits(a) && s != "" && s[0] == '#'
    ensures BeforeHash(a + s) == |a|
  {
    if a == "" {
      assert a + s == s;
    } else {
      assert IsDigit(a[0]) && (a + s)[1..] == a[1..] + s;
      assert AllDigits(a[1..]) by {
        assert forall i :: 0 <= i < |a| - 1 ==> a[1..][i] == a[i + 1] && IsDigit(a[i + 1]);
      }
      BeforeHashIs(a[1..], s);
    }
  }

  lemma TailReads(kind: FrameKind, data: seq<byte>)
    ensures var s := KindText(kind) + BytesText(data);
            s != "" && s[0] == '#' && ReadTail(s) == Some((kind, data))
  {
    BytesTextDigits(data);
    TailShape(kind, BytesText(data));
    BytesTextParses(data);
    if kind.Fd? {
      FlagsRoundTrip(kind.flags);
    }
  }

  lemma PartsRead(id: CanId, kind: FrameKind, data: seq<byte>)
    requires id.InRange()
    ensures ReadText(IdText(id) + KindText(kind) + BytesText(data)) == Some((id, kind, data))
  {
    var a, tail := IdText(id), KindText(kind) + BytesText(data);
    HexIsDigits(IdNumber(id), IdWidth(id));
    TailReads(kind, data);
    BeforeHashIs(a, tail);
    Regroup(a, KindText(kind), BytesText(data));
    assert (a + tail)[..|a|] == a && (a + tail)[|a|..] == tail;
    IdTextLength(id);
    IdTextParses(id);
    TruncatedInRange(id);
  }

  /** That reader gets back what a well-formed frame's text says. */
  lemma TextReads(f: Frame)
    requires f.WellFormed()
    ensures ReadText(Text(f)) == Some((f.id, f.kind, f.Data()))
  {
    PartsRead(f.id, f.kind, f.Data());
  }

  /** The text is written in digits, capital letters and `#` only, at the length the format gives. */
  lemma TextLooks(f: Frame)
    requires f.WellFormed()
    ensures forall i :: 0 <= i < |Text(f)| ==> IsDigit(Text(f)[i]) || Text(f)[i] == '#'
    ensures |Text(f)| == (if f.id.Extended? then 8 else 3) + (if f.kind.Fd? then 3 else 1) + 2 * f.len as nat
  {
    HexIsDigits(IdNumber(f.id), IdWidth(f.id));
    BytesTextDigits(f.Data());
    BytesTextLength(f.Data());
    IdTextLength(f.id);
    KindLooks(f.kind);
    var a, k, d := IdText(f.id), KindText(f.kind), BytesText(f.Data());
    forall i | 0 <= i < |Text(f)|
      ensures IsDigit(Text(f)[i]) || Text(f)[i] == '#'
    {
      if i < |a| {
        assert Text(f)[i] == a[i] && IsDigit(a[i]);
      } else if i < |a| + |k| {
        assert Text(f)[i] == k[i - |a|];
      } else {
        assert Text(f)[i] == d[i - |a| - |k|] && IsDigit(d[i - |a| - |k|]);
      }
    }
  }

  lemma KindLooks(kind: FrameKind)
    ensures |KindText(kind)| == if kind.Fd? then 3 else 1
    ensures forall i :: 0 <= i < |KindText(kind)| ==> IsDigit(KindText(kind)[i]) || KindText(kind)[i] == '#'
  {
    if kind.Fd? {
      FlagsText(kind.flags);
    }
  }

  /** The parser of data bytes on strings of such digits: it takes those of even length, to bytes that print
      as that string, and refuses the others. */
  lemma DigitsReadBack(s: string, data: seq<byte>)
    requires AllDigits(s)
    ensures ParseHexBytes(s) == Ok(data) ==> BytesText(data) == s
    ensures |s| % 2 != 0 <==> ParseHexBytes(s) == Err(OddLength)
    ensures |s| % 2 == 0 ==> ParseHexBytes(s).Ok?
  {
    DigitsKept(s);
    if |s| % 2 == 0 {
      var read := PairsReadBack(s, 0);
      assert s[0..] == s;
    }
  }

  lemma DigitOf(c: char)
    requires IsDigit(c)
    ensures DigitValue(c).Some? && DigitValue(c).value < 16 && Digit(DigitValue(c).value) == c
  {
  }

  lemma HexPair(x: nat, y: nat)
    requires x < 16 && y < 16
    ensures Hex(16 * x + y, 2) == [Digit(x), Digit(y)]
  {
    var n := 16 * x + y;
    if x == 0 {
      assert ZeroDigits(0) == "" && ZeroDigits(1) == "0" && Digits(n) == [Digit(y)];
    } else {
      assert n / 16 == x && n % 16 == y && Digits(x) == [Digit(x)];
    }
  }

  lemma PairParses(a: char, b: char, x: nat, y: nat)
    requires DigitValue(a) == Some(x) && DigitValue(b) == Some(y) && x < 16 && y < 16
    ensures FromStrRadix16([a, b], 0xFF) == Some(16 * x + y)
  {
    ValueNext("", 0, a, x);
    ValueNext([a], x, b, y);
    assert "" + [a] == [a] && [a] + [b] == [a, b];
  }

  lemma CharPair(c: char, d: char) returns (b: byte)
    requires IsDigit(c) && IsDigit(d)
    ensures Hex(b, 2) == [c, d] && FromStrRadix16([c, d], 0xFF) == Some(b)
  {
    DigitOf(c);
    DigitOf(d);
    var x, y := DigitValue(c).value, DigitValue(d).value;
    HexPair(x, y);
    PairParses(c, d, x, y);
    b := 16 * x + y;
  }

  /** One pair of digits, in front of what the later ones gave. */
  lemma PairReadsBack(s: string, offset: nat, later: seq<byte>) returns (b: byte)
    requires AllDigits(s) && offset + 2 <= |s| && (|s| - offset) % 2 == 0
    requires HexPairs(s, offset + 2) == Ok(later) && BytesText(later) == s[offset + 2..]
    ensures HexPairs(s, offset) == Ok([b] + later) && BytesText([b] + later) == s[offset..]
  {
    assert IsDigit(s[offset]) && IsDigit(s[offset + 1]);
    b := CharPair(s[offset], s[offset + 1]);
    var pair := s[offset..offset + 2];
    assert pair == [s[offset], s[offset + 1]];
    PairsNext(s, offset, b, later);
    BytesTextCons(b, later);
    assert s[offset..] == pair + s[offset + 2..];
  }

  lemma {:induction false} PairsReadBack(s: string, offset: nat) returns (data: seq<byte>)
    requires AllDigits(s) && offset <= |s| && (|s| - offset) % 2 == 0
    ensures HexPairs(s, offset) == Ok(data) && BytesText(data) == s[offset..]
    decreases |s| - offset
  {
    data := [];
    if offset < |s| {
      var later := PairsReadBack(s, offset + 2);
      var b := PairReadsBack(s, offset, later);
      data := [b] + later;
    }
  }

  lemma {:induction false} BytesTextCons(b: byte, data: seq<byte>)
    ensures BytesText([b] + data) == Hex(b, 2) + BytesText(data)
  {
    var all := [b] + data;
    if data == [] {
      assert all[..0] == [] && "" + Hex(b, 2) == Hex(b, 2) + "";
    } else {
      var n := |data| - 1;
      assert all[..|all| - 1] == [b] + data[..n];
      BytesTextCons(b, data[..n]);
      Regroup(Hex(b, 2), BytesText(data[..n]), Hex(data[n], 2));
    }
  }

  // ---------------------------------------------------------------- frames as JSON

  datatype FrameJson = FrameJson(id: string, extended: bool, fd: bool, brs: bool, esi: bool, dlc: byte, data: string,
                                 timestamp: Option<nat>)

  /** The arguments a frame is sent from. */
  datatype SendFrameInline = SendFrameInline(id: string, extended: bool, data: string, fd: bool, brs: bool)

  function FromFrameJson(f: Frame): FrameJson
    requires f.len <= MAX_FD_DATA_LEN
  {
    var fd := f.kind.Fd?;
    FrameJson(IdText(f.id), f.id.Extended?, fd, fd && f.kind.flags.brs, fd && f.kind.flags.esi,
              f.len, BytesText(f.Data()), f.timestamp)
  }

  /** The fields show the frame: every one of them, and nothing but the unused part of its buffer is lost. */
  lemma JsonShowsFrame(f: Frame, g: Frame)
    requires f.WellFormed() && g.WellFormed()
    ensures var j := FromFrameJson(f);
            && j.extended == f.id.Extended? && ParseHexId(j.id, j.extended) == Ok(f.id)
            && j.fd == f.kind.Fd? && (j.fd ==> f.kind == Fd(FdFlags(j.brs, j.esi))) && (!j.fd ==> !j.brs && !j.esi)
            && j.dlc == f.len && ParseHexBytes(j.data) == Ok(f.Data()) && j.timestamp == f.timestamp
    ensures FromFrameJson(f) == FromFrameJson(g) <==> SameMessage(f, g) && f.timestamp == g.timestamp
  {
    IdTextParses(f.id);
    IdTextParses(g.id);
    TruncatedInRange(f.id);
    TruncatedInRange(g.id);
    BytesTextParses(f.Data());
    BytesTextParses(g.Data());
    assert SameMessage(f, g) ==> f.len as int == |f.Data()| == |g.Data()| == g.len as int;
  }

  function BuildFrame(args: SendFrameInline): Result<Frame, ParseError> {
    match ParseHexId(args.id, args.extended)
    case Err(e) => Err(e)
    case Ok(id) =>
      match ParseHexBytes(args.data)
      case Err(e) => Err(e)
      case Ok(data) =>
        match if args.fd then NewFd(id, data, FdFlags(args.brs, false)) else NewClassic(id, data)
        case Ok(frame) => Ok(frame)
        case Err(e) => Err(InvalidFrame(e))
  }

  /** What arguments build: the frame they ask for, or the first error in the order of the fields. */
  lemma BuildOutcome(args: SendFrameInline)
    ensures ParseHexId(args.id, args.extended).Err? ==>
              BuildFrame(args) == Err(ParseHexId(args.id, args.extended).error)
    ensures ParseHexId(args.id, args.extended).Ok? && ParseHexBytes(args.data).Err? ==>
              BuildFrame(args) == Err(ParseHexBytes(args.data).error)
    ensures ParseHexId(args.id, args.extended).Ok? && ParseHexBytes(args.data).Ok? ==>
              var data, limit := ParseHexBytes(args.data).value, if args.fd then 64 else 8;
              match BuildFrame(args)
              case Ok(f) =>
                && |data| <= limit && f.WellFormed() && f.Data() == data && f.timestamp == None
                && f.id == ParseHexId(args.id, args.extended).value
                && f.kind == if args.fd then Fd(FdFlags(args.brs, false)) else Classic
              case Err(e) => |data| > limit && e == InvalidFrame(DataTooLong(|data|, limit))
  {
  }

  /** The arguments that send what a received frame's JSON shows. */
  function Resend(j: FrameJson): SendFrameInline {
    SendFrameInline(j.id, j.extended, j.data, j.fd, j.brs)
  }

  /** Everything but the ESI flag, which a sender cannot ask for. */
  function WithoutEsi(kind: FrameKind): FrameKind {
    if kind.Fd? then Fd(kind.flags.(esi := false)) else Classic
  }

  /** Sending a received frame's JSON sends that frame, but for its ESI flag and timestamp, exactly
      for well-formed frames. */
  lemma JsonRoundTrip(f: Frame)
    requires f.len <= MAX_FD_DATA_LEN
    ensures var r := BuildFrame(Resend(FromFrameJson(f)));
            (r.Ok? && r.value == Frame(f.id, WithoutEsi(f.kind), f.len, Padded(f.Data()), None)) <==> f.WellFormed()
  {
    IdTextParses(f.id);
    TruncatedInRange(f.id);
    BytesTextParses(f.Data());
  }
}
