// The wire contract: byte order helpers, the common header, LockRequest and
// LockResponse (common/proto.h, common/wire.cpp).
//
// A C array of uint8_t is a seq<byte> where it is only read and an array<byte>
// where it is written. Shifts and ors over disjoint bit ranges are written as
// multiplication, division and addition; the truncation to a fixed width is
// written out wherever the source relies on it.
module Wire {

  type byte = x: int | 0 <= x < 0x100
  type uint16 = x: int | 0 <= x < 0x1_0000
  type uint32 = x: int | 0 <= x < 0x1_0000_0000
  type uint64 = x: int | 0 <= x < 0x1_0000_0000_0000_0000
  type Bytes = seq<byte>
  type TermNo = s: seq<byte> | |s| == 4 witness [0, 0, 0, 0]

  const MAGIC0: byte := 0x46
  const MAGIC1: byte := 0x43
  const PROTO_VERSION: byte := 1
  const MAX_MESSAGE_LEN: uint16 := 1024
  const HEADER_SIZE: nat := 20
  const REQUEST_SIZE: nat := 24
  const RESPONSE_SIZE: nat := 28
  const CODE_LOCK_REQUEST: byte := 0x10
  const CODE_LOCK_RESPONSE: byte := 0x20
  const RESULT_OK: byte := 0

  datatype WireError =
    | Ok
    | TooShort
    | BadMagic
    | UnsupportedVersion
    | BadLength
    | LengthMismatch
    | UnknownCode

  datatype Header = Header(
    magic0: byte, magic1: byte, version: byte, code: byte,
    length: uint16, seqNo: uint16, timestamp: uint64, reserved: uint32)

  datatype LockRequest = LockRequest(header: Header, termNo: TermNo)

  datatype LockResponse = LockResponse(
    header: Header, termNo: TermNo, result: byte, pad0: byte, pad1: byte, pad2: byte)

  // Byte order of the machine the struct lives on. Nothing below depends on it.
  datatype HostOrder = Little | Big

  // ---- byte order: the specification ----

  function Pow256(n: nat): (p: nat)
    ensures p > 0
  {
    if n == 0 then 1 else 256 * Pow256(n - 1)
  }

  // The number a big-endian byte string stands for.
  function BigEndian(s: Bytes): nat {
    if s == [] then 0 else 256 * BigEndian(s[..|s| - 1]) + s[|s| - 1]
  }

  // The n low-order base-256 digits of v, most significant first.
  function Digits(v: nat, n: nat): (s: Bytes)
    ensures |s| == n
  {
    if n == 0 then [] else Digits(v / 256, n - 1) + [v % 256]
  }

  lemma {:induction false} BigEndianOfDigits(v: nat, n: nat)
    requires v < Pow256(n)
    ensures BigEndian(Digits(v, n)) == v
  {
    if n != 0 {
      BigEndianOfDigits(v / 256, n - 1);
      assert Digits(v, n)[..n - 1] == Digits(v / 256, n - 1);
    }
  }

  lemma {:induction false} DigitsOfBigEndian(s: Bytes)
    ensures BigEndian(s) < Pow256(|s|)
    ensures Digits(BigEndian(s), |s|) == s
  {
    if s != [] {
      DigitsOfBigEndian(s[..|s| - 1]);
      assert s == s[..|s| - 1] + [s[|s| - 1]];
    }
  }

  lemma DivDiv(v: nat, k: nat)
    requires k > 0
    ensures v / 256 / k == v / (256 * k)
  {
    var q, r := v / 256 / k, v / 256 % k;
    assert v == 256 * (q * k + r) + v % 256;
    assert v == (256 * k) * q + (256 * r + v % 256);
    assert 0 <= 256 * r + v % 256 < 256 * k;
    DivUnique(v, 256 * k, q, 256 * r + v % 256);
  }

  lemma DivUnique(v: nat, d: nat, q: nat, r: nat)
    requires d > 0 && v == d * q + r && r < d
    ensures v / d == q
  {
    var q' := v / d;
    var r' := v % d;
    assert v == d * q' + r';
    if q < q' {
      assert d * q' >= d * (q + 1) by { MulMonotone(d, q + 1, q'); }
    } else if q' < q {
      assert d * q >= d * (q' + 1) by { MulMonotone(d, q' + 1, q); }
    }
  }

  lemma MulMonotone(d: nat, a: nat, b: nat)
    requires a <= b
    ensures d * a <= d * b
  {
  }

  lemma {:induction false} DigitAt(v: nat, n: nat, i: nat)
    requires i < n
    ensures Digits(v, n)[i] == v / Pow256(n - 1 - i) % 256
  {
    if i < n - 1 {
      DigitAt(v / 256, n - 1, i);
      DivDiv(v, Pow256(n - 2 - i));
    }
  }

  lemma Widths()
    ensures Pow256(1) == 0x100 && Pow256(2) == 0x1_0000 && Pow256(4) == 0x1_0000_0000
    ensures Pow256(8) == 0x1_0000_0000_0000_0000
  {
    assert Pow256(3) == 0x100_0000;
    assert Pow256(5) == 0x100_0000_0000;
    assert Pow256(6) == 0x1_0000_0000_0000;
    assert Pow256(7) == 0x100_0000_0000_0000;
  }

  lemma BigEndianStep(p: Bytes, n: nat)
    requires n < |p|
    ensures BigEndian(p[..n + 1]) == 256 * BigEndian(p[..n]) + p[n]
  {
    assert p[..n + 1][..n] == p[..n];
  }

  // ---- byte order: the code ----

  method LoadBe16(p: Bytes) returns (v: uint16)
    requires |p| >= 2
    ensures v == BigEndian(p[..2])
  {
    v := p[0] as int * 0x100 + p[1] as int;
    BigEndianStep(p, 0);
    BigEndianStep(p, 1);
  }

  method LoadBe32(p: Bytes) returns (v: uint32)
    requires |p| >= 4
    ensures v == BigEndian(p[..4])
  {
    v := p[0] as int * 0x100_0000 + p[1] as int * 0x1_0000 + p[2] as int * 0x100 + p[3] as int;
    BigEndianStep(p, 0);
    BigEndianStep(p, 1);
    BigEndianStep(p, 2);
    BigEndianStep(p, 3);
  }

  method LoadBe64(p: Bytes) returns (v: uint64)
    requires |p| >= 8
    ensures v == BigEndian(p[..8])
  {
    Widths();
    v := 0;
    for i := 0 to 8
      invariant v == BigEndian(p[..i])
    {
      DigitsOfBigEndian(p[..i]);
      Pow256Monotone(i, 7);
      v := (v as int * 0x100) % 0x1_0000_0000_0000_0000 + p[i] as int;
      BigEndianStep(p, i);
    }
  }

  lemma {:induction false} Pow256Monotone(m: nat, n: nat)
    requires m <= n
    ensures Pow256(m) <= Pow256(n)
  {
    if m < n {
      Pow256Monotone(m, n - 1);
    }
  }

  // s with t written over it at position at
  function Overwrite(s: Bytes, at: nat, t: Bytes): (r: Bytes)
    requires at + |t| <= |s|
  {
    s[..at] + t + s[at + |t|..]
  }

  method StoreBe16(p: array<byte>, at: nat, v: uint16)
    requires at + 2 <= p.Length
    modifies p
    ensures p[..] == Overwrite(old(p[..]), at, Digits(v, 2))
  {
    p[at] := v / 0x100 % 0x100;
    p[at + 1] := v % 0x100;
    assert Digits(v, 2) == [v / 0x100 % 0x100, v % 0x100];
  }

  method StoreBe32(p: array<byte>, at: nat, v: uint32)
    requires at + 4 <= p.Length
    modifies p
    ensures p[..] == Overwrite(old(p[..]), at, Digits(v, 4))
  {
    p[at] := v / 0x100_0000 % 0x100;
    p[at + 1] := v / 0x1_0000 % 0x100;
    p[at + 2] := v / 0x100 % 0x100;
    p[at + 3] := v % 0x100;
    Widths();
    forall i: nat | i < 4 ensures p[at + i] == Digits(v, 4)[i] {
      DigitAt(v, 4, i);
      assert Pow256(0) == 1 && Pow256(3) == 0x100_0000;
    }
  }

  method StoreBe64(p: array<byte>, at: nat, v: uint64)
    requires at + 8 <= p.Length
    modifies p
    ensures p[..] == Overwrite(old(p[..]), at, Digits(v, 8))
  {
    for i := 0 to 8
      invariant p[..at] == old(p[..at]) && p[at + 8..] == old(p[at + 8..])
      invariant p[at..at + i] == Digits(v, 8)[..i]
    {
      p[at + i] := v / Pow256(7 - i) % 0x100;
      DigitAt(v, 8, i);
      assert p[at..at + i + 1] == p[at..at + i] + [p[at + i]];
    }
    assert p[..] == p[..at] + p[at..at + 8] + p[at + 8..];
  }

  // ---- header, LockRequest and LockResponse: the contract ----

  function EncodeHeader(h: Header): (s: Bytes)
    ensures |s| == HEADER_SIZE
  {
    [h.magic0, h.magic1, h.version, h.code] + Digits(h.length, 2) + Digits(h.seqNo, 2)
    + Digits(h.timestamp, 8) + Digits(h.reserved, 4)
  }

  function EncodeRequest(m: LockRequest): (s: Bytes)
    ensures |s| == REQUEST_SIZE
  {
    EncodeHeader(m.header) + m.termNo
  }

  function EncodeResponse(m: LockResponse): (s: Bytes)
    ensures |s| == RESPONSE_SIZE
  {
    EncodeHeader(m.header) + m.termNo + [m.result, m.pad0, m.pad1, m.pad2]
  }

  lemma FieldWidths(s: Bytes)
    requires |s| >= HEADER_SIZE
    ensures BigEndian(s[4..6]) < 0x1_0000 && BigEndian(s[6..8]) < 0x1_0000
    ensures BigEndian(s[8..16]) < 0x1_0000_0000_0000_0000 && BigEndian(s[16..20]) < 0x1_0000_0000
  {
    Widths();
    DigitsOfBigEndian(s[4..6]);
    DigitsOfBigEndian(s[6..8]);
    DigitsOfBigEndian(s[8..16]);
    DigitsOfBigEndian(s[16..20]);
  }

  function HeaderOf(s: Bytes): Header
    requires |s| >= HEADER_SIZE
  {
    FieldWidths(s);
    Header(s[0], s[1], s[2], s[3], BigEndian(s[4..6]), BigEndian(s[6..8]),
           BigEndian(s[8..16]), BigEndian(s[16..20]))
  }

  function RequestOf(s: Bytes): LockRequest
    requires |s| >= REQUEST_SIZE
  {
    LockRequest(HeaderOf(s), s[20..24])
  }

  function ResponseOf(s: Bytes): LockResponse
    requires |s| >= RESPONSE_SIZE
  {
    LockResponse(HeaderOf(s), s[20..24], s[24], s[25], s[26], s[27])
  }

  // load_be16 at the offset of the length field, as StreamBuffer::next reads it.
  function LengthField(s: Bytes): nat
    requires |s| >= 6
  {
    s[4] as int * 0x100 + s[5] as int
  }

  lemma LengthFieldIsBigEndian(s: Bytes)
    requires |s| >= HEADER_SIZE
    ensures LengthField(s) == HeaderOf(s).length
  {
    assert s[4..6][..1] == [s[4]] && s[4..6][..1][..0] == [];
    BigEndianStep(s[4..6], 0);
    BigEndianStep(s[4..6], 1);
    assert s[4..6][..2] == s[4..6];
  }

  // The checks of unpack_header, in its order.
  function HeaderCheck(s: Bytes): WireError {
    if |s| < HEADER_SIZE then TooShort
    else if s[0] != MAGIC0 || s[1] != MAGIC1 then BadMagic
    else if s[2] > PROTO_VERSION then UnsupportedVersion
    else if LengthField(s) < HEADER_SIZE || LengthField(s) > MAX_MESSAGE_LEN then BadLength
    else Ok
  }

  // Those of unpack_lock_request and unpack_lock_response, in theirs.
  function MessageCheck(s: Bytes, code: byte, size: nat): WireError {
    if HeaderCheck(s) != Ok then HeaderCheck(s)
    else if s[3] != code then UnknownCode
    else if LengthField(s) != size then LengthMismatch
    else if |s| < size then TooShort
    else Ok
  }

  function RequestCheck(s: Bytes): WireError {
    MessageCheck(s, CODE_LOCK_REQUEST, REQUEST_SIZE)
  }

  function ResponseCheck(s: Bytes): WireError {
    MessageCheck(s, CODE_LOCK_RESPONSE, RESPONSE_SIZE)
  }

  // ---- codec exactness ----

  lemma HeaderOfEncoded(h: Header, tail: Bytes)
    ensures HeaderOf(EncodeHeader(h) + tail) == h
  {
    var s := EncodeHeader(h) + tail;
    assert s[4..6] == Digits(h.length, 2);
    assert s[6..8] == Digits(h.seqNo, 2);
    assert s[8..16] == Digits(h.timestamp, 8);
    assert s[16..20] == Digits(h.reserved, 4);
    Widths();
    BigEndianOfDigits(h.length, 2);
    BigEndianOfDigits(h.seqNo, 2);
    BigEndianOfDigits(h.timestamp, 8);
    BigEndianOfDigits(h.reserved, 4);
  }

  lemma EncodedOfHeader(s: Bytes)
    requires |s| >= HEADER_SIZE
    ensures EncodeHeader(HeaderOf(s)) == s[..HEADER_SIZE]
  {
    DigitsOfBigEndian(s[4..6]);
    DigitsOfBigEndian(s[6..8]);
    DigitsOfBigEndian(s[8..16]);
    DigitsOfBigEndian(s[16..20]);
    assert s[..20] == [s[0], s[1], s[2], s[3]] + s[4..6] + s[6..8] + s[8..16] + s[16..20];
  }

  // Decoding inverts encoding exactly when the header is valid for the type;
  // otherwise the answer is the first violated check, in the contract's order.
  lemma RequestRoundTrip(m: LockRequest, tail: Bytes)
    ensures RequestOf(EncodeRequest(m) + tail) == m
    ensures var h := m.header;
            var magicOk := h.magic0 == MAGIC0 && h.magic1 == MAGIC1;
            var versionOk := h.version <= PROTO_VERSION;
            var rangeOk := HEADER_SIZE <= h.length <= MAX_MESSAGE_LEN;
            var codeOk := h.code == CODE_LOCK_REQUEST;
            var e := RequestCheck(EncodeRequest(m) + tail);
            && (e == Ok <==> magicOk && versionOk && codeOk && h.length == REQUEST_SIZE)
            && (e == BadMagic <==> !magicOk)
            && (e == UnsupportedVersion <==> magicOk && !versionOk)
            && (e == BadLength <==> magicOk && versionOk && !rangeOk)
            && (e == UnknownCode <==> magicOk && versionOk && rangeOk && !codeOk)
            && (e == LengthMismatch <==> magicOk && versionOk && rangeOk && codeOk && h.length != REQUEST_SIZE)
            && e != TooShort
  {
    HeaderOfEncoded(m.header, m.termNo + tail);
    assert EncodeRequest(m) + tail == EncodeHeader(m.header) + (m.termNo + tail);
    LengthFieldIsBigEndian(EncodeRequest(m) + tail);
  }

  lemma ResponseRoundTrip(m: LockResponse, tail: Bytes)
    ensures ResponseOf(EncodeResponse(m) + tail) == m
    ensures var h := m.header;
            var magicOk := h.magic0 == MAGIC0 && h.magic1 == MAGIC1;
            var versionOk := h.version <= PROTO_VERSION;
            var rangeOk := HEADER_SIZE <= h.length <= MAX_MESSAGE_LEN;
            var codeOk := h.code == CODE_LOCK_RESPONSE;
            var e := ResponseCheck(EncodeResponse(m) + tail);
            && (e == Ok <==> magicOk && versionOk && codeOk && h.length == RESPONSE_SIZE)
            && (e == BadMagic <==> !magicOk)
            && (e == UnsupportedVersion <==> magicOk && !versionOk)
            && (e == BadLength <==> magicOk && versionOk && !rangeOk)
            && (e == UnknownCode <==> magicOk && versionOk && rangeOk && !codeOk)
            && (e == LengthMismatch <==> magicOk && versionOk && rangeOk && codeOk && h.length != RESPONSE_SIZE)
            && e != TooShort
  {
    var body := m.termNo + [m.result, m.pad0, m.pad1, m.pad2];
    HeaderOfEncoded(m.header, body + tail);
    assert EncodeResponse(m) + tail == EncodeHeader(m.header) + (body + tail);
    LengthFieldIsBigEndian(EncodeResponse(m) + tail);
  }

  // Where each field of an encoded message is, and that numbers are there most
  // significant byte first.
  lemma HeaderLayout(h: Header, tail: Bytes)
    ensures var s := EncodeHeader(h) + tail;
            && s[0] == h.magic0 && s[1] == h.magic1 && s[2] == h.version && s[3] == h.code
            && BigEndian(s[4..6]) == h.length && BigEndian(s[6..8]) == h.seqNo
            && BigEndian(s[8..16]) == h.timestamp && BigEndian(s[16..20]) == h.reserved
  {
    var s := EncodeHeader(h) + tail;
    assert s[4..6] == Digits(h.length, 2);
    assert s[6..8] == Digits(h.seqNo, 2);
    assert s[8..16] == Digits(h.timestamp, 8);
    assert s[16..20] == Digits(h.reserved, 4);
    Widths();
    BigEndianOfDigits(h.length, 2);
    BigEndianOfDigits(h.seqNo, 2);
    BigEndianOfDigits(h.timestamp, 8);
    BigEndianOfDigits(h.reserved, 4);
  }

  lemma MessageLayout(q: LockRequest, p: LockResponse)
    ensures |EncodeRequest(q)| == 24 && EncodeRequest(q)[..20] == EncodeHeader(q.header) && EncodeRequest(q)[20..] == q.termNo
    ensures var s := EncodeResponse(p);
            && |s| == 28 && s[..20] == EncodeHeader(p.header) && s[20..24] == p.termNo
            && s[24..] == [p.result, p.pad0, p.pad1, p.pad2]
  {
  }

  // What each verdict says about the bytes: the first check to fail, for any
  // bytes whatever, however few.
  lemma VerdictOnBytes(s: Bytes, code: byte, size: nat)
    requires HEADER_SIZE <= size <= MAX_MESSAGE_LEN
    ensures var e := MessageCheck(s, code, size);
            var magicOk := |s| >= 20 && s[0] == 0x46 && s[1] == 0x43;
            var versionOk := magicOk && s[2] <= 1;
            var rangeOk := versionOk && 20 <= BigEndian(s[4..6]) <= 1024;
            var codeOk := rangeOk && s[3] == code;
            var lengthOk := codeOk && BigEndian(s[4..6]) == size;
            && (e == Ok <==> lengthOk && |s| >= size)
            && (e == TooShort <==> |s| < 20 || (lengthOk && |s| < size))
            && (e == BadMagic <==> |s| >= 20 && !magicOk)
            && (e == UnsupportedVersion <==> magicOk && !versionOk)
            && (e == BadLength <==> versionOk && !rangeOk)
            && (e == UnknownCode <==> rangeOk && !codeOk)
            && (e == LengthMismatch <==> codeOk && !lengthOk)
            && (HeaderCheck(s) == Ok <==> rangeOk)
  {
    if |s| >= HEADER_SIZE {
      LengthFieldIsBigEndian(s);
    }
  }

  // Whatever unpacks re-packs to its own leading bytes: nothing is lost on the
  // way in, timestamp and reserved included.
  lemma RequestReencodes(s: Bytes)
    requires |s| >= REQUEST_SIZE
    ensures EncodeRequest(RequestOf(s)) == s[..REQUEST_SIZE]
  {
    EncodedOfHeader(s);
    assert s[..24] == s[..20] + s[20..24];
  }

  lemma ResponseReencodes(s: Bytes)
    requires |s| >= RESPONSE_SIZE
    ensures EncodeResponse(ResponseOf(s)) == s[..RESPONSE_SIZE]
  {
    EncodedOfHeader(s);
    assert s[..28] == s[..20] + s[20..24] + [s[24], s[25], s[26], s[27]];
  }

  // ---- pack and unpack: the code ----

  // The bytes of a multi-byte field as the host keeps them in memory.
  function HostBytes(order: HostOrder, v: nat, n: nat): (s: Bytes)
    ensures |s| == n
  {
    var d := Digits(v, n);
    if order == Big then d else seq(n, i requires 0 <= i < n => d[n - 1 - i])
  }

  function HeaderImage(order: HostOrder, h: Header): (s: Bytes)
    ensures |s| == HEADER_SIZE
  {
    [h.magic0, h.magic1, h.version, h.code]
    + HostBytes(order, h.length, 2) + HostBytes(order, h.seqNo, 2)
    + HostBytes(order, h.timestamp, 8) + HostBytes(order, h.reserved, 4)
  }

  method CopyIn(buf: array<byte>, image: Bytes)
    requires |image| <= buf.Length
    modifies buf
    ensures buf[..] == image + old(buf[|image|..])
  {
    forall i | 0 <= i < |image| {
      buf[i] := image[i];
    }
  }

  lemma OverwriteMiddle(s: Bytes, pre: Bytes, mid: Bytes, post: Bytes, t: Bytes)
    requires s == pre + (mid + post) && |t| == |mid|
    ensures Overwrite(s, |pre|, t) == (pre + t) + post
  {
  }

  // Overwriting the four multi-byte fields in turn leaves their new values,
  // whatever the fields held before.
  lemma FixUp(s: Bytes, pre: Bytes, a: Bytes, b: Bytes, c: Bytes, d: Bytes, h: Header)
    requires |pre| == 4 && |a| == 2 && |b| == 2 && |c| == 8 && |d| == 4
    requires |s| >= HEADER_SIZE && s[..HEADER_SIZE] == pre + (a + (b + (c + d)))
    ensures var s1 := Overwrite(s, 4, Digits(h.length, 2));
            var s2 := Overwrite(s1, 6, Digits(h.seqNo, 2));
            var s3 := Overwrite(s2, 8, Digits(h.timestamp, 8));
            Overwrite(s3, 16, Digits(h.reserved, 4))
            == pre + Digits(h.length, 2) + Digits(h.seqNo, 2) + Digits(h.timestamp, 8) + Digits(h.reserved, 4)
               + s[HEADER_SIZE..]
  {
    var rest := s[HEADER_SIZE..];
    assert s == pre + (a + (b + (c + (d + rest))));
    var s1 := Overwrite(s, 4, Digits(h.length, 2));
    OverwriteMiddle(s, pre, a, b + (c + (d + rest)), Digits(h.length, 2));
    var p1 := pre + Digits(h.length, 2);
    var s2 := Overwrite(s1, 6, Digits(h.seqNo, 2));
    OverwriteMiddle(s1, p1, b, c + (d + rest), Digits(h.seqNo, 2));
    var p2 := p1 + Digits(h.seqNo, 2);
    var s3 := Overwrite(s2, 8, Digits(h.timestamp, 8));
    OverwriteMiddle(s2, p2, c, d + rest, Digits(h.timestamp, 8));
    var p3 := p2 + Digits(h.timestamp, 8);
    OverwriteMiddle(s3, p3, d, rest, Digits(h.reserved, 4));
  }

  // The four stores that follow every memcpy in wire.cpp.
  method StoreHeaderFields(h: Header, buf: array<byte>, ghost order: HostOrder)
    requires buf.Length >= HEADER_SIZE && buf[..HEADER_SIZE] == HeaderImage(order, h)
    modifies buf
    ensures buf[..] == EncodeHeader(h) + old(buf[HEADER_SIZE..])
  {
    ghost var single := [h.magic0, h.magic1, h.version, h.code];
    ghost var a, b := HostBytes(order, h.length, 2), HostBytes(order, h.seqNo, 2);
    ghost var c, d := HostBytes(order, h.timestamp, 8), HostBytes(order, h.reserved, 4);
    assert buf[..][..HEADER_SIZE] == HeaderImage(order, h) == single + (a + (b + (c + d)));
    FixUp(buf[..], single, a, b, c, d, h);
    StoreBe16(buf, 4, h.length);
    StoreBe16(buf, 6, h.seqNo);
    StoreBe64(buf, 8, h.timestamp);
    StoreBe32(buf, 16, h.reserved);
  }

  method PackHeader(order: HostOrder, h: Header, buf: array<byte>) returns (n: nat)
    modifies buf
    ensures n == if buf.Length < HEADER_SIZE then 0 else HEADER_SIZE
    ensures buf[..] == if n == 0 then old(buf[..]) else EncodeHeader(h) + old(buf[HEADER_SIZE..])
  {
    if buf.Length < HEADER_SIZE {
      return 0;
    }
    CopyIn(buf, HeaderImage(order, h));
    StoreHeaderFields(h, buf, order);
    n := HEADER_SIZE;
  }

  method PackLockRequest(order: HostOrder, m: LockRequest, buf: array<byte>) returns (n: nat)
    modifies buf
    ensures n == if buf.Length < REQUEST_SIZE then 0 else REQUEST_SIZE
    ensures buf[..] == if n == 0 then old(buf[..]) else EncodeRequest(m) + old(buf[REQUEST_SIZE..])
  {
    if buf.Length < REQUEST_SIZE {
      return 0;
    }
    CopyIn(buf, HeaderImage(order, m.header) + m.termNo);
    assert buf[HEADER_SIZE..] == m.termNo + old(buf[REQUEST_SIZE..]);
    StoreHeaderFields(m.header, buf, order);
    n := REQUEST_SIZE;
  }

  method PackLockResponse(order: HostOrder, m: LockResponse, buf: array<byte>) returns (n: nat)
    modifies buf
    ensures n == if buf.Length < RESPONSE_SIZE then 0 else RESPONSE_SIZE
    ensures buf[..] == if n == 0 then old(buf[..]) else EncodeResponse(m) + old(buf[RESPONSE_SIZE..])
  {
    if buf.Length < RESPONSE_SIZE {
      return 0;
    }
    var body := m.termNo + [m.result, m.pad0, m.pad1, m.pad2];
    CopyIn(buf, HeaderImage(order, m.header) + body);
    assert buf[HEADER_SIZE..] == body + old(buf[RESPONSE_SIZE..]);
    StoreHeaderFields(m.header, buf, order);
    n := RESPONSE_SIZE;
  }

  method UnpackHeader(buf: Bytes) returns (e: WireError, out: Header)
    ensures e == HeaderCheck(buf)
    ensures |buf| >= HEADER_SIZE ==> out == HeaderOf(buf) && out.length == LengthField(buf)
  {
    out := Header(0, 0, 0, 0, 0, 0, 0, 0);
    if |buf| < HEADER_SIZE {
      return TooShort, out;
    }
    out := Header(buf[0], buf[1], buf[2], buf[3], 0, 0, 0, 0);
    var length := LoadBe16(buf[4..]);
    var seqNo := LoadBe16(buf[6..]);
    var timestamp := LoadBe64(buf[8..]);
    var reserved := LoadBe32(buf[16..]);
    out := out.(length := length, seqNo := seqNo, timestamp := timestamp, reserved := reserved);
    assert buf[4..][..2] == buf[4..6] && buf[6..][..2] == buf[6..8];
    assert buf[8..][..8] == buf[8..16] && buf[16..][..4] == buf[16..20];
    LengthFieldIsBigEndian(buf);
    if out.magic0 != MAGIC0 || out.magic1 != MAGIC1 {
      return BadMagic, out;
    }
    if out.version > PROTO_VERSION {
      return UnsupportedVersion, out;
    }
    if out.length < HEADER_SIZE || out.length > MAX_MESSAGE_LEN {
      return BadLength, out;
    }
    e := Ok;
  }

  method UnpackLockRequest(buf: Bytes) returns (e: WireError, out: LockRequest)
    ensures e == RequestCheck(buf)
    ensures e == Ok ==> out == RequestOf(buf)
  {
    out := LockRequest(Header(0, 0, 0, 0, 0, 0, 0, 0), [0, 0, 0, 0]);
    var h;
    e, h := UnpackHeader(buf);
    if e != Ok {
      return;
    }
    if h.code != CODE_LOCK_REQUEST {
      return UnknownCode, out;
    }
    if h.length != REQUEST_SIZE {
      return LengthMismatch, out;
    }
    if |buf| < REQUEST_SIZE {
      return TooShort, out;
    }
    out := LockRequest(h, buf[20..24]);
  }

  method UnpackLockResponse(buf: Bytes) returns (e: WireError, out: LockResponse)
    ensures e == ResponseCheck(buf)
    ensures e == Ok ==> out == ResponseOf(buf)
  {
    out := LockResponse(Header(0, 0, 0, 0, 0, 0, 0, 0), [0, 0, 0, 0], 0, 0, 0, 0);
    var h;
    e, h := UnpackHeader(buf);
    if e != Ok {
      return;
    }
    if h.code != CODE_LOCK_RESPONSE {
      return UnknownCode, out;
    }
    if h.length != RESPONSE_SIZE {
      return LengthMismatch, out;
    }
    if |buf| < RESPONSE_SIZE {
      return TooShort, out;
    }
    out := LockResponse(h, buf[20..24], buf[24], buf[25], buf[26], buf[27]);
  }

  // ---- constructors; the clock is a parameter ----

  function MakeLockRequest(termNo: TermNo, seqNo: uint16, now: uint64): (m: LockRequest)
    ensures RequestCheck(EncodeRequest(m)) == Ok
    ensures m.termNo == termNo && m.header.seqNo == seqNo && m.header.timestamp == now && m.header.reserved == 0
  {
    var m := LockRequest(Header(MAGIC0, MAGIC1, PROTO_VERSION, CODE_LOCK_REQUEST, REQUEST_SIZE, seqNo, now, 0), termNo);
    RequestRoundTrip(m, []);
    assert EncodeRequest(m) + [] == EncodeRequest(m);
    m
  }

  // The three padding bytes are zero on the wire.
  function MakeLockResponse(termNo: TermNo, seqNo: uint16, result: byte, now: uint64): (m: LockResponse)
    ensures ResponseCheck(EncodeResponse(m)) == Ok && EncodeResponse(m)[25..] == [0, 0, 0]
    ensures m.termNo == termNo && m.header.seqNo == seqNo && m.header.timestamp == now && m.header.reserved == 0
    ensures m.result == result
  {
    var m := LockResponse(Header(MAGIC0, MAGIC1, PROTO_VERSION, CODE_LOCK_RESPONSE, RESPONSE_SIZE, seqNo, now, 0),
                          termNo, result, 0, 0, 0);
    ResponseRoundTrip(m, []);
    assert EncodeResponse(m) + [] == EncodeResponse(m);
    m
  }
}
