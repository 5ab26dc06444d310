/** The DER fragments of an RFC 3161 time-stamp request and response (section 10.1 of X.690, sections
    2.4.1 and 2.4.2 of RFC 3161). Bit operations work on signed 32-bit integers, and reading past the
    end of a buffer contributes zero bits. */
module Der {
  import opened Wrappers

  type Byte = b: int | 0 <= b < 256

  type Bytes = seq<Byte>

  const LIMIT := 0x8000_0000

  /** A number as a signed 32-bit integer, wrapping around. */
  function ToInt32(x: int): int {
    (x + 0x8000_0000) % 0x1_0000_0000 - 0x8000_0000
  }

  /** Shift the accumulator left by a byte and put the byte in. */
  function ShiftIn(acc: int, b: Byte): int {
    ToInt32(acc * 256 + b)
  }

  function ByteAt(buf: Bytes, pos: nat): Byte {
    if pos < |buf| then buf[pos] else 0
  }

  /** Base-256 digits, most significant first; none for zero. */
  function Digits256(n: nat): (d: Bytes)
    ensures n == 0 <==> |d| == 0
    ensures n > 0 ==> d[0] > 0
  {
    if n == 0 then [] else Digits256(n / 256) + [n % 256]
  }

  function DerLength(len: nat): Bytes
    requires len < LIMIT
  {
    if len < 0x80 then [len]
    else DigitsAreFew(len); [0x80 + |Digits256(len)|] + Digits256(len)
  }

  lemma DigitsAreFew(n: nat)
    requires n < LIMIT
    ensures |Digits256(n)| <= 4
  {
    var a := n / 256;
    var b := a / 256;
    var c := b / 256;
    assert c / 256 == 0;
    assert |Digits256(c)| <= 1;
    assert |Digits256(b)| <= 2;
    assert |Digits256(a)| <= 3;
  }

  method DerLen(len: nat) returns (bytes: Bytes)
    requires len < LIMIT
    ensures bytes == DerLength(len)
  {
    if len < 0x80 {
      return [len];
    }
    DigitsAreFew(len);
    bytes := [];
    var n := len;
    while n > 0
      invariant Digits256(len) == Digits256(n) + bytes
    {
      bytes := [n % 256] + bytes;
      n := n / 256;
    }
    bytes := [0x80 + |bytes|] + bytes;
  }

  function Tlv(tag: Byte, value: Bytes): Bytes
    requires |value| < LIMIT
  {
    [tag] + DerLength(|value|) + value
  }

  /** `count` bytes from `pos`, shifted into `acc` one after the other. */
  function Accumulated(buf: Bytes, pos: nat, count: nat, acc: int): int
    decreases count
  {
    if count == 0 then acc else Accumulated(buf, pos + 1, count - 1, ShiftIn(acc, ByteAt(buf, pos)))
  }

  datatype Length = Length(len: int, next: nat)

  function LengthAt(buf: Bytes, pos: nat): Length {
    var b := ByteAt(buf, pos);
    if b < 0x80 then Length(b, pos + 1)
    else Length(Accumulated(buf, pos + 1, b - 0x80, 0), pos + 1 + (b - 0x80))
  }

  method ReadLen(buf: Bytes, start: nat) returns (r: Length)
    ensures r == LengthAt(buf, start)
  {
    var b := ByteAt(buf, start);
    var pos := start + 1;
    if b < 0x80 {
      return Length(b, pos);
    }
    var n := b - 0x80;
    var len := 0;
    for k := 0 to n
      invariant pos == start + 1 + k
      invariant Accumulated(buf, start + 1, n, 0) == Accumulated(buf, pos, n - k, len)
    {
      len := ShiftIn(len, ByteAt(buf, pos));
      pos := pos + 1;
    }
    r := Length(len, pos);
  }

  datatype TsrError = NotASequence | NoStatusInfo | NoStatusInteger

  function StatusOf(tsr: Bytes): Result<int, TsrError> {
    if ByteAt(tsr, 0) != 0x30 then Err(NotASequence)
    else
      var p1 := LengthAt(tsr, 1).next;
      if ByteAt(tsr, p1) != 0x30 then Err(NoStatusInfo)
      else
        var p2 := LengthAt(tsr, p1 + 1).next;
        if ByteAt(tsr, p2) != 0x02 then Err(NoStatusInteger)
        else
          var l := LengthAt(tsr, p2 + 1);
          Ok(Accumulated(tsr, l.next, if l.len < 0 then 0 else l.len, 0))
  }

  method TsrStatus(tsr: Bytes) returns (r: Result<int, TsrError>)
    ensures r == StatusOf(tsr)
  {
    if ByteAt(tsr, 0) != 0x30 {
      return Err(NotASequence);
    }
    var outer := ReadLen(tsr, 1);
    var pos := outer.next;
    if ByteAt(tsr, pos) != 0x30 {
      return Err(NoStatusInfo);
    }
    var info := ReadLen(tsr, pos + 1);
    pos := info.next;
    if ByteAt(tsr, pos) != 0x02 {
      return Err(NoStatusInteger);
    }
    var l := ReadLen(tsr, pos + 1);
    pos := l.next;
    var status := 0;
    var k := 0;
    var count := if l.len < 0 then 0 else l.len;
    while k < l.len
      invariant 0 <= k <= count && pos == l.next + k
      invariant Accumulated(tsr, l.next, count, 0) == Accumulated(tsr, pos, count - k, status)
    {
      status := ShiftIn(status, ByteAt(tsr, pos));
      pos := pos + 1;
      k := k + 1;
    }
    r := Ok(status);
  }

  // ---------------------------------------------------------------------------------------------
  // Lengths
  // ---------------------------------------------------------------------------------------------

  /** The number that digits stand for, continuing from `acc`. */
  function Value(digits: Bytes, acc: nat): nat {
    if |digits| == 0 then acc else Value(digits[..|digits| - 1], acc) * 256 + digits[|digits| - 1]
  }

  lemma {:induction false} DigitsHaveValue(n: nat)
    ensures Value(Digits256(n), 0) == n
  {
    if n > 0 {
      DigitsHaveValue(n / 256);
      assert Digits256(n)[..|Digits256(n)| - 1] == Digits256(n / 256);
    }
  }

  lemma {:induction false} ValueGrows(digits: Bytes, acc: nat)
    ensures Value(digits, acc) >= acc
  {
    if |digits| > 0 {
      ValueGrows(digits[..|digits| - 1], acc);
    }
  }

  lemma {:induction false} ValueStep(digits: Bytes, acc: nat)
    requires |digits| > 0
    ensures Value(digits, acc) == Value(digits[1..], acc * 256 + digits[0])
  {
    if |digits| > 1 {
      ValueStep(digits[..|digits| - 1], acc);
      assert digits[..|digits| - 1][1..] == digits[1..][..|digits| - 2];
    } else {
      assert digits[..0] == [];
    }
  }

  /** As long as the value fits, no bit is lost. */
  lemma {:induction false} AccumulatedIsValue(buf: Bytes, pos: nat, digits: Bytes, acc: nat)
    requires pos + |digits| <= |buf| && buf[pos..pos + |digits|] == digits
    requires Value(digits, acc) < LIMIT
    ensures Accumulated(buf, pos, |digits|, acc) == Value(digits, acc)
    decreases |digits|
  {
    if |digits| > 0 {
      ValueStep(digits, acc);
      var next := acc * 256 + digits[0];
      ValueGrows(digits[1..], next);
      assert ByteAt(buf, pos) == digits[0];
      assert ShiftIn(acc, digits[0]) == next;
      AccumulatedIsValue(buf, pos + 1, digits[1..], next);
    }
  }

  /** Reading a length inverts writing it, wherever it stands and whatever follows. */
  lemma LengthRoundTrip(before: Bytes, len: nat, after: Bytes)
    requires len < LIMIT
    ensures LengthAt(before + DerLength(len) + after, |before|) == Length(len, |before| + |DerLength(len)|)
  {
    var buf := before + DerLength(len) + after;
    var pos := |before|;
    assert buf[pos] == DerLength(len)[0];
    if len >= 0x80 {
      DigitsAreFew(len);
      DigitsHaveValue(len);
      var digits := Digits256(len);
      assert buf[pos + 1..pos + 1 + |digits|] == digits;
      AccumulatedIsValue(buf, pos + 1, digits, 0);
    }
  }

  function Pow256(e: nat): nat {
    if e == 0 then 1 else 256 * Pow256(e - 1)
  }

  lemma {:induction false} ValueBelow(digits: Bytes, acc: nat)
    ensures Value(digits, acc) < (acc + 1) * Pow256(|digits|)
  {
    if |digits| > 0 {
      ValueBelow(digits[..|digits| - 1], acc);
      MulStep(acc + 1, Pow256(|digits| - 1));
    }
  }

  lemma MulStep(a: nat, b: nat)
    ensures a * (256 * b) == 256 * (a * b)
  {
  }

  lemma {:induction false} PowGrows(a: nat, b: nat)
    requires a <= b
    ensures 1 <= Pow256(a) <= Pow256(b)
    decreases b
  {
    if a < b {
      PowGrows(a, b - 1);
    } else if a > 0 {
      PowGrows(a - 1, b - 1);
    }
  }

  lemma ValueFits(digits: Bytes)
    requires |digits| <= 3
    ensures Value(digits, 0) < Pow256(|digits|) <= 256 * 256 * 256
  {
    ValueBelow(digits, 0);
    SmallPow(|digits|);
    assert (0 + 1) * Pow256(|digits|) == Pow256(|digits|);
  }

  lemma ReadingNeedsDigits(bytes: Bytes, count: nat, len: nat)
    requires |bytes| == count + 1 && count <= 3 && Accumulated(bytes, 1, count, 0) == len
    ensures |Digits256(len)| <= count
  {
    var digits := bytes[1..];
    ValueFits(digits);
    AccumulatedIsValue(bytes, 1, digits, 0);
    DigitsSuffice(len, count);
  }

  /** The form written is the shortest: any byte string that reads back as `len` and is used up by the
      reading is at least as long. */
  lemma DerLengthIsShortest(len: nat, bytes: Bytes)
    requires len < LIMIT && LengthAt(bytes, 0) == Length(len, |bytes|)
    ensures |DerLength(len)| <= |bytes|
  {
    if len >= 0x80 {
      assert Accumulated(bytes, 1, |bytes| - 1, 0) == len;
      DigitsAreFew(len);
      if |bytes| <= 4 {
        ReadingNeedsDigits(bytes, |bytes| - 1, len);
      }
    }
  }

  /** A number below 256^k needs at most k digits. */
  lemma {:induction false} DigitsSuffice(n: nat, k: nat)
    requires n < Pow256(k)
    ensures |Digits256(n)| <= k
  {
    if n > 0 {
      DigitsSuffice(n / 256, k - 1);
    }
  }

  lemma SmallPow(e: nat)
    requires e <= 3
    ensures Pow256(e) <= 256 * 256 * 256
  {
    assert Pow256(3) == 256 * Pow256(2) && Pow256(2) == 256 * Pow256(1) && Pow256(1) == 256 * Pow256(0);
    PowGrows(e, 3);
  }

  // ---------------------------------------------------------------------------------------------
  // The request
  // ---------------------------------------------------------------------------------------------

  const SHA256_OID: Bytes := [0x06, 0x09, 0x60, 0x86, 0x48, 0x01, 0x65, 0x03, 0x04, 0x02, 0x01]
  const DER_NULL: Bytes := [0x05, 0x00]
  const DER_TRUE: Bytes := [0x01, 0x01, 0xff]

  function HexValue(c: char): Option<nat> {
    if '0' <= c <= '9' then Some(c as int - '0' as int)
    else if 'a' <= c <= 'f' then Some(c as int - 'a' as int + 10)
    else if 'A' <= c <= 'F' then Some(c as int - 'A' as int + 10)
    else None
  }

  /** Hex decoding that stops at the first pair it cannot read. */
  function FromHex(hex: string): (b: Bytes)
    ensures 2 * |b| <= |hex|
  {
    if |hex| < 2 then []
    else
      match (HexValue(hex[0]), HexValue(hex[1]))
      case (Some(high), Some(low)) =>
        assert high < 16 && low < 16;
        [high * 16 + low] + FromHex(hex[2..])
      case _ => []
  }

  function HexDigit(v: nat): char
    requires v < 16
  {
    if v < 10 then (v + '0' as int) as char else (v - 10 + 'a' as int) as char
  }

  function ToHex(bytes: Bytes): string {
    if |bytes| == 0 then "" else [HexDigit(bytes[0] / 16), HexDigit(bytes[0] % 16)] + ToHex(bytes[1..])
  }

  lemma HexDigitReads(v: nat)
    requires v < 16
    ensures HexValue(HexDigit(v)) == Some(v)
  {
  }

  lemma HexByte(b: Byte)
    ensures HexValue(HexDigit(b / 16)) == Some(b / 16 as nat) && HexValue(HexDigit(b % 16)) == Some(b % 16 as nat)
    ensures b / 16 * 16 + b % 16 == b
  {
    HexDigitReads(b / 16);
    HexDigitReads(b % 16);
  }

  lemma {:induction false} HexRoundTrip(bytes: Bytes)
    ensures FromHex(ToHex(bytes)) == bytes && |ToHex(bytes)| == 2 * |bytes|
  {
    if |bytes| > 0 {
      HexRoundTrip(bytes[1..]);
      var hex := ToHex(bytes);
      assert hex[2..] == ToHex(bytes[1..]);
      HexByte(bytes[0]);
      assert hex[0] == HexDigit(bytes[0] / 16) && hex[1] == HexDigit(bytes[0] % 16);
    }
  }

  function AlgorithmId(): Bytes {
    Tlv(0x30, SHA256_OID + DER_NULL)
  }

  function MessageImprint(digest: Bytes): Bytes
    requires |digest| < LIMIT / 2
  {
    LengthsAreShort(|digest|);
    Tlv(0x30, AlgorithmId() + Tlv(0x04, digest))
  }

  lemma LengthsAreShort(len: nat)
    requires len < LIMIT
    ensures 1 <= |DerLength(len)| <= 5
  {
    if len >= 0x80 {
      DigitsAreFew(len);
    }
  }

  /** The time-stamp request for a digest given in hex. */
  function BuildTimeStampReq(headHashHex: string): Bytes
    requires |headHashHex| < LIMIT / 2
  {
    var digest := FromHex(headHashHex);
    LengthsAreShort(|digest|);
    LengthsAreShort(|AlgorithmId() + Tlv(0x04, digest)|);
    Tlv(0x30, Tlv(0x02, [0x01]) + MessageImprint(digest) + DER_TRUE)
  }

  /** One element read from the front of a buffer. */
  datatype Element = Element(tag: Byte, value: Bytes, rest: Bytes)

  function ReadElement(buf: Bytes): Option<Element> {
    if |buf| == 0 then None
    else
      var l := LengthAt(buf, 1);
      if l.len < 0 || l.next + l.len > |buf| then None
      else Some(Element(buf[0], buf[l.next..l.next + l.len], buf[l.next + l.len..]))
  }

  /** The digest inside a message imprint over SHA-256 with nothing left over. */
  function DecodeImprint(value: Bytes): Option<Bytes> {
    match ReadElement(value)
    case None => None
    case Some(algorithm) =>
      match ReadElement(algorithm.rest)
      case None => None
      case Some(octets) =>
        if algorithm.tag == 0x30 && algorithm.value == SHA256_OID + DER_NULL && octets.tag == 0x04 && octets.rest == []
        then Some(octets.value) else None
  }

  /** The digest inside a version-1 request body that asks for the certificate. */
  function DecodeBody(value: Bytes): Option<Bytes> {
    match ReadElement(value)
    case None => None
    case Some(version) =>
      match ReadElement(version.rest)
      case None => None
      case Some(imprint) =>
        if version.tag == 0x02 && version.value == [0x01] && imprint.tag == 0x30 && imprint.rest == DER_TRUE
        then DecodeImprint(imprint.value) else None
  }

  /** A reader of time-stamp requests, for this structure and nothing else. */
  function DecodeTimeStampReq(buf: Bytes): Option<Bytes> {
    match ReadElement(buf)
    case None => None
    case Some(request) => if request.tag == 0x30 && request.rest == [] then DecodeBody(request.value) else None
  }

  /** Reading inverts writing one element. */
  lemma ElementRoundTrip(tag: Byte, value: Bytes, rest: Bytes)
    requires |value| < LIMIT
    ensures ReadElement(Tlv(tag, value) + rest) == Some(Element(tag, value, rest))
  {
    LengthRoundTrip([tag], |value|, value + rest);
    var buf := Tlv(tag, value) + rest;
    assert buf == [tag] + DerLength(|value|) + (value + rest);
  }

  lemma ImprintRoundTrip(digest: Bytes)
    requires |digest| < LIMIT / 2
    ensures DecodeImprint(AlgorithmId() + Tlv(0x04, digest)) == Some(digest)
  {
    ElementRoundTrip(0x30, SHA256_OID + DER_NULL, Tlv(0x04, digest));
    ElementRoundTrip(0x04, digest, []);
    assert Tlv(0x04, digest) + [] == Tlv(0x04, digest);
  }

  lemma BodyRoundTrip(digest: Bytes)
    requires |digest| < LIMIT / 2
    ensures DecodeBody(Tlv(0x02, [0x01]) + MessageImprint(digest) + DER_TRUE) == Some(digest)
  {
    LengthsAreShort(|digest|);
    var imprint := AlgorithmId() + Tlv(0x04, digest);
    assert Tlv(0x02, [0x01]) + MessageImprint(digest) + DER_TRUE == Tlv(0x02, [0x01]) + (Tlv(0x30, imprint) + DER_TRUE);
    ElementRoundTrip(0x02, [0x01], Tlv(0x30, imprint) + DER_TRUE);
    ElementRoundTrip(0x30, imprint, DER_TRUE);
    ImprintRoundTrip(digest);
  }

  /** The request round trip: for any hex string, decoding the request returns exactly the digest, with
      nothing left over. */
  lemma RequestRoundTrip(headHashHex: string)
    requires |headHashHex| < LIMIT / 2
    ensures DecodeTimeStampReq(BuildTimeStampReq(headHashHex)) == Some(FromHex(headHashHex))
  {
    var digest := FromHex(headHashHex);
    LengthsAreShort(|digest|);
    LengthsAreShort(|AlgorithmId() + Tlv(0x04, digest)|);
    var body := Tlv(0x02, [0x01]) + MessageImprint(digest) + DER_TRUE;
    ElementRoundTrip(0x30, body, []);
    assert Tlv(0x30, body) + [] == Tlv(0x30, body);
    BodyRoundTrip(digest);
  }

  /** A request for a digest given in hexadecimal carries that digest. */
  lemma DigestRoundTrip(digest: Bytes)
    requires |digest| < LIMIT / 4
    ensures |ToHex(digest)| < LIMIT / 2 && DecodeTimeStampReq(BuildTimeStampReq(ToHex(digest))) == Some(digest)
  {
    HexRoundTrip(digest);
    RequestRoundTrip(ToHex(digest));
  }

  // ---------------------------------------------------------------------------------------------
  // The response
  // ---------------------------------------------------------------------------------------------

  /** A non-negative INTEGER's contents: shortest two's complement, so a zero byte before a set top
      bit. */
  function IntegerBytes(n: nat): (b: Bytes)
    ensures |b| > 0
  {
    var digits := Digits256(n);
    if n == 0 || digits[0] >= 0x80 then [0] + digits else digits
  }

  lemma IntegerHasValue(n: nat)
    ensures Value(IntegerBytes(n), 0) == n
  {
    DigitsHaveValue(n);
    if |IntegerBytes(n)| > |Digits256(n)| {
      ValueStep(IntegerBytes(n), 0);
      assert IntegerBytes(n)[1..] == Digits256(n);
    }
  }

  function StatusInfo(status: nat, details: Bytes): Bytes
    requires status < LIMIT && |details| < LIMIT / 2
  {
    DigitsAreFew(status);
    LengthsAreShort(|IntegerBytes(status)|);
    Tlv(0x30, Tlv(0x02, IntegerBytes(status)) + details)
  }

  /** A time-stamp response: the status with optional details, then the optional token. */
  function Response(status: nat, details: Bytes, token: Bytes): Bytes
    requires status < LIMIT && |details| + |token| < LIMIT / 4
  {
    DigitsAreFew(status);
    LengthsAreShort(|IntegerBytes(status)|);
    LengthsAreShort(|Tlv(0x02, IntegerBytes(status)) + details|);
    Tlv(0x30, StatusInfo(status, details) + token)
  }

  /** `buf` from `pos` on starts with the element. */
  ghost predicate StartsAt(buf: Bytes, pos: nat, tag: Byte, value: Bytes)
    requires |value| < LIMIT
  {
    pos <= |buf| && Tlv(tag, value) <= buf[pos..]
  }

  lemma HeaderAt(buf: Bytes, pos: nat, tag: Byte, value: Bytes)
    requires |value| < LIMIT && StartsAt(buf, pos, tag, value)
    ensures ByteAt(buf, pos) == tag
    ensures var l := LengthAt(buf, pos + 1);
            && l.len == |value|
            && l.next + |value| <= |buf|
            && buf[l.next..l.next + |value|] == value
  {
    HeaderSplits(buf, pos, tag, value);
    HeaderReads(buf[..pos], tag, value, buf[pos..][|Tlv(tag, value)|..]);
  }

  lemma HeaderSplits(buf: Bytes, pos: nat, tag: Byte, value: Bytes)
    requires |value| < LIMIT && StartsAt(buf, pos, tag, value)
    ensures buf == buf[..pos] + [tag] + DerLength(|value|) + (value + buf[pos..][|Tlv(tag, value)|..])
  {
    var tail, size := buf[pos..], |Tlv(tag, value)|;
    assert buf == buf[..pos] + tail;
    assert tail == tail[..size] + tail[size..];
    assert tail[..size] == Tlv(tag, value);
  }

  lemma HeaderReads(before: Bytes, tag: Byte, value: Bytes, rest: Bytes)
    requires |value| < LIMIT
    ensures var buf := before + [tag] + DerLength(|value|) + (value + rest);
            var l := LengthAt(buf, |before| + 1);
            && ByteAt(buf, |before|) == tag
            && l.len == |value| && l.next + |value| <= |buf| && buf[l.next..l.next + |value|] == value
  {
    var buf := before + [tag] + DerLength(|value|) + (value + rest);
    LengthRoundTrip(before + [tag], |value|, value + rest);
    assert buf[|before|] == tag;
    assert (value + rest)[..|value|] == value;
  }

  lemma StartsInside(buf: Bytes, pos: nat, tag: Byte, value: Bytes, more: Bytes, next: nat, len: nat)
    requires |value| < LIMIT && next + len <= |buf| && buf[next..next + len] == Tlv(tag, value) + more
    ensures StartsAt(buf, next, tag, value)
  {
    assert buf[next..] == buf[next..next + len] + buf[next + len..];
  }

  lemma IntegerAt(buf: Bytes, p: nat, integer: Bytes)
    requires |integer| < LIMIT && Value(integer, 0) < LIMIT
    requires var l := LengthAt(buf, p + 1);
             l.len == |integer| && l.next + |integer| <= |buf| && buf[l.next..l.next + |integer|] == integer
    ensures var l := LengthAt(buf, p + 1);
            Accumulated(buf, l.next, l.len, 0) == Value(integer, 0)
  {
    AccumulatedIsValue(buf, LengthAt(buf, p + 1).next, integer, 0);
  }

  /** The INTEGER at `p` reads as `status`. */
  ghost predicate ReadsStatus(buf: Bytes, p: nat, status: nat) {
    var l := LengthAt(buf, p + 1);
    ByteAt(buf, p) == 0x02 && l.len >= 0 && Accumulated(buf, l.next, l.len, 0) == status
  }

  lemma StatusAt(buf: Bytes, p: nat, status: nat)
    requires status < LIMIT && |IntegerBytes(status)| <= 5 && StartsAt(buf, p, 0x02, IntegerBytes(status))
    ensures ReadsStatus(buf, p, status)
  {
    HeaderAt(buf, p, 0x02, IntegerBytes(status));
    IntegerHasValue(status);
    IntegerAt(buf, p, IntegerBytes(status));
  }

  /** The first element inside an element starts where its header ends. */
  lemma FirstInside(buf: Bytes, pos: nat, outer: Byte, tag: Byte, value: Bytes, more: Bytes)
    requires |value| < LIMIT && |Tlv(tag, value) + more| < LIMIT
    requires StartsAt(buf, pos, outer, Tlv(tag, value) + more)
    ensures ByteAt(buf, pos) == outer && StartsAt(buf, LengthAt(buf, pos + 1).next, tag, value)
  {
    HeaderAt(buf, pos, outer, Tlv(tag, value) + more);
    StartsInside(buf, pos, tag, value, more, LengthAt(buf, pos + 1).next, |Tlv(tag, value) + more|);
  }

  /** The status round trip: whatever details, token and trailing bytes follow, the status that was
      encoded is the one read. */
  lemma StatusRoundTrip(status: nat, details: Bytes, token: Bytes, trailing: Bytes)
    requires status < LIMIT && |details| + |token| < LIMIT / 4
    ensures StatusOf(Response(status, details, token) + trailing) == Ok(status)
  {
    DigitsAreFew(status);
    LengthsAreShort(|IntegerBytes(status)|);
    LengthsAreShort(|Tlv(0x02, IntegerBytes(status)) + details|);
    var buf := Response(status, details, token) + trailing;
    ResponseHeader(status, details, token, trailing);
    var p1 := LengthAt(buf, 1).next;
    FirstInside(buf, p1, 0x30, 0x02, IntegerBytes(status), details);
    StatusAt(buf, LengthAt(buf, p1 + 1).next, status);
  }

  /** The outer header leads to the status information. */
  lemma ResponseHeader(status: nat, details: Bytes, token: Bytes, trailing: Bytes)
    requires status < LIMIT && |details| + |token| < LIMIT / 4
    requires |IntegerBytes(status)| <= 5 && |Tlv(0x02, IntegerBytes(status)) + details| < LIMIT
    ensures var buf := Response(status, details, token) + trailing;
            && ByteAt(buf, 0) == 0x30
            && StartsAt(buf, LengthAt(buf, 1).next, 0x30, Tlv(0x02, IntegerBytes(status)) + details)
  {
    var infoBody := Tlv(0x02, IntegerBytes(status)) + details;
    LengthsAreShort(|infoBody|);
    var buf := Response(status, details, token) + trailing;
    assert buf[0..] == buf;
    FirstInside(buf, 0, 0x30, 0x30, infoBody, token);
  }
}
