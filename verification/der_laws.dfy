/** The time-stamp messages byte for byte: the request for a SHA-256 digest, the responses that are refused, and
    what numbers too large for 32 bits become. */
module DerLaws {
  import opened Wrappers
  import opened Der

  lemma ShortTlv(tag: Byte, value: Bytes)
    requires |value| < 0x80
    ensures Tlv(tag, value) == [tag, |value|] + value
  {
  }

  const IMPRINT_HEAD: Bytes :=
    [0x30, 0x0d, 0x06, 0x09, 0x60, 0x86, 0x48, 0x01, 0x65, 0x03, 0x04, 0x02, 0x01, 0x05, 0x00, 0x04, 0x20]

  const REQUEST_HEAD: Bytes :=
    [0x30, 0x39, 0x02, 0x01, 0x01, 0x30, 0x31, 0x30, 0x0d, 0x06, 0x09, 0x60, 0x86, 0x48, 0x01, 0x65, 0x03, 0x04, 0x02,
     0x01, 0x05, 0x00, 0x04, 0x20]

  lemma ImprintIs(digest: Bytes)
    requires |digest| == 32
    ensures MessageImprint(digest) == [0x30, 0x31] + IMPRINT_HEAD + digest
  {
    ShortTlv(0x30, SHA256_OID + DER_NULL);
    ShortTlv(0x04, digest);
    assert AlgorithmId() == IMPRINT_HEAD[..15];
    var body := AlgorithmId() + Tlv(0x04, digest);
    assert body == IMPRINT_HEAD + digest;
    ShortTlv(0x30, body);
  }

  function BodyOf(digest: Bytes): Bytes {
    [0x02, 0x01, 0x01] + ([0x30, 0x31] + IMPRINT_HEAD + digest) + [0x01, 0x01, 0xff]
  }

  lemma RequestHasBody(hex: string, digest: Bytes)
    requires |hex| == 64 && FromHex(hex) == digest && |digest| == 32
    ensures BuildTimeStampReq(hex) == Tlv(0x30, BodyOf(digest))
  {
    ShortTlv(0x02, [0x01]);
    ImprintIs(digest);
  }

  /** The request for a digest of 32 bytes, in full: version 1, SHA-256 with NULL parameters, the digest, and the
      wish for a certificate (section 2.4.1 of RFC 3161). */
  lemma Sha256RequestIs(digest: Bytes)
    requires |digest| == 32
    ensures |ToHex(digest)| == 64
    ensures BuildTimeStampReq(ToHex(digest)) == REQUEST_HEAD + digest + [0x01, 0x01, 0xff]
  {
    HexRoundTrip(digest);
    RequestHasBody(ToHex(digest), digest);
    ShortTlv(0x30, BodyOf(digest));
    HeadIs(digest);
  }

  lemma HeadIs(digest: Bytes)
    requires |digest| == 32
    ensures |BodyOf(digest)| == 0x39
    ensures [0x30, 0x39] + BodyOf(digest) == REQUEST_HEAD + digest + [0x01, 0x01, 0xff]
  {
    assert REQUEST_HEAD == [0x30, 0x39] + [0x02, 0x01, 0x01] + [0x30, 0x31] + IMPRINT_HEAD;
  }

  /** Reading hexadecimal stops at the first pair that is not hexadecimal, or at a last single digit. */
  lemma {:induction false} HexStops(bytes: Bytes, rest: string)
    requires |rest| < 2 || !IsHex(rest[0]) || !IsHex(rest[1])
    ensures FromHex(ToHex(bytes) + rest) == bytes
  {
    var hex := ToHex(bytes) + rest;
    if |bytes| == 0 {
      assert hex == rest;
      if |rest| >= 2 {
        HexIs(rest[0]);
        HexIs(rest[1]);
      }
    } else {
      HexStops(bytes[1..], rest);
      HexByte(bytes[0]);
      assert hex[2..] == ToHex(bytes[1..]) + rest;
      assert hex[0] == HexDigit(bytes[0] / 16) && hex[1] == HexDigit(bytes[0] % 16);
    }
  }

  predicate IsHex(c: char) {
    c in "0123456789abcdefABCDEF"
  }

  lemma HexIs(c: char)
    ensures HexValue(c).Some? <==> IsHex(c)
  {
    if '0' <= c <= '9' {
      assert c == "0123456789abcdefABCDEF"[c as int - '0' as int];
    } else if 'a' <= c <= 'f' {
      assert c == "0123456789abcdefABCDEF"[c as int - 'a' as int + 10];
    } else if 'A' <= c <= 'F' {
      assert c == "0123456789abcdefABCDEF"[c as int - 'A' as int + 16];
    }
  }

  /** A response is refused at its first byte exactly if that is not a SEQUENCE. */
  lemma OuterIsSequence(tsr: Bytes)
    ensures StatusOf(tsr) == Err(NotASequence) <==> tsr == [] || tsr[0] != 0x30
  {
  }

  /** A reader skips a written header. */
  lemma HeaderIsSkipped(buf: Bytes, before: Bytes, tag: Byte, len: nat, rest: Bytes)
    requires len < LIMIT && buf == before + [tag] + DerLength(len) + rest
    ensures var next := LengthAt(buf, |before| + 1).next;
            && ByteAt(buf, |before|) == tag && next == |before| + 1 + |DerLength(len)|
            && ByteAt(buf, next) == (if rest == [] then 0 else rest[0])
  {
    LengthRoundTrip(before + [tag], len, rest);
    assert buf[|before|] == tag;
    if rest != [] {
      assert buf[|before| + 1 + |DerLength(len)|] == rest[0];
    }
  }

  /** Behind the header of the outer SEQUENCE a response is refused if no SEQUENCE follows. */
  lemma InfoIsSequence(tsr: Bytes, len: nat, info: Bytes)
    requires len < LIMIT && tsr == [0x30] + DerLength(len) + info && (info == [] || info[0] != 0x30)
    ensures StatusOf(tsr) == Err(NoStatusInfo)
  {
    assert tsr == [] + [0x30] + DerLength(len) + info;
    HeaderIsSkipped(tsr, [], 0x30, len, info);
  }

  /** And behind the header of that one if no INTEGER follows. */
  lemma StatusIsInteger(tsr: Bytes, len: nat, infoLen: nat, info: Bytes)
    requires len < LIMIT && infoLen < LIMIT && (info == [] || info[0] != 0x02)
    requires tsr == [0x30] + DerLength(len) + ([0x30] + DerLength(infoLen) + info)
    ensures StatusOf(tsr) == Err(NoStatusInteger)
  {
    var outer: Bytes := [0x30] + DerLength(len);
    var inner: Bytes := [0x30] + DerLength(infoLen) + info;
    HeadersJoin(tsr, len, infoLen, info);
    HeaderIsSkipped(tsr, [], 0x30, len, inner);
    HeaderIsSkipped(tsr, outer, 0x30, infoLen, info);
  }

  lemma HeadersJoin(tsr: Bytes, len: nat, infoLen: nat, info: Bytes)
    requires len < LIMIT && infoLen < LIMIT
    requires tsr == [0x30] + DerLength(len) + ([0x30] + DerLength(infoLen) + info)
    ensures tsr == [] + [0x30] + DerLength(len) + ([0x30] + DerLength(infoLen) + info)
    ensures tsr == [0x30] + DerLength(len) + [0x30] + DerLength(infoLen) + info
  {
  }

  /** The signed 32-bit number that `x` wraps around to. */
  predicate WrapsTo(x: int, r: int) {
    -0x8000_0000 <= r < 0x8000_0000 && (x - r) % 0x1_0000_0000 == 0
  }

  lemma ShiftWraps(x: int, r: int, b: Byte)
    requires WrapsTo(x, r)
    ensures WrapsTo(x * 256 + b, ShiftIn(r, b))
  {
    var k := (x - r) / 0x1_0000_0000;
    var y := r * 256 + b;
    assert x * 256 + b == y + k * 256 * 0x1_0000_0000;
    var m := (y + 0x8000_0000) / 0x1_0000_0000;
    assert ShiftIn(r, b) == y - m * 0x1_0000_0000;
    assert x * 256 + b - ShiftIn(r, b) == (k * 256 + m) * 0x1_0000_0000;
  }

  /** However many bytes are read, the number is the bytes' value wrapped around to 32 bits; bytes past the end
      count as zero. */
  lemma {:induction false} ReadingWraps(buf: Bytes, pos: nat, digits: Bytes, acc: nat, wrapped: int)
    requires WrapsTo(acc, wrapped)
    requires forall i :: 0 <= i < |digits| ==> digits[i] == ByteAt(buf, pos + i)
    ensures WrapsTo(Value(digits, acc), Accumulated(buf, pos, |digits|, wrapped))
    decreases |digits|
  {
    if |digits| > 0 {
      var next := ShiftIn(wrapped, digits[0]);
      ValueStep(digits, acc);
      ShiftWraps(acc, wrapped, digits[0]);
      ReadingWraps(buf, pos + 1, digits[1..], acc * 256 + digits[0], next);
    }
  }
}
