/** `UserRepositoryImpl.hashPassword`: SHA-256 of the password's bytes,
    rendered as lowercase hexadecimal, two digits per byte.  The digest
    itself (section 6.2 of FIPS 180-4) and the String-to-bytes encoding are
    foreign calls, so they are parameters of the model. */
module Hashing {

  /** A JVM `Byte`: signed, from -128 to 127. */
  type JByte = b: int | -128 <= b < 128

  /** A SHA-256 digest: 256 bits, that is 32 bytes. */
  type Digest = s: seq<JByte> | |s| == 32 witness seq(32, i => 0)

  /** The two foreign calls of hashPassword: `String.toByteArray()` and
      `MessageDigest.getInstance("SHA-256").digest(...)`. */
  datatype Hasher = Hasher(toBytes: string -> seq<JByte>, sha256: seq<JByte> -> Digest)

  predicate IsLowerHexDigit(c: char) {
    ('0' <= c <= '9') || ('a' <= c <= 'f')
  }

  /** The lowercase hexadecimal digit of a value below 16. */
  function HexDigit(v: int): (c: char)
    requires 0 <= v < 16
    ensures IsLowerHexDigit(c)
  {
    (if v < 10 then '0' as int + v else 'a' as int + v - 10) as char
  }

  /** The value of a lowercase hexadecimal digit. */
  function DigitValue(c: char): (v: int)
    requires IsLowerHexDigit(c)
    ensures 0 <= v < 16 && HexDigit(v) == c
  {
    if c <= '9' then c as int - '0' as int else c as int - 'a' as int + 10
  }

  /** The value `%x` formats for a Byte: a negative byte b is shown as b + 256. */
  function Unsigned(b: JByte): (u: int)
    ensures 0 <= u < 256 && (u - b) % 256 == 0
  {
    if b < 0 then b + 256 else b
  }

  /** The inverse of Unsigned: the Byte whose unsigned value is u. */
  function Signed(u: int): (b: JByte)
    requires 0 <= u < 256
    ensures Unsigned(b) == u
  {
    if u < 128 then u else u - 256
  }

  /** `"%02x".format(b)`: exactly two lowercase digits, high nibble first. */
  function HexByte(b: JByte): (s: string)
    ensures |s| == 2 && IsLowerHexDigit(s[0]) && IsLowerHexDigit(s[1])
    ensures 16 * DigitValue(s[0]) + DigitValue(s[1]) == Unsigned(b)
  {
    var u := Unsigned(b);
    [HexDigit(u / 16), HexDigit(u % 16)]
  }

  /** `bytes.joinToString("") { "%02x".format(it) }`. */
  function Hex(bs: seq<JByte>): (s: string)
    ensures |s| == 2 * |bs|
    ensures forall i :: 0 <= i < |s| ==> IsLowerHexDigit(s[i])
  {
    if bs == [] then "" else HexByte(bs[0]) + Hex(bs[1..])
  }

  /** Reads a lowercase hexadecimal rendering back into bytes. */
  function Unhex(s: string): (bs: seq<JByte>)
    requires |s| % 2 == 0
    requires forall i :: 0 <= i < |s| ==> IsLowerHexDigit(s[i])
    ensures |bs| == |s| / 2
  {
    if s == [] then [] else [Signed(16 * DigitValue(s[0]) + DigitValue(s[1]))] + Unhex(s[2..])
  }

  /** The hex rendering loses nothing: decoding it gives back the bytes. */
  lemma {:induction false} UnhexHex(bs: seq<JByte>)
    ensures Unhex(Hex(bs)) == bs
  {
    if bs != [] {
      var s := Hex(bs);
      assert s[..2] == HexByte(bs[0]) && s[2..] == Hex(bs[1..]);
      UnhexHex(bs[1..]);
      assert Signed(Unsigned(bs[0])) == bs[0];
    }
  }

  /** Two byte strings render to the same text exactly when they are equal. */
  lemma HexInjective(a: seq<JByte>, b: seq<JByte>)
    ensures Hex(a) == Hex(b) <==> a == b
  {
    if Hex(a) == Hex(b) {
      UnhexHex(a);
      UnhexHex(b);
    }
  }

  /** `hashPassword(password)`. */
  function HashPassword(h: Hasher, password: string): (s: string)
    ensures |s| == 64
    ensures forall i :: 0 <= i < |s| ==> IsLowerHexDigit(s[i])
  {
    Hex(h.sha256(h.toBytes(password)))
  }

  /** Comparing stored hashes as strings is comparing the digests. */
  lemma SameHashIffSameDigest(h: Hasher, p: string, q: string)
    ensures HashPassword(h, p) == HashPassword(h, q)
        <==> h.sha256(h.toBytes(p)) == h.sha256(h.toBytes(q))
  {
    HexInjective(h.sha256(h.toBytes(p)), h.sha256(h.toBytes(q)));
  }
}
