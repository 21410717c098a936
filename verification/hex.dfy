/**
 * The file-hash encoding: the digest bytes rendered with `"%02x"` each and
 * joined, so that every byte becomes two lower-case hex digits.
 */
module Hex {
  import opened Options

  /** A Kotlin `Byte`: signed, two's complement. */
  newtype Byte = x: int | -128 <= x < 128

  const HexDigits: string := "0123456789abcdef"

  /** The value `"%x"` prints for a byte: its unsigned reading. */
  function Unsigned(b: Byte): (u: nat)
    ensures u < 256
    ensures u % 256 == (b as int) % 256
  {
    if b < 0 then b as int + 256 else b as int
  }

  /** `"%02x".format(b)`: high nibble, then low nibble. */
  function ByteHex(b: Byte): (r: string)
    ensures |r| == 2
  {
    [HexDigits[Unsigned(b) / 16], HexDigits[Unsigned(b) % 16]]
  }

  /** `joinToString("")` of the per-byte renderings. */
  function EncodeHex(bytes: seq<Byte>): string
  {
    if bytes == [] then [] else ByteHex(bytes[0]) + EncodeHex(bytes[1..])
  }

  /**
   * The hex string of a digest. The digest itself (SHA-256 from the
   * platform library) is an input: only the rendering is modelled.
   */
  function GenerateFileHash(digest: seq<Byte>): (r: string)
    ensures |r| == 2 * |digest|
    ensures forall i :: 0 <= i < |r| ==> r[i] in HexDigits
  {
    EncodeHexShape(digest);
    EncodeHex(digest)
  }

  lemma {:induction false} EncodeHexShape(bytes: seq<Byte>)
    ensures |EncodeHex(bytes)| == 2 * |bytes|
    ensures forall i :: 0 <= i < |EncodeHex(bytes)| ==> EncodeHex(bytes)[i] in HexDigits
  {
    if bytes != [] {
      EncodeHexShape(bytes[1..]);
      var r := EncodeHex(bytes);
      assert r == ByteHex(bytes[0]) + EncodeHex(bytes[1..]);
      forall i | 0 <= i < |r| ensures r[i] in HexDigits {
        if i >= 2 { assert r[i] == EncodeHex(bytes[1..])[i - 2]; }
      }
    }
  }

  /** Byte `k` of the digest occupies characters `2k` and `2k+1`, high nibble first. */
  lemma {:induction false} EncodeHexNibbles(bytes: seq<Byte>, k: nat)
    requires k < |bytes|
    ensures |EncodeHex(bytes)| == 2 * |bytes|
    ensures EncodeHex(bytes)[2 * k] == HexDigits[Unsigned(bytes[k]) / 16]
    ensures EncodeHex(bytes)[2 * k + 1] == HexDigits[Unsigned(bytes[k]) % 16]
  {
    var h := ByteHex(bytes[0]);
    var rest := EncodeHex(bytes[1..]);
    assert EncodeHex(bytes) == h + rest;
    if k > 0 {
      EncodeHexNibbles(bytes[1..], k - 1);
      assert (h + rest)[2 * k] == rest[2 * (k - 1)];
      assert (h + rest)[2 * k + 1] == rest[2 * (k - 1) + 1];
    } else {
      EncodeHexShape(bytes[1..]);
    }
  }

  /** The SHA-256 digest is 32 bytes, so the file hash has 64 characters. */
  lemma Sha256HashLength(digest: seq<Byte>)
    requires |digest| == 32
    ensures |GenerateFileHash(digest)| == 64
  {
  }

  /** Value of one lower-case hex digit. */
  function HexValue(c: char): Option<nat> {
    if '0' <= c <= '9' then Some(c as int - '0' as int)
    else if 'a' <= c <= 'f' then Some(c as int - 'a' as int + 10)
    else None
  }

  /** The byte whose unsigned reading is `u`. */
  function FromUnsigned(u: nat): Byte
    requires u < 256
  {
    if u >= 128 then (u - 256) as Byte else u as Byte
  }

  /** Reads a lower-case hex string back into bytes; the partner of `EncodeHex`. */
  function DecodeHex(s: string): Option<seq<Byte>>
    decreases |s|
  {
    if s == [] then Some([])
    else if |s| == 1 then None
    else
      match (HexValue(s[0]), HexValue(s[1]), DecodeHex(s[2..]))
      case (Some(hi), Some(lo), Some(rest)) =>
        if hi < 16 && lo < 16 then Some([FromUnsigned(16 * hi + lo)] + rest) else None
      case _ => None
  }

  lemma HexDigitValue(n: nat)
    requires n < 16
    ensures HexValue(HexDigits[n]) == Some(n)
  {
  }

  /** Decoding the hex rendering gives back the digest, signs included. */
  lemma {:induction false} DecodeEncodeHex(bytes: seq<Byte>)
    ensures DecodeHex(EncodeHex(bytes)) == Some(bytes)
  {
    if bytes != [] {
      var b := bytes[0];
      var u := Unsigned(b);
      HexDigitValue(u / 16);
      HexDigitValue(u % 16);
      DecodeEncodeHex(bytes[1..]);
      var r := EncodeHex(bytes);
      assert r[2..] == EncodeHex(bytes[1..]);
      assert FromUnsigned(16 * (u / 16) + u % 16) == b;
      assert [b] + bytes[1..] == bytes;
    }
  }

  /** Distinct digests give distinct hash strings. */
  lemma EncodeHexInjective(a: seq<Byte>, b: seq<Byte>)
    requires EncodeHex(a) == EncodeHex(b)
    ensures a == b
  {
    DecodeEncodeHex(a);
    DecodeEncodeHex(b);
  }
}
