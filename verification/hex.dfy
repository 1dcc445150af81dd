/** Lowercase hexadecimal encoding of bytes, as Node's `buf.toString('hex')`:
    two characters per byte, high nibble first. */
module Hex {
  import opened Wrappers
  import opened Octets

  /** A lowercase hexadecimal digit: `0`-`9` or `a`-`f`. */
  predicate IsHexDigit(c: char)
  {
    '0' <= c <= '9' || 'a' <= c <= 'f'
  }

  /** The digit for a nibble: `0`-`9`, then `a`-`f`. */
  function HexDigit(n: nat): (c: char)
    requires n < 16
    ensures IsHexDigit(c)
  {
    if n < 10 then ('0' as nat + n) as char else ('a' as nat + n - 10) as char
  }

  /** The value of one lowercase hexadecimal digit; `None` for any other character. */
  function DigitValue(c: char): (v: Option<nat>)
    ensures v.Some? <==> IsHexDigit(c)
    ensures v.Some? ==> v.value < 16 && HexDigit(v.value) == c
  {
    if '0' <= c <= '9' then Some(c as nat - '0' as nat)
    else if 'a' <= c <= 'f' then Some(c as nat - 'a' as nat + 10)
    else None
  }

  lemma DigitValueOfHexDigit(n: nat)
    requires n < 16
    ensures DigitValue(HexDigit(n)) == Some(n)
  {
  }

  /** The two characters that encode one byte. */
  function EncodeByte(b: byte): string
  {
    [HexDigit(b as nat / 16), HexDigit(b as nat % 16)]
  }

  /** Every byte, in order, as two lowercase hexadecimal digits. */
  function Encode(bs: Bytes): (s: string)
    ensures |s| == 2 * |bs|
    ensures forall i :: 0 <= i < |s| ==> IsHexDigit(s[i])
  {
    if |bs| == 0 then [] else EncodeByte(bs[0]) + Encode(bs[1..])
  }

  /** The byte with high nibble `hi` and low nibble `lo`. */
  function ByteOf(hi: nat, lo: nat): byte
    requires hi < 16 && lo < 16
  {
    (hi * 16 + lo) as byte
  }

  lemma ByteOfNibbles(b: byte)
    ensures ByteOf(b as nat / 16, b as nat % 16) == b
  {
  }

  lemma NibblesOfByteOf(hi: nat, lo: nat)
    requires hi < 16 && lo < 16
    ensures ByteOf(hi, lo) as nat / 16 == hi && ByteOf(hi, lo) as nat % 16 == lo
  {
  }

  /** Reads back a string of lowercase hexadecimal digit pairs; `None` when
      the length is odd or a character is not a lowercase hexadecimal digit. */
  function Decode(s: string): Option<Bytes>
  {
    if |s| == 0 then Some([])
    else if |s| == 1 then None
    else
      var hi := DigitValue(s[0]);
      var lo := DigitValue(s[1]);
      if hi.None? || lo.None? then None
      else
        var rest := Decode(s[2..]);
        if rest.None? then None else Some([ByteOf(hi.value, lo.value)] + rest.value)
  }

  /** Decoding reads one encoded byte off the front. */
  lemma DecodeByteThen(b: byte, rest: string)
    ensures Decode(EncodeByte(b) + rest) ==
      if Decode(rest).None? then None else Some([b] + Decode(rest).value)
  {
    var s := EncodeByte(b) + rest;
    var v := b as nat;
    DigitValueOfHexDigit(v / 16);
    DigitValueOfHexDigit(v % 16);
    assert s[0] == HexDigit(v / 16) && s[1] == HexDigit(v % 16);
    assert s[2..] == rest;
    ByteOfNibbles(b);
  }

  /** Decoding inverts encoding. */
  lemma {:induction false} DecodeEncode(bs: Bytes)
    ensures Decode(Encode(bs)) == Some(bs)
    decreases |bs|
  {
    if |bs| > 0 {
      DecodeEncode(bs[1..]);
      DecodeByteThen(bs[0], Encode(bs[1..]));
      assert bs == [bs[0]] + bs[1..];
    }
  }

  /** Encoding inverts decoding: a decodable string is the encoding of its bytes. */
  lemma {:induction false} EncodeDecode(s: string, bs: Bytes)
    requires Decode(s) == Some(bs)
    ensures Encode(bs) == s
    decreases |s|
  {
    if |s| > 0 {
      var hi := DigitValue(s[0]).value;
      var lo := DigitValue(s[1]).value;
      var rest := Decode(s[2..]).value;
      var b := ByteOf(hi, lo);
      assert bs == [b] + rest;
      EncodeDecode(s[2..], rest);
      NibblesOfByteOf(hi, lo);
      assert EncodeByte(b) == [HexDigit(hi), HexDigit(lo)];
      assert HexDigit(hi) == s[0] && HexDigit(lo) == s[1];
      assert bs[1..] == rest;
      assert Encode(bs) == EncodeByte(b) + Encode(rest);
      assert s == [s[0], s[1]] + s[2..];
    }
  }

  /** Distinct byte strings have distinct encodings. */
  lemma EncodeInjective(a: Bytes, b: Bytes)
    requires a != b
    ensures Encode(a) != Encode(b)
  {
    DecodeEncode(a);
    DecodeEncode(b);
  }

  lemma {:induction false} EncodeSnoc(bs: Bytes, b: byte)
    ensures Encode(bs + [b]) == Encode(bs) + EncodeByte(b)
    decreases |bs|
  {
    if |bs| == 0 {
      assert bs + [b] == [b];
      assert [b][1..] == [];
    } else {
      assert (bs + [b])[1..] == bs[1..] + [b];
      EncodeSnoc(bs[1..], b);
    }
  }

  /** The encoder as a loop over the buffer, two digits per byte. */
  method EncodeLoop(bs: Bytes) returns (s: string)
    ensures s == Encode(bs)
  {
    s := [];
    var i := 0;
    while i < |bs|
      invariant 0 <= i <= |bs|
      invariant s == Encode(bs[..i])
    {
      EncodeSnoc(bs[..i], bs[i]);
      assert bs[..i + 1] == bs[..i] + [bs[i]];
      var v := bs[i] as nat;
      s := s + [HexDigit(v / 16), HexDigit(v % 16)];
      i := i + 1;
    }
    assert bs[..i] == bs;
  }
}
