/** Base64 with the standard alphabet and `=` padding (section 4 of RFC 4648),
    as `base64.b64encode` writes it, and a decoder that accepts exactly the
    canonical encodings (section 3.5 of RFC 4648 permits rejecting non-zero pad bits). */
module Base64 {

  import opened Wrappers
  import opened Octets

  type sextet = x: int | 0 <= x < 64

  function Alphabet(i: sextet): (c: char)
    ensures c != '='
  {
    if i < 26 then ('A' as int + i) as char
    else if i < 52 then ('a' as int + (i - 26)) as char
    else if i < 62 then ('0' as int + (i - 52)) as char
    else if i == 62 then '+'
    else '/'
  }

  function IndexOf(c: char): (r: Option<sextet>)
    ensures r.Some? ==> Alphabet(r.value) == c
  {
    if 'A' <= c <= 'Z' then Some(c as int - 'A' as int)
    else if 'a' <= c <= 'z' then Some(c as int - 'a' as int + 26)
    else if '0' <= c <= '9' then Some(c as int - '0' as int + 52)
    else if c == '+' then Some(62)
    else if c == '/' then Some(63)
    else None
  }

  lemma IndexOfAlphabet(i: sextet)
    ensures IndexOf(Alphabet(i)) == Some(i)
  {
  }

  /** Three bytes become four characters. */
  function EncodeTriple(b0: byte, b1: byte, b2: byte): (s: string)
    ensures |s| == 4
  {
    [Alphabet(b0 / 4), Alphabet((b0 % 4) * 16 + b1 / 16),
     Alphabet((b1 % 16) * 4 + b2 / 64), Alphabet(b2 % 64)]
  }

  function Encode(bs: seq<byte>): (s: string)
    ensures |s| == 4 * ((|bs| + 2) / 3)
  {
    if |bs| >= 3 then EncodeTriple(bs[0], bs[1], bs[2]) + Encode(bs[3..])
    else if |bs| == 2 then
      [Alphabet(bs[0] / 4), Alphabet((bs[0] % 4) * 16 + bs[1] / 16), Alphabet((bs[1] % 16) * 4), '=']
    else if |bs| == 1 then
      [Alphabet(bs[0] / 4), Alphabet((bs[0] % 4) * 16), '=', '=']
    else []
  }

  /** Four alphabet characters back to three bytes. */
  function DecodeQuad(c0: sextet, c1: sextet, c2: sextet, c3: sextet): (bs: seq<byte>)
    ensures |bs| == 3
  {
    [c0 * 4 + c1 / 16, (c1 % 16) * 16 + c2 / 4, (c2 % 4) * 64 + c3]
  }

  /** The final group of four, which may end in one or two `=`. */
  function DecodeLast(q: string): (r: Option<seq<byte>>)
    requires |q| == 4
  {
    var i0, i1, i2, i3 := IndexOf(q[0]), IndexOf(q[1]), IndexOf(q[2]), IndexOf(q[3]);
    if i0.None? || i1.None? then None
    else if q[2] == '=' && q[3] == '=' then
      if i1.value % 16 == 0 then Some([i0.value * 4 + i1.value / 16]) else None
    else if i2.Some? && q[3] == '=' then
      if i2.value % 4 == 0 then
        Some([i0.value * 4 + i1.value / 16, (i1.value % 16) * 16 + i2.value / 4])
      else None
    else if i2.Some? && i3.Some? then Some(DecodeQuad(i0.value, i1.value, i2.value, i3.value))
    else None
  }

  function Decode(s: string): (r: Option<seq<byte>>)
    decreases |s|
  {
    if s == [] then Some([])
    else if |s| < 4 then None
    else if |s| == 4 then DecodeLast(s)
    else
      var i0, i1, i2, i3 := IndexOf(s[0]), IndexOf(s[1]), IndexOf(s[2]), IndexOf(s[3]);
      if i0.None? || i1.None? || i2.None? || i3.None? then None
      else
        match Decode(s[4..])
        case None => None
        case Some(rest) => Some(DecodeQuad(i0.value, i1.value, i2.value, i3.value) + rest)
  }

  lemma TripleRoundTrip(b0: byte, b1: byte, b2: byte)
    ensures DecodeQuad(b0 / 4, (b0 % 4) * 16 + b1 / 16, (b1 % 16) * 4 + b2 / 64, b2 % 64) == [b0, b1, b2]
  {
  }

  lemma DecodeEncodeTwo(b0: byte, b1: byte)
    ensures Decode(Encode([b0, b1])) == Some([b0, b1])
  {
    var c0, c1, c2 := b0 / 4, (b0 % 4) * 16 + b1 / 16, (b1 % 16) * 4;
    IndexOfAlphabet(c0);
    IndexOfAlphabet(c1);
    IndexOfAlphabet(c2);
    assert c1 / 16 == b0 % 4 && c1 % 16 == b1 / 16;
    assert c2 % 4 == 0 && c2 / 4 == b1 % 16;
    var q := Encode([b0, b1]);
    assert q == [Alphabet(c0), Alphabet(c1), Alphabet(c2), '='];
    assert DecodeLast(q) == Some([c0 * 4 + c1 / 16, (c1 % 16) * 16 + c2 / 4]);
  }

  lemma DecodeEncodeOne(b0: byte)
    ensures Decode(Encode([b0])) == Some([b0])
  {
    var c0, c1 := b0 / 4, (b0 % 4) * 16;
    IndexOfAlphabet(c0);
    IndexOfAlphabet(c1);
    assert c1 % 16 == 0 && c1 / 16 == b0 % 4;
    var q := Encode([b0]);
    assert q == [Alphabet(c0), Alphabet(c1), '=', '='];
    assert DecodeLast(q) == Some([c0 * 4 + c1 / 16]);
  }

  lemma DecodeEncodeTail(bs: seq<byte>)
    requires |bs| < 3
    ensures Decode(Encode(bs)) == Some(bs)
  {
    if |bs| == 2 {
      DecodeEncodeTwo(bs[0], bs[1]);
      assert bs == [bs[0], bs[1]];
    } else if |bs| == 1 {
      DecodeEncodeOne(bs[0]);
      assert bs == [bs[0]];
    }
  }

  /** Decoding recovers the bytes that were encoded. */
  lemma {:induction false} DecodeEncode(bs: seq<byte>)
    ensures Decode(Encode(bs)) == Some(bs)
  {
    if |bs| < 3 {
      DecodeEncodeTail(bs);
    } else {
      var b0, b1, b2 := bs[0], bs[1], bs[2];
      var c0, c1, c2, c3 := b0 / 4, (b0 % 4) * 16 + b1 / 16, (b1 % 16) * 4 + b2 / 64, b2 % 64;
      var s := Encode(bs);
      var rest := Encode(bs[3..]);
      assert s == EncodeTriple(b0, b1, b2) + rest;
      IndexOfAlphabet(c0);
      IndexOfAlphabet(c1);
      IndexOfAlphabet(c2);
      IndexOfAlphabet(c3);
      TripleRoundTrip(b0, b1, b2);
      DecodeEncode(bs[3..]);
      if |bs| == 3 {
        assert s == EncodeTriple(b0, b1, b2);
        assert bs == [b0, b1, b2];
      } else {
        assert s[4..] == rest;
        assert bs == [b0, b1, b2] + bs[3..];
      }
    }
  }

  /** The number of `=` that end the encoding of `n` bytes. */
  function PadCount(n: nat): (k: nat)
    ensures k <= 2
    ensures (n + k) % 3 == 0
  {
    (3 - n % 3) % 3
  }

  /** Encoded text is alphabet characters followed by exactly `PadCount` of `=`. */
  lemma {:induction false} EncodeAlphabet(bs: seq<byte>)
    ensures forall i :: 0 <= i < |Encode(bs)| - PadCount(|bs|) ==> IndexOf(Encode(bs)[i]).Some?
    ensures forall i :: |Encode(bs)| - PadCount(|bs|) <= i < |Encode(bs)| ==> Encode(bs)[i] == '='
  {
    if |bs| >= 3 {
      EncodeAlphabet(bs[3..]);
      var s := Encode(bs);
      assert s[4..] == Encode(bs[3..]);
      assert PadCount(|bs|) == PadCount(|bs| - 3);
    }
  }

  /** Re-encoding the bytes of the last group gives the group back. */
  lemma EncodeDecodeLast(q: string)
    requires |q| == 4 && DecodeLast(q).Some?
    ensures Encode(DecodeLast(q).value) == q
  {
    var i0, i1, i2, i3 := IndexOf(q[0]), IndexOf(q[1]), IndexOf(q[2]), IndexOf(q[3]);
    if q[2] == '=' && q[3] == '=' {
      var b0: int := i0.value as int * 4 + i1.value / 16;
      assert b0 / 4 == i0.value && (b0 % 4) * 16 == i1.value;
    } else if i2.Some? && q[3] == '=' {
      var b0: int := i0.value as int * 4 + i1.value / 16;
      var b1: int := (i1.value as int % 16) * 16 + i2.value / 4;
      assert b0 / 4 == i0.value && b0 % 4 == i1.value / 16;
      assert b1 / 16 == i1.value % 16 && (b1 % 16) * 4 == i2.value;
    } else {
      EncodeQuad(i0.value, i1.value, i2.value, i3.value);
    }
  }

  /** Four sextets survive decoding to three bytes and encoding again. */
  lemma EncodeQuad(c0: sextet, c1: sextet, c2: sextet, c3: sextet)
    ensures var bs := DecodeQuad(c0, c1, c2, c3);
      EncodeTriple(bs[0], bs[1], bs[2]) == [Alphabet(c0), Alphabet(c1), Alphabet(c2), Alphabet(c3)]
  {
    var bs := DecodeQuad(c0, c1, c2, c3);
    assert bs[0] / 4 == c0 && bs[0] % 4 == c1 / 16;
    assert bs[1] / 16 == c1 % 16 && bs[1] % 16 == c2 / 4;
    assert bs[2] / 64 == c2 % 4 && bs[2] % 64 == c3;
  }

  /** The decoder accepts only what the encoder writes: whatever it decodes
      encodes back to the same text. */
  lemma {:induction false} EncodeDecode(s: string)
    requires Decode(s).Some?
    ensures Encode(Decode(s).value) == s
  {
    if |s| == 4 {
      EncodeDecodeLast(s);
    } else if |s| > 4 {
      var i0, i1, i2, i3 := IndexOf(s[0]), IndexOf(s[1]), IndexOf(s[2]), IndexOf(s[3]);
      var rest := Decode(s[4..]).value;
      EncodeDecode(s[4..]);
      var bs := DecodeQuad(i0.value, i1.value, i2.value, i3.value) + rest;
      assert Decode(s).value == bs;
      EncodeQuad(i0.value, i1.value, i2.value, i3.value);
      assert bs[3..] == rest;
      assert s == s[..4] + s[4..];
    }
  }
}
