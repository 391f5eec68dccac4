/**
 * The base64 encoding of section 4 of RFC 4648 (standard alphabet, `=`
 * padding), as produced by Node's `Buffer.toString('base64')`, together with a
 * strict decoder that accepts exactly the canonical encodings, and the
 * latin1 (`'binary'`) conversion from a JavaScript string to bytes.
 */
module Base64 {
  import opened Wrappers
  import opened JsText

  type byte = b: int | 0 <= b < 0x100

  /**
   * `Buffer.from(s, 'binary')`: every code unit keeps its low byte, so a code
   * unit in the latin1 range is kept as it is and any other one is reduced
   * modulo 256.
   */
  function Latin1Bytes(s: JsString): (bytes: seq<byte>)
    ensures |bytes| == |s|
    ensures forall i :: 0 <= i < |s| && s[i] < 0x100 ==> bytes[i] == s[i]
    ensures forall i :: 0 <= i < |s| ==> (s[i] - bytes[i]) % 0x100 == 0
  {
    seq(|s|, i requires 0 <= i < |s| => s[i] % 0x100)
  }

  /** The pad character `=`. */
  const PAD: CodeUnit := '=' as int

  /** The alphabet character for a 6-bit value (table 1 of RFC 4648). */
  function Sextet(v: int): CodeUnit
    requires 0 <= v < 64
  {
    if v < 26 then 'A' as int + v
    else if v < 52 then 'a' as int + (v - 26)
    else if v < 62 then '0' as int + (v - 52)
    else if v == 62 then '+' as int
    else '/' as int
  }

  /** The 6-bit value of an alphabet character, or -1 for any other code unit, the pad included. */
  function SextetValue(c: CodeUnit): (v: int)
    ensures -1 <= v < 64
    ensures 0 <= v ==> Sextet(v) == c
    ensures c == PAD ==> v == -1
  {
    if 'A' as int <= c <= 'Z' as int then c - 'A' as int
    else if 'a' as int <= c <= 'z' as int then c - 'a' as int + 26
    else if '0' as int <= c <= '9' as int then c - '0' as int + 52
    else if c == '+' as int then 62
    else if c == '/' as int then 63
    else -1
  }

  lemma SextetValueOfSextet(v: int)
    requires 0 <= v < 64
    ensures SextetValue(Sextet(v)) == v
  {
  }

  predicate InAlphabet(c: CodeUnit) {
    SextetValue(c) >= 0
  }

  /**
   * Text shaped like an RFC 4648 encoding: whole quanta of four characters,
   * each from the alphabet except for one or two pad characters at the very end.
   */
  predicate WellFormed(s: JsString) {
    && |s| % 4 == 0
    && forall i :: 0 <= i < |s| ==>
         InAlphabet(s[i]) || (s[i] == PAD && |s| - 2 <= i && (i == |s| - 2 ==> s[|s| - 1] == PAD))
  }

  /** One full 24-bit group as four characters. */
  function EncodeGroup(b0: byte, b1: byte, b2: byte): JsString {
    [Sextet(b0 / 4), Sextet(b0 % 4 * 16 + b1 / 16), Sextet(b1 % 16 * 4 + b2 / 64), Sextet(b2 % 64)]
  }

  /**
   * Encodes the bytes three at a time; a final group of one or two bytes is
   * completed with zero bits and padded with `==` or `=` (section 4 of RFC 4648).
   */
  function Encode(bytes: seq<byte>): (s: JsString)
    ensures |s| == 4 * ((|bytes| + 2) / 3)
  {
    if |bytes| == 0 then []
    else if |bytes| == 1 then
      [Sextet(bytes[0] / 4), Sextet(bytes[0] % 4 * 16), PAD, PAD]
    else if |bytes| == 2 then
      [Sextet(bytes[0] / 4), Sextet(bytes[0] % 4 * 16 + bytes[1] / 16), Sextet(bytes[1] % 16 * 4), PAD]
    else
      EncodeGroup(bytes[0], bytes[1], bytes[2]) + Encode(bytes[3..])
  }

  /** Four alphabet characters, no padding, as three bytes. */
  function DecodeFull(q: JsString): Option<seq<byte>>
    requires |q| == 4
  {
    var v0, v1, v2, v3 := SextetValue(q[0]), SextetValue(q[1]), SextetValue(q[2]), SextetValue(q[3]);
    if v0 < 0 || v1 < 0 || v2 < 0 || v3 < 0 then None
    else Some([v0 * 4 + v1 / 16, v1 % 16 * 16 + v2 / 4, v2 % 4 * 64 + v3])
  }

  /**
   * The last quantum, which may end in `==` (one byte) or `=` (two bytes);
   * the bits that the padding leaves over must be zero, as the encoder makes them.
   */
  function DecodeLast(q: JsString): Option<seq<byte>>
    requires |q| == 4
  {
    var v0, v1, v2 := SextetValue(q[0]), SextetValue(q[1]), SextetValue(q[2]);
    if q[2] == PAD && q[3] == PAD then
      if v0 < 0 || v1 < 0 || v1 % 16 != 0 then None else Some([v0 * 4 + v1 / 16])
    else if q[3] == PAD then
      if v0 < 0 || v1 < 0 || v2 < 0 || v2 % 4 != 0 then None
      else Some([v0 * 4 + v1 / 16, v1 % 16 * 16 + v2 / 4])
    else DecodeFull(q)
  }

  /** Decodes canonical base64 text; `None` for anything the encoder cannot produce. */
  function Decode(s: JsString): Option<seq<byte>>
  {
    if |s| == 0 then Some([])
    else if |s| < 4 then None
    else if |s| == 4 then DecodeLast(s)
    else match DecodeFull(s[..4])
      case None => None
      case Some(group) =>
        match Decode(s[4..])
        case None => None
        case Some(rest) => Some(group + rest)
  }

  /** The sextets of a group recombine into the group's bytes. */
  lemma GroupBits(b0: byte, b1: byte, b2: byte)
    ensures (b0 / 4) * 4 + (b0 % 4 * 16 + b1 / 16) / 16 == b0
    ensures (b0 % 4 * 16 + b1 / 16) % 16 * 16 + (b1 % 16 * 4 + b2 / 64) / 4 == b1
    ensures (b1 % 16 * 4 + b2 / 64) % 4 * 64 + b2 % 64 == b2
  {
  }

  /** The bytes of four sextets split back into the same sextets. */
  lemma SextetBits(v0: int, v1: int, v2: int, v3: int)
    requires 0 <= v0 < 64 && 0 <= v1 < 64 && 0 <= v2 < 64 && 0 <= v3 < 64
    ensures (v0 * 4 + v1 / 16) / 4 == v0
    ensures (v0 * 4 + v1 / 16) % 4 * 16 + (v1 % 16 * 16 + v2 / 4) / 16 == v1
    ensures (v1 % 16 * 16 + v2 / 4) % 16 * 4 + (v2 % 4 * 64 + v3) / 64 == v2
    ensures (v2 % 4 * 64 + v3) % 64 == v3
  {
  }

  /** The four characters of a full group are all alphabet characters. */
  lemma GroupInAlphabet(b0: byte, b1: byte, b2: byte)
    ensures forall i :: 0 <= i < 4 ==> InAlphabet(EncodeGroup(b0, b1, b2)[i])
  {
    SextetValueOfSextet(b0 / 4);
    SextetValueOfSextet(b0 % 4 * 16 + b1 / 16);
    SextetValueOfSextet(b1 % 16 * 4 + b2 / 64);
    SextetValueOfSextet(b2 % 64);
  }

  /** Every encoding is well formed: alphabet characters with trailing padding only. */
  lemma {:induction false} EncodeWellFormed(bytes: seq<byte>)
    ensures WellFormed(Encode(bytes))
  {
    if |bytes| >= 3 {
      EncodeWellFormed(bytes[3..]);
      var g := EncodeGroup(bytes[0], bytes[1], bytes[2]);
      var t := Encode(bytes[3..]);
      GroupInAlphabet(bytes[0], bytes[1], bytes[2]);
      var s := g + t;
      assert Encode(bytes) == s;
      forall i | 0 <= i < |s|
        ensures InAlphabet(s[i]) || (s[i] == PAD && |s| - 2 <= i && (i == |s| - 2 ==> s[|s| - 1] == PAD))
      {
        if i < 4 {
          assert s[i] == g[i];
        } else {
          assert s[i] == t[i - 4];
        }
      }
    } else if |bytes| == 2 {
      SextetValueOfSextet(bytes[0] / 4);
      SextetValueOfSextet(bytes[0] % 4 * 16 + bytes[1] / 16);
      SextetValueOfSextet(bytes[1] % 16 * 4);
    } else if |bytes| == 1 {
      SextetValueOfSextet(bytes[0] / 4);
      SextetValueOfSextet(bytes[0] % 4 * 16);
    }
  }

  /** A full group decodes back to its three bytes, also as the last quantum. */
  lemma DecodeGroup(b0: byte, b1: byte, b2: byte)
    ensures DecodeFull(EncodeGroup(b0, b1, b2)) == Some([b0, b1, b2])
    ensures DecodeLast(EncodeGroup(b0, b1, b2)) == Some([b0, b1, b2])
  {
    SextetValueOfSextet(b0 / 4);
    SextetValueOfSextet(b0 % 4 * 16 + b1 / 16);
    SextetValueOfSextet(b1 % 16 * 4 + b2 / 64);
    SextetValueOfSextet(b2 % 64);
    GroupBits(b0, b1, b2);
  }

  /** The padded encoding of one byte decodes back to it. */
  lemma DecodeOne(b0: byte)
    ensures Decode(Encode([b0])) == Some([b0])
  {
    var v0, v1 := b0 / 4, b0 % 4 * 16;
    SextetValueOfSextet(v0);
    SextetValueOfSextet(v1);
    var s := [Sextet(v0), Sextet(v1), PAD, PAD];
    assert Encode([b0]) == s;
    assert DecodeLast(s) == Some([v0 * 4 + v1 / 16]);
  }

  /** The padded encoding of two bytes decodes back to them. */
  lemma DecodeTwo(b0: byte, b1: byte)
    ensures Decode(Encode([b0, b1])) == Some([b0, b1])
  {
    var v0, v1, v2 := b0 / 4, b0 % 4 * 16 + b1 / 16, b1 % 16 * 4;
    SextetValueOfSextet(v0);
    SextetValueOfSextet(v1);
    SextetValueOfSextet(v2);
    GroupBits(b0, b1, 0);
    var s := [Sextet(v0), Sextet(v1), Sextet(v2), PAD];
    assert Encode([b0, b1]) == s;
    assert s[2] != PAD && v2 % 4 == 0;
    assert DecodeLast(s) == Some([v0 * 4 + v1 / 16, v1 % 16 * 16 + v2 / 4]);
  }

  /** Decoding an encoding gives back the bytes. */
  lemma {:induction false} DecodeEncode(bytes: seq<byte>)
    ensures Decode(Encode(bytes)) == Some(bytes)
  {
    if |bytes| == 1 {
      DecodeOne(bytes[0]);
      assert [bytes[0]] == bytes;
    } else if |bytes| == 2 {
      DecodeTwo(bytes[0], bytes[1]);
      assert [bytes[0], bytes[1]] == bytes;
    } else if |bytes| >= 3 {
      var b0, b1, b2 := bytes[0], bytes[1], bytes[2];
      var s, g, t := Encode(bytes), EncodeGroup(b0, b1, b2), Encode(bytes[3..]);
      DecodeGroup(b0, b1, b2);
      DecodeEncode(bytes[3..]);
      assert s == g + t;
      assert s[..4] == g && s[4..] == t;
      if |bytes| == 3 {
        assert s == g;
        assert [b0, b1, b2] == bytes;
      } else {
        assert [b0, b1, b2] + bytes[3..] == bytes;
      }
    }
  }

  /** A full quantum that decodes re-encodes to itself. */
  lemma EncodeDecodeFull(q: JsString)
    requires |q| == 4 && DecodeFull(q).Some?
    ensures |DecodeFull(q).value| == 3
    ensures EncodeGroup(DecodeFull(q).value[0], DecodeFull(q).value[1], DecodeFull(q).value[2]) == q
  {
    SextetBits(SextetValue(q[0]), SextetValue(q[1]), SextetValue(q[2]), SextetValue(q[3]));
  }

  /** A last quantum that decodes re-encodes to itself. */
  lemma EncodeDecodeLast(q: JsString)
    requires |q| == 4 && DecodeLast(q).Some?
    ensures Encode(DecodeLast(q).value) == q
  {
    var v0, v1, v2 := SextetValue(q[0]), SextetValue(q[1]), SextetValue(q[2]);
    var bytes := DecodeLast(q).value;
    if q[2] == PAD && q[3] == PAD {
      SextetBits(v0, v1, 0, 0);
      assert bytes == [v0 * 4 + v1 / 16];
      assert Encode(bytes) == [Sextet(v0), Sextet(v1), PAD, PAD];
      assert q == [q[0], q[1], q[2], q[3]];
    } else if q[3] == PAD {
      SextetBits(v0, v1, v2, 0);
      assert bytes == [v0 * 4 + v1 / 16, v1 % 16 * 16 + v2 / 4];
      assert Encode(bytes) == [Sextet(v0), Sextet(v1), Sextet(v2), PAD];
      assert q == [q[0], q[1], q[2], q[3]];
    } else {
      EncodeDecodeFull(q);
      assert bytes[3..] == [];
    }
  }

  /** Whatever decodes, re-encodes to the same text: the decoder accepts only canonical encodings. */
  lemma {:induction false} EncodeDecode(s: JsString)
    requires Decode(s).Some?
    ensures Encode(Decode(s).value) == s
  {
    if |s| == 4 {
      EncodeDecodeLast(s);
    } else if |s| > 4 {
      var q := s[..4];
      EncodeDecodeFull(q);
      EncodeDecode(s[4..]);
      var bytes := Decode(s).value;
      var group := DecodeFull(q).value;
      assert bytes == group + Decode(s[4..]).value;
      assert bytes[..3] == group && bytes[3..] == Decode(s[4..]).value;
      assert s == q + s[4..];
    }
  }

  /**
   * The test vectors of section 10 of RFC 4648 of at most one group, which pin
   * the alphabet order, the bit slicing and the padding independently of the
   * decoder; `FF FE FD` reaches the last two alphabet characters.
   */
  lemma Rfc4648Vectors()
    ensures Encode([]) == []
    ensures Encode([0x66]) == Ascii("Zg==")
    ensures Encode([0x66, 0x6f]) == Ascii("Zm8=")
    ensures Encode([0x66, 0x6f, 0x6f]) == Ascii("Zm9v")
    ensures Encode([0xff, 0xfe, 0xfd]) == Ascii("//79")
  {
  }

  /** The test vector "foob" → "Zm9vYg==" of section 10 of RFC 4648: a full group, then one byte padded with `==`. */
  lemma Rfc4648Foob()
    ensures Encode([0x66, 0x6f, 0x6f, 0x62]) == Ascii("Zm9vYg==")
  {
    var bytes: seq<byte> := [0x66, 0x6f, 0x6f, 0x62];
    assert bytes[3..] == [0x62];
    assert Encode([0x62]) == Ascii("Yg==");
    assert Ascii("Zm9vYg==") == Ascii("Zm9v") + Ascii("Yg==");
  }

  /** The test vector "fooba" → "Zm9vYmE=" of section 10 of RFC 4648: a full group, then two bytes padded with `=`. */
  lemma Rfc4648Fooba()
    ensures Encode([0x66, 0x6f, 0x6f, 0x62, 0x61]) == Ascii("Zm9vYmE=")
  {
    var bytes: seq<byte> := [0x66, 0x6f, 0x6f, 0x62, 0x61];
    assert bytes[3..] == [0x62, 0x61];
    assert Encode([0x62, 0x61]) == Ascii("YmE=");
    assert Ascii("Zm9vYmE=") == Ascii("Zm9v") + Ascii("YmE=");
  }

  /** The test vector "foobar" → "Zm9vYmFy" of section 10 of RFC 4648: two full groups, no padding. */
  lemma Rfc4648Foobar()
    ensures Encode([0x66, 0x6f, 0x6f, 0x62, 0x61, 0x72]) == Ascii("Zm9vYmFy")
  {
    var bytes: seq<byte> := [0x66, 0x6f, 0x6f, 0x62, 0x61, 0x72];
    var bar: seq<byte> := [0x62, 0x61, 0x72];
    assert bytes[3..] == bar && bar[3..] == [];
    assert EncodeGroup(0x66, 0x6f, 0x6f) == Ascii("Zm9v");
    assert EncodeGroup(0x62, 0x61, 0x72) == Ascii("YmFy");
    assert Encode(bar) == Ascii("YmFy") + [];
    assert Ascii("Zm9vYmFy") == Ascii("Zm9v") + Ascii("YmFy");
  }
}
