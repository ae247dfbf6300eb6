/** UTF-8 as section 3 and 4 of RFC 3629 define it: the encoder, and the strict
    decoder whose second-byte ranges exclude overlong forms, surrogates and
    values past U+10FFFF. */
module KeyUtf8 {
  import opened Common

  /** A Unicode scalar value. */
  type Scalar = c: int | (0 <= c < 0xD800) || (0xE000 <= c < 0x110000)

  function Encode(c: Scalar): (bytes: seq<byte>)
    ensures 1 <= |bytes| <= 4
  {
    if c < 0x80 then [c]
    else if c < 0x800 then [0xC0 + c / 64, 0x80 + c % 64]
    else if c < 0x10000 then [0xE0 + c / 4096, 0x80 + c / 64 % 64, 0x80 + c % 64]
    else [0xF0 + c / 262144, 0x80 + c / 4096 % 64, 0x80 + c / 64 % 64, 0x80 + c % 64]
  }

  /** Sequence length announced by a lead byte; 0 for bytes that lead nothing. */
  function LeadLength(b: byte): (n: nat)
    ensures n <= 4
  {
    if b < 0x80 then 1
    else if 0xC2 <= b < 0xE0 then 2
    else if 0xE0 <= b < 0xF0 then 3
    else if 0xF0 <= b <= 0xF4 then 4
    else 0
  }

  predicate IsContinuation(b: byte) {
    0x80 <= b < 0xC0
  }

  /** The second byte's range depends on the lead byte. */
  predicate SecondByteFits(lead: byte, second: byte) {
    && IsContinuation(second)
    && (lead == 0xE0 ==> second >= 0xA0)
    && (lead == 0xED ==> second < 0xA0)
    && (lead == 0xF0 ==> second >= 0x90)
    && (lead == 0xF4 ==> second < 0x90)
  }

  /** The first character of the bytes, if they start with a whole one. */
  function DecodeOne(bytes: seq<byte>): Option<Scalar> {
    if bytes == [] then None
    else
      var n := LeadLength(bytes[0]);
      if n == 0 || |bytes| < n then None
      else if n == 1 then Some(bytes[0])
      else if !SecondByteFits(bytes[0], bytes[1]) then None
      else if n == 2 then Some(Bits(bytes[0], 0xC0) * 64 + Bits(bytes[1], 0x80))
      else if !IsContinuation(bytes[2]) then None
      else if n == 3 then Some(Bits(bytes[0], 0xE0) * 4096 + Bits(bytes[1], 0x80) * 64 + Bits(bytes[2], 0x80))
      else if !IsContinuation(bytes[3]) then None
      else Some(Bits(bytes[0], 0xF0) * 262144 + Bits(bytes[1], 0x80) * 4096
                + Bits(bytes[2], 0x80) * 64 + Bits(bytes[3], 0x80))
  }

  function Bits(b: byte, mark: int): int {
    b - mark
  }

  /** Whole-text decoding: all of it must be well formed. */
  function FromUtf8(bytes: seq<byte>): Option<seq<Scalar>> {
    if bytes == [] then Some([])
    else
      match DecodeOne(bytes)
      case None => None
      case Some(c) =>
        match FromUtf8(bytes[LeadLength(bytes[0])..])
        case None => None
        case Some(rest) => Some([c] + rest)
  }

  /** The first character of text that is valid throughout. */
  function FirstCharacter(bytes: seq<byte>): Option<Scalar> {
    match FromUtf8(bytes)
    case None => None
    case Some(text) => if text == [] then None else Some(text[0])
  }

  lemma EncodingsDecode(c: Scalar)
    ensures LeadLength(Encode(c)[0]) == |Encode(c)|
    ensures DecodeOne(Encode(c)) == Some(c)
  {
    if c >= 0x10000 {
      FourByteEncodingDecodes(c);
    } else if c >= 0x800 {
      ThreeByteEncodingDecodes(c);
    }
  }

  lemma ThreeByteEncodingDecodes(c: Scalar)
    requires 0x800 <= c < 0x10000
    ensures LeadLength(Encode(c)[0]) == 3 && DecodeOne(Encode(c)) == Some(c)
  {
    assert c == c / 4096 * 4096 + c / 64 % 64 * 64 + c % 64;
  }

  lemma FourByteEncodingDecodes(c: Scalar)
    requires 0x10000 <= c
    ensures LeadLength(Encode(c)[0]) == 4 && DecodeOne(Encode(c)) == Some(c)
  {
    var w, x, y, z := c / 262144, c / 4096 % 64, c / 64 % 64, c % 64;
    assert 0 <= w <= 4 && c / 4096 == w * 64 + x;
    assert c / 64 == w * 4096 + x * 64 + y;
    assert c == w * 262144 + x * 4096 + y * 64 + z;
    assert Encode(c) == [0xF0 + w, 0x80 + x, 0x80 + y, 0x80 + z];
  }

  lemma DecodedEncodes(bytes: seq<byte>)
    requires bytes != [] && |bytes| == LeadLength(bytes[0]) && DecodeOne(bytes).Some?
    ensures Encode(DecodeOne(bytes).value) == bytes
  {
    if |bytes| == 3 {
      ThreeDecodedEncode(bytes);
    } else if |bytes| == 4 {
      FourDecodedEncode(bytes);
    }
  }

  lemma ThreeDecodedEncode(bytes: seq<byte>)
    requires |bytes| == 3 == LeadLength(bytes[0]) && DecodeOne(bytes).Some?
    ensures Encode(DecodeOne(bytes).value) == bytes
  {
    ThreeBytes(bytes[0] - 0xE0, bytes[1] - 0x80, bytes[2] - 0x80);
  }

  lemma FourDecodedEncode(bytes: seq<byte>)
    requires |bytes| == 4 == LeadLength(bytes[0]) && DecodeOne(bytes).Some?
    ensures Encode(DecodeOne(bytes).value) == bytes
  {
    FourBytes(bytes[0] - 0xF0, bytes[1] - 0x80, bytes[2] - 0x80, bytes[3] - 0x80);
  }

  lemma ThreeBytes(x: nat, y: nat, z: nat)
    requires x < 16 && y < 64 && z < 64
    ensures var c := x * 4096 + y * 64 + z; c / 4096 == x && c / 64 % 64 == y && c % 64 == z
  {
    var c := x * 4096 + y * 64 + z;
    assert c / 64 == x * 64 + y;
  }

  lemma FourBytes(w: nat, x: nat, y: nat, z: nat)
    requires w < 8 && x < 64 && y < 64 && z < 64
    ensures var c := w * 262144 + x * 4096 + y * 64 + z;
            c / 262144 == w && c / 4096 % 64 == x && c / 64 % 64 == y && c % 64 == z
  {
    var c := w * 262144 + x * 4096 + y * 64 + z;
    assert c / 64 == w * 4096 + x * 64 + y;
    assert c / 4096 == w * 64 + x;
  }

  /** As many bytes as the lead announces are valid text exactly when they are
      one character's encoding, and then that character comes first. */
  lemma FirstCharacterOfOne(bytes: seq<byte>)
    requires bytes != [] && |bytes| == LeadLength(bytes[0])
    ensures forall c: Scalar :: FirstCharacter(bytes) == Some(c) <==> Encode(c) == bytes
  {
    assert bytes[LeadLength(bytes[0])..] == [];
    if DecodeOne(bytes).Some? {
      DecodedEncodes(bytes);
      assert [DecodeOne(bytes).value] + [] == [DecodeOne(bytes).value];
      assert FromUtf8(bytes) == Some([DecodeOne(bytes).value]);
    }
    forall c: Scalar
      ensures FirstCharacter(bytes) == Some(c) <==> Encode(c) == bytes
    {
      EncodingsDecode(c);
    }
  }
}
