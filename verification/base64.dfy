// Base64 with the standard alphabet and required padding (section 4 of RFC 4648), decoded strictly:
// padding must be present and the unused bits must be zero (section 3.5).
module Base64 {
  import opened Prelude

  type Byte = b: int | 0 <= b < 256

  function DigitOf(n: nat): char
    requires n < 64
  {
    if n < 26 then 'A' + n as char
    else if n < 52 then 'a' + (n - 26) as char
    else if n < 62 then '0' + (n - 52) as char
    else if n == 62 then '+'
    else '/'
  }

  function ValueOf(c: char): Option<nat> {
    if 'A' <= c <= 'Z' then Some((c - 'A') as nat)
    else if 'a' <= c <= 'z' then Some((c - 'a') as nat + 26)
    else if '0' <= c <= '9' then Some((c - '0') as nat + 52)
    else if c == '+' then Some(62)
    else if c == '/' then Some(63)
    else None
  }

  lemma AlphabetIsABijection(n: nat, c: char)
    ensures n < 64 ==> ValueOf(DigitOf(n)) == Some(n) && DigitOf(n) != '='
    ensures ValueOf(c).Some? ==> ValueOf(c).value < 64 && DigitOf(ValueOf(c).value) == c
  {
  }

  // The digits are those of table 1 of RFC 4648.
  lemma AlphabetIsStandard(n: nat)
    requires n < 64
    ensures DigitOf(n) as int == if n <= 25 then 65 + n        // A to Z
                                 else if n <= 51 then 71 + n   // a to z
                                 else if n <= 61 then n - 4    // 0 to 9
                                 else if n == 62 then 43       // +
                                 else 47                       // /
  {
  }

  // Three bytes as four digits.
  function Quad(a: Byte, b: Byte, c: Byte): string {
    [DigitOf(a / 4), DigitOf(a % 4 * 16 + b / 16), DigitOf(b % 16 * 4 + c / 64), DigitOf(c % 64)]
  }

  function Encode(d: seq<Byte>): string {
    if |d| == 0 then ""
    else if |d| == 1 then [DigitOf(d[0] / 4), DigitOf(d[0] % 4 * 16), '=', '=']
    else if |d| == 2 then [DigitOf(d[0] / 4), DigitOf(d[0] % 4 * 16 + d[1] / 16), DigitOf(d[1] % 16 * 4), '=']
    else Quad(d[0], d[1], d[2]) + Encode(d[3..])
  }

  // A last group with padding.
  function DecodePadded(s: string): Option<seq<Byte>>
    requires |s| == 4 && s[3] == '='
  {
    var x, y, z := ValueOf(s[0]), ValueOf(s[1]), ValueOf(s[2]);
    if x.None? || y.None? then None
    else
      AlphabetIsABijection(0, s[0]);
      AlphabetIsABijection(0, s[1]);
      AlphabetIsABijection(0, s[2]);
      if s[2] == '=' then (if y.value % 16 == 0 then Some([x.value * 4 + y.value / 16]) else None)
      else if z.None? || z.value % 4 != 0 then None
      else Some([x.value * 4 + y.value / 16, y.value % 16 * 16 + z.value / 4])
  }

  function DecodeQuad(s: string): Option<seq<Byte>>
    requires |s| == 4
  {
    var x, y, z, w := ValueOf(s[0]), ValueOf(s[1]), ValueOf(s[2]), ValueOf(s[3]);
    if x.None? || y.None? || z.None? || w.None? then None
    else
      AlphabetIsABijection(0, s[0]);
      AlphabetIsABijection(0, s[1]);
      AlphabetIsABijection(0, s[2]);
      AlphabetIsABijection(0, s[3]);
      Some([x.value * 4 + y.value / 16, y.value % 16 * 16 + z.value / 4, z.value % 4 * 64 + w.value])
  }

  function Decode(s: string): Option<seq<Byte>> {
    if s == "" then Some([])
    else if |s| < 4 then None
    else if |s| == 4 && s[3] == '=' then DecodePadded(s)
    else
      var head, tail := DecodeQuad(s[..4]), Decode(s[4..]);
      if head.None? || tail.None? then None else Some(head.value + tail.value)
  }

  lemma EncodedLength(d: seq<Byte>)
    ensures |Encode(d)| == (|d| + 2) / 3 * 4
  {
  }

  lemma BytesFromDigits(a: Byte, b: Byte, c: Byte)
    ensures a / 4 * 4 + (a % 4 * 16 + b / 16) / 16 == a
    ensures (a % 4 * 16 + b / 16) % 16 * 16 + (b % 16 * 4 + c / 64) / 4 == b
    ensures (b % 16 * 4 + c / 64) % 4 * 64 + c % 64 == c
  {
  }

  lemma DigitsFromBytes(x: nat, y: nat, z: nat, w: nat)
    requires x < 64 && y < 64 && z < 64 && w < 64
    ensures (x * 4 + y / 16) / 4 == x
    ensures (x * 4 + y / 16) % 4 * 16 + (y % 16 * 16 + z / 4) / 16 == y
    ensures (y % 16 * 16 + z / 4) % 16 * 4 + (z % 4 * 64 + w) / 64 == z
    ensures (z % 4 * 64 + w) % 64 == w
  {
  }

  lemma QuadDecodes(a: Byte, b: Byte, c: Byte)
    ensures DecodeQuad(Quad(a, b, c)) == Some([a, b, c])
  {
    hide ValueOf, DigitOf;
    AlphabetIsABijection(a / 4, '=');
    AlphabetIsABijection(a % 4 * 16 + b / 16, '=');
    AlphabetIsABijection(b % 16 * 4 + c / 64, '=');
    AlphabetIsABijection(c % 64, '=');
    BytesFromDigits(a, b, c);
  }

  lemma QuadEncodes(s: string)
    requires |s| == 4 && DecodeQuad(s).Some?
    ensures |DecodeQuad(s).value| == 3
    ensures var d := DecodeQuad(s).value; Quad(d[0], d[1], d[2]) == s
  {
    hide ValueOf, DigitOf;
    AlphabetIsABijection(0, s[0]);
    AlphabetIsABijection(0, s[1]);
    AlphabetIsABijection(0, s[2]);
    AlphabetIsABijection(0, s[3]);
    DigitsFromBytes(ValueOf(s[0]).value, ValueOf(s[1]).value, ValueOf(s[2]).value, ValueOf(s[3]).value);
  }

  lemma PadIsNoDigit()
    ensures ValueOf('=').None?
  {
  }

  lemma PaddedDecodes(d: seq<Byte>)
    requires |d| == 1 || |d| == 2
    ensures |Encode(d)| == 4 && Encode(d)[3] == '=' && DecodePadded(Encode(d)) == Some(d)
  {
    hide ValueOf, DigitOf;
    AlphabetIsABijection(d[0] / 4, '=');
    BytesFromDigits(d[0], if |d| == 2 then d[1] else 0, 0);
    if |d| == 1 {
      AlphabetIsABijection(d[0] % 4 * 16, '=');
      assert d == [d[0]];
    } else {
      AlphabetIsABijection(d[0] % 4 * 16 + d[1] / 16, '=');
      AlphabetIsABijection(d[1] % 16 * 4, '=');
      assert d == [d[0], d[1]];
    }
    PadIsNoDigit();
  }

  lemma PaddedEncodes(s: string)
    requires |s| == 4 && s[3] == '=' && DecodePadded(s).Some?
    ensures Encode(DecodePadded(s).value) == s
  {
    hide ValueOf, DigitOf;
    AlphabetIsABijection(0, s[0]);
    AlphabetIsABijection(0, s[1]);
    AlphabetIsABijection(0, s[2]);
    DigitsFromBytes(ValueOf(s[0]).value, ValueOf(s[1]).value, if s[2] == '=' then 0 else ValueOf(s[2]).value, 0);
  }

  lemma {:induction false} DecodeInvertsEncode(d: seq<Byte>)
    ensures Decode(Encode(d)) == Some(d)
  {
    if |d| == 1 || |d| == 2 {
      PaddedDecodes(d);
    } else if |d| >= 3 {
      DecodeInvertsEncode(d[3..]);
      QuadDecodes(d[0], d[1], d[2]);
      AlphabetIsABijection(d[2] % 64, '=');
      var q, rest := Quad(d[0], d[1], d[2]), Encode(d[3..]);
      assert (q + rest)[..4] == q && (q + rest)[4..] == rest;
      assert d == [d[0], d[1], d[2]] + d[3..];
    }
  }

  lemma {:induction false} EncodeInvertsDecode(s: string)
    requires Decode(s).Some?
    ensures Encode(Decode(s).value) == s
  {
    if |s| == 4 && s[3] == '=' {
      PaddedEncodes(s);
    } else if |s| >= 4 {
      QuadEncodes(s[..4]);
      EncodeInvertsDecode(s[4..]);
      var head, tail := DecodeQuad(s[..4]).value, Decode(s[4..]).value;
      assert (head + tail)[3..] == tail;
      assert s == s[..4] + s[4..];
    }
  }

  // The strict decoder accepts exactly the encodings: one text for every byte string.
  lemma DecodeIsCanonical(s: string, d: seq<Byte>)
    ensures Decode(s) == Some(d) <==> s == Encode(d)
  {
    DecodeInvertsEncode(d);
    if Decode(s).Some? {
      EncodeInvertsDecode(s);
    }
  }

  // Four digits spell, in base 64, the number three bytes spell in base 256.
  lemma QuadIsTheSameNumber(a: Byte, b: Byte, c: Byte)
    ensures var q := Quad(a, b, c);
            && |q| == 4 && (forall i :: 0 <= i < 4 ==> ValueOf(q[i]).Some?)
            && ((ValueOf(q[0]).value * 64 + ValueOf(q[1]).value) * 64 + ValueOf(q[2]).value) * 64 + ValueOf(q[3]).value
               == (a * 256 + b) * 256 + c
  {
    hide ValueOf, DigitOf;
    AlphabetIsABijection(a / 4, '=');
    AlphabetIsABijection(a % 4 * 16 + b / 16, '=');
    AlphabetIsABijection(b % 16 * 4 + c / 64, '=');
    AlphabetIsABijection(c % 64, '=');
  }

  // Bytes are encoded three at a time; one or two left over are encoded as if followed by zeros, with padding in place
  // of the digits that hold nothing but zeros.
  lemma {:induction false} EncodingByGroups(d: seq<Byte>)
    ensures |d| == 0 ==> Encode(d) == ""
    ensures |d| == 1 ==> Encode(d) == Quad(d[0], 0, 0)[..2] + "=="
    ensures |d| == 2 ==> Encode(d) == Quad(d[0], d[1], 0)[..3] + "="
    ensures |d| >= 3 ==> Encode(d) == Quad(d[0], d[1], d[2]) + Encode(d[3..])
  {
    hide DigitOf, ValueOf;
  }

  lemma {:induction false} EncodingIsAscii(d: seq<Byte>)
    ensures forall i :: 0 <= i < |Encode(d)| ==> Encode(d)[i] < 128 as char
  {
    if |d| >= 3 {
      EncodingIsAscii(d[3..]);
    }
  }
}
