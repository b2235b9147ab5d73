/** Unpadded base64 with the standard alphabet (sections 3.2 and 4 of RFC 4648). */
module Base64 {
  import opened Common

  type Byte = b: int | 0 <= b < 256
  type Sextet = n: int | 0 <= n < 64

  function Letter(n: Sextet): char {
    if n < 26 then ('A' as int + n) as char
    else if n < 52 then ('a' as int + n - 26) as char
    else if n < 62 then ('0' as int + n - 52) as char
    else if n == 62 then '+'
    else '/'
  }

  function Value(c: char): Option<Sextet> {
    if 'A' <= c <= 'Z' then Some(c as int - 'A' as int)
    else if 'a' <= c <= 'z' then Some(c as int - 'a' as int + 26)
    else if '0' <= c <= '9' then Some(c as int - '0' as int + 52)
    else if c == '+' then Some(62)
    else if c == '/' then Some(63)
    else None
  }

  lemma ValueOfLetter(n: Sextet)
    ensures Value(Letter(n)) == Some(n)
  {
  }

  /** Three bytes become four letters; one or two bytes at the end become two or three. */
  function Encode(bs: seq<Byte>): string {
    if |bs| == 0 then ""
    else if |bs| == 1 then [Letter(bs[0] / 4), Letter(bs[0] % 4 * 16)]
    else if |bs| == 2 then [Letter(bs[0] / 4), Letter(bs[0] % 4 * 16 + bs[1] / 16), Letter(bs[1] % 16 * 4)]
    else
      [Letter(bs[0] / 4), Letter(bs[0] % 4 * 16 + bs[1] / 16),
       Letter(bs[1] % 16 * 4 + bs[2] / 64), Letter(bs[2] % 64)] + Encode(bs[3..])
  }

  function FirstByte(a: Sextet, b: Sextet): Byte {
    a * 4 + b / 16
  }

  function SecondByte(b: Sextet, c: Sextet): Byte {
    b % 16 * 16 + c / 4
  }

  function ThirdByte(c: Sextet, d: Sextet): Byte {
    c % 4 * 64 + d
  }

  /** Bits left over in the last letter are not looked at; a single letter at the end is an error. */
  function DecodeLetters(s: string): Option<seq<Byte>> {
    if |s| == 0 then Some([])
    else if |s| == 1 then None
    else
      var a, b := Value(s[0]), Value(s[1]);
      if a.None? || b.None? then None
      else if |s| == 2 then Some([FirstByte(a.value, b.value)])
      else
        var c := Value(s[2]);
        if c.None? then None
        else if |s| == 3 then Some([FirstByte(a.value, b.value), SecondByte(b.value, c.value)])
        else
          var d, rest := Value(s[3]), DecodeLetters(s[4..]);
          if d.None? || rest.None? then None
          else Some([FirstByte(a.value, b.value), SecondByte(b.value, c.value), ThirdByte(c.value, d.value)]
            + rest.value)
  }

  function NotLineBreak(): char -> bool {
    (c: char) => c != '\r' && c != '\n'
  }

  /** Line breaks anywhere in the input are skipped. */
  function Decode(s: string): Option<seq<Byte>> {
    DecodeLetters(Filter(s, NotLineBreak()))
  }

  ghost predicate AllLetters(s: string) {
    forall i :: 0 <= i < |s| ==> Value(s[i]).Some?
  }

  lemma {:induction false} EncodeIsLetters(bs: seq<Byte>)
    ensures AllLetters(Encode(bs))
  {
    if |bs| >= 3 {
      EncodeIsLetters(bs[3..]);
    }
  }

  lemma {:induction false} LettersAreKept(s: string)
    requires AllLetters(s)
    ensures Filter(s, NotLineBreak()) == s
  {
    if s != "" {
      LettersAreKept(s[..|s| - 1]);
      assert s == s[..|s| - 1] + [s[|s| - 1]];
    }
  }

  lemma Quantum(x: Byte, y: Byte, z: Byte)
    ensures FirstByte(x / 4, x % 4 * 16 + y / 16) == x
    ensures SecondByte(x % 4 * 16 + y / 16, y % 16 * 4 + z / 64) == y
    ensures ThirdByte(y % 16 * 4 + z / 64, z % 64) == z
  {
  }

  lemma DecodeQuantum(a: Sextet, b: Sextet, c: Sextet, d: Sextet, s: string, bs: seq<Byte>)
    requires DecodeLetters(s) == Some(bs)
    ensures DecodeLetters([Letter(a), Letter(b), Letter(c), Letter(d)] + s)
         == Some([FirstByte(a, b), SecondByte(b, c), ThirdByte(c, d)] + bs)
  {
    ValueOfLetter(a);
    ValueOfLetter(b);
    ValueOfLetter(c);
    ValueOfLetter(d);
    assert ([Letter(a), Letter(b), Letter(c), Letter(d)] + s)[4..] == s;
  }

  lemma DecodePair(a: Sextet, b: Sextet)
    ensures DecodeLetters([Letter(a), Letter(b)]) == Some([FirstByte(a, b)])
  {
    ValueOfLetter(a);
    ValueOfLetter(b);
  }

  lemma DecodeTriple(a: Sextet, b: Sextet, c: Sextet)
    ensures DecodeLetters([Letter(a), Letter(b), Letter(c)]) == Some([FirstByte(a, b), SecondByte(b, c)])
  {
    ValueOfLetter(a);
    ValueOfLetter(b);
    ValueOfLetter(c);
  }

  lemma EncodeStep(x: Byte, y: Byte, z: Byte, bs: seq<Byte>)
    ensures Encode([x, y, z] + bs)
         == [Letter(x / 4), Letter(x % 4 * 16 + y / 16), Letter(y % 16 * 4 + z / 64), Letter(z % 64)] + Encode(bs)
  {
    var all := [x, y, z] + bs;
    assert all[0] == x && all[1] == y && all[2] == z && all[3..] == bs;
  }

  lemma DecodeStep(x: Byte, y: Byte, z: Byte, bs: seq<Byte>)
    requires DecodeLetters(Encode(bs)) == Some(bs)
    ensures DecodeLetters(Encode([x, y, z] + bs)) == Some([x, y, z] + bs)
  {
    EncodeStep(x, y, z, bs);
    DecodeQuantum(x / 4, x % 4 * 16 + y / 16, y % 16 * 4 + z / 64, z % 64, Encode(bs), bs);
    Quantum(x, y, z);
  }

  lemma Tails(x: Byte, y: Byte)
    ensures FirstByte(x / 4, x % 4 * 16) == x
    ensures FirstByte(x / 4, x % 4 * 16 + y / 16) == x
    ensures SecondByte(x % 4 * 16 + y / 16, y % 16 * 4) == y
  {
  }

  lemma EncodeTails(x: Byte, y: Byte)
    ensures Encode([x]) == [Letter(x / 4), Letter(x % 4 * 16)]
    ensures Encode([x, y]) == [Letter(x / 4), Letter(x % 4 * 16 + y / 16), Letter(y % 16 * 4)]
  {
  }

  lemma DecodeTails(x: Byte, y: Byte)
    ensures DecodeLetters(Encode([x])) == Some([x])
    ensures DecodeLetters(Encode([x, y])) == Some([x, y])
  {
    EncodeTails(x, y);
    Tails(x, y);
    DecodePair(x / 4, x % 4 * 16);
    DecodeTriple(x / 4, x % 4 * 16 + y / 16, y % 16 * 4);
  }

  lemma {:induction false} DecodeLettersOfEncode(bs: seq<Byte>)
    ensures DecodeLetters(Encode(bs)) == Some(bs)
  {
    if |bs| >= 3 {
      DecodeLettersOfEncode(bs[3..]);
      DecodeStep(bs[0], bs[1], bs[2], bs[3..]);
      assert bs == [bs[0], bs[1], bs[2]] + bs[3..];
    } else if |bs| == 2 {
      DecodeTails(bs[0], bs[1]);
      assert bs == [bs[0], bs[1]];
    } else if |bs| == 1 {
      DecodeTails(bs[0], 0);
      assert bs == [bs[0]];
    }
  }

  /** Decoding undoes encoding, for every byte string. */
  lemma DecodeOfEncode(bs: seq<Byte>)
    ensures Decode(Encode(bs)) == Some(bs)
  {
    EncodeIsLetters(bs);
    LettersAreKept(Encode(bs));
    DecodeLettersOfEncode(bs);
  }

  // ---- The alphabet ------------------------------------------------------------------------------------------------

  /** Table 1 of RFC 4648: where its four stretches begin and end, and that each counts upwards. */
  lemma LettersAreTheAlphabet(n: Sextet)
    ensures Letter(0) == 'A' && Letter(25) == 'Z' && Letter(26) == 'a' && Letter(51) == 'z'
    ensures Letter(52) == '0' && Letter(61) == '9' && Letter(62) == '+' && Letter(63) == '/'
    ensures n < 61 && n !in {25, 51} ==> Letter(n + 1) as int == Letter(n) as int + 1
  {
  }

  /** The first three test vectors of section 10 of RFC 4648, without their padding. */
  lemma TestVectors()
    ensures Encode([102]) == "Zg" && Encode([102, 111]) == "Zm8" && Encode([102, 111, 111]) == "Zm9v"
  {
    EncodeTails(102, 111);
    EncodeStep(102, 111, 111, []);
    assert [102, 111, 111] + [] == [102, 111, 111];
  }

  /** Four letters for every three bytes, and one more letter than bytes at the end. */
  lemma {:induction false} EncodedLength(bs: seq<Byte>)
    ensures |Encode(bs)| == (4 * |bs| + 2) / 3
  {
    if |bs| >= 3 {
      EncodedLength(bs[3..]);
    }
  }
}
