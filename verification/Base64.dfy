/** The standard padded encoding of section 4 of RFC 4648, with the decoder's
    treatment of line breaks and of unused low bits. */
module Base64 {
  import opened Gf256
  import opened Prelude

  type sextet = v: int | 0 <= v < 64

  predicate IsAlphabet(c: char) {
    'A' <= c <= 'Z' || 'a' <= c <= 'z' || '0' <= c <= '9' || c == '+' || c == '/'
  }

  function ToChar(v: sextet): (c: char)
    ensures IsAlphabet(c)
  {
    if v < 26 then 'A' + v as char
    else if v < 52 then 'a' + (v - 26) as char
    else if v < 62 then '0' + (v - 52) as char
    else if v == 62 then '+' else '/'
  }

  function FromChar(c: char): (v: sextet)
    requires IsAlphabet(c)
  {
    if 'A' <= c <= 'Z' then (c - 'A') as int
    else if 'a' <= c <= 'z' then (c - 'a') as int + 26
    else if '0' <= c <= '9' then (c - '0') as int + 52
    else if c == '+' then 62 else 63
  }

  lemma CharRoundTrip(v: sextet)
    ensures FromChar(ToChar(v)) == v
  {
  }

  /** Three bytes as four six-bit numbers, and back. */
  function Sextet0(b0: byte): sextet { b0 / 4 }
  function Sextet1(b0: byte, b1: byte): sextet { b0 % 4 * 16 + b1 / 16 }
  function Sextet2(b1: byte, b2: byte): sextet { b1 % 16 * 4 + b2 / 64 }
  function Sextet3(b2: byte): sextet { b2 % 64 }

  function Byte0(v0: sextet, v1: sextet): byte { v0 * 4 + v1 / 16 }
  function Byte1(v1: sextet, v2: sextet): byte { v1 % 16 * 16 + v2 / 4 }
  function Byte2(v2: sextet, v3: sextet): byte { v2 % 4 * 64 + v3 }

  lemma Byte0Back(b0: byte, b1: byte)
    ensures Byte0(Sextet0(b0), Sextet1(b0, b1)) == b0
  {
  }

  lemma Byte1Back(b0: byte, b1: byte, b2: byte)
    ensures Byte1(Sextet1(b0, b1), Sextet2(b1, b2)) == b1
  {
    LowHalf(b0, b1);
    HighHalf(b1, b2);
    hide Sextet1, Sextet2;
  }

  lemma LowHalf(b0: byte, b1: byte)
    ensures Sextet1(b0, b1) % 16 == b1 / 16
  {
  }

  lemma HighHalf(b1: byte, b2: byte)
    ensures Sextet2(b1, b2) / 4 == b1 % 16
  {
  }

  lemma Byte2Back(b1: byte, b2: byte)
    ensures Byte2(Sextet2(b1, b2), Sextet3(b2)) == b2
  {
  }

  function Encode(b: seq<byte>): string {
    if b == [] then ""
    else if |b| == 1 then
      [ToChar(Sextet0(b[0])), ToChar(Sextet1(b[0], 0)), '=', '=']
    else if |b| == 2 then
      [ToChar(Sextet0(b[0])), ToChar(Sextet1(b[0], b[1])), ToChar(Sextet2(b[1], 0)), '=']
    else
      [ToChar(Sextet0(b[0])), ToChar(Sextet1(b[0], b[1])), ToChar(Sextet2(b[1], b[2])), ToChar(Sextet3(b[2]))]
      + Encode(b[3..])
  }

  /** Line breaks inside the text are skipped. */
  function Strip(s: string): string {
    if s == "" then "" else if s[0] == '\r' || s[0] == '\n' then Strip(s[1..]) else [s[0]] + Strip(s[1..])
  }

  function Decode(s: string): Option<seq<byte>> {
    DecodeQuads(Strip(s))
  }

  /** Padding is accepted only in the last group; unused low bits are ignored. */
  function DecodeQuads(s: string): Option<seq<byte>> {
    if s == "" then Some([])
    else if |s| < 4 || !IsAlphabet(s[0]) || !IsAlphabet(s[1]) then None
    else
      var b0 := Byte0(FromChar(s[0]), FromChar(s[1]));
      if s[2] == '=' then
        if |s| == 4 && s[3] == '=' then Some([b0]) else None
      else if !IsAlphabet(s[2]) then None
      else
        var b1 := Byte1(FromChar(s[1]), FromChar(s[2]));
        if s[3] == '=' then
          if |s| == 4 then Some([b0, b1]) else None
        else if !IsAlphabet(s[3]) then None
        else
          var b2 := Byte2(FromChar(s[2]), FromChar(s[3]));
          match DecodeQuads(s[4..])
          case None => None
          case Some(rest) => Some([b0, b1, b2] + rest)
  }

  /** What encoded text is made of. */
  predicate IsEncodedChar(c: char) {
    IsAlphabet(c) || c == '='
  }

  lemma {:induction false} EncodedChars(b: seq<byte>)
    ensures forall c :: c in Encode(b) ==> IsEncodedChar(c)
    ensures b != [] ==> Encode(b) != ""
  {
    if |b| > 2 {
      EncodedChars(b[3..]);
    }
  }

  lemma {:induction false} StripKeeps(s: string)
    requires forall c :: c in s ==> IsEncodedChar(c)
    ensures Strip(s) == s
  {
    if s != "" {
      assert s[0] in s;
      StripKeeps(s[1..]);
    }
  }

  /** A full group of four characters, as six-bit numbers. */
  lemma DecodeSextets(v0: sextet, v1: sextet, v2: sextet, v3: sextet, rest: string)
    ensures DecodeQuads([ToChar(v0), ToChar(v1), ToChar(v2), ToChar(v3)] + rest) ==
      match DecodeQuads(rest)
      case None => None
      case Some(bytes) => Some([Byte0(v0, v1), Byte1(v1, v2), Byte2(v2, v3)] + bytes)
  {
    hide ToChar, FromChar, IsAlphabet, Byte0, Byte1, Byte2;
    EqualsNotInAlphabet();
    CharRoundTrip(v0);
    CharRoundTrip(v1);
    CharRoundTrip(v2);
    CharRoundTrip(v3);
    var s := [ToChar(v0), ToChar(v1), ToChar(v2), ToChar(v3)] + rest;
    assert s[4..] == rest;
  }

  /** A full group of four characters decodes to its three bytes. */
  lemma DecodeGroup(b0: byte, b1: byte, b2: byte, rest: string)
    ensures var s := [ToChar(Sextet0(b0)), ToChar(Sextet1(b0, b1)), ToChar(Sextet2(b1, b2)), ToChar(Sextet3(b2))];
      DecodeQuads(s + rest) == match DecodeQuads(rest) case None => None case Some(bytes) => Some([b0, b1, b2] + bytes)
  {
    hide *;
    DecodeSextets(Sextet0(b0), Sextet1(b0, b1), Sextet2(b1, b2), Sextet3(b2), rest);
    Byte0Back(b0, b1);
    Byte1Back(b0, b1, b2);
    Byte2Back(b1, b2);
  }

  lemma DecodeOne(b: seq<byte>)
    requires |b| == 1
    ensures DecodeQuads(Encode(b)) == Some(b)
  {
    hide ToChar, FromChar, IsAlphabet, Sextet0, Sextet1, Byte0;
    EqualsNotInAlphabet();
    CharRoundTrip(Sextet0(b[0]));
    CharRoundTrip(Sextet1(b[0], 0));
    Byte0Back(b[0], 0);
    assert b == [b[0]];
  }

  lemma DecodeTwo(b: seq<byte>)
    requires |b| == 2
    ensures DecodeQuads(Encode(b)) == Some(b)
  {
    hide ToChar, FromChar, IsAlphabet, Sextet0, Sextet1, Sextet2, Byte0, Byte1;
    EqualsNotInAlphabet();
    CharRoundTrip(Sextet0(b[0]));
    CharRoundTrip(Sextet1(b[0], b[1]));
    CharRoundTrip(Sextet2(b[1], 0));
    Byte0Back(b[0], b[1]);
    Byte1Back(b[0], b[1], 0);
    assert b == [b[0], b[1]];
  }

  lemma DecodeNone()
    ensures DecodeQuads("") == Some([])
  {
  }

  lemma {:induction false} DecodeEncodeQuads(b: seq<byte>)
    ensures DecodeQuads(Encode(b)) == Some(b)
  {
    hide ToChar, FromChar, IsAlphabet, DecodeQuads;
    if b == [] {
      DecodeNone();
    } else if |b| == 1 {
      DecodeOne(b);
    } else if |b| == 2 {
      DecodeTwo(b);
    } else {
      DecodeGroup(b[0], b[1], b[2], Encode(b[3..]));
      DecodeEncodeQuads(b[3..]);
      assert b == [b[0], b[1], b[2]] + b[3..];
    }
  }

  lemma EqualsNotInAlphabet()
    ensures !IsAlphabet('=')
  {
  }

  /** Decoding what was encoded gives the bytes back. */
  lemma DecodeEncode(b: seq<byte>)
    ensures Decode(Encode(b)) == Some(b)
  {
    EncodedChars(b);
    StripKeeps(Encode(b));
    DecodeEncodeQuads(b);
  }

  lemma {:induction false} QuadChars(s: string)
    requires DecodeQuads(s).Some?
    ensures forall c :: c in s ==> IsEncodedChar(c)
  {
    if |s| > 4 {
      QuadChars(s[4..]);
      assert s == s[..4] + s[4..];
    }
  }

  lemma {:induction false} StripDrops(s: string, c: char)
    requires c in s && c != '\r' && c != '\n'
    ensures c in Strip(s)
  {
    if s[0] != c {
      assert c in s[1..];
      StripDrops(s[1..], c);
    }
  }

  /** Text that decodes is made of the alphabet, padding and line breaks. */
  lemma DecodableChars(s: string, c: char)
    requires Decode(s).Some? && c in s
    ensures IsEncodedChar(c) || c == '\r' || c == '\n'
  {
    if c != '\r' && c != '\n' {
      StripDrops(s, c);
      QuadChars(Strip(s));
    }
  }

  /** Groups of four, of which only the last may end in one or two padding characters. */
  predicate Grouped(s: string) {
    && |s| % 4 == 0
    && forall i :: 0 <= i < |s| ==>
      IsAlphabet(s[i]) || (s[i] == '=' && (i == |s| - 1 || (i == |s| - 2 && s[|s| - 1] == '=')))
  }

  /** Text decodes exactly when, line breaks aside, it is so grouped. */
  lemma DecodesIff(s: string)
    ensures Decode(s).Some? <==> Grouped(Strip(s))
  {
    QuadsIff(Strip(s));
  }

  lemma {:induction false} QuadsIff(s: string)
    ensures DecodeQuads(s).Some? <==> Grouped(s)
  {
    hide IsAlphabet, FromChar, Byte0, Byte1, Byte2;
    EqualsNotInAlphabet();
    if |s| > 4 {
      QuadsIff(s[4..]);
      assert forall i :: 4 <= i < |s| ==> s[i] == s[4..][i - 4];
    }
  }

  /** Test vectors of section 10 of RFC 4648, and the last two characters of the alphabet. */
  lemma TestVectors()
    ensures Encode([0x66]) == "Zg==" && Encode([0x66, 0x6f]) == "Zm8="
    ensures Encode([0x66, 0x6f, 0x6f]) == "Zm9v" && Encode([0xfb, 0xf0]) == "+/A="
  {
    var b: seq<byte> := [0x66, 0x6f, 0x6f];
    assert b[3..] == [];
  }
}
