/** UTF-8 as in section 3 of RFC 3629: encoding, strict decoding, and decoding a cut-off prefix. */
module Utf8 {
  import opened Outcomes

  newtype byte = b: int | 0 <= b < 256
  type Bytes = seq<byte>

  function CharBytes(c: char): (n: nat)
    ensures 1 <= n <= 4
  {
    var v := c as int;
    if v < 0x80 then 1 else if v < 0x800 then 2 else if v < 0x1_0000 then 3 else 4
  }

  function EncodeChar(c: char): (bs: Bytes)
    ensures |bs| == CharBytes(c)
  {
    var v := c as int;
    if v < 0x80 then [v as byte]
    else if v < 0x800 then [(0xC0 + v / 64) as byte, (0x80 + v % 64) as byte]
    else if v < 0x1_0000 then [(0xE0 + v / 4096) as byte, (0x80 + v / 64 % 64) as byte, (0x80 + v % 64) as byte]
    else [(0xF0 + v / 262144) as byte, (0x80 + v / 4096 % 64) as byte,
          (0x80 + v / 64 % 64) as byte, (0x80 + v % 64) as byte]
  }

  /** `len(s.encode("utf-8"))` */
  function Length(s: string): nat {
    if s == "" then 0 else CharBytes(s[0]) + Length(s[1..])
  }

  function Encode(s: string): (bs: Bytes)
    ensures |bs| == Length(s)
  {
    if s == "" then [] else EncodeChar(s[0]) + Encode(s[1..])
  }

  predicate IsContinuation(b: byte) {
    0x80 <= b < 0xC0
  }

  predicate IsScalar(v: int) {
    0 <= v < 0xD800 || 0xE000 <= v < 0x11_0000
  }

  /** How many bytes a lead byte announces; 0 when no character starts with it. */
  function Announced(lead: byte): nat {
    if lead < 0x80 then 1 else if 0xC2 <= lead < 0xE0 then 2
    else if 0xE0 <= lead < 0xF0 then 3 else if 0xF0 <= lead < 0xF5 then 4 else 0
  }

  /** The value of one complete sequence, if it is well formed and not overlong. */
  function DecodeChar(bs: Bytes): (c: Option<char>)
    requires bs != [] && |bs| >= Announced(bs[0])
  {
    var n := Announced(bs[0]);
    if n == 0 || exists i | 1 <= i < n :: !IsContinuation(bs[i]) then None
    else
      var v := if n == 1 then bs[0] as int
               else if n == 2 then (bs[0] as int - 0xC0) * 64 + (bs[1] as int - 0x80)
               else if n == 3 then ((bs[0] as int - 0xE0) * 64 + (bs[1] as int - 0x80)) * 64 + (bs[2] as int - 0x80)
               else (((bs[0] as int - 0xF0) * 64 + (bs[1] as int - 0x80)) * 64 + (bs[2] as int - 0x80)) * 64
                    + (bs[3] as int - 0x80);
      if !IsScalar(v) || CharBytes(v as char) != n then None else Some(v as char)
  }

  /** Strict decoding: every byte belongs to a well-formed character. */
  function Decode(bs: Bytes): Option<string> {
    if bs == [] then Some("")
    else if Announced(bs[0]) == 0 || |bs| < Announced(bs[0]) || DecodeChar(bs) == None then None
    else match Decode(bs[Announced(bs[0])..])
      case None => None
      case Some(rest) => Some([DecodeChar(bs).value] + rest)
  }

  /** `raw[:n].decode("utf-8", "ignore")` on bytes cut from well-formed text: the complete
      characters, without the cut-off tail. */
  function DecodeCut(bs: Bytes): string {
    if bs == [] || Announced(bs[0]) == 0 || |bs| < Announced(bs[0]) || DecodeChar(bs) == None then ""
    else [DecodeChar(bs).value] + DecodeCut(bs[Announced(bs[0])..])
  }

  lemma SixBitDigits(v: nat)
    ensures v == v / 64 * 64 + v % 64
    ensures v / 64 == v / 4096 * 64 + v / 64 % 64
    ensures v / 4096 == v / 262144 * 64 + v / 4096 % 64
  {
  }

  lemma ShortRoundTrip(c: char, rest: Bytes)
    requires (c as int) < 0x800
    ensures var bs := EncodeChar(c) + rest; Announced(bs[0]) == CharBytes(c) && DecodeChar(bs) == Some(c)
  {
    var v, bs := c as int, EncodeChar(c) + rest;
    SixBitDigits(v);
    if v >= 0x80 { assert bs[0] as int == 0xC0 + v / 64 && bs[1] as int == 0x80 + v % 64; }
  }

  lemma ThreeByteRoundTrip(c: char, rest: Bytes)
    requires 0x800 <= c as int < 0x1_0000
    ensures var bs := EncodeChar(c) + rest; Announced(bs[0]) == CharBytes(c) && DecodeChar(bs) == Some(c)
  {
    var v, bs := c as int, EncodeChar(c) + rest;
    SixBitDigits(v);
    assert bs[0] as int == 0xE0 + v / 4096 && bs[1] as int == 0x80 + v / 64 % 64 && bs[2] as int == 0x80 + v % 64;
  }

  lemma FourByteRoundTrip(c: char, rest: Bytes)
    requires 0x1_0000 <= c as int
    ensures var bs := EncodeChar(c) + rest; Announced(bs[0]) == CharBytes(c) && DecodeChar(bs) == Some(c)
  {
    var v, bs := c as int, EncodeChar(c) + rest;
    SixBitDigits(v);
    assert bs[0] as int == 0xF0 + v / 262144 && bs[1] as int == 0x80 + v / 4096 % 64;
    assert bs[2] as int == 0x80 + v / 64 % 64 && bs[3] as int == 0x80 + v % 64;
  }

  lemma CharRoundTrip(c: char, rest: Bytes)
    ensures var bs := EncodeChar(c) + rest;
            Announced(bs[0]) == CharBytes(c) && DecodeChar(bs) == Some(c)
  {
    hide EncodeChar, Announced, DecodeChar, CharBytes;
    if (c as int) < 0x800 {
      ShortRoundTrip(c, rest);
    } else if (c as int) < 0x1_0000 {
      ThreeByteRoundTrip(c, rest);
    } else {
      FourByteRoundTrip(c, rest);
    }
  }

  /** Decoding undoes encoding, so distinct texts have distinct bytes. */
  lemma {:induction false} DecodeEncode(s: string)
    ensures Decode(Encode(s)) == Some(s)
  {
    if s != "" {
      CharRoundTrip(s[0], Encode(s[1..]));
      assert Encode(s)[CharBytes(s[0])..] == Encode(s[1..]);
      DecodeEncode(s[1..]);
      assert [s[0]] + s[1..] == s;
    }
  }

  /** A decoded character is encoded by the bytes it was read from. */
  lemma CharDecoded(bs: Bytes)
    requires bs != [] && |bs| >= Announced(bs[0]) && DecodeChar(bs).Some?
    ensures Announced(bs[0]) == CharBytes(DecodeChar(bs).value) && bs[..Announced(bs[0])] == EncodeChar(DecodeChar(bs).value)
  {
    var n := Announced(bs[0]);
    assert forall i | 1 <= i < n :: IsContinuation(bs[i]);
    if n == 1 {
    } else if n == 2 {
      TwoDigits(bs[0] as int - 0xC0, bs[1] as int - 0x80);
    } else if n == 3 {
      ThreeDigits(bs[0] as int - 0xE0, bs[1] as int - 0x80, bs[2] as int - 0x80);
    } else {
      FourDigits(bs[0] as int - 0xF0, bs[1] as int - 0x80, bs[2] as int - 0x80, bs[3] as int - 0x80);
    }
  }

  lemma TwoDigits(a: int, b: int)
    requires 0 <= a && 0 <= b < 64
    ensures (a * 64 + b) / 64 == a && (a * 64 + b) % 64 == b
  {
  }

  lemma ThreeDigits(a: int, b: int, c: int)
    requires 0 <= a && 0 <= b < 64 && 0 <= c < 64
    ensures var v := (a * 64 + b) * 64 + c; v / 4096 == a && v / 64 % 64 == b && v % 64 == c
  {
    TwoDigits(a * 64 + b, c);
    TwoDigits(a, b);
  }

  lemma FourDigits(a: int, b: int, c: int, d: int)
    requires 0 <= a && 0 <= b < 64 && 0 <= c < 64 && 0 <= d < 64
    ensures var v := ((a * 64 + b) * 64 + c) * 64 + d;
            v / 262144 == a && v / 4096 % 64 == b && v / 64 % 64 == c && v % 64 == d
  {
    TwoDigits((a * 64 + b) * 64 + c, d);
    ThreeDigits(a, b, c);
  }

  /** Strict decoding accepts exactly the encodings, and gives back what was encoded. */
  lemma {:induction false} DecodeIff(bs: Bytes, s: string)
    ensures Decode(bs) == Some(s) <==> bs == Encode(s)
    decreases |bs|
  {
    hide DecodeChar, EncodeChar, Announced;
    if bs == Encode(s) { DecodeEncode(s); }
    if Decode(bs) == Some(s) && bs != [] {
      var n := Announced(bs[0]);
      CharDecoded(bs);
      var c, rest := DecodeChar(bs).value, Decode(bs[n..]).value;
      DecodeIff(bs[n..], rest);
      assert s == [c] + rest && s[1..] == rest;
      assert bs == bs[..n] + bs[n..];
    }
  }

  /** A zero byte stands for nothing but NUL. */
  lemma {:induction false} ZeroBytes(s: string)
    ensures 0 in Encode(s) <==> (0 as char) in s
  {
    if s != "" { ZeroBytes(s[1..]); }
  }

  lemma EmptyBytes(s: string)
    ensures Encode(s) == [] <==> s == ""
  {
  }

  lemma EncodeInjective(a: string, b: string)
    requires Encode(a) == Encode(b)
    ensures a == b
  {
    DecodeEncode(a);
    DecodeEncode(b);
  }

  lemma {:induction false} LengthAppend(a: string, b: string)
    ensures Length(a + b) == Length(a) + Length(b)
  {
    if a == "" {
      assert a + b == b;
    } else {
      assert (a + b)[1..] == a[1..] + b;
      LengthAppend(a[1..], b);
    }
  }

  lemma {:induction false} LengthBounds(s: string)
    ensures |s| <= Length(s) <= 4 * |s|
  {
    if s != "" { LengthBounds(s[1..]); }
  }

  // ---------------------------------------------------------------- cutting text to a byte budget

  /** The longest prefix of whole characters within `n` bytes. */
  function Cut(s: string, n: nat): string {
    if s == "" || CharBytes(s[0]) > n then "" else [s[0]] + Cut(s[1..], n - CharBytes(s[0]))
  }

  lemma {:induction false} CutIsPrefix(s: string, n: nat)
    ensures Cut(s, n) <= s && Length(Cut(s, n)) <= n
    ensures Length(s) <= n ==> Cut(s, n) == s
  {
    if s != "" && CharBytes(s[0]) <= n {
      CutIsPrefix(s[1..], n - CharBytes(s[0]));
      assert ([s[0]] + Cut(s[1..], n - CharBytes(s[0])))[1..] == Cut(s[1..], n - CharBytes(s[0]));
      assert [s[0]] + s[1..] == s;
    }
  }

  /** No longer prefix of whole characters fits. */
  lemma {:induction false} CutIsLongest(s: string, n: nat, k: nat)
    requires k <= |s| && Length(s[..k]) <= n
    ensures k <= |Cut(s, n)|
  {
    if k > 0 {
      assert s[..k][1..] == s[1..][..k - 1];
      CutIsLongest(s[1..], n - CharBytes(s[0]), k - 1);
    }
  }

  lemma {:induction false} CutMonotone(s: string, m: nat, n: nat)
    requires m <= n
    ensures Cut(s, m) <= Cut(s, n)
  {
    if s != "" && CharBytes(s[0]) <= m {
      CutMonotone(s[1..], m - CharBytes(s[0]), n - CharBytes(s[0]));
    }
  }

  /** Slicing the bytes and decoding with the cut tail ignored is cutting the text. */
  lemma {:induction false} DecodeCutIsCut(s: string, n: nat)
    requires n <= Length(s)
    ensures DecodeCut(Encode(s)[..n]) == Cut(s, n)
  {
    hide EncodeChar, Announced, DecodeChar, CharBytes;
    if s != "" {
      var c, bs := s[0], Encode(s)[..n];
      var k := CharBytes(c);
      CharRoundTrip(c, Encode(s[1..]));
      if k <= n {
        assert bs[k..] == Encode(s[1..])[..n - k];
        CharRoundTrip(c, bs[k..]);
        assert bs == EncodeChar(c) + bs[k..];
        DecodeCutIsCut(s[1..], n - k);
      } else if n > 0 {
        assert bs[0] == Encode(s)[0];
      }
    }
  }
}
