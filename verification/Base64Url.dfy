/**
 Unpadded base64url (section 5 of RFC 4648) as the broker's encoder writes it and as its lenient
 decoder reads it: line breaks are skipped and the spare bits of a final group are ignored.
 A byte string is a string whose characters are all below 256.
 */
module Base64Url {
  import opened Text

  predicate IsBytes(s: string) {
    forall i :: 0 <= i < |s| ==> s[i] as int < 256
  }

  function DigitOf(v: int): (c: char)
    requires 0 <= v < 64
    ensures ValueOf(c) == Some(v)
    ensures c != '.' && c != '\r' && c != '\n'
  {
    if v < 26 then ('A' as int + v) as char
    else if v < 52 then ('a' as int + v - 26) as char
    else if v < 62 then ('0' as int + v - 52) as char
    else if v == 62 then '-' else '_'
  }

  function ValueOf(c: char): (v: Option<int>)
    ensures v.Some? ==> 0 <= v.value < 64
  {
    if 'A' <= c <= 'Z' then Some(c as int - 'A' as int)
    else if 'a' <= c <= 'z' then Some(c as int - 'a' as int + 26)
    else if '0' <= c <= '9' then Some(c as int - '0' as int + 52)
    else if c == '-' then Some(62)
    else if c == '_' then Some(63)
    else None
  }

  predicate SafeText(s: string) {
    '.' !in s && '\r' !in s && '\n' !in s
  }

  function Encode(s: string): (e: string)
    requires IsBytes(s)
    ensures SafeText(e)
  {
    if s == "" then ""
    else if |s| == 1 then Quad(s[0] as int, 0, 0)[..2]
    else if |s| == 2 then Quad(s[0] as int, s[1] as int, 0)[..3]
    else Quad(s[0] as int, s[1] as int, s[2] as int) + Encode(s[3..])
  }

  /** Three bytes as four digits. */
  function Quad(a: int, b: int, c: int): (e: string)
    requires 0 <= a < 256 && 0 <= b < 256 && 0 <= c < 256
    ensures SafeText(e)
  {
    [DigitOf(a / 4), DigitOf(a % 4 * 16 + b / 16), DigitOf(b % 16 * 4 + c / 64), DigitOf(c % 64)]
  }

  // The three bytes that four digits spell.

  function First(p: int, q: int): (b: int)
    requires 0 <= p < 64 && 0 <= q < 64
    ensures 0 <= b < 256
  {
    p * 4 + q / 16
  }

  function Second(q: int, r: int): (b: int)
    requires 0 <= q < 64 && 0 <= r < 64
    ensures 0 <= b < 256
  {
    q % 16 * 16 + r / 4
  }

  function Third(r: int, t: int): (b: int)
    requires 0 <= r < 64 && 0 <= t < 64
    ensures 0 <= b < 256
  {
    r % 4 * 64 + t
  }

  function DropLineBreaks(s: string): string {
    if s == "" then ""
    else if s[0] == '\r' || s[0] == '\n' then DropLineBreaks(s[1..])
    else [s[0]] + DropLineBreaks(s[1..])
  }

  function DecodeDigits(s: string): (d: Option<string>)
    ensures d.Some? ==> IsBytes(d.value)
  {
    if s == "" then Some("")
    else if |s| == 1 then None
    else
      var p, q := ValueOf(s[0]), ValueOf(s[1]);
      if p.None? || q.None? then None
      else
        var b0 := First(p.value, q.value) as char;
        if |s| == 2 then Some([b0])
        else
          var r := ValueOf(s[2]);
          if r.None? then None
          else
            var b1 := Second(q.value, r.value) as char;
            if |s| == 3 then Some([b0, b1])
            else
              var t := ValueOf(s[3]);
              var rest := DecodeDigits(s[4..]);
              if t.None? || rest.None? then None
              else Some([b0, b1, Third(r.value, t.value) as char] + rest.value)
  }

  function Decode(s: string): (d: Option<string>)
    ensures d.Some? ==> IsBytes(d.value)
  {
    DecodeDigits(DropLineBreaks(s))
  }

  /** Three bytes cut into four digits come back together. */
  lemma Regroup(a: int, b: int, c: int)
    requires 0 <= a < 256 && 0 <= b < 256 && 0 <= c < 256
    ensures First(a / 4, a % 4 * 16 + b / 16) == a
    ensures Second(a % 4 * 16 + b / 16, b % 16 * 4 + c / 64) == b
    ensures Third(b % 16 * 4 + c / 64, c % 64) == c
  {
  }

  lemma DecodeFour(p: int, q: int, r: int, t: int, e: string, a: int, b: int, c: int)
    requires 0 <= p < 64 && 0 <= q < 64 && 0 <= r < 64 && 0 <= t < 64
    requires First(p, q) == a && Second(q, r) == b && Third(r, t) == c
    requires DecodeDigits(e).Some?
    ensures DecodeDigits([DigitOf(p), DigitOf(q), DigitOf(r), DigitOf(t)] + e)
         == Some([a as char, b as char, c as char] + DecodeDigits(e).value)
  {
    var s := [DigitOf(p), DigitOf(q), DigitOf(r), DigitOf(t)] + e;
    assert s[4..] == e;
    assert s[0] == DigitOf(p) && s[1] == DigitOf(q) && s[2] == DigitOf(r) && s[3] == DigitOf(t);
  }

  lemma DecodeQuad(a: int, b: int, c: int, e: string)
    requires 0 <= a < 256 && 0 <= b < 256 && 0 <= c < 256
    requires DecodeDigits(e).Some?
    ensures DecodeDigits(Quad(a, b, c) + e) == Some([a as char, b as char, c as char] + DecodeDigits(e).value)
  {
    Regroup(a, b, c);
    DecodeFour(a / 4, a % 4 * 16 + b / 16, b % 16 * 4 + c / 64, c % 64, e, a, b, c);
  }

  /** A final group of one or two bytes drops the digits that carry none of them. */
  lemma DecodeCut(p: int, q: int, r: int, t: int)
    requires 0 <= p < 64 && 0 <= q < 64 && 0 <= r < 64 && 0 <= t < 64
    ensures var e := [DigitOf(p), DigitOf(q), DigitOf(r), DigitOf(t)];
            && DecodeDigits(e[..2]) == Some([First(p, q) as char])
            && DecodeDigits(e[..3]) == Some([First(p, q) as char, Second(q, r) as char])
  {
  }

  lemma DecodeQuadCut(a: int, b: int, c: int)
    requires 0 <= a < 256 && 0 <= b < 256 && 0 <= c < 256
    ensures DecodeDigits(Quad(a, b, c)[..2]) == Some([a as char])
    ensures DecodeDigits(Quad(a, b, c)[..3]) == Some([a as char, b as char])
  {
    Regroup(a, b, c);
    DecodeCut(a / 4, a % 4 * 16 + b / 16, b % 16 * 4 + c / 64, c % 64);
  }

  lemma {:induction false} DecodeDigitsEncode(s: string)
    requires IsBytes(s)
    ensures DecodeDigits(Encode(s)) == Some(s)
  {
    if |s| == 1 {
      DecodeQuadCut(s[0] as int, 0, 0);
      assert s == [s[0]];
    } else if |s| == 2 {
      DecodeQuadCut(s[0] as int, s[1] as int, 0);
      assert s == [s[0], s[1]];
    } else if |s| >= 3 {
      var rest := s[3..];
      assert s == [s[0], s[1], s[2]] + rest;
      DecodeDigitsEncode(rest);
      DecodeQuad(s[0] as int, s[1] as int, s[2] as int, Encode(rest));
    }
  }

  lemma {:induction false} NoBreaksToDrop(s: string)
    requires '\r' !in s && '\n' !in s
    ensures DropLineBreaks(s) == s
  {
    if s != "" {
      NoBreaksToDrop(s[1..]);
      assert s[0] in s && s == [s[0]] + s[1..];
    }
  }

  /** Decoding undoes encoding on every byte string. */
  lemma RoundTrip(s: string)
    requires IsBytes(s)
    ensures Decode(Encode(s)) == Some(s)
  {
    NoBreaksToDrop(Encode(s));
    DecodeDigitsEncode(s);
  }

  /** The digits are the alphabet of section 5 of RFC 4648, and nothing else is one. */
  lemma Alphabet(v: int, c: char)
    requires 0 <= v < 64
    ensures v < 26 ==> DigitOf(v) == "ABCDEFGHIJKLMNOPQRSTUVWXYZ"[v]
    ensures 26 <= v < 52 ==> DigitOf(v) == "abcdefghijklmnopqrstuvwxyz"[v - 26]
    ensures 52 <= v < 62 ==> DigitOf(v) == "0123456789"[v - 52]
    ensures DigitOf(62) == '-' && DigitOf(63) == '_'
    ensures ValueOf(c).Some? ==> DigitOf(ValueOf(c).value) == c
  {
  }

  lemma {:induction false} DropAppends(a: string, b: string)
    ensures DropLineBreaks(a + b) == DropLineBreaks(a) + DropLineBreaks(b)
  {
    if a == "" {
      assert a + b == b;
    } else {
      assert (a + b)[1..] == a[1..] + b;
      DropAppends(a[1..], b);
    }
  }

  /** A line break anywhere makes no difference. */
  lemma BreaksAreIgnored(a: string, b: string)
    ensures Decode(a + "\n" + b) == Decode(a + b) == Decode(a + "\r" + b)
  {
    DropAppends(a, b);
    DropAppends(a + "\n", b);
    DropAppends(a, "\n");
    DropAppends(a + "\r", b);
    DropAppends(a, "\r");
    assert DropLineBreaks("\n") == DropLineBreaks("\n"[1..]) == DropLineBreaks("") == "";
    assert DropLineBreaks("\r") == DropLineBreaks("\r"[1..]) == DropLineBreaks("") == "";
    assert DropLineBreaks(a) + "" == DropLineBreaks(a);
  }

  /** The spare bits of a final group of two digits make no difference. */
  lemma SpareBitsAreIgnored(p: int, q: int)
    requires 0 <= p < 64 && 0 <= q < 64
    ensures Decode([DigitOf(p), DigitOf(q)]) == Some([(p * 4 + q / 16) as char])
  {
    NoBreaksToDrop([DigitOf(p), DigitOf(q)]);
  }
}
