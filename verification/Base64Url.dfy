/** Base64 with the URL- and filename-safe alphabet (section 5 of RFC 4648), with or without padding. */
module Base64Url {
  import opened Wrappers

  /** A std::string: characters are bytes. */
  predicate IsBytes(s: string) { forall i :: 0 <= i < |s| ==> (s[i] as int) < 256 }

  predicate InAlphabet(c: char) {
    'A' <= c <= 'Z' || 'a' <= c <= 'z' || '0' <= c <= '9' || c == '-' || c == '_'
  }

  function Digit(n: int): (c: char)
    requires 0 <= n < 64
    ensures InAlphabet(c) && DigitValue(c) == n
  {
    if n < 26 then 'A' + n as char
    else if n < 52 then 'a' + (n - 26) as char
    else if n < 62 then '0' + (n - 52) as char
    else if n == 62 then '-'
    else '_'
  }

  function DigitValue(c: char): (n: int)
    requires InAlphabet(c)
    ensures 0 <= n < 64
  {
    if c <= 'Z' && 'A' <= c then (c - 'A') as int
    else if 'a' <= c then (c - 'a') as int + 26
    else if '0' <= c && c <= '9' then (c - '0') as int + 52
    else if c == '-' then 62
    else 63
  }

  /** Three bytes as four digits; missing bytes count as zero. */
  function Group(a: int, b: int, c: int): (r: string)
    requires 0 <= a < 256 && 0 <= b < 256 && 0 <= c < 256
    ensures |r| == 4 && forall i :: 0 <= i < 4 ==> InAlphabet(r[i])
  {
    [Digit(a / 4), Digit(a % 4 * 16 + b / 16), Digit(b % 16 * 4 + c / 64), Digit(c % 64)]
  }

  function Encode(s: string, pad: bool): string
    requires IsBytes(s)
  {
    if s == "" then ""
    else if |s| == 1 then Group(s[0] as int, 0, 0)[..2] + (if pad then "==" else "")
    else if |s| == 2 then Group(s[0] as int, s[1] as int, 0)[..3] + (if pad then "=" else "")
    else Group(s[0] as int, s[1] as int, s[2] as int) + Encode(s[3..], pad)
  }

  function Byte(n: int): char
    requires 0 <= n < 256
  {
    n as char
  }

  /** The bytes of two, three or four digits. */
  function Ungroup(t: string): (r: string)
    requires 2 <= |t| <= 4 && forall i :: 0 <= i < |t| ==> InAlphabet(t[i])
    ensures |r| == |t| - 1 && IsBytes(r)
  {
    var d0, d1 := DigitValue(t[0]), DigitValue(t[1]);
    [Byte(d0 * 4 + d1 / 16)] +
    (if |t| == 2 then []
     else
       var d2 := DigitValue(t[2]);
       [Byte(d1 % 16 * 16 + d2 / 4)] +
       (if |t| == 3 then [] else [Byte(d2 % 4 * 64 + DigitValue(t[3]))]))
  }

  predicate AllInAlphabet(t: string) { forall i :: 0 <= i < |t| ==> InAlphabet(t[i]) }

  /** Decodes padded and unpadded text; None is the library's exception. */
  function Decode(t: string): Option<string> {
    if t == "" then Some("")
    else if |t| >= 4 && AllInAlphabet(t[..4]) then
      var rest :- Decode(t[4..]);
      Some(Ungroup(t[..4]) + rest)
    else if (|t| == 2 || |t| == 3) && AllInAlphabet(t) then Some(Ungroup(t))
    else if |t| == 4 && AllInAlphabet(t[..3]) && t[3] == '=' then Some(Ungroup(t[..3]))
    else if |t| == 4 && AllInAlphabet(t[..2]) && t[2..] == "==" then Some(Ungroup(t[..2]))
    else None
  }

  lemma UngroupGroup(a: int, b: int, c: int)
    requires 0 <= a < 256 && 0 <= b < 256 && 0 <= c < 256
    ensures Ungroup(Group(a, b, c)) == [Byte(a), Byte(b), Byte(c)]
    ensures c == 0 ==> Ungroup(Group(a, b, c)[..3]) == [Byte(a), Byte(b)]
    ensures b == c == 0 ==> Ungroup(Group(a, b, c)[..2]) == [Byte(a)]
  {
    hide DigitValue, Digit, InAlphabet;
    var d1, d2 := a % 4 * 16 + b / 16, b % 16 * 4 + c / 64;
    assert d1 / 16 == a % 4 && d1 % 16 == b / 16;
    assert d2 / 4 == b % 16 && d2 % 4 == c / 64;
  }

  lemma ByteOf(c: char)
    requires (c as int) < 256
    ensures Byte(c as int) == c
  {
  }

  /** Decoding an encoded string gives it back, padded or not. */
  lemma {:induction false} DecodeEncode(s: string, pad: bool)
    requires IsBytes(s)
    ensures Decode(Encode(s, pad)) == Some(s)
  {
    hide Group, Ungroup, InAlphabet, Byte;
    var t := Encode(s, pad);
    if s == "" {
    } else if |s| == 1 {
      UngroupGroup(s[0] as int, 0, 0);
      ByteOf(s[0]);
      var g := Group(s[0] as int, 0, 0)[..2];
      EqualsNotInAlphabet();
      assert t == if pad then g + "==" else g;
      assert (g + "==")[..2] == g && (g + "==")[2..] == "==" && g[..2] == g;
      assert s == [s[0]];
      assert pad ==> t[..4][2] == '=' && t[..3][2] == '=';
    } else if |s| == 2 {
      UngroupGroup(s[0] as int, s[1] as int, 0);
      ByteOf(s[0]);
      ByteOf(s[1]);
      var g := Group(s[0] as int, s[1] as int, 0)[..3];
      EqualsNotInAlphabet();
      assert t == if pad then g + "=" else g;
      assert (g + "=")[..3] == g && (g + "=")[3] == '=';
      assert pad ==> t[..4][3] == '=';
      assert s == [s[0], s[1]];
    } else {
      UngroupGroup(s[0] as int, s[1] as int, s[2] as int);
      ByteOf(s[0]);
      ByteOf(s[1]);
      ByteOf(s[2]);
      DecodeEncode(s[3..], pad);
      var g := Group(s[0] as int, s[1] as int, s[2] as int);
      assert t[..4] == g && t[4..] == Encode(s[3..], pad);
      assert s == [s[0], s[1], s[2]] + s[3..];
    }
  }

  lemma EqualsNotInAlphabet()
    ensures !InAlphabet('=') && !InAlphabet('.')
  {
  }

  /** No encoded text has a dot in it. */
  lemma {:induction false} EncodeHasNoDot(s: string, pad: bool)
    requires IsBytes(s)
    ensures forall i :: 0 <= i < |Encode(s, pad)| ==> Encode(s, pad)[i] != '.'
  {
    hide Group, InAlphabet;
    EqualsNotInAlphabet();
    if |s| > 2 { EncodeHasNoDot(s[3..], pad); }
  }

  /** The ends of the ranges of the alphabet (table 2 of RFC 4648). */
  lemma Alphabet()
    ensures Digit(0) == 'A' && Digit(25) == 'Z' && Digit(26) == 'a' && Digit(51) == 'z'
    ensures Digit(52) == '0' && Digit(61) == '9' && Digit(62) == '-' && Digit(63) == '_'
  {
  }

  /** Four digits hold the 24 bits of three bytes, high bits first (section 4 of RFC 4648). */
  lemma Bits(a: int, b: int, c: int)
    requires 0 <= a < 256 && 0 <= b < 256 && 0 <= c < 256
    ensures var g := Group(a, b, c);
      ((DigitValue(g[0]) * 64 + DigitValue(g[1])) * 64 + DigitValue(g[2])) * 64 + DigitValue(g[3])
      == (a * 256 + b) * 256 + c
  {
    hide DigitValue, Digit, InAlphabet;
  }
}
