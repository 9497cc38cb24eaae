/**
 Standard base64 encoding (RFC 4648, section 4) of a byte string: what
 `base64.b64encode` produces, as the text of a `data:` URL.  Only the
 facts the rest of the model needs are proved: the length, the alphabet,
 and how many `=` pad characters end the text.
 */
module Base64 {
  import opened Types
  import opened PyStr

  /** A character of the base64 alphabet (never the pad `=`, never a comma). */
  predicate IsDigit(c: char) {
    'A' <= c <= 'Z' || 'a' <= c <= 'z' || '0' <= c <= '9' || c == '+' || c == '/'
  }

  /** The character for a 6-bit value, as in table 1 of RFC 4648. */
  function Digit(v: int): (c: char)
    requires 0 <= v < 64
    ensures IsDigit(c)
  {
    if v < 26 then ('A' as int + v) as char
    else if v < 52 then ('a' as int + v - 26) as char
    else if v < 62 then ('0' as int + v - 52) as char
    else if v == 62 then '+'
    else '/'
  }

  /** Four characters for three bytes. */
  function Quad(a: byte, b: byte, c: byte): (s: string)
    ensures |s| == 4 && forall i :: 0 <= i < 4 ==> IsDigit(s[i])
  {
    [Digit(a as int / 4),
     Digit((a as int % 4) * 16 + b as int / 16),
     Digit((b as int % 16) * 4 + c as int / 64),
     Digit(c as int % 64)]
  }

  /**
   The base64 text of `b`: four characters per three bytes, the last group
   padded with `=` when `|b|` is not a multiple of three.
   */
  function Encode(b: seq<byte>): (s: string)
    ensures |s| == 4 * ((|b| + 2) / 3)
    ensures forall i :: 0 <= i < |s| ==> IsDigit(s[i]) || s[i] == '='
    ensures ',' !in s
    decreases |b|
  {
    if |b| == 0 then ""
    else if |b| == 1 then
      [Digit(b[0] as int / 4), Digit((b[0] as int % 4) * 16), '=', '=']
    else if |b| == 2 then
      [Digit(b[0] as int / 4), Digit((b[0] as int % 4) * 16 + b[1] as int / 16),
       Digit((b[1] as int % 16) * 4), '=']
    else
      Quad(b[0], b[1], b[2]) + Encode(b[3..])
  }

  /** The last two characters of one padded final group, with its `=` count. */
  lemma PaddingOfTail(b: seq<byte>)
    requires 1 <= |b| <= 2
    ensures Count(LastN(Encode(b), 2), '=') == 3 - |b|
  {
    var s := Encode(b);
    assert LastN(s, 2) == s[2..];
    if |b| == 1 {
      assert s[2..] == "==";
    } else {
      assert IsDigit(s[2]) && s[3] == '=';
      assert s[2..] == [s[2]] + "=";
    }
  }

  /** A full group carries no padding. */
  lemma QuadUnpadded(a: byte, b: byte, c: byte)
    ensures Count(LastN(Quad(a, b, c), 2), '=') == 0
  {
    var q := Quad(a, b, c);
    assert LastN(q, 2) == [q[2], q[3]];
    assert IsDigit(q[2]) && IsDigit(q[3]);
  }

  lemma LastNOfConcat(p: string, s: string, n: nat)
    requires |s| >= n
    ensures LastN(p + s, n) == LastN(s, n)
  {
  }

  /** How many `=` end the text for `n` bytes: two, one or none, by `n` modulo three. */
  function Pad(n: nat): (p: nat)
    ensures p <= 2
    ensures 3 * ((n + 2) / 3) - p == n
  {
    if n == 0 then 0 else if n == 1 then 2 else if n == 2 then 1 else Pad(n - 3)
  }

  /** The last two characters hold one `=` per byte missing from the final group of three. */
  lemma {:induction false} Padding(b: seq<byte>)
    ensures Count(LastN(Encode(b), 2), '=') == Pad(|b|)
    decreases |b|
  {
    if |b| >= 3 {
      var q, rest := Quad(b[0], b[1], b[2]), Encode(b[3..]);
      assert Encode(b) == q + rest;
      if |rest| == 0 {
        assert q + rest == q;
        QuadUnpadded(b[0], b[1], b[2]);
      } else {
        Padding(b[3..]);
        LastNOfConcat(q, rest, 2);
      }
    } else if |b| > 0 {
      PaddingOfTail(b);
    }
  }
}
