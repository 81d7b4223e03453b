/** Hexadecimal numbers as text, as the stream manipulator `std::hex` prints them and `strtol` reads them. */
module Hexadecimal {

  predicate IsDigit(c: char) {
    '0' <= c <= '9' || 'a' <= c <= 'f' || 'A' <= c <= 'F'
  }

  function Digit(n: nat): (c: char)
    requires n < 16
    ensures IsDigit(c) && Value(c) == n
  {
    "0123456789abcdef"[n]
  }

  function Value(c: char): (n: nat)
    requires IsDigit(c)
    ensures n < 16
  {
    if c <= '9' then (c - '0') as nat else if c <= 'F' then 10 + (c - 'A') as nat else 10 + (c - 'a') as nat
  }

  /** Without leading zeros. */
  function Hex(n: nat): (s: string)
    ensures s != "" && forall i :: 0 <= i < |s| ==> IsDigit(s[i])
  {
    if n < 16 then [Digit(n)] else Hex(n / 16) + [Digit(n % 16)]
  }

  function Parse(s: string): nat
    requires forall i :: 0 <= i < |s| ==> IsDigit(s[i])
  {
    if s == "" then 0 else 16 * Parse(s[..|s| - 1]) + Value(s[|s| - 1])
  }

  lemma {:induction false} ParseHex(n: nat)
    ensures Parse(Hex(n)) == n
  {
    if n < 16 {
      assert Hex(n) == [Digit(n)] && Hex(n)[..0] == "";
    } else {
      ParseHex(n / 16);
      assert Hex(n)[..|Hex(n)| - 1] == Hex(n / 16);
    }
  }

  /** The digits before others count for more than all of them. */
  lemma {:induction false} ParseSplit(a: string, b: string)
    requires forall i :: 0 <= i < |a| ==> IsDigit(a[i])
    requires forall i :: 0 <= i < |b| ==> IsDigit(b[i])
    ensures forall i :: 0 <= i < |a + b| ==> IsDigit((a + b)[i])
    ensures Parse(a) == 0 ==> Parse(a + b) == Parse(b)
    ensures Parse(a) != 0 ==> Parse(b) < Parse(a + b)
    decreases |b|
  {
    if b == "" {
      assert a + b == a;
    } else {
      var n := |b| - 1;
      ParseSplit(a, b[..n]);
      assert (a + b)[..|a + b| - 1] == a + b[..n];
    }
  }

  /** A printed number does not begin with a zero, unless it is zero. */
  lemma {:induction false} NoLeadingZero(n: nat, k: nat)
    requires 0 < k < |Hex(n)|
    ensures Parse(Hex(n)[..k]) != 0
  {
    if 16 <= n {
      var h := Hex(n / 16);
      ParseHex(n / 16);
      if k == |h| {
        assert Hex(n)[..k] == h;
      } else {
        NoLeadingZero(n / 16, k);
        assert Hex(n)[..k] == h[..k];
      }
    }
  }

  /** The characters, by their ASCII codes: printed in lower case, read in either; the first digit counts for most. */
  lemma Codes(n: nat, c: char)
    ensures n < 16 ==> Hex(n) == [(if n < 10 then 48 + n else 87 + n) as char]
    ensures 16 <= n ==> Hex(n)[|Hex(n)| - 1..] == Hex(n % 16) && Hex(n)[..|Hex(n)| - 1] == Hex(n / 16)
    ensures IsDigit(c) <==> 48 <= c as int <= 57 || 65 <= c as int <= 70 || 97 <= c as int <= 102
    ensures IsDigit(c) ==> Value(c) == c as int - if c as int <= 57 then 48 else if c as int <= 70 then 55 else 87
  {
  }
}
