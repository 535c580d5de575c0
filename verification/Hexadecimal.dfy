/** Hexadecimal text, as digests are written. */
module Hexadecimal {
  predicate IsHex(c: char) {
    '0' <= c <= '9' || 'a' <= c <= 'f'
  }

  function HexDigit(n: nat): (c: char)
    ensures IsHex(c)
  {
    var d := n % 16;
    if d < 10 then (d + '0' as int) as char else (d - 10 + 'a' as int) as char
  }

  predicate IsSha1(s: string) {
    |s| == 40 && forall i :: 0 <= i < 40 ==> IsHex(s[i])
  }

  predicate IsSha256(s: string) {
    |s| == 64 && forall i :: 0 <= i < 64 ==> IsHex(s[i])
  }
}
