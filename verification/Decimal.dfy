/** Decimal numerals: how the kernel prints a counter and how atol reads it back. */
module Decimal {
  import opened Words

  function Digit(d: nat): char
    requires d < 10
  {
    "0123456789"[d]
  }

  predicate IsDigit(c: char) {
    '0' <= c <= '9'
  }

  function DigitValue(c: char): nat
    requires IsDigit(c)
  {
    c as int - '0' as int
  }

  /** "%llu" of a counter, "%d" of a core number. */
  function Dec(n: nat): (s: string)
    ensures s != "" && forall c | c in s :: IsDigit(c)
  {
    if n < 10 then [Digit(n)] else Dec(n / 10) + [Digit(n % 10)]
  }

  /** The value of the digits at the front of `s`, after `acc` for the digits already read. */
  function Accumulate(s: string, acc: nat): nat {
    if s == "" || !IsDigit(s[0]) then acc
    else Accumulate(s[1..], 10 * acc + DigitValue(s[0]))
  }

  predicate IsSpace(c: char) {
    c == ' ' || '\t' <= c <= '\r'
  }

  function SkipSpace(s: string): string {
    if s != "" && IsSpace(s[0]) then SkipSpace(s[1..]) else s
  }

  /** atol: optional white space, optional sign, digits; out of range values stick at the ends of long. */
  function Atol(s: string): (v: int)
    ensures -LONG <= v < LONG
  {
    var t := SkipSpace(s);
    var negative := t != "" && t[0] == '-';
    var u := if t != "" && (t[0] == '-' || t[0] == '+') then t[1..] else t;
    var n := Accumulate(u, 0);
    if negative then (if n <= LONG then 0 - n else -LONG)
    else (if n < LONG then n else LONG - 1)
  }

  /** The conversion of a long to uint64_t. */
  function ToWord(v: int): Word
    requires -LONG <= v < LONG
  {
    if v < 0 then v + WORD else v
  }

  lemma {:induction false} AccumulateDec(n: nat, rest: string)
    ensures Accumulate(Dec(n) + rest, 0) == Accumulate(rest, n)
  {
    if n < 10 {
      assert (Dec(n) + rest)[1..] == rest;
    } else {
      var low := [Digit(n % 10)] + rest;
      assert Dec(n) + rest == Dec(n / 10) + low;
      AccumulateDec(n / 10, low);
      assert low[1..] == rest;
    }
  }

  /** atol inverts printing exactly below 2^63; a larger counter is read as 2^63 - 1. */
  lemma AtolDec(n: nat)
    ensures ToWord(Atol(Dec(n))) == if n < LONG then n else LONG - 1
  {
    AccumulateDec(n, "");
    assert Dec(n) + "" == Dec(n);
  }

  /** A printed counter survives being read exactly when it fits a signed long. */
  lemma RoundTripExactly(n: nat)
    ensures ToWord(Atol(Dec(n))) == n <==> n < LONG
  {
    AtolDec(n);
  }

  lemma DecInjective(m: nat, n: nat)
    requires Dec(m) == Dec(n)
    ensures m == n
  {
    AccumulateDec(m, "");
    AccumulateDec(n, "");
  }
}
