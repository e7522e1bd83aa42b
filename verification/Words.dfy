/** Unsigned 64-bit counters, written out on unbounded integers, and rows of such counters. */
module Words {

  /** 2^64: every counter of the program is a uint64_t. */
  const WORD: int := 0x1_0000_0000_0000_0000

  /** 2^63: the first value a (signed) long cannot hold. */
  const LONG: int := 0x8000_0000_0000_0000

  /** 2^16: rows, heights and line counts are uint16_t. */
  const SHORT: nat := 0x1_0000

  type Word = x: int | 0 <= x < WORD

  /** Unsigned subtraction: wraps below zero. */
  function Sub(a: Word, b: Word): Word {
    if b <= a then a - b else a - b + WORD
  }

  /** Unsigned addition: wraps at 2^64. */
  function Add(a: Word, b: Word): Word {
    if a + b < WORD then a + b else a + b - WORD
  }

  /** The counters of one record, in the order of the record's declaration. */
  type Row = seq<Word>

  function RowSub(newer: Row, older: Row): (r: Row)
    requires |newer| == |older|
  {
    seq(|newer|, i requires 0 <= i < |newer| => Sub(newer[i], older[i]))
  }

  function RowAdd(a: Row, b: Row): (r: Row)
    requires |a| == |b|
  {
    seq(|a|, i requires 0 <= i < |a| => Add(a[i], b[i]))
  }

  /** Wrap-around subtraction and addition are subtraction and addition modulo 2^64. */
  lemma WrapIsModular(a: Word, b: Word)
    ensures Sub(a, b) == (a - b) % WORD
    ensures Add(a, b) == (a + b) % WORD
  {
  }

  /** Subtracting sums is summing differences, whatever wraps on the way. */
  lemma SubOfAdds(a: Word, b: Word, c: Word, d: Word)
    ensures Sub(Add(a, b), Add(c, d)) == Add(Sub(a, c), Sub(b, d))
  {
  }

  lemma ShiftIsZero(a: Word, r: Word, b: Word)
    ensures Sub(a, b) == Sub(Add(a, r), b) <==> r == 0
  {
  }

  lemma SubSwaps(x: Word, y: Word, z: Word, w: Word)
    ensures Sub(x, y) == Sub(z, w) <==> Sub(x, z) == Sub(y, w)
  {
  }

  /** What a uint16_t holds of a count. */
  function U16(n: nat): (r: nat)
    ensures r < SHORT && (n < SHORT ==> r == n)
  {
    if n < SHORT then n else U16(n - SHORT)
  }

  lemma {:induction false} U16IsModular(n: nat)
    ensures U16(n) == n % SHORT
  {
    if n >= SHORT {
      U16IsModular(n - SHORT);
    }
  }

  /** Counting on from a wrapped count gives the wrapped total. */
  lemma {:induction false} U16Add(n: nat, k: nat)
    ensures U16(U16(n) + k) == U16(n + k)
  {
    if n >= SHORT {
      U16Add(n - SHORT, k);
    }
  }

  lemma {:induction false} WholeTurns(x: int, turns: nat)
    ensures (x + WORD * turns) % WORD == x % WORD
  {
    if turns > 0 {
      WholeTurns(x, turns - 1);
      assert x + WORD * turns == x + WORD * (turns - 1) + WORD;
    }
  }
}
