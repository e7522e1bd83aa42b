/** Files written line by line, as the kernel writes them, and what reading gives back of them. */
module Printing {
  import opened Parsing
  import opened Splitting
  import opened Snapshot
  import opened Sampling

  /** A line: its tokens, and the blanks before, between and after them. */
  datatype Printed = Printed(tokens: seq<string>, gaps: seq<string>)

  predicate Written(p: Printed) {
    && |p.gaps| == |p.tokens| + 1
    && (forall g | g in p.gaps :: Blank(g))
    && (forall t | t in p.tokens :: IsToken(t) && IsLine(t))
    && (forall k | 1 <= k < |p.gaps| :: Closes(p.gaps[k], k == |p.tokens|))
  }

  predicate AllWritten(ps: seq<Printed>) {
    forall i | 0 <= i < |ps| :: Written(ps[i])
  }

  function LinesOf(ps: seq<Printed>): seq<string>
    requires AllWritten(ps)
  {
    if ps == [] then [] else [Weave(ps[0].gaps, ps[0].tokens)] + LinesOf(ps[1..])
  }

  /** Lines of any kind, then written ones. */
  function Text(heads: seq<string>, ps: seq<Printed>): string
    requires AllWritten(ps)
  {
    PrintLines(heads + LinesOf(ps))
  }

  function TokensOf(ps: seq<Printed>): seq<seq<string>> {
    seq(|ps|, i requires 0 <= i < |ps| => ps[i].tokens)
  }

  lemma WrittenLine(p: Printed)
    requires Written(p)
    ensures IsLine(Weave(p.gaps, p.tokens)) && Tokens(Weave(p.gaps, p.tokens)) == p.tokens
  {
    WeaveIsLine(p.gaps, p.tokens);
    TokensOfWeave(Weave(p.gaps, p.tokens), p.gaps, p.tokens);
  }

  lemma {:induction false} LinesReadBack(ps: seq<Printed>)
    requires AllWritten(ps)
    ensures forall l | l in LinesOf(ps) :: IsLine(l)
    ensures TokensOfLines(LinesOf(ps)) == TokensOf(ps)
  {
    if ps != [] {
      WrittenLine(ps[0]);
      LinesReadBack(ps[1..]);
      assert TokensOf(ps) == [ps[0].tokens] + TokensOf(ps[1..]);
    }
  }

  lemma {:induction false} TokensOfBoth(heads: seq<string>, lines: seq<string>)
    ensures TokensOfLines(heads + lines) == TokensOfLines(heads) + TokensOfLines(lines)
    ensures |TokensOfLines(heads)| == |heads|
  {
    if heads == [] {
      assert heads + lines == lines;
    } else {
      assert (heads + lines)[1..] == heads[1..] + lines;
      TokensOfBoth(heads[1..], lines);
    }
  }

  /** Behind the first lines, whatever they are, every line read has the tokens that were written. */
  lemma TextReadsBack(heads: seq<string>, ps: seq<Printed>)
    requires AllWritten(ps) && forall l | l in heads :: IsLine(l)
    ensures |Rows(Text(heads, ps))| == |heads| + |ps|
    ensures Rows(Text(heads, ps))[|heads|..] == TokensOf(ps)
  {
    LinesReadBack(ps);
    RowsOfLines(heads + LinesOf(ps));
    TokensOfBoth(heads, LinesOf(ps));
  }

  /** When every line is a record of its own, reading gives one entry per line. */
  lemma {:induction false} EntriesOne(f: LineReader<seq<string>>, rows: seq<seq<string>>)
    requires forall i | 0 <= i < |rows| :: |f(rows[i])| == 1
    ensures |Entries(f, rows)| == |rows| && forall i | 0 <= i < |rows| :: Entries(f, rows)[i] == f(rows[i])[0]
  {
    if rows != [] {
      EntriesOne(f, rows[1..]);
    }
  }
}
