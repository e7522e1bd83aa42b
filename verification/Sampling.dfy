/** Reading lines or messages into a table: the part that is the same for every statistics class. */
module Sampling {
  import opened Words
  import opened Snapshot

  /** The record a line (its tokens, or a message) stands for: one entry, or none when it is passed over. */
  type LineReader<!R> = R -> seq<Entry>

  ghost predicate Reads<R(!new)>(f: LineReader<R>, w: nat) {
    forall ts :: |f(ts)| <= 1 && forall e | e in f(ts) :: |e.vals| == w
  }

  function Entries<R>(f: LineReader<R>, rows: seq<R>): seq<Entry> {
    if rows == [] then [] else f(rows[0]) + Entries(f, rows[1..])
  }

  /** What reading the lines `rows` makes of a table and of a running uint16_t count of accepted lines. */
  function TableAfter<R>(f: LineReader<R>, v: View, rows: seq<R>): View {
    Overlay(v, Entries(f, rows))
  }

  function CountAfter<R>(f: LineReader<R>, count: nat, rows: seq<R>): nat {
    U16(count + |Entries(f, rows)|)
  }

  lemma TableStep<R>(f: LineReader<R>, v: View, rows: seq<R>)
    ensures TableAfter(f, v, rows) ==
      if rows == [] then v else TableAfter(f, Overlay(v, f(rows[0])), rows[1..])
  {
    if rows != [] {
      OverlayAppend(v, f(rows[0]), Entries(f, rows[1..]));
    }
  }

  lemma CountStep<R>(f: LineReader<R>, count: nat, rows: seq<R>)
    requires count < SHORT
    ensures CountAfter(f, count, rows) ==
      if rows == [] then count else CountAfter(f, U16(count + |f(rows[0])|), rows[1..])
  {
    if rows != [] {
      U16Add(count + |f(rows[0])|, |Entries(f, rows[1..])|);
    }
  }

  lemma {:induction false} EntriesSnoc<R>(f: LineReader<R>, rows: seq<R>, row: R)
    ensures Entries(f, rows + [row]) == Entries(f, rows) + f(row)
  {
    if rows == [] {
      assert Entries(f, [row]) == f(row) + Entries(f, []);
    } else {
      assert (rows + [row])[1..] == rows[1..] + [row];
      EntriesSnoc(f, rows[1..], row);
    }
  }

  lemma {:induction false} EntriesWide<R(!new)>(f: LineReader<R>, rows: seq<R>, w: nat)
    requires Reads(f, w)
    ensures forall i | 0 <= i < |Entries(f, rows)| :: |Entries(f, rows)[i].vals| == w
  {
    if rows != [] {
      EntriesWide(f, rows[1..], w);
      assert forall e | e in f(rows[0]) :: |e.vals| == w;
    }
  }

  /** A sample: what the file says, read into an empty table. */
  function SampleOf<R>(f: LineReader<R>, rows: seq<R>): View {
    TableAfter(f, map[], rows)
  }

  lemma SampleWide<R(!new)>(f: LineReader<R>, rows: seq<R>, w: nat)
    requires Reads(f, w)
    ensures Wide(SampleOf(f, rows), w)
  {
    EntriesWide(f, rows, w);
    OverlayWide(map[], Entries(f, rows), w);
  }

  lemma ReadIsOverride<R>(f: LineReader<R>, v: View, rows: seq<R>)
    ensures TableAfter(f, v, rows) == v + SampleOf(f, rows)
  {
    OverlayIsOverride(v, Entries(f, rows));
  }

  predicate Bears(es: seq<Entry>, n: string) {
    es != [] && es[0].name == n
  }

  /** The last line that is accepted and bears the name `n`; -1 if there is none. */
  function LastLine<R>(f: LineReader<R>, rows: seq<R>, n: string): (i: int)
    ensures -1 <= i < |rows|
    ensures 0 <= i ==> Bears(f(rows[i]), n)
    ensures forall j | i < j < |rows| :: !Bears(f(rows[j]), n)
    decreases |rows|
  {
    if rows == [] then -1
    else
      var k := |rows| - 1;
      if Bears(f(rows[k]), n) then k else LastLine(f, rows[..k], n)
  }

  /**
   * Reading touches exactly the names on accepted lines, leaves each holding the counters of its last
   * accepted line, and leaves every other entry unchanged.
   */
  lemma {:induction false} ReadsLastLine<R(!new)>(f: LineReader<R>, v: View, rows: seq<R>, n: string, w: nat)
    requires Reads(f, w)
    ensures n in TableAfter(f, v, rows) <==> n in v || LastLine(f, rows, n) >= 0
    ensures n in TableAfter(f, v, rows) ==>
      TableAfter(f, v, rows)[n] == if LastLine(f, rows, n) >= 0 then f(rows[LastLine(f, rows, n)])[0].vals else v[n]
    decreases |rows|
  {
    if rows != [] {
      var k := |rows| - 1;
      assert rows == rows[..k] + [rows[k]];
      ReadsLastLine(f, v, rows[..k], n, w);
      EntriesSnoc(f, rows[..k], rows[k]);
      OverlayAppend(v, Entries(f, rows[..k]), f(rows[k]));
      assert |f(rows[k])| <= 1;
    }
  }
}
