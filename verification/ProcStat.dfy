/** Printing a /proc/stat file and reading it back with Processor::read. */
module ProcStat {
  import opened Words
  import opened Parsing
  import opened Splitting
  import opened Sampling
  import opened Snapshot
  import opened LinuxProcessor

  /** A line of the file: a CPU record with the blanks between its tokens, or anything else. */
  datatype Item = Cpu(name: string, ticks: seq<nat>, gaps: seq<string>) | Other(line: string)

  function Fields(i: Item): seq<string>
    requires i.Cpu?
  {
    [i.name] + Decs(i.ticks)
  }

  predicate Printable(i: Item) {
    match i
    case Cpu(name, ticks, gaps) =>
      && "cpu" <= name && IsToken(name) && IsLine(name)
      && |ticks| >= WIDTH && |gaps| == |ticks| + 2
      && (forall g | g in gaps :: Blank(g))
      && (forall k | 1 <= k < |gaps| :: Closes(gaps[k], k == |ticks| + 1))
    case Other(line) =>
      IsLine(line) && Tokens(line) != [] && !("cpu" <= Tokens(line)[0])
  }

  function LineOf(i: Item): string
    requires Printable(i)
  {
    match i
    case Cpu(name, ticks, gaps) =>
      DecsAreTokens(ticks);
      Weave(gaps, Fields(i))
    case Other(line) => line
  }

  function Lines(items: seq<Item>): seq<string>
    requires forall i | i in items :: Printable(i)
  {
    if items == [] then [] else [LineOf(items[0])] + Lines(items[1..])
  }

  function File(items: seq<Item>): string
    requires forall i | i in items :: Printable(i)
  {
    PrintLines(Lines(items))
  }

  /** The counters as read back; further numbers on the line are not looked at. */
  function Clamped(ticks: seq<nat>): (r: Row)
    requires |ticks| >= WIDTH
  {
    [Clamp(ticks[0]), Clamp(ticks[1]), Clamp(ticks[2]), Clamp(ticks[3]),
     Clamp(ticks[4]), Clamp(ticks[5]), Clamp(ticks[6])]
  }

  function Records(items: seq<Item>): seq<Entry>
    requires forall i | i in items :: Printable(i)
  {
    if items == [] then []
    else
      assert Printable(items[0]);
      (if items[0].Cpu? then [Entry(items[0].name, Clamped(items[0].ticks))] else []) + Records(items[1..])
  }

  lemma LineReadsBack(i: Item)
    requires Printable(i)
    ensures IsLine(LineOf(i)) && Tokens(LineOf(i)) != []
    ensures LineEntry(Tokens(LineOf(i))) == if i.Cpu? then [Entry(i.name, Clamped(i.ticks))] else []
  {
    if i.Cpu? {
      DecsAreTokens(i.ticks);
      WeaveIsLine(i.gaps, Fields(i));
      TokensOfWeave(LineOf(i), i.gaps, Fields(i));
      CountersOfDecs(i.name, i.ticks);
    }
  }

  lemma CountersOfDecs(name: string, ticks: seq<nat>)
    requires |ticks| >= WIDTH
    ensures Counters([name] + Decs(ticks)) == Clamped(ticks)
  {
    hide Num, Clamp, Decs, Counters, Clamped;
    var ts := [name] + Decs(ticks);
    CounterOfDecs(name, ticks, 0);
    CounterOfDecs(name, ticks, 1);
    CounterOfDecs(name, ticks, 2);
    CounterOfDecs(name, ticks, 3);
    CounterOfDecs(name, ticks, 4);
    CounterOfDecs(name, ticks, 5);
    CounterOfDecs(name, ticks, 6);
    CountersAre(ts, ticks);
  }

  lemma CountersAre(ts: seq<string>, ticks: seq<nat>)
    requires |ticks| >= WIDTH
    requires Num(ts, 1) == Clamp(ticks[0]) && Num(ts, 2) == Clamp(ticks[1]) && Num(ts, 3) == Clamp(ticks[2])
    requires Num(ts, 4) == Clamp(ticks[3]) && Num(ts, 5) == Clamp(ticks[4]) && Num(ts, 6) == Clamp(ticks[5])
    requires Num(ts, 7) == Clamp(ticks[6])
    ensures Counters(ts) == Clamped(ticks)
  {
    hide Num, Clamp;
  }

  lemma CounterOfDecs(name: string, ticks: seq<nat>, k: nat)
    requires k < |ticks|
    ensures Num([name] + Decs(ticks), k + 1) == Clamp(ticks[k])
  {
    NumOfDecs([name], ticks, k);
  }

  lemma {:induction false} FileReadsBack(items: seq<Item>)
    requires forall i | i in items :: Printable(i)
    ensures forall l | l in Lines(items) :: IsLine(l)
    ensures NoBlankLine(TokensOfLines(Lines(items)))
    ensures Entries(LineEntry, TokensOfLines(Lines(items))) == Records(items)
  {
    if items != [] {
      LineReadsBack(items[0]);
      FileReadsBack(items[1..]);
    }
  }

  /**
   * The round trip: whatever else the file holds and however its lines are spaced, reading it into an
   * empty table rebuilds exactly the records printed, and counts them.
   */
  lemma RoundTrip(items: seq<Item>)
    requires forall i | i in items :: Printable(i)
    requires DistinctNames(Records(items))
    ensures Readable(File(items))
    ensures var v, es := Sample(File(items)), Records(items);
      && v.Keys == (set e | e in es :: e.name)
      && (forall k | 0 <= k < |es| :: es[k].name in v && v[es[k].name] == es[k].vals)
    ensures CountAfter(LineEntry, 0, Rows(File(items))) == U16(|Records(items)|)
  {
    FileReadsBack(items);
    RowsOfLines(Lines(items));
    DistinctLinesRebuilt(Records(items));
  }

  /** The record read back is the record printed if and only if every counter is below 2^63. */
  lemma FaithfulBelowLong(ticks: seq<nat>)
    requires |ticks| >= WIDTH
    ensures Clamped(ticks) == ticks[..WIDTH] <==> forall k | 0 <= k < WIDTH :: ticks[k] < LONG
  {
    var r := Clamped(ticks);
    assert r[0] == Clamp(ticks[0]) && r[1] == Clamp(ticks[1]) && r[2] == Clamp(ticks[2]) && r[3] == Clamp(ticks[3]);
    assert r[4] == Clamp(ticks[4]) && r[5] == Clamp(ticks[5]) && r[6] == Clamp(ticks[6]);
    if r == ticks[..WIDTH] {
      forall k | 0 <= k < WIDTH
        ensures ticks[k] < LONG
      {
        assert r[k] == ticks[..WIDTH][k];
      }
    }
  }

  lemma {:induction false} RecordIn(items: seq<Item>, k: nat) returns (j: nat)
    requires forall i | i in items :: Printable(i)
    requires k < |items| && items[k].Cpu?
    ensures |items[k].ticks| >= WIDTH && j < |Records(items)|
    ensures Records(items)[j] == Entry(items[k].name, Clamped(items[k].ticks))
  {
    assert Printable(items[0]);
    hide Clamped;
    if k == 0 {
      j := 0;
    } else {
      j := RecordIn(items[1..], k - 1);
      j := j + if items[0].Cpu? then 1 else 0;
    }
  }

  /** So the fields of every record read from the file are the numbers printed, in the order of the kernel's columns. */
  lemma RecordsReadBack(m: Table, items: seq<Item>, k: nat)
    requires (forall i | i in items :: Printable(i)) && DistinctNames(Records(items)) && k < |items| && items[k].Cpu?
    requires m.Valid() && m.view == Sample(File(items))
    ensures |items[k].ticks| >= WIDTH && items[k].name in m.records
    ensures var r, ticks := m.records[items[k].name], items[k].ticks;
      && r.user == Clamp(ticks[0]) && r.nice == Clamp(ticks[1]) && r.system == Clamp(ticks[2])
      && r.idle == Clamp(ticks[3]) && r.iowait == Clamp(ticks[4]) && r.irq == Clamp(ticks[5])
      && r.softirq == Clamp(ticks[6])
  {
    hide Clamp, Sample, File, Printable;
    var v, es := Sample(File(items)), Records(items);
    RoundTrip(items);
    var j := RecordIn(items, k);
    assert items[k].name in m.view.Keys;
    assert v[es[j].name] == es[j].vals;
    var r := m.records[items[k].name];
    assert r.Vals() == Clamped(items[k].ticks);
  }
}
