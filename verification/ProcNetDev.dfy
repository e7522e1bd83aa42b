/** Printing a /proc/net/dev file and reading it back with Network::read. */
module ProcNetDev {
  import opened Words
  import opened Decimal
  import opened Parsing
  import opened Splitting
  import opened Sampling
  import opened Snapshot
  import opened Printing
  import opened LinuxNetwork

  /** A line of the file: an interface with its counters, and the blanks in it. */
  datatype Item = Item(name: string, ticks: seq<nat>, gaps: seq<string>)

  /** The name stands in front of a colon. */
  function Fields(i: Item): seq<string> {
    [i.name + ":"] + Decs(i.ticks)
  }

  predicate Printable(i: Item) {
    Written(Printed(Fields(i), i.gaps)) && |i.ticks| >= 16
  }

  predicate AllPrintable(items: seq<Item>) {
    forall k | 0 <= k < |items| :: Printable(items[k])
  }

  predicate DistinctItems(items: seq<Item>) {
    forall j, k | 0 <= j < k < |items| :: items[j].name != items[k].name
  }

  function Prints(items: seq<Item>): (ps: seq<Printed>)
    requires AllPrintable(items)
    ensures AllWritten(ps)
  {
    seq(|items|, k requires 0 <= k < |items| => Printed(Fields(items[k]), items[k].gaps))
  }

  /** Two header lines, whatever they say, and the interfaces. */
  function File(first: string, second: string, items: seq<Item>): string
    requires AllPrintable(items)
  {
    Text([first, second], Prints(items))
  }

  /** What read looks at: the lines of the interfaces. */
  lemma FileRows(first: string, second: string, items: seq<Item>)
    requires AllPrintable(items) && IsLine(first) && IsLine(second)
    ensures |Body(File(first, second, items))| == |items|
    ensures forall k | 0 <= k < |items| :: Body(File(first, second, items))[k] == Fields(items[k])
  {
    hide Rows, Fields;
    TextReadsBack([first, second], Prints(items));
  }

  lemma ItemRead(i: Item)
    ensures LineEntry(Fields(i)) == [Entry(i.name, Counters(Fields(i)))]
  {
    hide Counters, Decs;
    var t := i.name + ":";
    assert t[..|t| - 1] == i.name;
  }

  /** The file can be read, and gives exactly the names of the interfaces printed. */
  lemma NamesReadBack(first: string, second: string, items: seq<Item>, n: string)
    requires AllPrintable(items) && IsLine(first) && IsLine(second)
    ensures Readable(File(first, second, items))
    ensures n in Sample(File(first, second, items)) <==> exists k :: 0 <= k < |items| && items[k].name == n
  {
    hide Body, File, LineEntry, Counters;
    var rows := Body(File(first, second, items));
    FileRows(first, second, items);
    LineEntryReads();
    ReadsLastLine(LineEntry, map[], rows, n, WIDTH);
    forall k | 0 <= k < |items|
      ensures Bears(LineEntry(rows[k]), n) <==> items[k].name == n
    {
      ItemRead(items[k]);
    }
    var last := LastLine(LineEntry, rows, n);
    if last >= 0 {
      assert items[last].name == n;
    }
  }

  lemma ItemReadsBack(first: string, second: string, items: seq<Item>, k: nat)
    requires AllPrintable(items) && DistinctItems(items) && IsLine(first) && IsLine(second) && k < |items|
    ensures items[k].name in Sample(File(first, second, items))
    ensures Sample(File(first, second, items))[items[k].name] == Counters(Fields(items[k]))
  {
    hide Body, File, LineEntry, Counters, Fields;
    var rows, n := Body(File(first, second, items)), items[k].name;
    FileRows(first, second, items);
    LineEntryReads();
    ReadsLastLine(LineEntry, map[], rows, n, WIDTH);
    forall j | 0 <= j < |items|
      ensures Bears(LineEntry(rows[j]), n) <==> j == k
    {
      ItemRead(items[j]);
    }
    ItemRead(items[k]);
  }

  lemma CountersColumn(ts: seq<string>, c: nat)
    requires c < 16
    ensures |Counters(ts)| == 16 && Counters(ts)[c] == Num(ts, 1 + c)
  {
    hide Num;
  }

  /**
   * The round trip: behind two header lines, and however the lines are spaced, every interface printed is
   * read under its own name, every number in its own column.
   */
  lemma RoundTrip(first: string, second: string, items: seq<Item>, k: nat, c: nat)
    requires AllPrintable(items) && DistinctItems(items) && IsLine(first) && IsLine(second)
    requires k < |items| && c < 16
    ensures c < |items[k].ticks| && items[k].name in Sample(File(first, second, items))
    ensures var row := Sample(File(first, second, items))[items[k].name];
      |row| == 16 && row[c] == Clamp(items[k].ticks[c])
  {
    hide Sample, File, Num, Clamp, Counters;
    var i := items[k];
    assert Printable(i);
    ItemReadsBack(first, second, items, k);
    CountersColumn(Fields(i), c);
    NumOfDecs([i.name + ":"], i.ticks, c);
  }

  function Names(items: seq<Item>): set<string> {
    set k | 0 <= k < |items| :: items[k].name
  }

  lemma {:induction false} NamesDistinct(items: seq<Item>)
    requires DistinctItems(items)
    ensures |Names(items)| == |items|
  {
    if items != [] {
      var last := |items| - 1;
      NamesDistinct(items[..last]);
      assert Names(items) == Names(items[..last]) + {items[last].name};
    }
  }

  /** And read counts them, when it reads into an empty map. */
  lemma CountsItems(first: string, second: string, items: seq<Item>)
    requires AllPrintable(items) && DistinctItems(items) && IsLine(first) && IsLine(second)
    ensures |Sample(File(first, second, items)).Keys| == |items|
    ensures NewIn(map[] + Sample(File(first, second, items)), map[]) == U16(|items|)
  {
    hide Sample, File, NewIn, U16, Names;
    var v := Sample(File(first, second, items));
    KeysAre(first, second, items);
    NamesDistinct(items);
    NewInEmpty(v);
  }

  lemma NewInEmpty(v: View)
    ensures NewIn(map[] + v, map[]) == U16(|v.Keys|)
  {
    hide NewIn, U16;
    assert map[] + v == v;
    NoneNew(v);
  }

  lemma NameIn(items: seq<Item>, n: string)
    ensures n in Names(items) <==> exists k :: 0 <= k < |items| && items[k].name == n
  {
  }

  lemma KeysAre(first: string, second: string, items: seq<Item>)
    requires AllPrintable(items) && IsLine(first) && IsLine(second)
    ensures Sample(File(first, second, items)).Keys == Names(items)
  {
    hide Sample, File, Names;
    var v := Sample(File(first, second, items));
    forall n
      ensures n in v.Keys <==> n in Names(items)
    {
      NamesReadBack(first, second, items, n);
      NameIn(items, n);
    }
  }

  /** So the fields of every record read from the file are the numbers printed, in the order of the kernel's columns. */
  lemma RecordsReadBack(m: Table, first: string, second: string, items: seq<Item>, k: nat)
    requires AllPrintable(items) && DistinctItems(items) && IsLine(first) && IsLine(second) && k < |items|
    requires m.Valid() && m.view == Sample(File(first, second, items))
    ensures |items[k].ticks| >= 16 && items[k].name in m.records
    ensures var r, ticks := m.records[items[k].name], items[k].ticks;
      && r.rxBytes == Clamp(ticks[0]) && r.rxPackets == Clamp(ticks[1]) && r.rxErrors == Clamp(ticks[2])
      && r.rxDrop == Clamp(ticks[3]) && r.rxFifo == Clamp(ticks[4]) && r.rxFrame == Clamp(ticks[5])
      && r.rxCompressed == Clamp(ticks[6]) && r.rxMulticast == Clamp(ticks[7]) && r.txBytes == Clamp(ticks[8])
      && r.txPackets == Clamp(ticks[9]) && r.txErrors == Clamp(ticks[10]) && r.txDrop == Clamp(ticks[11])
      && r.txFifo == Clamp(ticks[12]) && r.txCalls == Clamp(ticks[13]) && r.txCarrier == Clamp(ticks[14])
      && r.txCompressed == Clamp(ticks[15])
  {
    hide Clamp, Sample, File, Printable;
    var v, n, ticks := Sample(File(first, second, items)), items[k].name, items[k].ticks;
    RoundTrip(first, second, items, k, 15);
    assert n in m.view.Keys;
    forall c | 0 <= c < 16
      ensures |v[n]| == 16 && v[n][c] == Clamp(ticks[c])
    {
      RoundTrip(first, second, items, k, c);
    }
    var r := m.records[n];
    assert r.Vals() == v[n];
    RecordFields(r, v[n]);
  }

  lemma RecordFields(r: NetStats, row: Row)
    requires r.Vals() == row
    ensures r.rxBytes == row[0] && r.rxPackets == row[1] && r.rxErrors == row[2] && r.rxDrop == row[3]
    ensures r.rxFifo == row[4] && r.rxFrame == row[5] && r.rxCompressed == row[6] && r.rxMulticast == row[7]
    ensures r.txBytes == row[8] && r.txPackets == row[9] && r.txErrors == row[10] && r.txDrop == row[11]
    ensures r.txFifo == row[12] && r.txCalls == row[13] && r.txCarrier == row[14] && r.txCompressed == row[15]
  {
  }
}
