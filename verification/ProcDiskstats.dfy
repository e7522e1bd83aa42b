/** Printing a /proc/diskstats file and reading it back with Disk::read. */
module ProcDiskstats {
  import opened Words
  import opened Decimal
  import opened Parsing
  import opened Splitting
  import opened Sampling
  import opened Snapshot
  import opened Printing
  import opened LinuxDisk

  /** A line of the file: a disk with its counters, or one that read passes over; and the blanks in it. */
  datatype Item =
    | Disk(major: nat, name: string, ticks: seq<nat>, gaps: seq<string>)
    | Other(tokens: seq<string>, gaps: seq<string>)

  function Fields(i: Item): seq<string> {
    match i
    case Disk(major, name, ticks, _) => [Dec(major), Dec(0), name] + Decs(ticks)
    case Other(tokens, _) => tokens
  }

  /** Another minor number, a loop device, or a mapped one. */
  predicate PassedOver(ts: seq<string>) {
    Num(ts, 1) != 0 || (|ts| > 2 && ("loop" <= ts[2] || "dm-" <= ts[2]))
  }

  predicate Printable(i: Item) {
    && Written(Printed(Fields(i), i.gaps))
    && match i
       case Disk(_, name, ticks, _) => !("loop" <= name) && !("dm-" <= name) && |ticks| >= 11
       case Other(tokens, _) => PassedOver(tokens)
  }

  predicate AllPrintable(items: seq<Item>) {
    forall k | 0 <= k < |items| :: Printable(items[k])
  }

  function Prints(items: seq<Item>): (ps: seq<Printed>)
    requires AllPrintable(items)
    ensures AllWritten(ps)
  {
    seq(|items|, k requires 0 <= k < |items| => Printed(Fields(items[k]), items[k].gaps))
  }

  function File(items: seq<Item>): string
    requires AllPrintable(items)
  {
    Text([], Prints(items))
  }

  /** No two lines are about the same disk. */
  predicate DistinctDisks(items: seq<Item>) {
    forall j, k | 0 <= j < k < |items| && items[j].Disk? && items[k].Disk? :: items[j].name != items[k].name
  }

  function Disks(items: seq<Item>): nat {
    if items == [] then 0 else (if items[0].Disk? then 1 else 0) + Disks(items[1..])
  }

  lemma MinorZero(major: nat, name: string, ticks: seq<nat>)
    ensures Num([Dec(major), Dec(0), name] + Decs(ticks), 1) == 0
  {
    AtolDec(0);
  }

  /** Which disk a line is about, if any. */
  lemma AboutItem(i: Item, n: string)
    requires Printable(i)
    ensures IsAbout(Fields(i), n) <==> i.Disk? && i.name == n
    ensures Num(Fields(i), 1) == 0 ==> |Fields(i)| > 2
    ensures |LineEntry(Fields(i))| == if i.Disk? then 1 else 0
  {
    hide Num, Counters, Dec, Decs;
    if i.Disk? {
      MinorZero(i.major, i.name, i.ticks);
    }
  }

  lemma {:induction false} CountReadsBack(items: seq<Item>)
    requires AllPrintable(items)
    ensures |Entries(LineEntry, TokensOf(Prints(items)))| == Disks(items)
  {
    hide LineEntry, Counters, Num, Fields;
    if items != [] {
      AboutItem(items[0], "");
      CountReadsBack(items[1..]);
      var rows := TokensOf(Prints(items));
      assert rows[0] == Fields(items[0]) && rows[1..] == TokensOf(Prints(items[1..]));
    }
  }

  /** The lines of the file, when it is read. */
  lemma FileRows(items: seq<Item>)
    requires AllPrintable(items)
    ensures Rows(File(items)) == TokensOf(Prints(items)) && |Rows(File(items))| == |items|
    ensures forall k | 0 <= k < |items| :: Rows(File(items))[k] == Fields(items[k])
  {
    hide Rows, Fields;
    TextReadsBack([], Prints(items));
    assert Rows(File(items))[0..] == Rows(File(items));
  }

  /** The file can be read, and gives exactly the names of the disks printed. */
  lemma NamesReadBack(items: seq<Item>, n: string)
    requires AllPrintable(items)
    ensures Readable(File(items))
    ensures n in Sample(File(items)) <==> exists k :: 0 <= k < |items| && items[k].Disk? && items[k].name == n
  {
    hide Rows, Fields, IsAbout, Sample, Num, LineEntry, File;
    var rows := Rows(File(items));
    FileRows(items);
    SampleNames(File(items), n);
    forall k | 0 <= k < |items|
      ensures IsAbout(rows[k], n) <==> items[k].Disk? && items[k].name == n
      ensures Num(rows[k], 1) == 0 ==> |rows[k]| > 2
    {
      AboutItem(items[k], n);
    }
    if k :| 0 <= k < |items| && items[k].Disk? && items[k].name == n {
      assert IsAbout(rows[k], n);
    }
  }

  lemma DiskReadsBack(items: seq<Item>, k: nat)
    requires AllPrintable(items) && DistinctDisks(items) && k < |items| && items[k].Disk?
    ensures items[k].name in Sample(File(items))
    ensures Sample(File(items))[items[k].name] == Counters(Fields(items[k]))
  {
    hide Rows, Fields, IsAbout, Sample, Num, LineEntry, File, Counters;
    var rows, n := Rows(File(items)), items[k].name;
    FileRows(items);
    forall j | k <= j < |items|
      ensures IsAbout(rows[j], n) <==> j == k
    {
      AboutItem(items[j], n);
    }
    SampleIsLastLine(File(items), n, k);
  }

  lemma CountersColumn(ts: seq<string>, c: nat)
    requires c < 11
    ensures |Counters(ts)| == 11 && Counters(ts)[c] == Num(ts, 3 + c)
  {
    hide Num;
  }

  /**
   * The round trip: whatever lines that are passed over the file holds besides, and however its lines are
   * spaced, reading it gives each disk printed, every number in its own column.
   */
  lemma RoundTrip(items: seq<Item>, k: nat, c: nat)
    requires AllPrintable(items) && DistinctDisks(items) && k < |items| && items[k].Disk? && c < 11
    ensures c < |items[k].ticks| && items[k].name in Sample(File(items))
    ensures var row := Sample(File(items))[items[k].name]; |row| == 11 && row[c] == Clamp(items[k].ticks[c])
  {
    hide Sample, File, Num, Clamp, Counters;
    var i := items[k];
    assert Printable(i);
    DiskReadsBack(items, k);
    CountersColumn(Fields(i), c);
    NumOfDecs([Dec(i.major), Dec(0), i.name], i.ticks, c);
  }

  /** And it counts them. */
  lemma CountsDisks(items: seq<Item>)
    requires AllPrintable(items)
    ensures CountAfter(LineEntry, 0, Rows(File(items))) == U16(Disks(items))
  {
    hide LineEntry, Rows, U16, File;
    FileRows(items);
    CountReadsBack(items);
  }

  /** So the fields of every record read from the file are the numbers printed, in the order of the kernel's columns. */
  lemma RecordsReadBack(m: Table, items: seq<Item>, k: nat)
    requires AllPrintable(items) && DistinctDisks(items) && k < |items| && items[k].Disk?
    requires m.Valid() && m.view == Sample(File(items))
    ensures |items[k].ticks| >= 11 && items[k].name in m.records
    ensures var r, ticks := m.records[items[k].name], items[k].ticks;
      && r.readsIssued == Clamp(ticks[0]) && r.readsMerged == Clamp(ticks[1])
      && r.sectorsRead == Clamp(ticks[2]) && r.timeReading == Clamp(ticks[3])
      && r.writesCompleted == Clamp(ticks[4]) && r.writesMerged == Clamp(ticks[5])
      && r.sectorsWritten == Clamp(ticks[6]) && r.timeWriting == Clamp(ticks[7])
      && r.iosInProgress == Clamp(ticks[8]) && r.timeDoingIos == Clamp(ticks[9])
      && r.weightedTimeIos == Clamp(ticks[10])
  {
    hide Clamp, Sample, File, Printable;
    var v, n, ticks := Sample(File(items)), items[k].name, items[k].ticks;
    RoundTrip(items, k, 10);
    assert n in m.view.Keys;
    forall c | 0 <= c < 11
      ensures n in v && |v[n]| == 11 && v[n][c] == Clamp(ticks[c])
    {
      RoundTrip(items, k, c);
    }
    var r := m.records[n];
    assert r.Vals() == v[n];
    RecordFields(r, v[n]);
  }

  lemma RecordFields(r: DiskStats, row: Row)
    requires r.Vals() == row
    ensures r.readsIssued == row[0] && r.readsMerged == row[1] && r.sectorsRead == row[2] && r.timeReading == row[3]
    ensures r.writesCompleted == row[4] && r.writesMerged == row[5] && r.sectorsWritten == row[6]
    ensures r.timeWriting == row[7] && r.iosInProgress == row[8] && r.timeDoingIos == row[9]
    ensures r.weightedTimeIos == row[10]
  {
  }
}
