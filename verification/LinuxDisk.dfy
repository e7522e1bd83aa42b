/** c/linux/Disk.cpp: the disk counters of /proc/diskstats. */
module LinuxDisk {
  import opened Words
  import opened Ordering
  import opened Parsing
  import opened Sampling
  import opened Snapshot
  import opened Terminal

  const WIDTH: nat := 11

  lemma ElevenSubs(a: Row, b: Row)
    requires |a| == |b| == WIDTH
    ensures RowSub(a, b) ==
      [Sub(a[0], b[0]), Sub(a[1], b[1]), Sub(a[2], b[2]), Sub(a[3], b[3]), Sub(a[4], b[4]), Sub(a[5], b[5]),
       Sub(a[6], b[6]), Sub(a[7], b[7]), Sub(a[8], b[8]), Sub(a[9], b[9]), Sub(a[10], b[10])]
  {
  }

  class DiskStats {
    const name: string
    var readsIssued: Word
    var readsMerged: Word
    var sectorsRead: Word
    var timeReading: Word
    var writesCompleted: Word
    var writesMerged: Word
    var sectorsWritten: Word
    var timeWriting: Word
    var iosInProgress: Word
    var timeDoingIos: Word
    var weightedTimeIos: Word

    ghost function Vals(): (r: Row)
      reads this
      ensures |r| == WIDTH
    {
      [readsIssued, readsMerged, sectorsRead, timeReading, writesCompleted, writesMerged, sectorsWritten,
       timeWriting, iosInProgress, timeDoingIos, weightedTimeIos]
    }

    /** new DiskStats, then the name; the counters hold whatever the memory held. */
    constructor (name: string)
      ensures this.name == name
    {
      this.name := name;
    }

    method Diff(newer: DiskStats, older: DiskStats)
      modifies this
      ensures Vals() == RowSub(old(newer.Vals()), old(older.Vals()))
    {
      ElevenSubs(newer.Vals(), older.Vals());
      Set(Sub(newer.readsIssued, older.readsIssued), Sub(newer.readsMerged, older.readsMerged),
          Sub(newer.sectorsRead, older.sectorsRead), Sub(newer.timeReading, older.timeReading),
          Sub(newer.writesCompleted, older.writesCompleted), Sub(newer.writesMerged, older.writesMerged),
          Sub(newer.sectorsWritten, older.sectorsWritten), Sub(newer.timeWriting, older.timeWriting),
          Sub(newer.iosInProgress, older.iosInProgress), Sub(newer.timeDoingIos, older.timeDoingIos),
          Sub(newer.weightedTimeIos, older.weightedTimeIos));
    }

    method Set(readsIssued: Word, readsMerged: Word, sectorsRead: Word, timeReading: Word, writesCompleted: Word,
        writesMerged: Word, sectorsWritten: Word, timeWriting: Word, iosInProgress: Word, timeDoingIos: Word,
        weightedTimeIos: Word)
      modifies this
      ensures Vals() == [readsIssued, readsMerged, sectorsRead, timeReading, writesCompleted, writesMerged,
        sectorsWritten, timeWriting, iosInProgress, timeDoingIos, weightedTimeIos]
    {
      this.readsIssued := readsIssued;
      this.readsMerged := readsMerged;
      this.sectorsRead := sectorsRead;
      this.timeReading := timeReading;
      this.writesCompleted := writesCompleted;
      this.writesMerged := writesMerged;
      this.sectorsWritten := sectorsWritten;
      this.timeWriting := timeWriting;
      this.iosInProgress := iosInProgress;
      this.timeDoingIos := timeDoingIos;
      this.weightedTimeIos := weightedTimeIos;
    }
  }

  /** The numbers that read's loop body assigns, in the order it assigns them. */
  method GetCounters(p: Parser)
    returns (readsIssued: Word, readsMerged: Word, sectorsRead: Word, timeReading: Word, writesCompleted: Word,
        writesMerged: Word, sectorsWritten: Word, timeWriting: Word, iosInProgress: Word, timeDoingIos: Word,
        weightedTimeIos: Word)
    requires p.Valid() && p.taken == 3
    modifies p.Repr
    ensures p.Valid() && p.Repr == old(p.Repr) && p.ahead == old(p.ahead)
    ensures var ts := old(p.tokens);
      && readsIssued == Num(ts, 3) && readsMerged == Num(ts, 4) && sectorsRead == Num(ts, 5)
      && timeReading == Num(ts, 6) && writesCompleted == Num(ts, 7) && writesMerged == Num(ts, 8)
      && sectorsWritten == Num(ts, 9) && timeWriting == Num(ts, 10) && iosInProgress == Num(ts, 11)
      && timeDoingIos == Num(ts, 12) && weightedTimeIos == Num(ts, 13)
  {
    hide Parser.Valid;
    readsIssued := p.GetLong();
    readsMerged := p.GetLong();
    sectorsRead := p.GetLong();
    timeReading := p.GetLong();
    writesCompleted := p.GetLong();
    writesMerged := p.GetLong();
    sectorsWritten := p.GetLong();
    timeWriting := p.GetLong();
    iosInProgress := p.GetLong();
    timeDoingIos := p.GetLong();
    weightedTimeIos := p.GetLong();
  }

  /** std::map<std::string, DiskStats *>. */
  class Table {
    var records: map<string, DiskStats>
    ghost var view: View           // the counters under each name
    ghost var Repr: set<object>    // the map and its records

    ghost predicate Valid()
      reads this, Repr
      ensures Valid() ==> this in Repr && Wide(view, WIDTH) && view.Keys == records.Keys
    {
      && this in Repr
      && view.Keys == records.Keys && Wide(view, WIDTH)
      && forall n | n in records ::
          records[n] in Repr && records[n].name == n && records[n].Vals() == view[n]
    }

    constructor ()
      ensures Valid() && fresh(Repr) && view == map[]
    {
      records := map[];
      view := map[];
      Repr := {this};
    }

    /** (*this)[name], or a new record put there when there was none, and its counters assigned. */
    method Store(name: string, readsIssued: Word, readsMerged: Word, sectorsRead: Word, timeReading: Word,
        writesCompleted: Word, writesMerged: Word, sectorsWritten: Word, timeWriting: Word, iosInProgress: Word,
        timeDoingIos: Word, weightedTimeIos: Word)
      requires Valid()
      modifies Repr
      ensures Valid() && fresh(Repr - old(Repr))
      ensures view == old(view)[name := [readsIssued, readsMerged, sectorsRead, timeReading, writesCompleted,
        writesMerged, sectorsWritten, timeWriting, iosInProgress, timeDoingIos, weightedTimeIos]]
    {
      hide DiskStats.Vals;
      var stats;
      if name in records {
        stats := records[name];
      } else {
        stats := new DiskStats(name);
        records := records[name := stats];
        Repr := Repr + {stats};
      }
      stats.Set(readsIssued, readsMerged, sectorsRead, timeReading, writesCompleted, writesMerged,
        sectorsWritten, timeWriting, iosInProgress, timeDoingIos, weightedTimeIos);
      view := view[name := stats.Vals()];
    }

    /** (*this)[name]->diff(newer, older). */
    method Diff(name: string, newer: DiskStats, older: DiskStats)
      requires Valid() && name in records && newer !in Repr && older !in Repr
      modifies Repr
      ensures Valid() && Repr == old(Repr)
      ensures view == old(view)[name := RowSub(newer.Vals(), older.Vals())]
    {
      hide DiskStats.Vals;
      var stats := records[name];
      stats.Diff(newer, older);
      view := view[name := stats.Vals()];
    }
  }

  // ----- What a sample of /proc/diskstats says -----

  function Counters(ts: seq<string>): Row {
    [Num(ts, 3), Num(ts, 4), Num(ts, 5), Num(ts, 6), Num(ts, 7), Num(ts, 8), Num(ts, 9), Num(ts, 10),
     Num(ts, 11), Num(ts, 12), Num(ts, 13)]
  }

  /** The record one line stands for: minor number 0, and neither a loop device nor a mapped one. */
  function LineEntry(ts: seq<string>): seq<Entry> {
    if Num(ts, 1) == 0 && |ts| > 2 && !("loop" <= ts[2]) && !("dm-" <= ts[2]) then [Entry(ts[2], Counters(ts))]
    else []
  }

  lemma LineEntryReads()
    ensures Reads(LineEntry, WIDTH)
  {
  }

  function Sample(text: string): (v: View)
    ensures Wide(v, WIDTH)
  {
    LineEntryReads();
    SampleWide(LineEntry, Rows(text), WIDTH);
    SampleOf(LineEntry, Rows(text))
  }

  predicate NamesGiven(rows: seq<seq<string>>) {
    forall i | 0 <= i < |rows| :: Num(rows[i], 1) == 0 ==> |rows[i]| > 2
  }

  /** strncmp is given the third token of every line with minor number 0 (or none), so it must be there. */
  predicate Readable(text: string) {
    NamesGiven(Rows(text))
  }

  /** The line is about the disk `n`, and read does not pass it over. */
  predicate IsAbout(ts: seq<string>, n: string) {
    |ts| > 2 && Num(ts, 1) == 0 && ts[2] == n && !("loop" <= n) && !("dm-" <= n)
  }

  lemma BearsIsAbout(ts: seq<string>, n: string)
    ensures Bears(LineEntry(ts), n) <==> IsAbout(ts, n)
    ensures IsAbout(ts, n) ==> LineEntry(ts) == [Entry(n, Counters(ts))]
  {
  }

  /** A sample has exactly the names of the lines that are not passed over. */
  lemma SampleNames(text: string, n: string)
    ensures n in Sample(text) <==> exists i :: 0 <= i < |Rows(text)| && IsAbout(Rows(text)[i], n)
  {
    hide LineEntry, IsAbout, Rows;
    var rows := Rows(text);
    LineEntryReads();
    ReadsLastLine(LineEntry, map[], rows, n, WIDTH);
    forall i | 0 <= i < |rows|
      ensures Bears(LineEntry(rows[i]), n) <==> IsAbout(rows[i], n)
    {
      BearsIsAbout(rows[i], n);
    }
  }

  /** Each name of a sample has the counters of the last of its lines. */
  lemma SampleIsLastLine(text: string, n: string, i: nat)
    requires i < |Rows(text)| && IsAbout(Rows(text)[i], n)
    requires forall j | i < j < |Rows(text)| :: !IsAbout(Rows(text)[j], n)
    ensures n in Sample(text) && Sample(text)[n] == Counters(Rows(text)[i])
  {
    hide LineEntry, IsAbout, Rows, Counters;
    var rows := Rows(text);
    LineEntryReads();
    ReadsLastLine(LineEntry, map[], rows, n, WIDTH);
    var k := LastLine(LineEntry, rows, n);
    BearsIsAbout(rows[i], n);
    assert k >= i;
    BearsIsAbout(rows[k], n);
  }

  class Disk {
    var condensed: bool
    var numDisks: nat
    const last: Table
    const current: Table
    const delta: Table
    ghost var trail: seq<Snap>     // every state since the first sample was read
    ghost var samples: seq<View>   // what was read after it

    /** The three maps, for frames. */
    ghost function Parts(): set<object> {
      {last, current, delta}
    }

    ghost function Repr(): set<object>
      reads this, last, current, delta
    {
      last.Repr + current.Repr + delta.Repr
    }

    ghost function Abs(): Snap
      reads this, last, current, delta
    {
      Snap(last.view, current.view, delta.view)
    }

    /** No record is shared between the maps, and each stands under its own name. */
    ghost predicate Shape()
      reads this, last, current, delta, Repr()
    {
      && last.Valid() && current.Valid() && delta.Valid()
      && this !in Repr()
      && last.Repr !! current.Repr && last.Repr !! delta.Repr && current.Repr !! delta.Repr
    }

    ghost predicate Valid()
      reads this, last, current, delta, Repr()
      ensures Valid() ==> Parts() <= Repr() && this !in Repr()
    {
      && Shape()
      && Inv(Abs(), WIDTH)
      && IsRun(trail, samples, WIDTH, {})
      && trail[|trail| - 1] == Abs()
    }

    constructor (boot: string, next: string)
      requires Readable(boot) && Readable(next)
      ensures Valid() && fresh(Repr())
      ensures !condensed && numDisks == CountAfter(LineEntry, 0, Rows(boot))
      ensures trail == [Snap(Sample(boot), Sample(boot), Sample(boot)), Abs()]
      ensures samples == [Sample(next)]
    {
      condensed := false;
      last := new Table();
      current := new Table();
      delta := new Table();
      new;
      hide Disk.Valid;
      ghost var made := last.Repr + current.Repr + delta.Repr;
      assert fresh(made) && this !in made && Repr() == made;
      Start(boot, next);
      assert fresh(Repr() - made);
    }

    /** The constructor's calls. */
    method Start(boot: string, next: string)
      requires Shape() && Abs() == Snap(map[], map[], map[]) && Readable(boot) && Readable(next)
      modifies this, Repr()
      ensures Valid() && fresh(Repr() - old(Repr()))
      ensures condensed == old(condensed)
      ensures numDisks == CountAfter(LineEntry, 0, Rows(boot))
      ensures trail == [Snap(Sample(boot), Sample(boot), Sample(boot)), Abs()]
      ensures samples == [Sample(next)]
    {
      hide Disk.Valid, Table.Valid, Sample, Rows, Step, Next, NamesGiven, Diff, CountAfter, Inv;
      Boot(boot);
      Update(next);
    }

    /** The constructor before it calls update(). */
    method Boot(text: string)
      requires Shape() && Abs() == Snap(map[], map[], map[]) && Readable(text)
      modifies this, Repr()
      ensures Valid() && fresh(Repr() - old(Repr())) && condensed == old(condensed)
      ensures numDisks == CountAfter(LineEntry, 0, Rows(text))
      ensures trail == [Snap(Sample(text), Sample(text), Sample(text))] && samples == []
    {
      hide Table.Valid, Rows, CountAfter, NamesGiven, IsRun, Sample, Readable;
      numDisks := Read(current, text);
      assert map[] + Sample(text) == Sample(text);
      Fill();
      trail, samples := [Abs()], [];
      StartRun(Abs(), WIDTH, {});
    }

    /** The two calls of copy in the constructor. */
    method Fill()
      requires Shape() && last.view == delta.view == map[]
      modifies last.Repr, delta.Repr
      ensures Shape() && fresh(Repr() - old(Repr())) && current.Repr == old(current.Repr)
      ensures last.view == delta.view == current.view == old(current.view)
    {
      hide Table.Valid;
      assert map[] + current.view == current.view;
      Copy(last, current);
      Copy(delta, current);
    }

    /** update() itself. */
    method Refresh(text: string)
      requires Shape() && Inv(Abs(), WIDTH) && Readable(text)
      modifies Repr()
      ensures Shape() && fresh(Repr() - old(Repr()))
      ensures Abs() == Step(old(Abs()), Sample(text), WIDTH)
      ensures Next(old(Abs()), Sample(text), Abs(), WIDTH, {})
    {
      hide Table.Valid, Sample, Rows, CountAfter, Step, Next, NamesGiven, RowSub, Diff;
      ghost var s := Abs();
      CopyAndRead(text);
      Subtract(delta, current, last);
      UpdateIsStep(s, Sample(text), Abs(), WIDTH);
    }

    /** The first two calls of update(). */
    method CopyAndRead(text: string)
      requires Shape() && Readable(text)
      modifies last.Repr, current.Repr
      ensures Shape() && fresh(Repr() - old(Repr()))
      ensures last.view == old(last.view) + old(current.view)
      ensures current.view == old(current.view) + Sample(text) && delta.view == old(delta.view)
    {
      hide Table.Valid, Sample, Wide, Rows, CountAfter, NamesGiven;
      Copy(last, current);
      var _ := Read(current, text);
    }

    method Update(text: string)
      requires Valid() && Readable(text)
      modifies `trail, `samples, Repr()
      ensures Valid() && fresh(Repr() - old(Repr()))
      ensures Abs() == Step(old(Abs()), Sample(text), WIDTH)
      ensures trail == old(trail) + [Abs()] && samples == old(samples) + [Sample(text)]
    {
      hide Table.Valid, Rows, CountAfter, Next, NamesGiven, RowSub, Diff;
      ghost var s := Abs();
      Refresh(text);
      ExtendRun(trail, samples, Sample(text), Abs(), WIDTH, {});
      trail, samples := trail + [Abs()], samples + [Sample(text)];
    }

    /** copy: every name of `src` in ascending order, its record found or made in `dst`. */
    static method Copy(dst: Table, src: Table)
      requires dst.Valid() && src.Valid() && dst.Repr !! src.Repr
      modifies dst.Repr
      ensures dst.Valid() && fresh(dst.Repr - old(dst.Repr))
      ensures dst.view == old(dst.view) + src.view
    {
      ghost var kept := dst.view;
      PartlyEnds(kept, src.view);
      var rest := src.records.Keys;
      while rest != {}
        invariant rest <= src.view.Keys
        invariant dst.Valid() && fresh(dst.Repr - old(dst.Repr))
        invariant dst.view == Partly(kept, src.view, rest)
        decreases rest
      {
        var k := Least(rest);
        var o := src.records[k];
        PartlyStep(kept, src.view, rest, k);
        rest := rest - {k};
        dst.Store(o.name, o.readsIssued, o.readsMerged, o.sectorsRead, o.timeReading, o.writesCompleted,
          o.writesMerged, o.sectorsWritten, o.timeWriting, o.iosInProgress, o.timeDoingIos, o.weightedTimeIos);
      }
    }

    /** The body of read's loop, for the line the parser is at. */
    static method ReadLine(m: Table, p: Parser) returns (hit: nat)
      requires m.Valid() && p.Valid() && m.Repr !! p.Repr
      requires p.taken == 0 && (Num(p.tokens, 1) == 0 ==> |p.tokens| > 2)
      modifies m.Repr, p.Repr
      ensures m.Valid() && fresh(m.Repr - old(m.Repr))
      ensures p.Valid() && p.Repr == old(p.Repr) && p.ahead == old(p.ahead)
      ensures m.view == Overlay(old(m.view), LineEntry(old(p.tokens)))
      ensures hit == |LineEntry(old(p.tokens))|
    {
      hide Parser.Valid, Table.Valid, Num;
      var major := p.GetLong();
      var minor := p.GetLong();
      if minor != 0 {
        return 0;
      }
      var token := p.GetToken();
      if "loop" <= token.value || "dm-" <= token.value {
        return 0;
      }
      var readsIssued, readsMerged, sectorsRead, timeReading, writesCompleted, writesMerged,
        sectorsWritten, timeWriting, iosInProgress, timeDoingIos, weightedTimeIos := GetCounters(p);
      m.Store(token.value, readsIssued, readsMerged, sectorsRead, timeReading, writesCompleted, writesMerged,
        sectorsWritten, timeWriting, iosInProgress, timeDoingIos, weightedTimeIos);
      return 1;
    }

    static method Read(m: Table, text: string) returns (count: nat)
      requires m.Valid() && Readable(text)
      modifies m.Repr
      ensures m.Valid() && fresh(m.Repr - old(m.Repr))
      ensures m.view == old(m.view) + Sample(text)
      ensures count == CountAfter(LineEntry, 0, Rows(text))
    {
      hide Parser.Valid, Table.Valid, Rows, TableAfter, CountAfter, LineEntry, U16;
      ghost var before := m.view;
      var p := new Parser(text);
      count := 0;
      while true
        invariant p.Valid() && fresh(p.Repr)
        invariant m.Valid() && fresh(m.Repr - old(m.Repr)) && m.Repr !! p.Repr
        invariant NamesGiven(p.ahead)
        invariant TableAfter(LineEntry, m.view, p.ahead) == TableAfter(LineEntry, before, Rows(text))
        invariant count < SHORT && CountAfter(LineEntry, count, p.ahead) == CountAfter(LineEntry, 0, Rows(text))
        decreases |p.ahead|
      {
        TableStep(LineEntry, m.view, p.ahead);
        CountStep(LineEntry, count, p.ahead);
        var more := p.Next();
        if !more {
          break;
        }
        var hit := ReadLine(m, p);
        count := U16(count + hit);
      }
      ReadIsOverride(LineEntry, before, Rows(text));
    }

    /** The loop of update: both lookups find a record, for every name in `delta`. */
    static method Subtract(delta: Table, current: Table, last: Table)
      requires delta.Valid() && current.Valid() && last.Valid()
      requires delta.Repr !! current.Repr && delta.Repr !! last.Repr
      requires delta.view.Keys <= last.view.Keys && delta.view.Keys <= current.view.Keys
      modifies delta.Repr
      ensures delta.Valid() && delta.Repr == old(delta.Repr)
      ensures delta.view == Diff(old(current.view), old(last.view), old(delta.view).Keys)
    {
      ghost var kept, diff := delta.view, Diff(current.view, last.view, delta.view.Keys);
      PartlyEnds(kept, diff);
      var rest := delta.records.Keys;
      while rest != {}
        invariant rest <= diff.Keys
        invariant delta.Valid() && delta.Repr == old(delta.Repr)
        invariant delta.view == Partly(kept, diff, rest)
        decreases rest
      {
        var k := Least(rest);
        var stats := delta.records[k];
        PartlyStep(kept, diff, rest, k);
        rest := rest - {k};
        delta.Diff(k, current.records[stats.name], last.records[stats.name]);
      }
    }

    /** The lines of this section: the title, then one per name of `delta`. */
    ghost function Listing(): seq<string>
      reads this, delta
    {
      ["DISK ACTIVITY"] + Ascending(delta.view.Keys)
    }

    method Print(screen: Screen, test: bool) returns (count: nat, out: Screen)
      requires Valid()
      ensures count == U16(|Listing()|)
      ensures out == screen.After(test, Listing())
    {
      hide Screen.After, U16, Ascending, Least, Sorted, Distinct, IsLeast, IsRun, Inv;
      ghost var done := ["DISK ACTIVITY"];
      screen.AfterStep(test, [], "");
      assert [] + done == done;
      count, out := PrintRow(screen, "DISK ACTIVITY", test, 0, screen, []);
      var rest := delta.records.Keys;
      while rest != {}
        invariant rest <= delta.view.Keys
        invariant done + Ascending(rest) == ["DISK ACTIVITY"] + Ascending(delta.view.Keys)
        invariant out == screen.After(test, done) && count == U16(|done|)
        decreases rest
      {
        var k := Least(rest);
        AscendingStep(done, rest);
        rest := rest - {k};
        var stats := delta.records[k];
        count, out := PrintRow(out, stats.name, test, count, screen, done);
        done := done + [k];
      }
      assert done == Listing();
    }
  }

  /**
   * Over the whole life of the object, everything shown for a counter is its final value minus the
   * first one read, plus 2^64 each time it fell; so it is exact if and only if it never fell.
   */
  lemma ShownIsRise(p: Disk, n: string, c: nat)
    requires p.Valid() && n in p.trail[0].delta && c < WIDTH
    ensures Tracked(p.trail, n, c)
    ensures Shown(p.trail, n, c) == Rise(p.trail, n, c) + WORD * Falls(p.trail, n, c)
    ensures Shown(p.trail, n, c) == Rise(p.trail, n, c)
      <==> forall i | 0 < i < |p.trail| :: !FellAt(p.trail, n, c, i)
  {
    Telescope(p.trail, p.samples, WIDTH, {}, n, c);
    ExactIffNeverFalls(p.trail, p.samples, WIDTH, {}, n, c);
  }
}
