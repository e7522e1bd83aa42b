/** c/linux/Processor.cpp: the CPU counters of /proc/stat. */
module LinuxProcessor {
  import opened Words
  import opened Ordering
  import opened Parsing
  import opened Sampling
  import opened Snapshot
  import opened Terminal

  const WIDTH: nat := 7

  class CPU {
    const name: string
    var user: Word
    var nice: Word
    var system: Word
    var idle: Word
    var iowait: Word
    var irq: Word
    var softirq: Word

    ghost function Vals(): (r: Row)
      reads this
      ensures |r| == WIDTH
    {
      [user, nice, system, idle, iowait, irq, softirq]
    }

    /** new CPU, then the name; the counters hold whatever the memory held. */
    constructor (name: string)
      ensures this.name == name
    {
      this.name := name;
    }

    method Diff(newer: CPU, older: CPU)
      modifies this
      ensures Vals() == RowSub(old(newer.Vals()), old(older.Vals()))
    {
      user := Sub(newer.user, older.user);
      nice := Sub(newer.nice, older.nice);
      system := Sub(newer.system, older.system);
      idle := Sub(newer.idle, older.idle);
      iowait := Sub(newer.iowait, older.iowait);
      irq := Sub(newer.irq, older.irq);
      softirq := Sub(newer.softirq, older.softirq);
    }

    method Set(user: Word, nice: Word, system: Word, idle: Word, iowait: Word, irq: Word, softirq: Word)
      modifies this
      ensures Vals() == [user, nice, system, idle, iowait, irq, softirq]
    {
      this.user := user;
      this.nice := nice;
      this.system := system;
      this.idle := idle;
      this.iowait := iowait;
      this.irq := irq;
      this.softirq := softirq;
    }
  }

  /** The numbers that read's loop body assigns, in the order it assigns them. */
  method GetCounters(p: Parser)
    returns (user: Word, nice: Word, system: Word, idle: Word, iowait: Word, irq: Word, softirq: Word)
    requires p.Valid() && p.taken == 1
    modifies p.Repr
    ensures p.Valid() && p.Repr == old(p.Repr) && p.ahead == old(p.ahead)
    ensures var ts := old(p.tokens);
      && user == Num(ts, 1) && nice == Num(ts, 2) && system == Num(ts, 3) && idle == Num(ts, 4)
      && iowait == Num(ts, 5) && irq == Num(ts, 6) && softirq == Num(ts, 7)
  {
    hide Parser.Valid;
    user := p.GetLong();
    nice := p.GetLong();
    system := p.GetLong();
    idle := p.GetLong();
    iowait := p.GetLong();
    irq := p.GetLong();
    softirq := p.GetLong();
  }

  /** std::map<std::string, CPU *>. */
  class Table {
    var records: map<string, CPU>
    ghost var view: View           // the counters under each name
    ghost var Repr: set<object>    // the map and its records

    ghost predicate Valid()
      reads this, Repr
      ensures Valid() ==> this in Repr && Wide(view, WIDTH) && view.Keys == records.Keys
    {
      && this in Repr
      && view.Keys == records.Keys && Wide(view, WIDTH)
      && forall n | n in records ::
          records[n] in Repr && records[n].name == n && records[n].Vals() == view[n]
    }

    constructor ()
      ensures Valid() && fresh(Repr) && view == map[]
    {
      records := map[];
      view := map[];
      Repr := {this};
    }

    /** (*this)[name], or a new record put there when there was none, and its counters assigned. */
    method Store(name: string, user: Word, nice: Word, system: Word, idle: Word, iowait: Word, irq: Word, softirq: Word)
      requires Valid()
      modifies Repr
      ensures Valid() && fresh(Repr - old(Repr))
      ensures view == old(view)[name := [user, nice, system, idle, iowait, irq, softirq]]
    {
      hide CPU.Vals;
      var cpu;
      if name in records {
        cpu := records[name];
      } else {
        cpu := new CPU(name);
        records := records[name := cpu];
        Repr := Repr + {cpu};
      }
      cpu.Set(user, nice, system, idle, iowait, irq, softirq);
      view := view[name := cpu.Vals()];
    }

    /** (*this)[name]->diff(newer, older). */
    method Diff(name: string, newer: CPU, older: CPU)
      requires Valid() && name in records && newer !in Repr && older !in Repr
      modifies Repr
      ensures Valid() && Repr == old(Repr)
      ensures view == old(view)[name := RowSub(newer.Vals(), older.Vals())]
    {
      hide CPU.Vals;
      var cpu := records[name];
      cpu.Diff(newer, older);
      view := view[name := cpu.Vals()];
    }
  }

  // ----- What a sample of /proc/stat says -----

  function Counters(ts: seq<string>): Row {
    [Num(ts, 1), Num(ts, 2), Num(ts, 3), Num(ts, 4), Num(ts, 5), Num(ts, 6), Num(ts, 7)]
  }

  /** The record one line stands for, if its first token starts with "cpu". */
  function LineEntry(ts: seq<string>): seq<Entry> {
    if ts != [] && "cpu" <= ts[0] then [Entry(ts[0], Counters(ts))] else []
  }

  lemma LineEntryReads()
    ensures Reads(LineEntry, WIDTH)
  {
  }

  function Sample(text: string): (v: View)
    ensures Wide(v, WIDTH) && forall n | n in v :: "cpu" <= n
  {
    LineEntryReads();
    SampleWide(LineEntry, Rows(text), WIDTH);
    assert forall n | n in SampleOf(LineEntry, Rows(text)) :: "cpu" <= n by {
      forall n | n in SampleOf(LineEntry, Rows(text)) ensures "cpu" <= n {
        ReadsLastLine(LineEntry, map[], Rows(text), n, WIDTH);
      }
    }
    SampleOf(LineEntry, Rows(text))
  }

  predicate NoBlankLine(rows: seq<seq<string>>) {
    forall i | 0 <= i < |rows| :: rows[i] != []
  }

  /** strncmp is given the first token of every line, so every line must have one. */
  predicate Readable(text: string) {
    NoBlankLine(Rows(text))
  }

  class Processor {
    var condensed: bool
    var numCores: nat
    const last: Table
    const current: Table
    const delta: Table
    ghost var trail: seq<Snap>     // every state since the first sample was read
    ghost var samples: seq<View>   // what was read after it

    /** The three maps, for frames. */
    ghost function Parts(): set<object> {
      {last, current, delta}
    }

    ghost function Repr(): set<object>
      reads this, last, current, delta
    {
      last.Repr + current.Repr + delta.Repr
    }

    ghost function Abs(): Snap
      reads this, last, current, delta
    {
      Snap(last.view, current.view, delta.view)
    }

    /** No record is shared between the maps, and each stands under its own name. */
    ghost predicate Shape()
      reads this, last, current, delta, Repr()
    {
      && last.Valid() && current.Valid() && delta.Valid()
      && this !in Repr()
      && last.Repr !! current.Repr && last.Repr !! delta.Repr && current.Repr !! delta.Repr
    }

    ghost predicate Valid()
      reads this, last, current, delta, Repr()
      ensures Valid() ==> Parts() <= Repr() && this !in Repr()
    {
      && Shape()
      && Inv(Abs(), WIDTH)
      && IsRun(trail, samples, WIDTH, {})
      && trail[|trail| - 1] == Abs()
      && forall n | n in current.view :: "cpu" <= n
    }

    constructor (boot: string, next: string)
      requires Readable(boot) && Readable(next)
      ensures Valid() && fresh(Repr())
      ensures !condensed && numCores == CountAfter(LineEntry, 0, Rows(boot))
      ensures trail == [Snap(Sample(boot), Sample(boot), Sample(boot)), Abs()]
      ensures samples == [Sample(next)]
    {
      condensed := false;
      last := new Table();
      current := new Table();
      delta := new Table();
      new;
      hide Processor.Valid;
      ghost var made := last.Repr + current.Repr + delta.Repr;
      assert fresh(made) && this !in made && Repr() == made;
      Start(boot, next);
      assert fresh(Repr() - made);
    }

    /** The constructor's calls. */
    method Start(boot: string, next: string)
      requires Shape() && Abs() == Snap(map[], map[], map[]) && Readable(boot) && Readable(next)
      modifies this, Repr()
      ensures Valid() && fresh(Repr() - old(Repr()))
      ensures condensed == old(condensed)
      ensures numCores == CountAfter(LineEntry, 0, Rows(boot))
      ensures trail == [Snap(Sample(boot), Sample(boot), Sample(boot)), Abs()]
      ensures samples == [Sample(next)]
    {
      hide Processor.Valid, Table.Valid, Sample, Rows, Step, Next, NoBlankLine, Diff, CountAfter, Inv;
      Boot(boot);
      Update(next);
    }

    /** The constructor before it calls update(). */
    method Boot(text: string)
      requires Shape() && Abs() == Snap(map[], map[], map[]) && Readable(text)
      modifies this, Repr()
      ensures Valid() && fresh(Repr() - old(Repr())) && condensed == old(condensed)
      ensures numCores == CountAfter(LineEntry, 0, Rows(text))
      ensures trail == [Snap(Sample(text), Sample(text), Sample(text))] && samples == []
    {
      hide Table.Valid, Rows, CountAfter, NoBlankLine, IsRun, Sample, Readable;
      numCores := Read(current, text);
      assert map[] + Sample(text) == Sample(text);
      Fill();
      trail, samples := [Abs()], [];
      StartRun(Abs(), WIDTH, {});
    }

    /** The two calls of copy in the constructor. */
    method Fill()
      requires Shape() && last.view == delta.view == map[]
      modifies last.Repr, delta.Repr
      ensures Shape() && fresh(Repr() - old(Repr())) && current.Repr == old(current.Repr)
      ensures last.view == delta.view == current.view == old(current.view)
    {
      hide Table.Valid;
      assert map[] + current.view == current.view;
      Copy(last, current);
      Copy(delta, current);
    }

    /** update() itself. */
    method Refresh(text: string)
      requires Shape() && Inv(Abs(), WIDTH) && Readable(text)
      modifies Repr()
      ensures Shape() && fresh(Repr() - old(Repr()))
      ensures Abs() == Step(old(Abs()), Sample(text), WIDTH)
      ensures Next(old(Abs()), Sample(text), Abs(), WIDTH, {})
    {
      hide Table.Valid, Sample, Rows, CountAfter, Step, Next, NoBlankLine, RowSub, Diff;
      ghost var s := Abs();
      CopyAndRead(text);
      Subtract(delta, current, last);
      UpdateIsStep(s, Sample(text), Abs(), WIDTH);
    }

    /** The first two calls of update(). */
    method CopyAndRead(text: string)
      requires Shape() && Readable(text)
      modifies last.Repr, current.Repr
      ensures Shape() && fresh(Repr() - old(Repr()))
      ensures last.view == old(last.view) + old(current.view)
      ensures current.view == old(current.view) + Sample(text) && delta.view == old(delta.view)
    {
      hide Table.Valid, Sample, Wide, Rows, CountAfter, NoBlankLine;
      Copy(last, current);
      var _ := Read(current, text);
    }

    method Update(text: string)
      requires Valid() && Readable(text)
      modifies `trail, `samples, Repr()
      ensures Valid() && fresh(Repr() - old(Repr()))
      ensures Abs() == Step(old(Abs()), Sample(text), WIDTH)
      ensures trail == old(trail) + [Abs()] && samples == old(samples) + [Sample(text)]
    {
      hide Table.Valid, Rows, CountAfter, Next, NoBlankLine, RowSub, Diff;
      ghost var s := Abs();
      Refresh(text);
      ExtendRun(trail, samples, Sample(text), Abs(), WIDTH, {});
      trail, samples := trail + [Abs()], samples + [Sample(text)];
    }

    /** copy: every name of `src` in ascending order, its record found or made in `dst`. */
    static method Copy(dst: Table, src: Table)
      requires dst.Valid() && src.Valid() && dst.Repr !! src.Repr
      modifies dst.Repr
      ensures dst.Valid() && fresh(dst.Repr - old(dst.Repr))
      ensures dst.view == old(dst.view) + src.view
    {
      ghost var kept := dst.view;
      PartlyEnds(kept, src.view);
      var rest := src.records.Keys;
      while rest != {}
        invariant rest <= src.view.Keys
        invariant dst.Valid() && fresh(dst.Repr - old(dst.Repr))
        invariant dst.view == Partly(kept, src.view, rest)
        decreases rest
      {
        var k := Least(rest);
        var o := src.records[k];
        PartlyStep(kept, src.view, rest, k);
        rest := rest - {k};
        dst.Store(o.name, o.user, o.nice, o.system, o.idle, o.iowait, o.irq, o.softirq);
      }
    }

    /** The body of read's loop, for the line the parser is at. */
    static method ReadLine(m: Table, p: Parser) returns (hit: nat)
      requires m.Valid() && p.Valid() && m.Repr !! p.Repr
      requires p.taken == 0 && p.tokens != []
      modifies m.Repr, p.Repr
      ensures m.Valid() && fresh(m.Repr - old(m.Repr))
      ensures p.Valid() && p.Repr == old(p.Repr) && p.ahead == old(p.ahead)
      ensures m.view == Overlay(old(m.view), LineEntry(old(p.tokens)))
      ensures hit == |LineEntry(old(p.tokens))|
    {
      hide Parser.Valid, Table.Valid, Num;
      var token := p.GetToken();
      if !("cpu" <= token.value) {
        return 0;
      }
      var user, nice, system, idle, iowait, irq, softirq := GetCounters(p);
      m.Store(token.value, user, nice, system, idle, iowait, irq, softirq);
      return 1;
    }

    static method Read(m: Table, text: string) returns (count: nat)
      requires m.Valid() && Readable(text)
      modifies m.Repr
      ensures m.Valid() && fresh(m.Repr - old(m.Repr))
      ensures m.view == old(m.view) + Sample(text)
      ensures count == CountAfter(LineEntry, 0, Rows(text))
    {
      hide Parser.Valid, Table.Valid, Rows, TableAfter, CountAfter, LineEntry, U16;
      ghost var before := m.view;
      var p := new Parser(text);
      count := 0;
      while true
        invariant p.Valid() && fresh(p.Repr)
        invariant m.Valid() && fresh(m.Repr - old(m.Repr)) && m.Repr !! p.Repr
        invariant NoBlankLine(p.ahead)
        invariant TableAfter(LineEntry, m.view, p.ahead) == TableAfter(LineEntry, before, Rows(text))
        invariant count < SHORT && CountAfter(LineEntry, count, p.ahead) == CountAfter(LineEntry, 0, Rows(text))
        decreases |p.ahead|
      {
        TableStep(LineEntry, m.view, p.ahead);
        CountStep(LineEntry, count, p.ahead);
        var more := p.Next();
        if !more {
          break;
        }
        var hit := ReadLine(m, p);
        count := U16(count + hit);
      }
      ReadIsOverride(LineEntry, before, Rows(text));
    }

    /** The loop of update: both lookups find a record, for every name in `delta`. */
    static method Subtract(delta: Table, current: Table, last: Table)
      requires delta.Valid() && current.Valid() && last.Valid()
      requires delta.Repr !! current.Repr && delta.Repr !! last.Repr
      requires delta.view.Keys <= last.view.Keys && delta.view.Keys <= current.view.Keys
      modifies delta.Repr
      ensures delta.Valid() && delta.Repr == old(delta.Repr)
      ensures delta.view == Diff(old(current.view), old(last.view), old(delta.view).Keys)
    {
      ghost var kept, diff := delta.view, Diff(current.view, last.view, delta.view.Keys);
      PartlyEnds(kept, diff);
      var rest := delta.records.Keys;
      while rest != {}
        invariant rest <= diff.Keys
        invariant delta.Valid() && delta.Repr == old(delta.Repr)
        invariant delta.view == Partly(kept, diff, rest)
        decreases rest
      {
        var k := Least(rest);
        var cpu := delta.records[k];
        PartlyStep(kept, diff, rest, k);
        rest := rest - {k};
        delta.Diff(k, current.records[cpu.name], last.records[cpu.name]);
      }
    }

    /** Set by fit() in the main program. */
    method Condense(on: bool)
      requires Valid()
      modifies `condensed
      ensures Valid() && condensed == on
    {
      condensed := on;
    }

    /** The lines of this section: the title, then one per name of `delta`, or just the first name. */
    ghost function ListingIf(condensed: bool): seq<string>
      reads delta
    {
      var names := Ascending(delta.view.Keys);
      ["CPUS"] + if condensed && names != [] then names[..1] else names
    }

    ghost function Listing(): seq<string>
      reads this, delta
    {
      ListingIf(condensed)
    }

    method Print(screen: Screen, test: bool) returns (count: nat, out: Screen)
      requires Valid()
      ensures count == U16(|Listing()|)
      ensures out == screen.After(test, Listing())
    {
      hide Screen.After, U16, Ascending, Least, Sorted, Distinct, IsLeast, IsRun, Inv;
      ghost var done := ["CPUS"];
      screen.AfterStep(test, [], "");
      assert [] + done == done;
      count, out := PrintRow(screen, "CPUS", test, 0, screen, []);
      var rest := delta.records.Keys;
      while rest != {}
        invariant rest <= delta.view.Keys
        invariant condensed ==> rest == delta.view.Keys && done == ["CPUS"]
        invariant done + Ascending(rest) == ["CPUS"] + Ascending(delta.view.Keys)
        invariant out == screen.After(test, done) && count == U16(|done|)
        decreases rest
      {
        var k := Least(rest);
        AscendingStep(done, rest);
        rest := rest - {k};
        var cpu := delta.records[k];
        count, out := PrintRow(out, cpu.name, test, count, screen, done);
        done := done + [k];
        if condensed {
          break;
        }
      }
      assert done == Listing();
    }
  }

  lemma AggregateFirst(keys: set<string>)
    requires keys != {} && forall k | k in keys :: "cpu" <= k
    ensures Ascending(keys)[0] == "cpu" <==> "cpu" in keys
  {
    assert Ascending(keys)[0] in Ascending(keys);
    if "cpu" in keys {
      forall j | j in keys
        ensures Le("cpu", j)
      {
        PrefixFirst("cpu", j);
      }
      assert IsLeast("cpu", keys) && IsLeast(Least(keys), keys);
      LeastUnique(keys);
    }
  }

  /** In condensed mode the one CPU row is the aggregate, exactly when the first sample had one. */
  lemma CondensedShowsAggregate(p: Processor)
    requires p.Valid() && p.condensed
    ensures p.Listing() == ["CPUS", "cpu"] <==> "cpu" in p.trail[0].delta
  {
    hide Le, Sorted, Distinct, IsLeast;
    NamesStay(p.trail, p.samples, WIDTH, {}, |p.trail| - 1);
    var keys := p.delta.view.Keys;
    assert keys == p.trail[0].delta.Keys;
    CondensedNames(keys);
  }

  lemma CondensedNames(keys: set<string>)
    requires forall k | k in keys :: "cpu" <= k
    ensures var names := Ascending(keys);
      ["CPUS"] + (if names != [] then names[..1] else names) == ["CPUS", "cpu"] <==> "cpu" in keys
  {
    hide Le, Sorted, Distinct, IsLeast;
    var names := Ascending(keys);
    if keys != {} {
      AggregateFirst(keys);
      assert ["CPUS"] + names[..1] == ["CPUS", names[0]];
      assert ["CPUS", "cpu"][1] == "cpu";
    } else {
      assert names == [];
    }
  }

  /**
   * Over the whole life of the object, everything shown for a counter is its final value minus the
   * first one read, plus 2^64 each time it fell; so it is exact if and only if it never fell.
   */
  lemma ShownIsRise(p: Processor, n: string, c: nat)
    requires p.Valid() && n in p.trail[0].delta && c < WIDTH
    ensures Tracked(p.trail, n, c)
    ensures Shown(p.trail, n, c) == Rise(p.trail, n, c) + WORD * Falls(p.trail, n, c)
    ensures Shown(p.trail, n, c) == Rise(p.trail, n, c)
      <==> forall i | 0 < i < |p.trail| :: !FellAt(p.trail, n, c, i)
  {
    Telescope(p.trail, p.samples, WIDTH, {}, n, c);
    ExactIffNeverFalls(p.trail, p.samples, WIDTH, {}, n, c);
  }
}
