/** c/mac/Processor.cpp: the CPU counters of the kernel, per core and in total. */
module MacProcessor {
  import opened Words
  import opened Ordering
  import opened Snapshot
  import opened CoreSums
  import opened Decimal

  class CPU {
    const name: string
    var user: Word
    var nice: Word
    var system: Word
    var idle: Word

    ghost function Vals(): (r: Row)
      reads this
      ensures |r| == WIDTH
    {
      [user, nice, system, idle]
    }

    /** new CPU, then the name; the counters hold whatever the memory held. */
    constructor (name: string)
      ensures this.name == name
    {
      this.name := name;
    }

    method Diff(newer: CPU, older: CPU)
      modifies this
      ensures Vals() == RowSub(old(newer.Vals()), old(older.Vals()))
    {
      user := Sub(newer.user, older.user);
      nice := Sub(newer.nice, older.nice);
      system := Sub(newer.system, older.system);
      idle := Sub(newer.idle, older.idle);
    }

    method Set(user: Word, nice: Word, system: Word, idle: Word)
      modifies this
      ensures Vals() == [user, nice, system, idle]
    {
      this.user := user;
      this.nice := nice;
      this.system := system;
      this.idle := idle;
    }

    method Add(user: Word, nice: Word, system: Word, idle: Word)
      modifies this
      ensures Vals() == RowAdd(old(Vals()), [user, nice, system, idle])
    {
      this.system := Words.Add(this.system, system);
      this.user := Words.Add(this.user, user);
      this.nice := Words.Add(this.nice, nice);
      this.idle := Words.Add(this.idle, idle);
    }
  }

  /** std::map<std::string, CPU *>. */
  class Table {
    var records: map<string, CPU>
    ghost var view: View           // the counters under each name
    ghost var Repr: set<object>    // the map and its records

    ghost predicate Valid()
      reads this, Repr
      ensures Valid() ==> this in Repr && Wide(view, WIDTH) && view.Keys == records.Keys
    {
      && this in Repr
      && view.Keys == records.Keys && Wide(view, WIDTH)
      && forall n | n in records ::
          records[n] in Repr && records[n].name == n && records[n].Vals() == view[n]
    }

    constructor ()
      ensures Valid() && fresh(Repr) && view == map[]
    {
      records := map[];
      view := map[];
      Repr := {this};
    }

    /** (*this)[name], or a new record put there when there was none, and its counters assigned. */
    method Store(name: string, user: Word, nice: Word, system: Word, idle: Word)
      requires Valid()
      modifies Repr
      ensures Valid() && fresh(Repr - old(Repr))
      ensures view == old(view)[name := [user, nice, system, idle]]
    {
      hide CPU.Vals;
      var cpu;
      if name in records {
        cpu := records[name];
      } else {
        cpu := new CPU(name);
        records := records[name := cpu];
        Repr := Repr + {cpu};
      }
      cpu.Set(user, nice, system, idle);
      view := view[name := cpu.Vals()];
    }

    /** (*this)[name]->diff(newer, older). */
    method Diff(name: string, newer: CPU, older: CPU)
      requires Valid() && name in records && newer !in Repr && older !in Repr
      modifies Repr
      ensures Valid() && Repr == old(Repr)
      ensures view == old(view)[name := RowSub(newer.Vals(), older.Vals())]
    {
      hide CPU.Vals;
      var cpu := records[name];
      cpu.Diff(newer, older);
      view := view[name := cpu.Vals()];
    }

    /** (*this)[name], for a name that is there, with more counted. */
    method Add(name: string, user: Word, nice: Word, system: Word, idle: Word)
      requires Valid() && name in records
      modifies Repr
      ensures Valid() && Repr == old(Repr)
      ensures view == old(view)[name := RowAdd(old(view)[name], [user, nice, system, idle])]
    {
      hide CPU.Vals;
      var cpu := records[name];
      cpu.Add(user, nice, system, idle);
      view := view[name := cpu.Vals()];
    }
  }

  class Processor {
    var condensed: bool
    var numCores: nat
    const last: Table
    const current: Table
    const delta: Table
    ghost var trail: seq<Snap>          // every state since the first sample was read
    ghost var samples: seq<View>        // what was read after it
    ghost var history: seq<seq<Ticks>>  // the kernel's counters at every reading

    /** The three maps, for frames. */
    ghost function Parts(): set<object> {
      {last, current, delta}
    }

    ghost function Repr(): set<object>
      reads this, last, current, delta
    {
      last.Repr + current.Repr + delta.Repr
    }

    ghost function Abs(): Snap
      reads this, last, current, delta
    {
      Snap(last.view, current.view, delta.view)
    }

    /** No record is shared between the maps, and each stands under its own name. */
    ghost predicate Shape()
      reads this, last, current, delta, Repr()
    {
      && last.Valid() && current.Valid() && delta.Valid()
      && this !in Repr()
      && last.Repr !! current.Repr && last.Repr !! delta.Repr && current.Repr !! delta.Repr
    }

    ghost predicate Valid()
      reads this, last, current, delta, Repr()
      ensures Valid() ==> Parts() <= Repr() && this !in Repr()
    {
      && Shape()
      && Inv(Abs(), WIDTH)
      && IsRun(trail, samples, WIDTH, {})
      && trail[|trail| - 1] == Abs()
      && Recorded(trail, samples, history)
    }

    constructor (boot: seq<Ticks>, next: seq<Ticks>)
      requires |boot| <= 1000 && |next| <= 1000
      ensures Valid() && fresh(Repr())
      ensures !condensed && numCores == U16(|boot|)
      ensures trail == [Snap(Sample(boot), Sample(boot), Sample(boot)), Abs()]
      ensures history == [boot, next]
    {
      condensed := false;
      last := new Table();
      current := new Table();
      delta := new Table();
      new;
      hide Processor.Valid;
      ghost var made := last.Repr + current.Repr + delta.Repr;
      assert fresh(made) && this !in made && Repr() == made;
      Start(boot, next);
      assert fresh(Repr() - made);
    }

    /** The constructor's calls. */
    method Start(boot: seq<Ticks>, next: seq<Ticks>)
      requires Shape() && Abs() == Snap(map[], map[], map[]) && |boot| <= 1000 && |next| <= 1000
      modifies this, Repr()
      ensures Valid() && fresh(Repr() - old(Repr()))
      ensures condensed == old(condensed)
      ensures numCores == U16(|boot|)
      ensures trail == [Snap(Sample(boot), Sample(boot), Sample(boot)), Abs()]
      ensures history == [boot, next]
    {
      hide Processor.Valid, Table.Valid, Sample, Step, Next, Diff, Inv, IsRun, Recorded, Wide, U16;
      ghost var r := Repr();
      Boot(boot);
      assert fresh(Repr() - r);
      ghost var seen := Repr();
      Update(next);
      assert Repr() - r <= (Repr() - seen) + (seen - r);
    }

    /** The constructor before it calls update(). */
    method Boot(ticks: seq<Ticks>)
      requires Shape() && Abs() == Snap(map[], map[], map[]) && |ticks| <= 1000
      modifies this, Repr()
      ensures Valid() && fresh(Repr() - old(Repr())) && condensed == old(condensed)
      ensures numCores == U16(|ticks|)
      ensures trail == [Snap(Sample(ticks), Sample(ticks), Sample(ticks))] && history == [ticks]
    {
      hide Table.Valid, Sample, IsRun, Recorded, Inv, Wide, U16;
      BootTables(ticks);
      Begin(ticks);
    }

    /** The history begins with the first reading. */
    ghost method Begin(ticks: seq<Ticks>)
      requires Shape() && Inv(Abs(), WIDTH) && Abs() == Snap(Sample(ticks), Sample(ticks), Sample(ticks))
      modifies `trail, `samples, `history
      ensures Valid() && trail == [Abs()] && history == [ticks] && Abs() == old(Abs()) && Repr() == old(Repr())
    {
      hide Table.Valid, Sample, IsRun, Recorded, Inv, Wide;
      StartRun(Abs(), WIDTH, {});
      StartRecorded(ticks);
      trail, samples, history := [Abs()], [], [ticks];
    }

    method BootTables(ticks: seq<Ticks>)
      requires Shape() && Abs() == Snap(map[], map[], map[]) && |ticks| <= 1000
      modifies `numCores, Repr()
      ensures Shape() && fresh(Repr() - old(Repr()))
      ensures numCores == U16(|ticks|)
      ensures Abs() == Snap(Sample(ticks), Sample(ticks), Sample(ticks)) && Inv(Abs(), WIDTH)
    {
      hide Table.Valid, Sample, IsRun, Recorded;
      numCores := Read(current, ticks);
      assert map[] + Sample(ticks) == Sample(ticks);
      Fill();
    }

    /** The two calls of copy in the constructor. */
    method Fill()
      requires Shape() && last.view == delta.view == map[]
      modifies last.Repr, delta.Repr
      ensures Shape() && fresh(Repr() - old(Repr())) && current.Repr == old(current.Repr)
      ensures last.view == delta.view == current.view == old(current.view)
    {
      hide Table.Valid;
      assert map[] + current.view == current.view;
      Copy(last, current);
      Copy(delta, current);
    }

    /** update() itself. */
    method Refresh(ticks: seq<Ticks>)
      requires Shape() && Inv(Abs(), WIDTH) && |ticks| <= 1000
      modifies Repr()
      ensures Shape() && fresh(Repr() - old(Repr()))
      ensures Abs() == Step(old(Abs()), Sample(ticks), WIDTH)
      ensures Next(old(Abs()), Sample(ticks), Abs(), WIDTH, {})
    {
      hide Table.Valid, Sample, Step, Next, RowSub, Diff;
      ghost var s := Abs();
      CopyAndRead(ticks);
      Subtract(delta, current, last);
      UpdateIsStep(s, Sample(ticks), Abs(), WIDTH);
    }

    /** The first two calls of update(). */
    method CopyAndRead(ticks: seq<Ticks>)
      requires Shape() && |ticks| <= 1000
      modifies last.Repr, current.Repr
      ensures Shape() && fresh(Repr() - old(Repr()))
      ensures last.view == old(last.view) + old(current.view)
      ensures current.view == old(current.view) + Sample(ticks) && delta.view == old(delta.view)
    {
      hide Table.Valid, Sample, Wide;
      Copy(last, current);
      var _ := Read(current, ticks);
    }

    method Update(ticks: seq<Ticks>)
      requires Valid() && |ticks| <= 1000
      modifies `trail, `samples, `history, Repr()
      ensures Valid() && fresh(Repr() - old(Repr()))
      ensures Abs() == Step(old(Abs()), Sample(ticks), WIDTH)
      ensures trail == old(trail) + [Abs()] && history == old(history) + [ticks]
    {
      hide Table.Valid, Sample, Next, RowSub, Diff, Recorded;
      Refresh(ticks);
      ExtendRun(trail, samples, Sample(ticks), Abs(), WIDTH, {});
      ExtendRecorded(trail, samples, history, ticks, Abs());
      trail, samples, history := trail + [Abs()], samples + [Sample(ticks)], history + [ticks];
    }

    /** copy: every name of `src` in ascending order, its record found or made in `dst`. */
    static method Copy(dst: Table, src: Table)
      requires dst.Valid() && src.Valid() && dst.Repr !! src.Repr
      modifies dst.Repr
      ensures dst.Valid() && fresh(dst.Repr - old(dst.Repr))
      ensures dst.view == old(dst.view) + src.view
    {
      ghost var kept := dst.view;
      PartlyEnds(kept, src.view);
      var rest := src.records.Keys;
      while rest != {}
        invariant rest <= src.view.Keys
        invariant dst.Valid() && fresh(dst.Repr - old(dst.Repr))
        invariant dst.view == Partly(kept, src.view, rest)
        decreases rest
      {
        var k := Least(rest);
        var o := src.records[k];
        PartlyStep(kept, src.view, rest, k);
        rest := rest - {k};
        dst.Store(o.name, o.user, o.nice, o.system, o.idle);
      }
    }

    /** The total is zeroed, then every core is stored and added to it. */
    static method Read(m: Table, ticks: seq<Ticks>) returns (count: nat)
      requires m.Valid() && |ticks| <= 1000
      modifies m.Repr
      ensures m.Valid() && fresh(m.Repr - old(m.Repr))
      ensures m.view == old(m.view) + Sample(ticks)
      ensures count == U16(|ticks|)
    {
      hide Table.Valid, Sample, RowAdd, CoreName;
      ghost var before := m.view;
      assert Sample(ticks[..0]) == map[TOTAL := ZERO] by { NoCores(); }
      m.Store(TOTAL, 0, 0, 0, 0);
      for i := 0 to |ticks|
        invariant m.Valid() && fresh(m.Repr - old(m.Repr))
        invariant m.view == before + Sample(ticks[..i])
      {
        var t, name := ticks[i], CoreName(i);
        CoreNamesDiffer(i, i);
        ReadStep(before, ticks, i);
        m.Store(name, t.user, t.nice, t.system, t.idle);
        m.Add(TOTAL, t.user, t.nice, t.system, t.idle);
      }
      assert ticks[..|ticks|] == ticks;
      count := U16(|ticks|);
    }

    /** The loop of update: both lookups find a record, for every name in `delta`. */
    static method Subtract(delta: Table, current: Table, last: Table)
      requires delta.Valid() && current.Valid() && last.Valid()
      requires delta.Repr !! current.Repr && delta.Repr !! last.Repr
      requires delta.view.Keys <= last.view.Keys && delta.view.Keys <= current.view.Keys
      modifies delta.Repr
      ensures delta.Valid() && delta.Repr == old(delta.Repr)
      ensures delta.view == Diff(old(current.view), old(last.view), old(delta.view).Keys)
    {
      ghost var kept, diff := delta.view, Diff(current.view, last.view, delta.view.Keys);
      PartlyEnds(kept, diff);
      var rest := delta.records.Keys;
      while rest != {}
        invariant rest <= diff.Keys
        invariant delta.Valid() && delta.Repr == old(delta.Repr)
        invariant delta.view == Partly(kept, diff, rest)
        decreases rest
      {
        var k := Least(rest);
        var cpu := delta.records[k];
        PartlyStep(kept, diff, rest, k);
        rest := rest - {k};
        delta.Diff(k, current.records[cpu.name], last.records[cpu.name]);
      }
    }
  }

  /** While the kernel reports `n` cores, the row CPU is the sum of the rows CPU0 to CPUn-1, in all maps. */
  lemma TotalIsSum(p: Processor, n: nat)
    requires p.Valid() && forall k | 0 <= k < |p.history| :: |p.history[k]| == n
    ensures AllAgree(Snap(p.last.view, p.current.view, p.delta.view), n)
    ensures forall i | 0 <= i < |p.trail| :: AllAgree(p.trail[i], n)
  {
    forall i | 0 <= i < |p.trail|
      ensures AllAgree(p.trail[i], n)
    {
      RunAgrees(p.trail, p.samples, p.history, n, i);
    }
    assert p.trail[|p.trail| - 1] == p.Abs();
  }

  /**
   * And however the number of cores changes, the total shown is their sum exactly if it counts nothing new
   * beside them.
   */
  lemma TotalIsSumExactly(p: Processor)
    requires p.Valid() && |p.trail| > 1
    ensures var i, n := |p.trail| - 1, |p.history[0]|;
      Agrees(p.delta.view, n) <==>
        SameSurplus(p.current.view, |p.history[i]|, p.trail[i - 1].current, |p.history[i - 1]|, n)
  {
    RunAgreesExactly(p.trail, p.samples, p.history, |p.trail| - 1);
    assert p.trail[|p.trail| - 1] == p.Abs();
  }

  /**
   * What a reading leaves in the fields of the records: under "CPU0" and so on the kernel's counters of that
   * core, and under "CPU" each of them added up over all cores, modulo 2^64.
   */
  lemma RecordsRead(m: Table, before: View, ticks: seq<Ticks>, i: nat)
    requires m.Valid() && m.view == before + Sample(ticks) && i < |ticks|
    ensures "CPU" in m.records && "CPU" + Dec(i) in m.records
    ensures var r, t := m.records["CPU" + Dec(i)], ticks[i];
      r.user == t.user && r.system == t.system && r.idle == t.idle && r.nice == t.nice
    ensures var r := m.records["CPU"];
      && r.user == Over(ticks, (t: Ticks) => t.user) % WORD && r.system == Over(ticks, (t: Ticks) => t.system) % WORD
      && r.idle == Over(ticks, (t: Ticks) => t.idle) % WORD && r.nice == Over(ticks, (t: Ticks) => t.nice) % WORD
  {
    hide Sample;
    SampleAgrees(ticks);
    TotalOver(ticks, 0, (t: Ticks) => t.user);
    TotalOver(ticks, 1, (t: Ticks) => t.nice);
    TotalOver(ticks, 2, (t: Ticks) => t.system);
    TotalOver(ticks, 3, (t: Ticks) => t.idle);
    var n := CoreName(i);
    assert n == "CPU" + Dec(i) && n in m.view.Keys && TOTAL in m.view.Keys;
    assert m.view[n] == RowOf(ticks[i]) && m.view[TOTAL] == Sample(ticks)[TOTAL];
    assert m.records[n].Vals() == RowOf(ticks[i]);
    assert m.records[TOTAL].Vals() == Sample(ticks)[TOTAL];
    RowFields(m.records[n], RowOf(ticks[i]));
    RowFields(m.records[TOTAL], Sample(ticks)[TOTAL]);
  }

  lemma RowFields(r: CPU, row: Row)
    requires r.Vals() == row
    ensures r.user == row[0] && r.nice == row[1] && r.system == row[2] && r.idle == row[3]
  {
  }
}
