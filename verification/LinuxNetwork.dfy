/** c/linux/Network.cpp: the interface counters of /proc/net/dev. */
module LinuxNetwork {
  import opened Words
  import opened Ordering
  import opened Parsing
  import opened Splitting
  import opened Sampling
  import opened Snapshot
  import opened Terminal

  const WIDTH: nat := 16

  /** The column that copy does not assign. */
  const MULTICAST: nat := 7

  /** The column that decides whether an interface is shown. */
  const TX_PACKETS: nat := 9

  lemma SixteenSubs(a: Row, b: Row)
    requires |a| == |b| == WIDTH
    ensures RowSub(a, b) ==
      [Sub(a[0], b[0]), Sub(a[1], b[1]), Sub(a[2], b[2]), Sub(a[3], b[3]), Sub(a[4], b[4]), Sub(a[5], b[5]),
       Sub(a[6], b[6]), Sub(a[7], b[7]), Sub(a[8], b[8]), Sub(a[9], b[9]), Sub(a[10], b[10]), Sub(a[11], b[11]),
       Sub(a[12], b[12]), Sub(a[13], b[13]), Sub(a[14], b[14]), Sub(a[15], b[15])]
  {
  }

  class NetStats {
    const name: string
    var rxBytes: Word
    var rxPackets: Word
    var rxErrors: Word
    var rxDrop: Word
    var rxFifo: Word
    var rxFrame: Word
    var rxCompressed: Word
    var rxMulticast: Word
    var txBytes: Word
    var txPackets: Word
    var txErrors: Word
    var txDrop: Word
    var txFifo: Word
    var txCalls: Word
    var txCarrier: Word
    var txCompressed: Word

    ghost function Vals(): (r: Row)
      reads this
      ensures |r| == WIDTH
      ensures r[MULTICAST] == rxMulticast && r[TX_PACKETS] == txPackets
    {
      [rxBytes, rxPackets, rxErrors, rxDrop, rxFifo, rxFrame, rxCompressed, rxMulticast, txBytes, txPackets,
       txErrors, txDrop, txFifo, txCalls, txCarrier, txCompressed]
    }

    /** new NetStats, then the name; the counters hold whatever the memory held. */
    constructor (name: string)
      ensures this.name == name
    {
      this.name := name;
    }

    method Diff(newer: NetStats, older: NetStats)
      modifies this
      ensures Vals() == RowSub(old(newer.Vals()), old(older.Vals()))
    {
      SixteenSubs(newer.Vals(), older.Vals());
      Set(Sub(newer.rxBytes, older.rxBytes), Sub(newer.rxPackets, older.rxPackets),
          Sub(newer.rxErrors, older.rxErrors), Sub(newer.rxDrop, older.rxDrop), Sub(newer.rxFifo, older.rxFifo),
          Sub(newer.rxFrame, older.rxFrame), Sub(newer.rxCompressed, older.rxCompressed),
          Sub(newer.rxMulticast, older.rxMulticast), Sub(newer.txBytes, older.txBytes),
          Sub(newer.txPackets, older.txPackets), Sub(newer.txErrors, older.txErrors),
          Sub(newer.txDrop, older.txDrop), Sub(newer.txFifo, older.txFifo), Sub(newer.txCalls, older.txCalls),
          Sub(newer.txCarrier, older.txCarrier), Sub(newer.txCompressed, older.txCompressed));
    }

    method Set(rxBytes: Word, rxPackets: Word, rxErrors: Word, rxDrop: Word, rxFifo: Word, rxFrame: Word,
        rxCompressed: Word, rxMulticast: Word, txBytes: Word, txPackets: Word, txErrors: Word, txDrop: Word,
        txFifo: Word, txCalls: Word, txCarrier: Word, txCompressed: Word)
      modifies this
      ensures Vals() == [rxBytes, rxPackets, rxErrors, rxDrop, rxFifo, rxFrame, rxCompressed, rxMulticast, txBytes,
        txPackets, txErrors, txDrop, txFifo, txCalls, txCarrier, txCompressed]
    {
      SetReceived(rxBytes, rxPackets, rxErrors, rxDrop, rxFifo, rxFrame, rxCompressed, rxMulticast);
      SetSent(txBytes, txPackets, txErrors, txDrop, txFifo, txCalls, txCarrier, txCompressed);
    }

    method SetReceived(bytes: Word, packets: Word, errors: Word, drop: Word, fifo: Word, frame: Word, compressed: Word,
        multicast: Word)
      modifies `rxBytes, `rxPackets, `rxErrors, `rxDrop, `rxFifo, `rxFrame, `rxCompressed, `rxMulticast
      ensures rxBytes == bytes && rxPackets == packets && rxErrors == errors && rxDrop == drop
      ensures rxFifo == fifo && rxFrame == frame && rxCompressed == compressed && rxMulticast == multicast
    {
      rxBytes := bytes;
      rxPackets := packets;
      rxErrors := errors;
      rxDrop := drop;
      rxFifo := fifo;
      rxFrame := frame;
      rxCompressed := compressed;
      rxMulticast := multicast;
    }

    method SetSent(bytes: Word, packets: Word, errors: Word, drop: Word, fifo: Word, calls: Word, carrier: Word,
        compressed: Word)
      modifies `txBytes, `txPackets, `txErrors, `txDrop, `txFifo, `txCalls, `txCarrier, `txCompressed
      ensures txBytes == bytes && txPackets == packets && txErrors == errors && txDrop == drop
      ensures txFifo == fifo && txCalls == calls && txCarrier == carrier && txCompressed == compressed
    {
      txBytes := bytes;
      txPackets := packets;
      txErrors := errors;
      txDrop := drop;
      txFifo := fifo;
      txCalls := calls;
      txCarrier := carrier;
      txCompressed := compressed;
    }

    /** copy's assignments: rx_multicast is only mentioned there, so it keeps its value. */
    method Assign(o: NetStats)
      requires o != this
      modifies this
      ensures rxMulticast == old(rxMulticast)
      ensures Vals() == [o.rxBytes, o.rxPackets, o.rxErrors, o.rxDrop, o.rxFifo, o.rxFrame, o.rxCompressed,
        old(rxMulticast), o.txBytes, o.txPackets, o.txErrors, o.txDrop, o.txFifo, o.txCalls, o.txCarrier,
        o.txCompressed]
    {
      Set(o.rxBytes, o.rxPackets, o.rxErrors, o.rxDrop, o.rxFifo, o.rxFrame, o.rxCompressed, rxMulticast,
          o.txBytes, o.txPackets, o.txErrors, o.txDrop, o.txFifo, o.txCalls, o.txCarrier, o.txCompressed);
    }
  }

  /** The numbers that read's loop body assigns, in the order it assigns them. */
  method GetCounters(p: Parser)
    returns (rxBytes: Word, rxPackets: Word, rxErrors: Word, rxDrop: Word, rxFifo: Word, rxFrame: Word,
        rxCompressed: Word, rxMulticast: Word, txBytes: Word, txPackets: Word, txErrors: Word, txDrop: Word,
        txFifo: Word, txCalls: Word, txCarrier: Word, txCompressed: Word)
    requires p.Valid() && p.taken == 1
    modifies p.Repr
    ensures p.Valid() && p.Repr == old(p.Repr) && p.ahead == old(p.ahead)
    ensures var ts := old(p.tokens);
      && rxBytes == Num(ts, 1) && rxPackets == Num(ts, 2) && rxErrors == Num(ts, 3) && rxDrop == Num(ts, 4) &&
      rxFifo == Num(ts, 5) && rxFrame == Num(ts, 6) && rxCompressed == Num(ts, 7) &&
      rxMulticast == Num(ts, 8) && txBytes == Num(ts, 9) && txPackets == Num(ts, 10) &&
      txErrors == Num(ts, 11) && txDrop == Num(ts, 12) && txFifo == Num(ts, 13) && txCalls == Num(ts, 14) &&
      txCarrier == Num(ts, 15) && txCompressed == Num(ts, 16)
  {
    hide Parser.Valid;
    rxBytes := p.GetLong();
    rxPackets := p.GetLong();
    rxErrors := p.GetLong();
    rxDrop := p.GetLong();
    rxFifo := p.GetLong();
    rxFrame := p.GetLong();
    rxCompressed := p.GetLong();
    rxMulticast := p.GetLong();
    txBytes := p.GetLong();
    txPackets := p.GetLong();
    txErrors := p.GetLong();
    txDrop := p.GetLong();
    txFifo := p.GetLong();
    txCalls := p.GetLong();
    txCarrier := p.GetLong();
    txCompressed := p.GetLong();
  }

  /** `to` is what copy's assignments make of a record, but for the column they leave out. */
  predicate CopiesRow(to: Row, from: Row) {
    |to| == |from| == WIDTH && forall c | 0 <= c < WIDTH && c != MULTICAST :: to[c] == from[c]
  }

  lemma AssignedRow(o: NetStats, kept: Word)
    ensures CopiesRow([o.rxBytes, o.rxPackets, o.rxErrors, o.rxDrop, o.rxFifo, o.rxFrame, o.rxCompressed, kept,
         o.txBytes, o.txPackets, o.txErrors, o.txDrop, o.txFifo, o.txCalls, o.txCarrier, o.txCompressed], o.Vals())
  {
  }

  /** std::map<std::string, NetStats *>. */
  class Table {
    var records: map<string, NetStats>
    ghost var view: View           // the counters under each name
    ghost var Repr: set<object>    // the map and its records

    ghost predicate Valid()
      reads this, Repr
      ensures Valid() ==> this in Repr && Wide(view, WIDTH) && view.Keys == records.Keys
    {
      && this in Repr
      && view.Keys == records.Keys && Wide(view, WIDTH)
      && forall n | n in records ::
          records[n] in Repr && records[n].name == n && records[n].Vals() == view[n]
    }

    constructor ()
      ensures Valid() && fresh(Repr) && view == map[]
    {
      records := map[];
      view := map[];
      Repr := {this};
    }

    /** (*this)[name], or a new record put there when there was none, and its counters assigned. */
    method Store(name: string, rxBytes: Word, rxPackets: Word, rxErrors: Word, rxDrop: Word, rxFifo: Word,
        rxFrame: Word, rxCompressed: Word, rxMulticast: Word, txBytes: Word, txPackets: Word, txErrors: Word,
        txDrop: Word, txFifo: Word, txCalls: Word, txCarrier: Word, txCompressed: Word)
      requires Valid()
      modifies Repr
      ensures Valid() && fresh(Repr - old(Repr))
      ensures view == old(view)[name := [rxBytes, rxPackets, rxErrors, rxDrop, rxFifo, rxFrame, rxCompressed,
        rxMulticast, txBytes, txPackets, txErrors, txDrop, txFifo, txCalls, txCarrier, txCompressed]]
    {
      hide NetStats.Vals;
      var iface;
      if name in records {
        iface := records[name];
      } else {
        iface := new NetStats(name);
        records := records[name := iface];
        Repr := Repr + {iface};
      }
      iface.Set(rxBytes, rxPackets, rxErrors, rxDrop, rxFifo, rxFrame, rxCompressed, rxMulticast, txBytes, txPackets,
        txErrors, txDrop, txFifo, txCalls, txCarrier, txCompressed);
      view := view[name := iface.Vals()];
    }

    /** (*this)[o->name], or a new record put there when there was none, and copy's assignments. */
    method Assign(o: NetStats) returns (ghost row: Row)
      requires Valid() && o !in Repr
      modifies Repr
      ensures Valid() && fresh(Repr - old(Repr))
      ensures view == old(view)[o.name := row] && CopiesRow(row, o.Vals())
      ensures o.name in old(view) ==> row[MULTICAST] == old(view)[o.name][MULTICAST]
    {
      hide CopiesRow, NetStats.Vals;
      var iface;
      if o.name in records {
        iface := records[o.name];
      } else {
        iface := new NetStats(o.name);
        records := records[o.name := iface];
        Repr := Repr + {iface};
      }
      AssignedRow(o, iface.rxMulticast);
      iface.Assign(o);
      row := iface.Vals();
      view := view[o.name := row];
    }

    /** (*this)[name]->diff(newer, older). */
    method Diff(name: string, newer: NetStats, older: NetStats)
      requires Valid() && name in records && newer !in Repr && older !in Repr
      modifies Repr
      ensures Valid() && Repr == old(Repr)
      ensures view == old(view)[name := RowSub(newer.Vals(), older.Vals())]
    {
      hide NetStats.Vals;
      var iface := records[name];
      iface.Diff(newer, older);
      view := view[name := iface.Vals()];
    }
  }

  // ----- What a sample of /proc/net/dev says -----

  function Counters(ts: seq<string>): Row {
    [Num(ts, 1), Num(ts, 2), Num(ts, 3), Num(ts, 4), Num(ts, 5), Num(ts, 6), Num(ts, 7), Num(ts, 8), Num(ts, 9),
     Num(ts, 10), Num(ts, 11), Num(ts, 12), Num(ts, 13), Num(ts, 14), Num(ts, 15), Num(ts, 16)]
  }

  /** The first token without its last character, the colon. */
  function NameOf(ts: seq<string>): string
    requires ts != [] && ts[0] != ""
  {
    ts[0][..|ts[0]| - 1]
  }

  function LineEntry(ts: seq<string>): seq<Entry> {
    if ts != [] && ts[0] != "" then [Entry(NameOf(ts), Counters(ts))] else []
  }

  lemma LineEntryReads()
    ensures Reads(LineEntry, WIDTH)
  {
  }

  /** How many names a table has that were not there before, as read's uint16_t counts them. */
  function NewNames(before: set<string>, names: set<string>): nat {
    U16(|names - before|)
  }

  lemma NewNamesStep(before: set<string>, names: set<string>, name: string)
    requires before <= names
    ensures NewNames(before, names + {name}) == U16(NewNames(before, names) + if name in names then 0 else 1)
  {
    U16Add(|names - before|, if name in names then 0 else 1);
    if name in names {
      assert names + {name} == names;
    } else {
      assert names + {name} - before == (names - before) + {name};
    }
  }

  /** The same of two tables. */
  function NewIn(v: View, before: View): nat {
    NewNames(before.Keys, v.Keys)
  }

  lemma NewInStep(before: View, v: View, v': View, name: string)
    requires before.Keys <= v.Keys && v'.Keys == v.Keys + {name}
    ensures NewIn(v', before) == U16(NewIn(v, before) + if name in v then 0 else 1)
  {
    hide U16, NewNames;
    var b, ks, ks' := before.Keys, v.Keys, v'.Keys;
    NewNamesStep(b, ks, name);
    assert ks' == ks + {name};
    assert name in ks <==> name in v;
  }

  lemma NoNewNames(names: set<string>)
    ensures NewNames(names, names) == 0 && NewNames({}, names) == U16(|names|)
  {
    assert names - names == {} && names - {} == names;
  }

  lemma NoneNew(v: View)
    ensures NewIn(v, v) == 0 && NewIn(v, map[]) == U16(|v.Keys|)
  {
    NoNewNames(v.Keys);
  }

  /** print shows an interface unless it is the loopback or never sent a packet. */
  predicate IsShown(n: string, newest: View) {
    n != "lo" && n in newest && |newest[n]| == WIDTH && newest[n][TX_PACKETS] != 0
  }

  function Listed(newest: View, names: seq<string>): seq<string> {
    if names == [] then []
    else (if IsShown(names[0], newest) then [names[0]] else []) + Listed(newest, names[1..])
  }

  /** What will have been printed after `done` when the names `rest` are still ahead. */
  function ListedAfter(done: seq<string>, newest: View, rest: set<string>): seq<string> {
    done + Listed(newest, Ascending(rest))
  }

  lemma ListedEnds(done: seq<string>, newest: View)
    ensures ListedAfter(done, newest, {}) == done
  {
  }

  lemma ListedStep(done: seq<string>, newest: View, rest: set<string>)
    requires rest != {}
    ensures var k := Least(rest);
      ListedAfter(done, newest, rest) ==
        ListedAfter(if IsShown(k, newest) then done + [k] else done, newest, rest - {k})
  {
    hide Ascending, Least, Le, Sorted, Distinct, IsLeast, IsShown, Listed;
    AscendingStep([], rest);
    var k := Least(rest);
    var ks := Ascending(rest - {k});
    ListedCons(newest, k, ks);
    assert done + ([k] + Listed(newest, ks)) == done + [k] + Listed(newest, ks);
    assert done + ([] + Listed(newest, ks)) == done + Listed(newest, ks);
  }

  lemma ListedCons(newest: View, k: string, ks: seq<string>)
    ensures Listed(newest, [k] + ks) == (if IsShown(k, newest) then [k] else []) + Listed(newest, ks)
  {
    assert ([k] + ks)[1..] == ks;
  }

  /** The lines below the two header lines. */
  function Body(text: string): seq<seq<string>> {
    Drop2(Rows(text))
  }

  function Drop2(rows: seq<seq<string>>): seq<seq<string>> {
    if |rows| < 2 then [] else rows[2..]
  }

  function Sample(text: string): (v: View)
    ensures Wide(v, WIDTH)
  {
    LineEntryReads();
    SampleWide(LineEntry, Body(text), WIDTH);
    SampleOf(LineEntry, Body(text))
  }

  predicate NoBlankLine(rows: seq<seq<string>>) {
    forall i | 0 <= i < |rows| :: rows[i] != []
  }

  /** The first token of every line below the headers is written to, so it must be there. */
  predicate Readable(text: string) {
    NoBlankLine(Body(text))
  }

  /** Where read stands with the lines `ahead` still to come. */
  ghost predicate ReadSoFar(before: View, rows: seq<seq<string>>, v: View, ahead: seq<seq<string>>, count: nat) {
    && NoBlankLine(ahead) && (forall i | 0 <= i < |ahead| :: ProperRow(ahead[i]))
    && TableAfter(LineEntry, v, ahead) == TableAfter(LineEntry, before, rows)
    && before.Keys <= v.Keys && count == NewIn(v, before)
  }

  lemma ReadStarts(before: View, text: string)
    requires Readable(text)
    ensures ReadSoFar(before, Body(text), before, Body(text), 0)
  {
    hide TableAfter, NewIn;
    RowsAreProper(text);
    NoneNew(before);
  }

  lemma ReadAhead(before: View, rows: seq<seq<string>>, v: View, ahead: seq<seq<string>>, count: nat)
    requires ReadSoFar(before, rows, v, ahead, count) && ahead != []
    ensures ahead[0] != [] && ProperRow(ahead[0])
  {
  }

  lemma ReadStep(before: View, rows: seq<seq<string>>, v: View, v': View, ahead: seq<seq<string>>, count: nat, hit: nat)
    requires ReadSoFar(before, rows, v, ahead, count) && ahead != [] && ahead[0] != [] && ahead[0][0] != ""
    requires v' == Overlay(v, LineEntry(ahead[0])) && v'.Keys == v.Keys + {NameOf(ahead[0])}
    requires hit == if NameOf(ahead[0]) in v then 0 else 1
    ensures ReadSoFar(before, rows, v', ahead[1..], U16(count + hit))
  {
    hide TableAfter, NewIn, Overlay, U16, NameOf;
    TableStep(LineEntry, v, ahead);
    NewInStep(before, v, v', NameOf(ahead[0]));
  }

  lemma ReadEnds(before: View, text: string, v: View, count: nat)
    requires ReadSoFar(before, Body(text), v, [], count)
    ensures v == before + Sample(text) && count == NewIn(v, before)
  {
    hide NewIn, Body;
    TableStep(LineEntry, v, []);
    ReadIsOverride(LineEntry, before, Body(text));
  }

  class Network {
    var numInterfaces: nat
    const last: Table
    const current: Table
    const delta: Table
    ghost var trail: seq<Snap>     // every state since the first sample was read
    ghost var samples: seq<View>   // what was read after it

    /** The three maps, for frames. */
    ghost function Parts(): set<object> {
      {last, current, delta}
    }

    ghost function Repr(): set<object>
      reads this, last, current, delta
    {
      last.Repr + current.Repr + delta.Repr
    }

    ghost function Abs(): Snap
      reads this, last, current, delta
    {
      Snap(last.view, current.view, delta.view)
    }

    /** No record is shared between the maps, and each stands under its own name. */
    ghost predicate Shape()
      reads this, last, current, delta, Repr()
    {
      && last.Valid() && current.Valid() && delta.Valid()
      && this !in Repr()
      && last.Repr !! current.Repr && last.Repr !! delta.Repr && current.Repr !! delta.Repr
    }

    ghost predicate Valid()
      reads this, last, current, delta, Repr()
      ensures Valid() ==> Parts() <= Repr() && this !in Repr()
    {
      && Shape()
      && Inv(Abs(), WIDTH)
      && IsRun(trail, samples, WIDTH, {MULTICAST})
      && trail[|trail| - 1] == Abs()
    }

    constructor (boot: string, next: string)
      requires Readable(boot) && Readable(next)
      ensures Valid() && fresh(Repr())
      ensures numInterfaces == U16(|Sample(boot).Keys|)
      ensures |trail| == 2 && trail[1] == Abs()
      ensures Starts(Sample(boot), trail[0], WIDTH, {MULTICAST})
      ensures samples == [Sample(next)]
    {
      last := new Table();
      current := new Table();
      delta := new Table();
      new;
      hide Starts, Copied, Sample, IsRun, Inv;
      hide Network.Valid;
      ghost var made := last.Repr + current.Repr + delta.Repr;
      assert fresh(made) && this !in made && Repr() == made;
      Start(boot, next);
      assert fresh(Repr() - made);
    }

    /** The constructor's calls. */
    method Start(boot: string, next: string)
      requires Shape() && Abs() == Snap(map[], map[], map[]) && Readable(boot) && Readable(next)
      modifies this, Repr()
      ensures Valid() && fresh(Repr() - old(Repr()))
      ensures numInterfaces == U16(|Sample(boot).Keys|)
      ensures |trail| == 2 && trail[1] == Abs()
      ensures Starts(Sample(boot), trail[0], WIDTH, {MULTICAST})
      ensures samples == [Sample(next)]
    {
      hide Network.Valid, Table.Valid, Sample, Next, Inv, Starts, IsRun, Readable, U16;
      Boot(boot);
      Update(next);
    }

    /** The constructor before it calls update(). */
    method Boot(text: string)
      requires Shape() && Abs() == Snap(map[], map[], map[]) && Readable(text)
      modifies this, Repr()
      ensures Valid() && fresh(Repr() - old(Repr()))
      ensures numInterfaces == U16(|Sample(text).Keys|)
      ensures |trail| == 1 && Starts(Sample(text), trail[0], WIDTH, {MULTICAST}) && samples == []
    {
      hide Table.Valid, IsRun, Sample, Readable, Copied, Inv, Starts;
      BootTables(text);
      StartsRun(Sample(text), Abs(), WIDTH, {MULTICAST});
      trail, samples := [Abs()], [];
    }

    method BootTables(text: string)
      requires Shape() && Abs() == Snap(map[], map[], map[]) && Readable(text)
      modifies `numInterfaces, Repr()
      ensures Shape() && fresh(Repr() - old(Repr()))
      ensures current.view == Sample(text) && numInterfaces == U16(|Sample(text).Keys|)
      ensures Copied(last.view, map[], current.view, {MULTICAST})
      ensures Copied(delta.view, map[], current.view, {MULTICAST})
    {
      hide Table.Valid, Sample, Readable, Copied, NewIn;
      numInterfaces := Read(current, text);
      NoneNew(Sample(text));
      assert map[] + Sample(text) == Sample(text);
      Fill();
    }

    /** The two calls of copy in the constructor. */
    method Fill()
      requires Shape() && last.view == delta.view == map[]
      modifies last.Repr, delta.Repr
      ensures Shape() && fresh(Repr() - old(Repr())) && current.Repr == old(current.Repr)
      ensures current.view == old(current.view)
      ensures Copied(last.view, map[], current.view, {MULTICAST})
      ensures Copied(delta.view, map[], current.view, {MULTICAST})
    {
      hide Table.Valid, Copied;
      Copy(last, current);
      Copy(delta, current);
    }

    /** update() itself. */
    method Refresh(text: string)
      requires Shape() && Inv(Abs(), WIDTH) && Readable(text)
      modifies Repr()
      ensures Shape() && fresh(Repr() - old(Repr()))
      ensures Inv(Abs(), WIDTH) && Next(old(Abs()), Sample(text), Abs(), WIDTH, {MULTICAST})
    {
      hide Table.Valid, Sample, Readable, Copied, RowSub, Next, Diff, NewIn, NewNames, U16;
      ghost var s := Abs();
      CopyAndRead(text);
      CopiedKeys(last.view, s.last, s.current, {MULTICAST});
      Subtract(delta, current, last);
      UpdateIsNext(s, Sample(text), Abs(), WIDTH, {MULTICAST});
    }

    /** The first two calls of update(). */
    method CopyAndRead(text: string)
      requires Shape() && Readable(text)
      modifies last.Repr, current.Repr
      ensures Shape() && fresh(Repr() - old(Repr()))
      ensures Copied(last.view, old(last.view), old(current.view), {MULTICAST})
      ensures current.view == old(current.view) + Sample(text) && delta.view == old(delta.view)
    {
      hide Table.Valid, Sample, Wide, Readable, Copied, NewIn;
      Copy(last, current);
      var _ := Read(current, text);
    }

    method Update(text: string)
      requires Valid() && Readable(text)
      modifies `trail, `samples, Repr()
      ensures Valid() && fresh(Repr() - old(Repr()))
      ensures Next(old(Abs()), Sample(text), Abs(), WIDTH, {MULTICAST})
      ensures trail == old(trail) + [Abs()] && samples == old(samples) + [Sample(text)]
    {
      hide Table.Valid, Readable, Next, RowSub, Diff;
      Refresh(text);
      ExtendRun(trail, samples, Sample(text), Abs(), WIDTH, {MULTICAST});
      trail, samples := trail + [Abs()], samples + [Sample(text)];
    }

    /** copy: every name of `src` in ascending order, its record found or made in `dst`. */
    static method Copy(dst: Table, src: Table)
      requires dst.Valid() && src.Valid() && dst.Repr !! src.Repr
      modifies dst.Repr
      ensures dst.Valid() && fresh(dst.Repr - old(dst.Repr))
      ensures Copied(dst.view, old(dst.view), src.view, {MULTICAST})
    {
      hide Copied;
      ghost var kept := dst.view;
      CopiedEnds(kept, src.view, {MULTICAST});
      var rest := src.records.Keys;
      while rest != {}
        invariant rest <= src.view.Keys
        invariant dst.Valid() && fresh(dst.Repr - old(dst.Repr))
        invariant Copied(dst.view, kept, src.view - rest, {MULTICAST})
        decreases rest
      {
        var k := Least(rest);
        var o := src.records[k];
        ghost var before := dst.view;
        ghost var row := dst.Assign(o);
        CopiedStep(before, kept, src.view, rest, k, row, {MULTICAST});
        rest := rest - {k};
      }
    }

    /** The body of read's loop, for the line the parser is at. */
    static method ReadLine(m: Table, p: Parser) returns (hit: nat)
      requires m.Valid() && p.Valid() && m.Repr !! p.Repr
      requires p.taken == 0 && p.tokens != [] && ProperRow(p.tokens)
      modifies m.Repr, p.Repr
      ensures m.Valid() && fresh(m.Repr - old(m.Repr))
      ensures p.Valid() && p.Repr == old(p.Repr) && p.ahead == old(p.ahead)
      ensures m.view == Overlay(old(m.view), LineEntry(old(p.tokens)))
      ensures m.view.Keys == old(m.view).Keys + {NameOf(old(p.tokens))}
      ensures hit == if NameOf(old(p.tokens)) in old(m.view) then 0 else 1
    {
      hide Parser.Valid, Table.Valid, Num;
      var token := p.GetToken();
      var name := token.value[..|token.value| - 1];
      hit := if name in m.records then 0 else 1;
      var rxBytes, rxPackets, rxErrors, rxDrop, rxFifo, rxFrame, rxCompressed, rxMulticast, txBytes, txPackets,
        txErrors, txDrop, txFifo, txCalls, txCarrier, txCompressed := GetCounters(p);
      m.Store(name, rxBytes, rxPackets, rxErrors, rxDrop, rxFifo, rxFrame, rxCompressed, rxMulticast, txBytes,
        txPackets, txErrors, txDrop, txFifo, txCalls, txCarrier, txCompressed);
    }

    /** read counts the names that were not in the table before. */
    static method Read(m: Table, text: string) returns (count: nat)
      requires m.Valid() && Readable(text)
      modifies m.Repr
      ensures m.Valid() && fresh(m.Repr - old(m.Repr))
      ensures m.view == old(m.view) + Sample(text)
      ensures count == NewIn(m.view, old(m.view))
    {
      hide Parser.Valid, Table.Valid, Rows, TableAfter, LineEntry, U16, NewIn, Readable, ReadSoFar, Sample;
      ghost var before := m.view;
      var p := new Parser(text);
      var more := p.Next();
      if more {
        more := p.Next();
      }
      assert p.ahead == Body(text);
      count := 0;
      ReadStarts(before, text);
      while true
        invariant p.Valid() && fresh(p.Repr)
        invariant m.Valid() && fresh(m.Repr - old(m.Repr)) && m.Repr !! p.Repr
        invariant ReadSoFar(before, Body(text), m.view, p.ahead, count)
        decreases |p.ahead|
      {
        ghost var v, ahead := m.view, p.ahead;
        more := p.Next();
        if !more {
          break;
        }
        ReadAhead(before, Body(text), v, ahead, count);
        var hit := ReadLine(m, p);
        ReadStep(before, Body(text), v, m.view, ahead, count, hit);
        count := U16(count + hit);
      }
      ReadEnds(before, text, m.view, count);
    }

    /** The loop of update: both lookups find a record, for every name in `delta`. */
    static method Subtract(delta: Table, current: Table, last: Table)
      requires delta.Valid() && current.Valid() && last.Valid()
      requires delta.Repr !! current.Repr && delta.Repr !! last.Repr
      requires delta.view.Keys <= last.view.Keys && delta.view.Keys <= current.view.Keys
      modifies delta.Repr
      ensures delta.Valid() && delta.Repr == old(delta.Repr)
      ensures delta.view == Diff(old(current.view), old(last.view), old(delta.view).Keys)
    {
      hide NetStats.Vals, RowSub;
      ghost var kept, diff := delta.view, Diff(current.view, last.view, delta.view.Keys);
      PartlyEnds(kept, diff);
      var rest := delta.records.Keys;
      while rest != {}
        invariant rest <= diff.Keys
        invariant delta.Valid() && delta.Repr == old(delta.Repr)
        invariant delta.view == Partly(kept, diff, rest)
        decreases rest
      {
        var k := Least(rest);
        var iface := delta.records[k];
        PartlyStep(kept, diff, rest, k);
        rest := rest - {k};
        delta.Diff(k, current.records[iface.name], last.records[iface.name]);
      }
    }

    /** The lines of this section: the title, then the names that have ever sent anything, without "lo". */
    ghost function Listing(): seq<string>
      reads this, last, current, delta
    {
      ListedAfter(["NETWORK"], current.view, delta.view.Keys)
    }

    method Print(screen: Screen, test: bool) returns (count: nat, out: Screen)
      requires Valid()
      ensures Valid() && Repr() == old(Repr()) && Listing() == old(Listing())
      ensures count == U16(|Listing()|)
      ensures out == screen.After(test, Listing())
    {
      hide Screen.After, U16, Ascending, Least, Sorted, Distinct, IsLeast, Listed, ListedAfter, NetStats.Vals;
      ghost var goal := Listing();
      ghost var done := ["NETWORK"];
      screen.AfterStep(test, [], "");
      assert [] + done == done;
      count, out := PrintRow(screen, "NETWORK", test, 0, screen, []);
      var rest := delta.records.Keys;
      while rest != {}
        invariant rest <= delta.view.Keys
        invariant ListedAfter(done, current.view, rest) == goal
        invariant out == screen.After(test, done) && count == U16(|done|)
        decreases rest
      {
        var k := Least(rest);
        ListedStep(done, current.view, rest);
        rest := rest - {k};
        var iface := delta.records[k];
        var newest := current.records[iface.name];
        if iface.name != "lo" && newest.txPackets != 0 {
          count, out := PrintRow(out, iface.name, test, count, screen, done);
          done := done + [k];
        }
      }
      ListedEnds(done, current.view);
    }
  }

  /**
   * For every counter that copy assigns, everything shown over the life of the object is the final
   * value minus the first one read, plus 2^64 each time it fell.
   */
  lemma ShownIsRise(p: Network, n: string, c: nat)
    requires p.Valid() && n in p.trail[0].delta && c < WIDTH && c != MULTICAST
    ensures Tracked(p.trail, n, c)
    ensures Shown(p.trail, n, c) == Rise(p.trail, n, c) + WORD * Falls(p.trail, n, c)
    ensures Shown(p.trail, n, c) == Rise(p.trail, n, c)
      <==> forall i | 0 < i < |p.trail| :: !FellAt(p.trail, n, c, i)
  {
    Telescope(p.trail, p.samples, WIDTH, {MULTICAST}, n, c);
    ExactIffNeverFalls(p.trail, p.samples, WIDTH, {MULTICAST}, n, c);
  }

  /**
   * rx_multicast is never the activity since the last refresh: it is the distance from whatever the
   * record in `last` was created with, and the activity only if the counter stood at that value.
   */
  lemma MulticastShown(p: Network, n: string, i: nat)
    requires p.Valid() && n in p.trail[0].delta && 0 < i < |p.trail|
    ensures n in p.trail[i].delta && n in p.trail[i].current && n in p.trail[i - 1].current && n in p.trail[0].last
    ensures p.trail[i].delta[n][MULTICAST] == Sub(p.trail[i].current[n][MULTICAST], p.trail[0].last[n][MULTICAST])
    ensures p.trail[i].delta[n][MULTICAST]
        == Sub(p.trail[i].current[n][MULTICAST], p.trail[i - 1].current[n][MULTICAST])
      <==> p.trail[i - 1].current[n][MULTICAST] == p.trail[0].last[n][MULTICAST]
  {
    ForgottenColumnShown(p.trail, p.samples, WIDTH, {MULTICAST}, n, MULTICAST, i);
  }

  lemma {:induction false} ListedMembers(newest: View, names: seq<string>, n: string)
    ensures n in Listed(newest, names) <==> n in names && IsShown(n, newest)
  {
    if names != [] {
      ListedMembers(newest, names[1..], n);
    }
  }

  lemma {:induction false} ListedOrder(newest: View, names: seq<string>)
    requires Sorted(names) && Distinct(names)
    ensures Sorted(Listed(newest, names)) && Distinct(Listed(newest, names))
    ensures forall n | n in Listed(newest, names) :: n in names
  {
    hide Le, IsShown;
    if names != [] {
      ListedOrder(newest, names[1..]);
      var ls := Listed(newest, names[1..]);
      assert forall j | 0 <= j < |ls| :: ls[j] in names[1..];
    }
  }

  /** An interface is listed if and only if it is not "lo" and has sent a packet by the newest sample. */
  lemma ListedIfSent(p: Network, n: string)
    requires p.Valid() && n in p.delta.records
    ensures n in p.current.records
    ensures n in p.Listing()[1..] <==> n != "lo" && p.current.records[n].txPackets != 0
  {
    hide Ascending, Listed, Sorted, Distinct, IsLeast, Least, IsRun, Le;
    assert n in p.delta.view.Keys && n in p.current.view.Keys;
    assert p.current.records[n].Vals() == p.current.view[n];
    var names := Ascending(p.delta.view.Keys);
    ListedMembers(p.current.view, names, n);
    assert p.Listing()[1..] == Listed(p.current.view, names);
    assert n in names;
  }

  /** The title comes first, then names of `delta` in ascending order, each at most once. */
  lemma ListedInOrder(p: Network)
    requires p.Valid()
    ensures p.Listing() != [] && p.Listing()[0] == "NETWORK"
    ensures Sorted(p.Listing()[1..]) && Distinct(p.Listing()[1..])
    ensures forall n | n in p.Listing()[1..] :: n in p.delta.view
  {
    hide Listed, Sorted, Distinct, IsLeast, Least, IsRun, Le, IsShown, Table.Valid;
    var names := Ascending(p.delta.view.Keys);
    hide Ascending;
    ListedOrder(p.current.view, names);
    assert p.Listing()[1..] == Listed(p.current.view, names);
  }
}
