/** c/mac/Network.cpp: the interfaces the kernel reports through routing messages. */
module MacNetwork {
  import opened Wrappers
  import opened Words
  import opened Ordering
  import opened Sampling
  import opened Snapshot
  import opened Terminal
  import opened RouteMessages

  const WIDTH: nat := 4

  class Interface {
    const name: string
    var packetsIn: Word
    var packetsOut: Word
    var bytesIn: Word
    var bytesOut: Word
    var flags: Word
    var kind: Word     // type
    var speed: Word
    var mac: Word      // the six bytes as one number

    ghost function Vals(): (r: Row)
      reads this
      ensures |r| == WIDTH && r[0] == packetsIn
    {
      [packetsIn, packetsOut, bytesIn, bytesOut]
    }

    ghost function Facts(): (r: Row)
      reads this
      ensures |r| == WIDTH && r[0] == flags
    {
      [flags, kind, speed, mac]
    }

    ghost predicate Holds(vals: Row, facts: Row)
      reads this
    {
      Vals() == vals && Facts() == facts
    }

    /** new Interface, then the name; the rest holds whatever the memory held. */
    constructor (name: string)
      ensures this.name == name && Holds(Vals(), Facts())
    {
      this.name := name;
    }

    /** Only the four counters are subtracted. */
    method Diff(newer: Interface, older: Interface)
      modifies this
      ensures Vals() == RowSub(old(newer.Vals()), old(older.Vals()))
      ensures Facts() == old(Facts())
    {
      packetsIn := Sub(newer.packetsIn, older.packetsIn);
      packetsOut := Sub(newer.packetsOut, older.packetsOut);
      bytesIn := Sub(newer.bytesIn, older.bytesIn);
      bytesOut := Sub(newer.bytesOut, older.bytesOut);
    }

    method Set(i: Info)
      modifies this
      ensures Vals() == CounterRow(i) && Facts() == FactRow(i)
      ensures Holds(CounterRow(i), FactRow(i))
    {
      mac := i.mac;
      kind := i.kind;
      flags := i.flags;
      speed := i.speed;
      packetsIn := i.packetsIn;
      packetsOut := i.packetsOut;
      bytesIn := i.bytesIn;
      bytesOut := i.bytesOut;
    }
  }

  /** std::map<std::string, Interface *>. */
  class Table {
    var records: map<string, Interface>
    ghost var view: View           // the counters under each name
    ghost var facts: View          // the other fields under each name
    ghost var Repr: set<object>    // the map and its records

    ghost predicate Valid()
      reads this, Repr
      ensures Valid() ==> this in Repr && Wide(view, WIDTH) && view.Keys == records.Keys
      ensures Valid() ==> facts.Keys == records.Keys
    {
      && this in Repr
      && view.Keys == records.Keys
      && facts.Keys == records.Keys
      && forall n | n in records ::
          records[n] in Repr && records[n].name == n && records[n].Holds(view[n], facts[n])
    }

    constructor ()
      ensures Valid() && fresh(Repr) && view == facts == map[]
    {
      records := map[];
      view := map[];
      facts := map[];
      Repr := {this};
    }

    /** *this[name] = iface, for a name that is not there yet. */
    method Insert(iface: Interface)
      requires Valid() && iface.name !in records && iface.Holds(iface.Vals(), iface.Facts())
      modifies this
      ensures Valid() && Repr == old(Repr) + {iface} && records == old(records)[iface.name := iface]
      ensures view == old(view)[iface.name := iface.Vals()] && facts == old(facts)[iface.name := iface.Facts()]
    {
      hide Interface.Vals, Interface.Facts, Interface.Holds, Wide;
      var name := iface.name;
      records := records[name := iface];
      Repr := Repr + {iface};
      view, facts := view[name := iface.Vals()], facts[name := iface.Facts()];
    }

    /** The fields of a record that is there. */
    method Assign(i: Info)
      requires Valid() && i.name in records
      modifies Repr
      ensures Valid() && Repr == old(Repr)
      ensures view == old(view)[i.name := CounterRow(i)] && facts == old(facts)[i.name := FactRow(i)]
    {
      hide Interface.Vals, Interface.Facts, Interface.Holds, CounterRow, FactRow;
      var iface := records[i.name];
      iface.Set(i);
      view, facts := view[i.name := CounterRow(i)], facts[i.name := FactRow(i)];
    }

    /** (*this)[i.name], or a new record put there when there was none, and its fields assigned. */
    method Store(i: Info)
      requires Valid()
      modifies Repr
      ensures Valid() && fresh(Repr - old(Repr))
      ensures view == old(view)[i.name := CounterRow(i)] && facts == old(facts)[i.name := FactRow(i)]
    {
      hide Interface.Vals, Interface.Facts, Interface.Holds, CounterRow, FactRow;
      if i.name !in records {
        var iface := new Interface(i.name);
        Insert(iface);
      }
      Assign(i);
    }

    /** (*this)[name]->diff(newer, older). */
    method Diff(name: string, newer: Interface, older: Interface)
      requires Valid() && name in records && newer !in Repr && older !in Repr
      modifies Repr
      ensures Valid() && Repr == old(Repr)
      ensures view == old(view)[name := RowSub(newer.Vals(), older.Vals())] && facts == old(facts)
    {
      hide Interface.Vals, Interface.Facts;
      var iface := records[name];
      iface.Diff(newer, older);
      view := view[name := iface.Vals()];
    }
  }

  // ----- What is shown -----

  /** print passes over the tunnels, the wireless direct links and the loopbacks. */
  predicate Hidden(n: string) {
    "utun" <= n || "awdl" <= n || "lo" <= n
  }

  /** IFF_UP is the lowest of the flags. */
  predicate IsUp(n: string, facts: View) {
    n in facts && |facts[n]| == WIDTH && facts[n][0] % 2 == 1
  }

  /** The flags are those of `shown`, the packet count that of `newest`. */
  predicate IsShown(n: string, shown: View, newest: View) {
    !Hidden(n) && IsUp(n, shown) && n in newest && |newest[n]| == WIDTH && newest[n][0] != 0
  }

  function Listed(shown: View, newest: View, names: seq<string>): seq<string> {
    if names == [] then []
    else (if IsShown(names[0], shown, newest) then [names[0]] else []) + Listed(shown, newest, names[1..])
  }

  /** What will have been printed after `done` when the names `rest` are still ahead. */
  function ListedAfter(done: seq<string>, shown: View, newest: View, rest: set<string>): seq<string> {
    done + Listed(shown, newest, Ascending(rest))
  }

  lemma ListedEnds(done: seq<string>, shown: View, newest: View)
    ensures ListedAfter(done, shown, newest, {}) == done
  {
  }

  lemma ListedStep(done: seq<string>, shown: View, newest: View, rest: set<string>)
    requires rest != {}
    ensures var k := Least(rest);
      ListedAfter(done, shown, newest, rest) ==
        ListedAfter(if IsShown(k, shown, newest) then done + [k] else done, shown, newest, rest - {k})
  {
    hide Ascending, Least, Le, Sorted, Distinct, IsLeast, IsShown, Listed;
    AscendingStep([], rest);
    var k := Least(rest);
    var ks := Ascending(rest - {k});
    ListedCons(shown, newest, k, ks);
    assert done + ([k] + Listed(shown, newest, ks)) == done + [k] + Listed(shown, newest, ks);
    assert done + ([] + Listed(shown, newest, ks)) == done + Listed(shown, newest, ks);
  }

  lemma ListedCons(shown: View, newest: View, k: string, ks: seq<string>)
    ensures Listed(shown, newest, [k] + ks) ==
      (if IsShown(k, shown, newest) then [k] else []) + Listed(shown, newest, ks)
  {
    assert ([k] + ks)[1..] == ks;
  }

  lemma {:induction false} ListedMembers(shown: View, newest: View, names: seq<string>, n: string)
    ensures n in Listed(shown, newest, names) <==> n in names && IsShown(n, shown, newest)
  {
    if names != [] {
      ListedMembers(shown, newest, names[1..], n);
    }
  }

  class Network {
    const decode: Decoder
    const last: Table
    const current: Table
    const delta: Table
    ghost var trail: seq<Snap>     // every state of the counters since the first sample was read
    ghost var samples: seq<View>   // what was read after it
    ghost var first: View          // the other fields, as the first sample had them

    /** The three maps, for frames. */
    ghost function Parts(): set<object> {
      {last, current, delta}
    }

    ghost function Repr(): set<object>
      reads this, last, current, delta
    {
      last.Repr + current.Repr + delta.Repr
    }

    ghost function Abs(): Snap
      reads this, last, current, delta
    {
      Snap(last.view, current.view, delta.view)
    }

    /** No record is shared between the maps, and each stands under its own name. */
    ghost predicate Shape()
      reads this, last, current, delta, Repr()
    {
      && last.Valid() && current.Valid() && delta.Valid()
      && this !in Repr()
      && last.Repr !! current.Repr && last.Repr !! delta.Repr && current.Repr !! delta.Repr
    }

    ghost predicate Valid()
      reads this, last, current, delta, Repr()
      ensures Valid() ==> Parts() <= Repr() && this !in Repr()
    {
      && Shape()
      && Inv(Abs(), WIDTH)
      && IsRun(trail, samples, WIDTH, {})
      && trail[|trail| - 1] == Abs()
      && delta.facts == first
    }

    constructor (decode: Decoder, boot: Bytes, next: Bytes)
      requires Cut(boot).Some? && Cut(next).Some?
      ensures Valid() && fresh(Repr()) && this.decode == decode
      ensures first == RouteMessages.Facts(decode, Cut(boot).value)
      ensures current.facts == first + RouteMessages.Facts(decode, Cut(next).value)
      ensures var v := Counters(decode, Cut(boot).value); trail == [Snap(v, v, v), Abs()]
      ensures samples == [Counters(decode, Cut(next).value)]
    {
      this.decode := decode;
      last := new Table();
      current := new Table();
      delta := new Table();
      new;
      hide Network.Valid;
      ghost var made := last.Repr + current.Repr + delta.Repr;
      assert fresh(made) && this !in made && Repr() == made;
      Start(boot, next);
      assert fresh(Repr() - made);
    }

    /** The constructor's calls. */
    method Start(boot: Bytes, next: Bytes)
      requires Shape() && Abs() == Snap(map[], map[], map[]) && Cut(boot).Some? && Cut(next).Some?
      modifies this, Repr()
      ensures Valid() && fresh(Repr() - old(Repr()))
      ensures first == RouteMessages.Facts(decode, Cut(boot).value)
      ensures current.facts == first + RouteMessages.Facts(decode, Cut(next).value)
      ensures var v := Counters(decode, Cut(boot).value); trail == [Snap(v, v, v), Abs()]
      ensures samples == [Counters(decode, Cut(next).value)]
    {
      hide Network.Valid, Table.Valid, Counters, RouteMessages.Facts, Cut, Step, Next, Diff, Inv, IsRun;
      Boot(boot);
      Update(next);
    }

    /** The constructor before it calls update(). */
    method Boot(buf: Bytes)
      requires Shape() && Abs() == Snap(map[], map[], map[]) && Cut(buf).Some?
      modifies this, Repr()
      ensures Valid() && fresh(Repr() - old(Repr()))
      ensures first == current.facts == RouteMessages.Facts(decode, Cut(buf).value)
      ensures var v := Counters(decode, Cut(buf).value); trail == [Snap(v, v, v)]
      ensures samples == []
    {
      hide Table.Valid, Counters, RouteMessages.Facts, Cut, IsRun;
      BootTables(buf);
      trail, samples, first := [Abs()], [], delta.facts;
      StartRun(Abs(), WIDTH, {});
    }

    method BootTables(buf: Bytes)
      requires Shape() && Abs() == Snap(map[], map[], map[]) && Cut(buf).Some?
      modifies Repr()
      ensures Shape() && fresh(Repr() - old(Repr()))
      ensures var v := Counters(decode, Cut(buf).value); Abs() == Snap(v, v, v) && Inv(Abs(), WIDTH)
      ensures delta.facts == current.facts == RouteMessages.Facts(decode, Cut(buf).value)
    {
      hide Table.Valid, Counters, RouteMessages.Facts, Cut;
      assert current.facts == map[];
      Read(decode, current, buf);
      ghost var ms := Cut(buf).value;
      assert map[] + Counters(decode, ms) == Counters(decode, ms);
      assert map[] + RouteMessages.Facts(decode, ms) == RouteMessages.Facts(decode, ms);
      Fill();
    }

    /** The two calls of copy in the constructor. */
    method Fill()
      requires Shape() && last.view == delta.view == map[]
      modifies last.Repr, delta.Repr
      ensures Shape() && fresh(Repr() - old(Repr())) && current.Repr == old(current.Repr)
      ensures last.view == delta.view == current.view == old(current.view)
      ensures delta.facts == current.facts == old(current.facts)
    {
      hide Table.Valid;
      assert map[] + current.view == current.view && map[] + current.facts == current.facts;
      assert last.facts == delta.facts == map[];
      Copy(last, current);
      Copy(delta, current);
    }

    /** update() itself. */
    method Refresh(buf: Bytes)
      requires Shape() && Inv(Abs(), WIDTH) && Cut(buf).Some?
      modifies Repr()
      ensures Shape() && fresh(Repr() - old(Repr()))
      ensures Abs() == Step(old(Abs()), Counters(decode, Cut(buf).value), WIDTH)
      ensures Next(old(Abs()), Counters(decode, Cut(buf).value), Abs(), WIDTH, {})
      ensures current.facts == old(current.facts) + RouteMessages.Facts(decode, Cut(buf).value)
      ensures delta.facts == old(delta.facts)
    {
      hide Table.Valid, Counters, RouteMessages.Facts, Cut, Step, Next, RowSub, Diff;
      ghost var s := Abs();
      CopyAndRead(buf);
      Subtract(delta, current, last);
      UpdateIsStep(s, Counters(decode, Cut(buf).value), Abs(), WIDTH);
    }

    /** The first two calls of update(). */
    method CopyAndRead(buf: Bytes)
      requires Shape() && Cut(buf).Some?
      modifies last.Repr, current.Repr
      ensures Shape() && fresh(Repr() - old(Repr()))
      ensures last.view == old(last.view) + old(current.view) && delta.view == old(delta.view)
      ensures current.view == old(current.view) + Counters(decode, Cut(buf).value)
      ensures current.facts == old(current.facts) + RouteMessages.Facts(decode, Cut(buf).value)
      ensures delta.facts == old(delta.facts)
    {
      hide Table.Valid, Counters, RouteMessages.Facts, Cut, Wide;
      Copy(last, current);
      Read(decode, current, buf);
    }

    method Update(buf: Bytes)
      requires Valid() && Cut(buf).Some?
      modifies `trail, `samples, Repr()
      ensures Valid() && fresh(Repr() - old(Repr()))
      ensures Abs() == Step(old(Abs()), Counters(decode, Cut(buf).value), WIDTH)
      ensures current.facts == old(current.facts) + RouteMessages.Facts(decode, Cut(buf).value)
      ensures trail == old(trail) + [Abs()] && samples == old(samples) + [Counters(decode, Cut(buf).value)]
      ensures first == old(first)
    {
      hide Table.Valid, Counters, RouteMessages.Facts, Cut, Next, RowSub, Diff;
      ghost var sample := Counters(decode, Cut(buf).value);
      Refresh(buf);
      ExtendRun(trail, samples, sample, Abs(), WIDTH, {});
      trail, samples := trail + [Abs()], samples + [sample];
    }

    /** copy: every name of `src` in ascending order, its record found or made in `dst`. */
    static method Copy(dst: Table, src: Table)
      requires dst.Valid() && src.Valid() && dst.Repr !! src.Repr
      modifies dst.Repr
      ensures dst.Valid() && fresh(dst.Repr - old(dst.Repr))
      ensures dst.view == old(dst.view) + src.view && dst.facts == old(dst.facts) + src.facts
    {
      hide Partly;
      ghost var kept, keptFacts := dst.view, dst.facts;
      PartlyEnds(kept, src.view);
      PartlyEnds(keptFacts, src.facts);
      var rest := src.records.Keys;
      while rest != {}
        invariant rest <= src.view.Keys
        invariant dst.Valid() && fresh(dst.Repr - old(dst.Repr))
        invariant dst.view == Partly(kept, src.view, rest)
        invariant dst.facts == Partly(keptFacts, src.facts, rest)
        decreases rest
      {
        var k := Least(rest);
        var o := src.records[k];
        PartlyStep(kept, src.view, rest, k);
        PartlyStep(keptFacts, src.facts, rest, k);
        rest := rest - {k};
        dst.Store(Info(o.name, o.packetsIn, o.packetsOut, o.bytesIn, o.bytesOut, o.flags, o.kind, o.speed, o.mac));
      }
    }

    /** read walks over the buffer; `visited` is where it found a message, in order. */
    static method Walk(decode: Decoder, m: Table, buf: Bytes) returns (visited: seq<nat>, end: nat)
      requires m.Valid() && Cut(buf).Some?
      modifies m.Repr
      ensures m.Valid() && fresh(m.Repr - old(m.Repr))
      ensures end == |buf| && visited == StartsFrom(0, Cut(buf).value)
      ensures m.view == old(m.view) + Counters(decode, Cut(buf).value)
      ensures m.facts == old(m.facts) + RouteMessages.Facts(decode, Cut(buf).value)
    {
      hide Table.Valid, TableAfter, CounterReader, FactReader;
      ghost var before, beforeFacts, ms := m.view, m.facts, Cut(buf).value;
      ghost var ahead := ms;
      ghost var cr, fr := CounterReader(decode), FactReader(decode);
      FlattenCut(buf);
      visited := [];
      var lim := |buf|;
      var next := 0;
      assert buf[next..] == buf;
      while next < lim
        invariant next <= lim && Messages(ahead) && buf[next..] == Flatten(ahead)
        invariant visited + StartsFrom(next, ahead) == StartsFrom(0, ms)
        invariant m.Valid() && fresh(m.Repr - old(m.Repr))
        invariant TableAfter(cr, m.view, ahead) == TableAfter(cr, before, ms)
        invariant TableAfter(fr, m.facts, ahead) == TableAfter(fr, beforeFacts, ms)
        decreases lim - next
      {
        FirstMessage(buf, next, ahead);
        StartsStep(visited, next, ahead);
        TableStep(cr, m.view, ahead);
        TableStep(fr, m.facts, ahead);
        var ifm := buf[next..next + MsgLen(buf[next..])];
        visited := visited + [next];
        next := next + |ifm|;
        Handle(decode, m, ifm);
        ahead := ahead[1..];
      }
      end := next;
      NoneAhead(ahead);
      TableStep(cr, m.view, ahead);
      TableStep(fr, m.facts, ahead);
      ReadIsOverride(cr, before, ms);
      ReadIsOverride(fr, beforeFacts, ms);
    }

    /** The body of the loop, for one message. */
    static method Handle(decode: Decoder, m: Table, ifm: Bytes)
      requires m.Valid() && IsMessage(ifm)
      modifies m.Repr
      ensures m.Valid() && fresh(m.Repr - old(m.Repr))
      ensures m.view == Overlay(old(m.view), CounterReader(decode)(ifm))
      ensures m.facts == Overlay(old(m.facts), FactReader(decode)(ifm))
    {
      hide Table.Valid, CounterRow, FactRow, CounterReader, FactReader;
      OneMessage(decode, ifm, m.view);
      OneMessage(decode, ifm, m.facts);
      if ifm[3] == RTM_IFINFO2 {
        m.Store(decode(ifm));
      }
    }

    static method Read(decode: Decoder, m: Table, buf: Bytes)
      requires m.Valid() && Cut(buf).Some?
      modifies m.Repr
      ensures m.Valid() && fresh(m.Repr - old(m.Repr))
      ensures m.view == old(m.view) + Counters(decode, Cut(buf).value)
      ensures m.facts == old(m.facts) + RouteMessages.Facts(decode, Cut(buf).value)
    {
      var _, _ := Walk(decode, m, buf);
    }

    /** The loop of update: both lookups find a record, for every name in `delta`. */
    static method Subtract(delta: Table, current: Table, last: Table)
      requires delta.Valid() && current.Valid() && last.Valid()
      requires delta.Repr !! current.Repr && delta.Repr !! last.Repr
      requires delta.view.Keys <= last.view.Keys && delta.view.Keys <= current.view.Keys
      modifies delta.Repr
      ensures delta.Valid() && delta.Repr == old(delta.Repr)
      ensures delta.view == Diff(old(current.view), old(last.view), old(delta.view).Keys)
      ensures delta.facts == old(delta.facts)
    {
      hide Interface.Vals, Interface.Facts, RowSub;
      ghost var kept, diff := delta.view, Diff(current.view, last.view, delta.view.Keys);
      PartlyEnds(kept, diff);
      var rest := delta.records.Keys;
      while rest != {}
        invariant rest <= diff.Keys
        invariant delta.Valid() && delta.Repr == old(delta.Repr)
        invariant delta.view == Partly(kept, diff, rest) && delta.facts == old(delta.facts)
        decreases rest
      {
        var k := Least(rest);
        var iface := delta.records[k];
        PartlyStep(kept, diff, rest, k);
        rest := rest - {k};
        delta.Diff(k, current.records[iface.name], last.records[iface.name]);
      }
    }

    /** The lines of this section: the title, then the names that are shown. */
    ghost function Listing(): seq<string>
      reads this, last, current, delta
    {
      ListedAfter(["NETWORK"], delta.facts, current.view, delta.view.Keys)
    }

    method Print(screen: Screen, test: bool) returns (count: nat, out: Screen)
      requires Valid()
      ensures count == U16(|Listing()|)
      ensures out == screen.After(test, Listing())
    {
      hide Screen.After, U16, Ascending, Least, Sorted, Distinct, IsLeast, Listed, ListedAfter, Interface.Vals,
        Interface.Facts, Hidden;
      ghost var goal := Listing();
      ghost var done := ["NETWORK"];
      screen.AfterStep(test, [], "");
      assert [] + done == done;
      count, out := PrintRow(screen, "NETWORK", test, 0, screen, []);
      var rest := delta.records.Keys;
      while rest != {}
        invariant rest <= delta.view.Keys
        invariant ListedAfter(done, delta.facts, current.view, rest) == goal
        invariant out == screen.After(test, done) && count == U16(|done|)
        decreases rest
      {
        var k := Least(rest);
        ListedStep(done, delta.facts, current.view, rest);
        rest := rest - {k};
        var iface := delta.records[k];
        if Hidden(iface.name) {
          continue;
        }
        var newest := current.records[iface.name];
        if iface.flags % 2 == 1 && newest.packetsIn != 0 {
          count, out := PrintRow(out, iface.name, test, count, screen, done);
          done := done + [k];
        }
      }
      ListedEnds(done, delta.facts, current.view);
    }
  }

  /** Everything shown is the final value minus the first one read, plus 2^64 each time the counter fell. */
  lemma ShownIsRise(p: Network, n: string, c: nat)
    requires p.Valid() && n in p.trail[0].delta && c < WIDTH
    ensures Tracked(p.trail, n, c)
    ensures Shown(p.trail, n, c) == Rise(p.trail, n, c) + WORD * Falls(p.trail, n, c)
    ensures Shown(p.trail, n, c) == Rise(p.trail, n, c)
      <==> forall i | 0 < i < |p.trail| :: !FellAt(p.trail, n, c, i)
  {
    Telescope(p.trail, p.samples, WIDTH, {}, n, c);
    ExactIffNeverFalls(p.trail, p.samples, WIDTH, {}, n, c);
  }

  /**
   * What a walk over a buffer of messages leaves in the fields of a record: what the last RTM_IFINFO2 message
   * that bears its name says.
   */
  lemma RecordsRead(m: Table, view: View, facts: View, decode: Decoder, ms: seq<Bytes>, n: string)
    requires m.Valid() && LastInfo(decode, ms, n) >= 0
    requires m.view == view + Counters(decode, ms) && m.facts == facts + RouteMessages.Facts(decode, ms)
    ensures n in m.records
    ensures var r, i := m.records[n], decode(ms[LastInfo(decode, ms, n)]);
      && r.packetsIn == i.packetsIn && r.packetsOut == i.packetsOut && r.bytesIn == i.bytesIn
      && r.bytesOut == i.bytesOut && r.flags == i.flags && r.kind == i.kind && r.speed == i.speed && r.mac == i.mac
  {
    hide Counters, RouteMessages.Facts, LastInfo;
    LastMessageWins(decode, ms, n);
    var i := decode(ms[LastInfo(decode, ms, n)]);
    assert n in m.view.Keys && m.view[n] == CounterRow(i) && m.facts[n] == FactRow(i);
    RecordFields(m.records[n], CounterRow(i), FactRow(i));
  }

  lemma RecordFields(r: Interface, vals: Row, facts: Row)
    requires r.Holds(vals, facts)
    ensures r.packetsIn == vals[0] && r.packetsOut == vals[1] && r.bytesIn == vals[2] && r.bytesOut == vals[3]
    ensures r.flags == facts[0] && r.kind == facts[1] && r.speed == facts[2] && r.mac == facts[3]
  {
  }

  /** The names listed are in ascending order, each once. */
  lemma {:induction false} ListedOrder(shown: View, newest: View, names: seq<string>)
    requires Sorted(names) && Distinct(names)
    ensures Sorted(Listed(shown, newest, names)) && Distinct(Listed(shown, newest, names))
    ensures forall n | n in Listed(shown, newest, names) :: n in names
  {
    hide Le, IsShown;
    if names != [] {
      ListedOrder(shown, newest, names[1..]);
      var ls := Listed(shown, newest, names[1..]);
      assert forall j | 0 <= j < |ls| :: ls[j] in names[1..];
    }
  }

  /**
   * Whether an interface is listed depends for ever on the flags of the first sample: one that comes up
   * later stays away, one that goes down later stays. Only its packet count is the newest. Tunnels, wireless
   * direct links and loopbacks are never listed.
   */
  lemma ListedByFirstFlags(p: Network, n: string)
    requires p.Valid() && n in p.delta.records
    ensures n in p.current.records && n in p.first && |p.first[n]| == WIDTH
    ensures p.delta.records[n].flags == p.first[n][0]
    ensures n in p.Listing()[1..] <==>
      && !("utun" <= n) && !("awdl" <= n) && !("lo" <= n)
      && p.delta.records[n].flags % 2 == 1 && p.current.records[n].packetsIn != 0
  {
    hide Ascending, Listed, Sorted, Distinct, IsLeast, Least, IsRun, Le;
    assert n in p.delta.view.Keys && n in p.current.view.Keys;
    RecordFields(p.delta.records[n], p.delta.view[n], p.delta.facts[n]);
    RecordFields(p.current.records[n], p.current.view[n], p.current.facts[n]);
    NamesListed(p, n);
  }

  lemma NamesListed(p: Network, n: string)
    requires p.Valid() && n in p.delta.view
    ensures n in p.Listing()[1..] <==> IsShown(n, p.first, p.current.view)
  {
    hide Ascending, Listed, Sorted, Distinct, IsLeast, Least, IsRun, Le, IsShown, Table.Valid;
    var names := Ascending(p.delta.view.Keys);
    ListedMembers(p.delta.facts, p.current.view, names, n);
    assert p.Listing()[1..] == Listed(p.delta.facts, p.current.view, names);
  }

  /** The title comes first, then names of `delta` in ascending order, each at most once. */
  lemma ListedInOrder(p: Network)
    requires p.Valid()
    ensures p.Listing() != [] && p.Listing()[0] == "NETWORK"
    ensures Sorted(p.Listing()[1..]) && Distinct(p.Listing()[1..])
    ensures forall n | n in p.Listing()[1..] :: n in p.delta.view
  {
    hide Listed, Sorted, Distinct, IsLeast, Least, IsRun, Le, IsShown, Table.Valid;
    var names := Ascending(p.delta.view.Keys);
    hide Ascending;
    ListedOrder(p.delta.facts, p.current.view, names);
    assert p.Listing()[1..] == Listed(p.delta.facts, p.current.view, names);
  }
}
