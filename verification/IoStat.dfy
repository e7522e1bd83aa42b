/** license/iostat.cpp: one sample of the drives, the CPU increments, and the sampling loop. */
module IoStat {
  import opened Wrappers
  import opened Words
  import opened Ordering
  import opened DeviceTable
  import opened Intervals
  import opened DriveRuns
  import opened Headers

  // ----- The drives -----

  /** devstats: the first `maxShow` drives are measured; one whose properties cannot be read is passed over. */
  method DevStats(table: Table, o: Options, registry: Registry) returns (shown: seq<Shown>)
    requires table.Valid() && Sound(table.Live())
    modifies table.drives
    ensures table.Valid() && table.Free() == old(table.Free())
    ensures table.Live() == Sampled(o, registry, old(table.Live()))
    ensures shown == ScreenOf(o, registry, old(table.Live()))
    ensures forall i | 0 <= i < |shown| :: Says(shown[i], registry, old(table.Live())[i])
  {
    hide Sampled, ScreenOf, Sound, Interval, NewBase, Says;
    ghost var live := table.Live();
    NoneSampled(o, registry, live);
    shown := [];
    var i := 0;
    while i < table.numDevices && i < o.maxShow
      invariant i <= table.numDevices == |live| && i <= o.maxShow && table.Free() == old(table.Free())
      invariant table.Live() == Sampled(o.(maxShow := i), registry, live)
      invariant shown == ScreenOf(o.(maxShow := i), registry, live)
    {
      SampledStep(o, registry, live, i);
      var one := Measure(table, o, registry, i);
      shown := shown + [one];
      i := i + 1;
    }
    AllSampled(o, registry, live, i);
    ScreenSays(o, registry, live);
  }

  /** What a row says of the drive `d`, field by field. */
  predicate Says(shown: Shown, registry: Registry, d: Drive) {
    if d.driver !in registry then shown.Skipped?
    else
      && shown.Shown? && d.blocksize != 0
      && shown.interval.bytes == (registry[d.driver].bytes - d.totals.bytes) % WORD
      && shown.interval.readBytes == (registry[d.driver].readBytes - d.totals.readBytes) % WORD
      && shown.interval.writtenBytes == (registry[d.driver].writtenBytes - d.totals.writtenBytes) % WORD
      && shown.interval.transfers == (registry[d.driver].transfers - d.totals.transfers) % WORD
      && shown.interval.time == (registry[d.driver].time - d.totals.time) % WORD
      && shown.blocks == shown.interval.bytes / d.blocksize
  }

  lemma ScreenSays(o: Options, registry: Registry, live: seq<Drive>)
    requires Sound(live)
    ensures var screen := ScreenOf(o, registry, live);
      |screen| <= |live| && forall i | 0 <= i < |screen| :: Says(screen[i], registry, live[i])
  {
    hide Interval;
    var screen := ScreenOf(o, registry, live);
    forall i | 0 <= i < |screen|
      ensures Says(screen[i], registry, live[i])
    {
      if live[i].driver in registry {
        IntervalFields(registry[live[i].driver], live[i].totals);
      }
    }
  }

  /** The body of devstats' loop, for drive `i`. */
  method Measure(table: Table, o: Options, registry: Registry, i: nat) returns (shown: Shown)
    requires table.Valid() && i < table.numDevices && table.drives[i].blocksize != 0
    modifies table.drives
    ensures table.Free() == old(table.Free())
    ensures var d := old(table.drives[i]); var reading := Reading(registry, d);
      table.Live() == old(table.Live())[i := Measured(o.cumulative, d, reading)] && shown == ShownOf(d, reading)
  {
    hide Interval, Measured, ShownOf;
    var d := table.drives[i];
    ghost var s, n := table.drives[..], table.numDevices;
    MeasuredIs(o.cumulative, d, Reading(registry, d));
    ShownIs(d, Reading(registry, d));
    if d.driver !in registry {
      OneChanged(s, n, i, d);
      return Skipped;
    }
    var total := registry[d.driver];
    var interval := Interval(total, d.totals);
    if !o.cumulative || d.totals.bytes == 0 {
      table.drives[i] := d.(totals := total);
      OneChanged(s, n, i, d.(totals := total));
      assert table.drives[..] == s[i := d.(totals := total)];
    } else {
      OneChanged(s, n, i, d);
    }
    return Shown(interval, interval.bytes / d.blocksize);
  }

  lemma OneChanged(s: seq<Drive>, n: nat, i: nat, d: Drive)
    requires i < n <= |s|
    ensures s[i := d][..n] == s[..n][i := d] && s[i := d][n..] == s[n..]
    ensures s[i] == d ==> s[..n][i := d] == s[..n]
  {
  }

  lemma ShownIs(d: Drive, reading: Option<Totals>)
    requires d.blocksize != 0
    ensures ShownOf(d, reading) ==
      match reading
      case None => Skipped
      case Some(total) => Shown(Interval(total, d.totals), Interval(total, d.totals).bytes / d.blocksize)
  {
    hide Interval;
  }

  lemma MeasuredIs(cumulative: bool, d: Drive, reading: Option<Totals>)
    ensures Measured(cumulative, d, reading) ==
      if reading.Some? && (!cumulative || d.totals.bytes == 0) then d.(totals := reading.value) else d
  {
  }

  lemma NoneSampled(o: Options, registry: Registry, live: seq<Drive>)
    requires Sound(live)
    ensures Sampled(o.(maxShow := 0), registry, live) == live && ScreenOf(o.(maxShow := 0), registry, live) == []
  {
  }

  lemma SampledStep(o: Options, registry: Registry, live: seq<Drive>, i: nat)
    requires i < |live| && Sound(live)
    ensures live[i].blocksize != 0
    ensures var before, reading := Sampled(o.(maxShow := i), registry, live), Reading(registry, live[i]);
      && |before| == |live| && before[i] == live[i]
      && Sampled(o.(maxShow := i + 1), registry, live) == before[i := Measured(o.cumulative, live[i], reading)]
      && ScreenOf(o.(maxShow := i + 1), registry, live)
           == ScreenOf(o.(maxShow := i), registry, live) + [ShownOf(live[i], reading)]
  {
  }

  lemma AllSampled(o: Options, registry: Registry, live: seq<Drive>, i: nat)
    requires Sound(live) && i == if |live| < o.maxShow then |live| else o.maxShow
    ensures Sampled(o.(maxShow := i), registry, live) == Sampled(o, registry, live)
    ensures ScreenOf(o.(maxShow := i), registry, live) == ScreenOf(o, registry, live)
  {
  }

  /** The preferred block size of a medium is not zero. */
  predicate Measurable(event: Event) {
    event.Arrive? ==> forall i | 0 <= i < |event.list| :: event.list[i].blocksize != 0
  }

  /** The notification makes the loop print a header: a free slot was offered to a medium, or an entry was removed. */
  predicate Raises(event: Event, live: seq<Drive>, live': seq<Drive>) {
    match event
    case Arrive(list) => list != [] && |live| < MAXDRIVES
    case Depart(list) => |live'| < |live|
  }

  lemma {:induction false} AcceptedFrom(list: seq<Medium>, room: nat)
    ensures forall m | m in Accepted(list, room) :: m in list
  {
    if list != [] && room != 0 {
      AcceptedFrom(list[1..], if list[0].isDisk then room - 1 else room);
    }
  }

  lemma SoundStays(live: seq<Drive>, free: seq<Drive>, event: Event, live': seq<Drive>, free': seq<Drive>)
    requires Moves(live, free, event, live', free') && Sound(live) && Measurable(event)
    ensures Sound(live')
  {
    hide Names, ByName, BagAfter, Spares, Accepted, RecordedAll;
    forall i | 0 <= i < |live'|
      ensures live'[i].blocksize != 0
    {
      var d := live'[i];
      assert d in multiset(live');
      if event.Arrive? {
        var acc := Accepted(event.list, |free|);
        AcceptedFrom(event.list, |free|);
        if d in RecordedAll(acc, free) {
          var a :| 0 <= a < |acc| && RecordedAll(acc, free)[a] == d;
          RecordedAt(acc, free, a);
          assert acc[a] in event.list;
        } else {
          assert d in multiset(live);
        }
      } else {
        assert d in multiset(live);
      }
    }
  }

  lemma SampledSound(o: Options, registry: Registry, live: seq<Drive>)
    requires Sound(live) && ByName(live)
    ensures Sound(Sampled(o, registry, live)) && ByName(Sampled(o, registry, live))
  {
    hide Le;
  }

  predicate AllSound(states: seq<State>) {
    forall k | 0 <= k < |states| :: Sound(states[k].live)
  }

  /** iostat's static variables, with the history of the table. */
  class Monitor {
    const o: Options
    const table: Table
    var phdr: bool                       // phdr_flag
    ghost var past: seq<Happening>
    ghost var states: seq<State>         // the table before each of them, and now

    ghost predicate Valid()
      reads this, table, table.drives
      ensures Valid() ==> |states| == |past| + 1
    {
      && table.Valid() && IsRun(o, past, states) && |states| == |past| + 1
      && states[|past|] == State(table.Live(), table.Free())
      && AllSound(states)
    }

    lemma Known()
      requires Valid()
      ensures IsRun(o, past, states) && AllSound(states)
      ensures table.Valid() && states[|past|] == State(table.Live(), table.Free())
    {
    }

    constructor (o: Options)
      ensures Valid() && fresh(table) && fresh(table.drives) && this.o == o
      ensures past == [] && states == [Boot()] && !phdr
    {
      this.o := o;
      phdr := false;
      past, states := [], [Boot()];
      table := new Table();
      new;
      StartRun(o);
    }

    method Notice(event: Event)
      requires Valid() && Measurable(event)
      modifies this, table, table.drives
      ensures Valid() && past == old(past) + [Drives(event)]
      ensures states == old(states) + [State(table.Live(), table.Free())]
      ensures phdr == (old(phdr) || Raises(event, old(table.Live()), table.Live()))
    {
      hide IsRun, Moves, Sound, AllSound;
      NowSound(o, past, states);
      var before := table.numDevices;
      table.Notice(event);
      if match event case Arrive(list) => list != [] && before < MAXDRIVES case Depart(_) => table.numDevices < before {
        phdr := true;
      }
      ghost var t := State(table.Live(), table.Free());
      NoticeIsNext(o, past, states, event, t);
      past, states := past + [Drives(event)], states + [t];
    }

    method Sample(registry: Registry) returns (shown: seq<Shown>)
      requires Valid()
      modifies this, table.drives
      ensures Valid() && past == old(past) + [DriveRuns.Sample(registry)] && phdr == old(phdr)
      ensures states == old(states) + [State(table.Live(), table.Free())]
      ensures shown == ScreenOf(o, registry, old(table.Live()))
    {
      hide IsRun, Sound, ScreenOf, Sampled, AllSound;
      NowSound(o, past, states);
      shown := DevStats(table, o, registry);
      ghost var t := State(table.Live(), table.Free());
      SampleIsNext(o, past, states, registry, t);
      past, states := past + [DriveRuns.Sample(registry)], states + [t];
    }

    /** The notifications that come in while the loop waits. */
    method Wait(events: seq<Event>)
      requires Valid() && forall i | 0 <= i < |events| :: Measurable(events[i])
      modifies this, table, table.drives
      ensures Valid() && past == old(past) + DrivesOf(events) && old(states) <= states
      ensures phdr == (old(phdr) || Raised(past, states, |old(past)|, |past|))
    {
      hide IsRun, Sound, Raises, Measurable, AllSound;
      for i := 0 to |events|
        invariant Valid() && |states| == |past| + 1 && past == old(past) + DrivesOf(events[..i])
          && old(states) <= states
        invariant phdr == (old(phdr) || Raised(past, states, |old(past)|, |past|))
      {
        ghost var before, known := past, states;
        Notice(events[i]);
        RaisedStep(before, known, |old(past)|, events[i], states[|states| - 1]);
        DrivesStep(events, i);
      }
      assert events[..|events|] == events;
    }

    /** The part of one turn that concerns the drives: what came in before it, the header flag, devstats. */
    method TakeTurn(turn: Turn) returns (asked: bool, shown: seq<Shown>)
      requires Valid() && Proper(turn)
      modifies this, table, table.drives
      ensures Valid() && !phdr && old(states) <= states
      ensures past == old(past) + DrivesOf(turn.before) + [DriveRuns.Sample(turn.registry)]
      ensures TurnHeld(o, past, states, |old(past)| + |turn.before|, turn, old(phdr), asked, shown)
    {
      hide IsRun, Sound, ScreenOf, Raised, Measurable;
      Wait(turn.before);
      asked := turn.resumed || phdr;
      phdr := false;
      ghost var before, known := past, states;
      shown := Sample(turn.registry);
      RaisedStays(before, past, known, states, |old(past)|, |before|);
    }
  }

  /** A notification goes on with the run. */
  lemma NoticeIsNext(o: Options, past: seq<Happening>, states: seq<State>, event: Event, t: State)
    requires |states| == |past| + 1 && IsRun(o, past, states) && AllSound(states) && Measurable(event)
    requires var s := states[|past|]; Moves(s.live, s.free, event, t.live, t.free)
    requires |t.live| + |t.free| == MAXDRIVES
    ensures IsRun(o, past + [Drives(event)], states + [t]) && AllSound(states + [t])
  {
    hide IsRun, Sound, Measurable;
    var s := states[|past|];
    SoundStays(s.live, s.free, event, t.live, t.free);
    MovesIsNext(o, s, event, t);
    ExtendRun(o, past, states, Drives(event), t);
  }

  lemma MovesIsNext(o: Options, s: State, event: Event, t: State)
    requires |t.live| + |t.free| == MAXDRIVES && Moves(s.live, s.free, event, t.live, t.free)
    ensures Next(o, s, Drives(event), t)
  {
  }

  /** A sample goes on with the run. */
  lemma SampleIsNext(o: Options, past: seq<Happening>, states: seq<State>, registry: Registry, t: State)
    requires |states| == |past| + 1 && IsRun(o, past, states) && AllSound(states)
    requires var s := states[|past|]; t.live == Sampled(o, registry, s.live) && t.free == s.free
    ensures IsRun(o, past + [DriveRuns.Sample(registry)], states + [t]) && AllSound(states + [t])
  {
    hide IsRun, Sound, Sampled;
    var s := states[|past|];
    StateFits(o, past, states, |past|);
    SampledSound(o, registry, s.live);
    SampledIsNext(o, s, registry, t);
    ExtendRun(o, past, states, DriveRuns.Sample(registry), t);
  }

  lemma SampledIsNext(o: Options, s: State, registry: Registry, t: State)
    requires |s.live| + |s.free| == MAXDRIVES && ByName(Sampled(o, registry, s.live))
    requires t.live == Sampled(o, registry, s.live) && t.free == s.free
    ensures Next(o, s, DriveRuns.Sample(registry), t)
  {
  }

  lemma NowSound(o: Options, past: seq<Happening>, states: seq<State>)
    requires IsRun(o, past, states) && AllSound(states)
    ensures Sound(states[|past|].live) && ByName(states[|past|].live)
  {
    StateFits(o, past, states, |past|);
  }

  // ----- CPU increments -----

  /** natural_t */
  const TICKS: int := 0x1_0000_0000
  type Tick = x: int | 0 <= x < TICKS

  const USER: nat := 0
  const SYSTEM: nat := 1
  const IDLE: nat := 2
  const NICE: nat := 3
  const STATES: nat := 4

  function TickSub(a: Tick, b: Tick): Tick {
    if b <= a then a - b else a - b + TICKS
  }

  function TickAdd(a: Tick, b: Tick): Tick {
    if a + b < TICKS then a + b else a + b - TICKS
  }

  /** cpustats looks at three of the four states. */
  predicate Counted(k: nat) {
    k == USER || k == SYSTEM || k == IDLE
  }

  class CpuLoad {
    const cur: array<Tick>
    const last: array<Tick>

    ghost predicate Valid() {
      cur.Length == last.Length == STATES && cur != last
    }

    constructor ()
      ensures Valid() && fresh(cur) && fresh(last)
      ensures forall k | 0 <= k < STATES :: last[k] == 0
    {
      cur := new Tick[STATES](_ => 0);
      last := new Tick[STATES](_ => 0);
    }

    /** `cur` made relative and `last` restored from it, in place. */
    method Relate(k: nat)
      requires Valid() && k < STATES
      modifies cur, last
      ensures cur[..] == old(cur[..])[k := TickSub(old(cur[k]), old(last[k]))]
      ensures last[..] == old(last[..])[k := old(cur[k])]
    {
      cur[k] := TickSub(cur[k], last[k]);
      last[k] := TickAdd(last[k], cur[k]);
    }

    method CpuStats(raw: seq<Tick>) returns (time: int)
      requires Valid() && |raw| == STATES
      modifies cur, last
      ensures forall k | 0 <= k < STATES && Counted(k) :: cur[k] == TickSub(raw[k], old(last[k])) && last[k] == raw[k]
      ensures cur[USER] == (raw[USER] - old(last[USER])) % TICKS && last[USER] == raw[USER]
      ensures cur[SYSTEM] == (raw[SYSTEM] - old(last[SYSTEM])) % TICKS && last[SYSTEM] == raw[SYSTEM]
      ensures cur[IDLE] == (raw[IDLE] - old(last[IDLE])) % TICKS && last[IDLE] == raw[IDLE]
      ensures cur[NICE] == raw[NICE] && last[NICE] == old(last[NICE])
      ensures var u: int, s: int, i: int := cur[USER], cur[SYSTEM], cur[IDLE]; time == u + s + i
    {
      forall k | 0 <= k < STATES {
        cur[k] := raw[k];
      }
      time := 0;
      Relate(USER);
      time := time + cur[USER];
      Relate(SYSTEM);
      time := time + cur[SYSTEM];
      Relate(IDLE);
      time := time + cur[IDLE];
    }
  }

  /** The wrap-around subtraction and addition of ticks are those modulo 2^32. */
  lemma TicksAreModular(a: Tick, b: Tick)
    ensures TickSub(a, b) == (a - b) % TICKS && TickAdd(a, b) == (a + b) % TICKS
  {
  }

  // ----- The sampling loop -----

  /**
   * One turn of the loop: the notifications that came in before it, whether the program was resumed since
   * the turn before, and what devstats and cpustats read.
   */
  datatype Turn = Turn(before: seq<Event>, resumed: bool, registry: Registry, raw: seq<Tick>)

  predicate Proper(turn: Turn) {
    |turn.raw| == STATES && forall i | 0 <= i < |turn.before| :: Measurable(turn.before[i])
  }

  function DrivesOf(events: seq<Event>): (hs: seq<Happening>)
    ensures |hs| == |events| && forall i | 0 <= i < |hs| :: hs[i].Drives?
  {
    seq(|events|, i requires 0 <= i < |events| => Drives(events[i]))
  }

  lemma DrivesStep(events: seq<Event>, i: nat)
    requires i < |events|
    ensures DrivesOf(events[..i + 1]) == DrivesOf(events[..i]) + [Drives(events[i])]
  {
  }

  /** What the table goes through during `turns`. */
  function HappeningsOf(turns: seq<Turn>): seq<Happening> {
    if turns == [] then []
    else
      var turn := turns[|turns| - 1];
      HappeningsOf(turns[..|turns| - 1]) + DrivesOf(turn.before) + [DriveRuns.Sample(turn.registry)]
  }

  /** The place of the sample of turn `i` in a history that had `start` happenings before the first turn. */
  function SampleAt(start: nat, turns: seq<Turn>, i: nat): nat
    requires i < |turns|
  {
    start + |HappeningsOf(turns[..i])| + |turns[i].before|
  }

  /** A notification among the given ones makes the loop print a header. */
  ghost predicate Raised(past: seq<Happening>, states: seq<State>, from: nat, upto: nat)
    requires upto <= |past| < |states|
  {
    exists k | from <= k < upto :: past[k].Drives? && Raises(past[k].event, states[k].live, states[k + 1].live)
  }

  lemma RaisedStays(past: seq<Happening>, past': seq<Happening>, states: seq<State>, states': seq<State>, from: nat,
      upto: nat)
    requires upto <= |past| < |states| && past <= past' && states <= states' && |past'| < |states'|
    ensures Raised(past', states', from, upto) <==> Raised(past, states, from, upto)
  {
    if Raised(past, states, from, upto) {
      var k :| from <= k < upto && past[k].Drives? && Raises(past[k].event, states[k].live, states[k + 1].live);
      assert past'[k] == past[k] && states'[k] == states[k] && states'[k + 1] == states[k + 1];
    }
    if Raised(past', states', from, upto) {
      var k :| from <= k < upto && past'[k].Drives? && Raises(past'[k].event, states'[k].live, states'[k + 1].live);
      assert past'[k] == past[k] && states'[k] == states[k] && states'[k + 1] == states[k + 1];
    }
  }

  lemma RaisedStep(past: seq<Happening>, states: seq<State>, from: nat, event: Event, t: State)
    requires from <= |past| && |states| == |past| + 1
    ensures Raised(past + [Drives(event)], states + [t], from, |past| + 1)
      <==> Raised(past, states, from, |past|) || Raises(event, states[|past|].live, t.live)
  {
    var past', states' := past + [Drives(event)], states + [t];
    RaisedStays(past, past', states, states', from, |past|);
    assert past'[|past|].event == event && states'[|past|] == states[|past|] && states'[|past| + 1] == t;
    if Raised(past', states', from, |past| + 1) {
      var k :| from <= k < |past| + 1 && past'[k].Drives?
        && Raises(past'[k].event, states'[k].live, states'[k + 1].live);
      assert k < |past| ==> Raised(past', states', from, |past|);
    }
  }

  /** What one turn shows of the drives, and whether a header was asked for at its check. */
  ghost predicate TurnHeld(o: Options, past: seq<Happening>, states: seq<State>, at: nat, turn: Turn, pending: bool,
      asked: bool, shown: seq<Shown>) {
    && at < |past| < |states| && |turn.before| <= at
    && past[at] == DriveRuns.Sample(turn.registry) && Sound(states[at].live)
    && shown == ScreenOf(o, turn.registry, states[at].live)
    && asked == (turn.resumed || pending || Raised(past, states, at - |turn.before|, at))
  }

  /** The same of all turns; only the first can find the flag set from before. */
  ghost predicate Held(o: Options, past: seq<Happening>, states: seq<State>, start: nat, turns: seq<Turn>,
      pending: bool, requests: seq<bool>, screens: seq<seq<Shown>>) {
    && |requests| == |screens| == |turns|
    && forall i | 0 <= i < |turns| ::
        TurnHeld(o, past, states, SampleAt(start, turns, i), turns[i], pending && i == 0, requests[i], screens[i])
  }

  lemma TurnStays(o: Options, past: seq<Happening>, past': seq<Happening>, states: seq<State>, states': seq<State>,
      at: nat, turn: Turn, pending: bool, asked: bool, shown: seq<Shown>)
    requires TurnHeld(o, past, states, at, turn, pending, asked, shown)
    requires past <= past' && states <= states' && |past'| < |states'|
    ensures TurnHeld(o, past', states', at, turn, pending, asked, shown)
  {
    RaisedStays(past, past', states, states', at - |turn.before|, at);
  }

  lemma HeldStep(o: Options, past: seq<Happening>, past': seq<Happening>, states: seq<State>, states': seq<State>,
      start: nat, turns: seq<Turn>, turn: Turn, pending: bool, requests: seq<bool>, asked: bool,
      screens: seq<seq<Shown>>, shown: seq<Shown>)
    requires Held(o, past, states, start, turns, pending, requests, screens)
    requires past <= past' && states <= states' && |past'| < |states'|
    requires TurnHeld(o, past', states', start + |HappeningsOf(turns)| + |turn.before|, turn, pending && turns == [],
      asked, shown)
    ensures Held(o, past', states', start, turns + [turn], pending, requests + [asked], screens + [shown])
  {
    hide TurnHeld, HappeningsOf;
    var turns', requests', screens' := turns + [turn], requests + [asked], screens + [shown];
    forall i | 0 <= i < |turns'|
      ensures TurnHeld(o, past', states', SampleAt(start, turns', i), turns'[i], pending && i == 0, requests'[i],
        screens'[i])
    {
      if i < |turns| {
        assert turns'[..i] == turns[..i];
        TurnStays(o, past, past', states, states', SampleAt(start, turns, i), turns[i], pending && i == 0, requests[i],
          screens[i]);
      } else {
        assert turns'[..i] == turns;
      }
    }
  }

  /** Everything `cur` showed for one state during the turns, added up as the counter's own type would. */
  function Added(start: Tick, raws: seq<seq<Tick>>, k: nat): Tick
    requires k < STATES && forall r | r in raws :: |r| == STATES
  {
    if raws == [] then 0
    else
      var n := |raws| - 1;
      TickAdd(Added(start, raws[..n], k), TickSub(raws[n][k], if n == 0 then start else raws[n - 1][k]))
  }

  /** The increments of a run add up to the final raw counter minus the base it started from. */
  lemma {:induction false} IncrementsAddUp(start: Tick, raws: seq<seq<Tick>>, k: nat)
    requires k < STATES && raws != [] && forall r | r in raws :: |r| == STATES
    ensures Added(start, raws, k) == TickSub(raws[|raws| - 1][k], start)
  {
    var n := |raws| - 1;
    if n > 0 {
      IncrementsAddUp(start, raws[..n], k);
    }
  }

  /** What is shown and kept for the counted states after the turns `raws`. */
  ghost predicate Accounted(sums: seq<Tick>, last: seq<Tick>, start: seq<Tick>, raws: seq<seq<Tick>>)
    requires |sums| == |last| == |start| == STATES && forall r | r in raws :: |r| == STATES
  {
    forall k | 0 <= k < STATES && Counted(k) ::
      && sums[k] == Added(start[k], raws, k)
      && last[k] == if raws == [] then start[k] else raws[|raws| - 1][k]
  }

  lemma AccountedStep(sums: seq<Tick>, last: seq<Tick>, start: seq<Tick>, raws: seq<seq<Tick>>, raw: seq<Tick>,
      sums': seq<Tick>, last': seq<Tick>)
    requires |sums| == |last| == |start| == |sums'| == |last'| == STATES
    requires |raw| == STATES && forall r | r in raws :: |r| == STATES
    requires Accounted(sums, last, start, raws)
    requires forall k | 0 <= k < STATES && Counted(k) ::
      sums'[k] == TickAdd(sums[k], TickSub(raw[k], last[k])) && last'[k] == raw[k]
    ensures Accounted(sums', last', start, raws + [raw])
  {
    assert (raws + [raw])[..|raws|] == raws;
  }

  /** Over any run, what is shown adds up to the final raw counter, less the base the run started from. */
  lemma ShownIsRaw(sums: seq<Tick>, last: seq<Tick>, start: seq<Tick>, raws: seq<seq<Tick>>, k: nat)
    requires |sums| == |last| == |start| == STATES && forall r | r in raws :: |r| == STATES
    requires Accounted(sums, last, start, raws) && raws != [] && (k == USER || k == SYSTEM || k == IDLE)
    ensures last[k] == raws[|raws| - 1][k] && sums[k] == (last[k] - start[k]) % TICKS
    ensures start[k] == 0 ==> sums[k] == raws[|raws| - 1][k]
  {
    IncrementsAddUp(start[k], raws, k);
  }

  /** One turn's cpustats, with what it shows added to the sums. */
  method CountTurn(load: CpuLoad, raw: seq<Tick>, sums: seq<Tick>, ghost start: seq<Tick>, ghost raws: seq<seq<Tick>>)
    returns (added: seq<Tick>)
    requires load.Valid() && |raw| == |sums| == |start| == STATES && forall r | r in raws :: |r| == STATES
    requires Accounted(sums, load.last[..], start, raws)
    modifies load.cur, load.last
    ensures |added| == STATES && Accounted(added, load.last[..], start, raws + [raw])
  {
    ghost var last := load.last[..];
    var _ := load.CpuStats(raw);
    added := [TickAdd(sums[USER], load.cur[USER]), TickAdd(sums[SYSTEM], load.cur[SYSTEM]),
              TickAdd(sums[IDLE], load.cur[IDLE]), sums[NICE]];
    AccountedStep(sums, last, start, raws, raw, added, load.last[..]);
  }

  lemma NothingAccounted(sums: seq<Tick>, start: seq<Tick>)
    requires sums == [0, 0, 0, 0] && |start| == STATES
    ensures Accounted(sums, start, start, [])
  {
  }

  function RawsOf(turns: seq<Turn>): (raws: seq<seq<Tick>>)
    requires forall i | 0 <= i < |turns| :: Proper(turns[i])
    ensures |raws| == |turns| && forall r | r in raws :: |r| == STATES
  {
    var raws := seq(|turns|, i requires 0 <= i < |turns| => turns[i].raw);
    assert forall i | 0 <= i < |raws| :: raws[i] == turns[i].raw && Proper(turns[i]);
    raws
  }

  /** The body of the loop, up to its count. */
  method OneTurn(m: Monitor, load: CpuLoad, turn: Turn, headercount: int, output: seq<Line>, sums: seq<Tick>,
      ghost start: seq<Tick>, ghost raws: seq<seq<Tick>>)
    returns (left: int, lines: seq<Line>, asked: bool, shown: seq<Shown>, added: seq<Tick>)
    requires m.Valid() && load.Valid() && Proper(turn)
    requires |sums| == |start| == STATES && forall r | r in raws :: |r| == STATES
    requires Accounted(sums, load.last[..], start, raws)
    modifies m, m.table, m.table.drives, load.cur, load.last
    ensures m.Valid() && !m.phdr && old(m.states) <= m.states
    ensures m.past == old(m.past) + DrivesOf(turn.before) + [DriveRuns.Sample(turn.registry)]
    ensures TurnHeld(m.o, m.past, m.states, |old(m.past)| + |turn.before|, turn, old(m.phdr), asked, shown)
    ensures var due := headercount - 1 == 0 || asked;
      left == (if due then 20 else headercount - 1) && lines == output + (if due then [Header] else []) + [Row]
    ensures |added| == STATES && Accounted(added, load.last[..], start, raws + [turn.raw])
  {
    hide Accounted, TurnHeld, Monitor.Valid;
    asked, shown := m.TakeTurn(turn);
    left, lines := headercount - 1, output;
    if left == 0 || asked {
      left := 20;
      lines := lines + [Header];
    }
    added := CountTurn(load, turn.raw, sums, start, raws);
    lines := lines + [Row];
  }

  /** Where the main loop stands after the turns `done`. */
  ghost predicate Reached(o: Options, before: seq<Happening>, past: seq<Happening>, states: seq<State>, done: seq<Turn>,
      pending: bool, headercount: int, output: seq<Line>, requests: seq<bool>, screens: seq<seq<Shown>>) {
    && past == before + HappeningsOf(done) && |requests| == |done| && |past| < |states|
    && output == Output(requests, |requests|) && headercount == Countdown(requests, |requests|)
    && Held(o, past, states, |before|, done, pending, requests, screens)
  }

  lemma ReachedAtStart(o: Options, past: seq<Happening>, states: seq<State>, pending: bool)
    requires |past| < |states|
    ensures Reached(o, past, past, states, [], pending, 1, [], [], [])
  {
    assert past + [] == past;
  }

  lemma ReachedStep(o: Options, before: seq<Happening>, past: seq<Happening>, past': seq<Happening>, states: seq<State>,
      states': seq<State>, done: seq<Turn>, turn: Turn, pending: bool, headercount: int, left: int, output: seq<Line>,
      lines: seq<Line>, requests: seq<bool>, asked: bool, screens: seq<seq<Shown>>, shown: seq<Shown>)
    requires Reached(o, before, past, states, done, pending, headercount, output, requests, screens)
    requires past' == past + DrivesOf(turn.before) + [DriveRuns.Sample(turn.registry)]
    requires states <= states' && |past'| < |states'|
    requires TurnHeld(o, past', states', |past| + |turn.before|, turn, pending && done == [], asked, shown)
    requires var due := headercount - 1 == 0 || asked;
      left == (if due then 20 else headercount - 1) && lines == output + (if due then [Header] else []) + [Row]
    ensures Reached(o, before, past', states', done + [turn], pending, left, lines, requests + [asked],
      screens + [shown])
  {
    hide TurnHeld, Held, Output, Countdown;
    OutputStep(requests, asked);
    HeldStep(o, past, past', states, states', |before|, done, turn, pending, requests, asked, screens, shown);
    assert (done + [turn])[..|done|] == done;
    assert past' == before + HappeningsOf(done + [turn]);
  }

  lemma ReachedSays(o: Options, before: seq<Happening>, past: seq<Happening>, states: seq<State>, done: seq<Turn>,
      pending: bool, headercount: int, output: seq<Line>, requests: seq<bool>, screens: seq<seq<Shown>>)
    requires Reached(o, before, past, states, done, pending, headercount, output, requests, screens)
    ensures |requests| == |done| && output == Output(requests, |requests|) && WellHeaded(output)
    ensures past == before + HappeningsOf(done)
    ensures Held(o, past, states, |before|, done, pending, requests, screens)
  {
    OutputWellHeaded(requests, |requests|);
  }

  /** The main loop, run for as long as there are turns; `sums` adds up what is shown of the CPU. */
  method Run(m: Monitor, load: CpuLoad, count: int, turns: seq<Turn>)
    returns (output: seq<Line>, ended: bool, requests: seq<bool>, screens: seq<seq<Shown>>, sums: seq<Tick>)
    requires m.Valid() && load.Valid() && forall i | 0 <= i < |turns| :: Proper(turns[i])
    modifies m, m.table, m.table.drives, load.cur, load.last
    ensures |requests| == Turns(count, |turns|) && output == Output(requests, |requests|) && WellHeaded(output)
    ensures ended <==> count >= 0 && |turns| >= if count < 1 then 1 else count
    ensures m.Valid() && m.past == old(m.past) + HappeningsOf(turns[..|requests|])
    ensures Held(m.o, m.past, m.states, |old(m.past)|, turns[..|requests|], old(m.phdr), requests, screens)
    ensures |sums| == STATES && Accounted(sums, load.last[..], old(load.last[..]), RawsOf(turns[..|requests|]))
  {
    hide Accounted, Output, Countdown, WellHeaded, Held, TurnHeld, HappeningsOf, Monitor.Valid, RawsOf, Reached;
    output, ended, requests, screens, sums := [], false, [], [], [0, 0, 0, 0];
    var left, headercount, i := count, 1, 0;
    ghost var start, before, pending := load.last[..], m.past, m.phdr;
    ReachedAtStart(m.o, m.past, m.states, m.phdr);
    NoTurns(turns, sums, start);
    while i < |turns|
      invariant i <= |turns| && |sums| == STATES && m.Valid()
      invariant if count < 0 then left == count else left == count - i && (i > 0 ==> left > 0)
      invariant m.phdr == (pending && i == 0)
      invariant Reached(m.o, before, m.past, m.states, turns[..i], pending, headercount, output, requests, screens)
      invariant Accounted(sums, load.last[..], start, RawsOf(turns[..i]))
    {
      ghost var past, states, was, lines := m.past, m.states, headercount, output;
      var asked, shown;
      TurnsStep(turns, i);
      headercount, output, asked, shown, sums :=
        OneTurn(m, load, turns[i], headercount, output, sums, start, RawsOf(turns[..i]));
      ReachedStep(m.o, before, past, m.past, states, m.states, turns[..i], turns[i], pending, was, headercount, lines,
        output, requests, asked, screens, shown);
      requests, screens := requests + [asked], screens + [shown];
      i := i + 1;
      if left >= 0 {
        left := left - 1;
        if left <= 0 {
          ended := true;
          break;
        }
      }
    }
    ReachedSays(m.o, before, m.past, m.states, turns[..i], pending, headercount, output, requests, screens);
  }

  lemma NoTurns(turns: seq<Turn>, sums: seq<Tick>, last: seq<Tick>)
    requires sums == [0, 0, 0, 0] && |last| == STATES && forall i | 0 <= i < |turns| :: Proper(turns[i])
    ensures turns[..0] == [] && Accounted(sums, last, last, RawsOf(turns[..0]))
  {
    NothingAccounted(sums, last);
  }

  lemma TurnsStep(turns: seq<Turn>, i: nat)
    requires i < |turns| && forall i | 0 <= i < |turns| :: Proper(turns[i])
    ensures turns[..i + 1] == turns[..i] + [turns[i]] && (turns[..i] == [] <==> i == 0)
    ensures RawsOf(turns[..i + 1]) == RawsOf(turns[..i]) + [turns[i].raw]
  {
  }

  // ----- When a header is asked for -----

  /**
   * A list of media that comes in before turn `i`, while the table is not full, makes that turn print a
   * header; so does a departure that takes an entry out; so does resuming the program.
   */
  lemma NewsBringsHeader(o: Options, before: seq<Happening>, states: seq<State>, turns: seq<Turn>, pending: bool,
      requests: seq<bool>, screens: seq<seq<Shown>>, i: nat, j: nat)
    requires IsRun(o, before + HappeningsOf(turns), states) && i < |turns| && j < |turns[i].before|
    requires Held(o, before + HappeningsOf(turns), states, |before|, turns, pending, requests, screens)
    ensures |requests| == |turns|
    ensures var k, event := SampleAt(|before|, turns, i) - |turns[i].before| + j, turns[i].before[j];
      && 0 <= k && k + 1 < |states|
      && (|| (event.Arrive? && event.list != [] && |states[k].live| < MAXDRIVES)
          || (event.Depart? && |states[k + 1].live| < |states[k].live|)
          || turns[i].resumed
          ==> Output(requests, i + 1) == Output(requests, i) + [Header, Row])
  {
    hide HappeningsOf, Next, ScreenOf, Output;
    var past := before + HappeningsOf(turns);
    var at := SampleAt(|before|, turns, i);
    assert TurnHeld(o, past, states, at, turns[i], pending && i == 0, requests[i], screens[i]);
    NewsAt(before, turns, i, j);
    var k := at - |turns[i].before| + j;
    assert past[k] == Drives(turns[i].before[j]);
    if Raises(past[k].event, states[k].live, states[k + 1].live) {
      assert Raised(past, states, at - |turns[i].before|, at);
    }
    if requests[i] {
      AskedHeader(requests, i);
    }
  }

  /** Where a notification stands in the history. */
  lemma NewsAt(before: seq<Happening>, turns: seq<Turn>, i: nat, j: nat)
    requires i < |turns| && j < |turns[i].before|
    ensures var past, k := before + HappeningsOf(turns), SampleAt(|before|, turns, i) - |turns[i].before| + j;
      0 <= k < |past| && past[k] == Drives(turns[i].before[j])
  {
    hide HappeningsOf;
    TurnsArePart(turns, i + 1);
    HappeningsStep(turns, i);
    var front := HappeningsOf(turns[..i]);
    var known := front + DrivesOf(turns[i].before) + [DriveRuns.Sample(turns[i].registry)];
    assert known[|front| + j] == DrivesOf(turns[i].before)[j];
  }

  // ----- What the rows say of one drive -----

  /**
   * Whatever came and went: in turn `i` the row of a drive that stands in the table once shows the interval
   * of its own history, from what its slot held when happening `b` recorded it as its `a`-th medium.
   */
  lemma RowIsHistory(o: Options, past: seq<Happening>, states: seq<State>, start: nat, turns: seq<Turn>, pending: bool,
      requests: seq<bool>, screens: seq<seq<Shown>>, i: nat, n: string, b: nat, a: nat)
    requires IsRun(o, past, states) && Held(o, past, states, start, turns, pending, requests, screens) && i < |turns|
    requires Joins(past, states, b, a, n) && b < SampleAt(start, turns, i) < |past|
    requires Sole(states, n, b + 1, SampleAt(start, turns, i))
    requires Seen(o, turns[i].registry, states[SampleAt(start, turns, i)], n)
    ensures var k := SampleAt(start, turns, i);
      var rs, row := Readings(o, past, states, n, b + 1, k + 1), Find(states[k].live, n);
      && rs != [] && rs[|rs| - 1] == turns[i].registry[Entry(states[k], n).driver]
      && row < |screens[i]| && screens[i][row].Shown?
      && screens[i][row].interval == IntervalAt(o.cumulative, FirstOf(past, states, b, a, n), rs, |rs| - 1)
  {
    hide Find, Next, Once, IntervalAt, Readings, HappeningsOf, Raised, ScreenOf;
    var k := SampleAt(start, turns, i);
    assert TurnHeld(o, past, states, k, turns[i], pending && i == 0, requests[i], screens[i]);
    ShownForDrive(o, past, states, n, b, a, k);
  }

  lemma {:induction false} TurnsArePart(turns: seq<Turn>, i: nat)
    requires i <= |turns|
    ensures HappeningsOf(turns[..i]) <= HappeningsOf(turns)
    decreases |turns|
  {
    if i < |turns| {
      TurnsArePart(turns[..|turns| - 1], i);
      assert turns[..|turns| - 1][..i] == turns[..i];
    } else {
      assert turns[..i] == turns;
    }
  }

  /** Between the samples of two turns that follow each other there are only arrivals and departures. */
  lemma BetweenTurns(before: seq<Happening>, turns: seq<Turn>, i: nat)
    requires i + 1 < |turns|
    ensures var p, k := SampleAt(|before|, turns, i), SampleAt(|before|, turns, i + 1);
      var past := before + HappeningsOf(turns);
      && p < k < |past| && past[p] == DriveRuns.Sample(turns[i].registry)
      && past[k] == DriveRuns.Sample(turns[i + 1].registry)
      && forall j | p < j < k :: past[j].Drives?
  {
    hide HappeningsOf, DrivesOf;
    var a, b := turns[i], turns[i + 1];
    TurnsArePart(turns, i + 2);
    HappeningsStep(turns, i);
    HappeningsStep(turns, i + 1);
    PlacesOf(HappeningsOf(turns[..i]), DrivesOf(a.before), DriveRuns.Sample(a.registry), DrivesOf(b.before),
      DriveRuns.Sample(b.registry), HappeningsOf(turns));
    Behind(before, HappeningsOf(turns));
  }

  lemma Behind<T>(u: seq<T>, v: seq<T>)
    ensures forall j | |u| <= j < |u + v| :: (u + v)[j] == v[j - |u|]
  {
  }

  lemma HappeningsStep(turns: seq<Turn>, i: nat)
    requires i < |turns|
    ensures HappeningsOf(turns[..i + 1]) ==
      HappeningsOf(turns[..i]) + DrivesOf(turns[i].before) + [DriveRuns.Sample(turns[i].registry)]
  {
    assert turns[..i + 1][..i] == turns[..i];
  }

  lemma PlacesOf<T>(u: seq<T>, v: seq<T>, x: T, w: seq<T>, y: T, all: seq<T>)
    requires u + v + [x] + w + [y] <= all
    ensures var p := |u| + |v|;
      && p + 1 + |w| < |all| && all[p] == x && all[p + 1 + |w|] == y
      && forall j | p < j < p + 1 + |w| :: all[j] == w[j - p - 1]
  {
    var known := u + v + [x] + w + [y];
    assert forall j | 0 <= j < |known| :: all[j] == known[j];
  }

  /**
   * Without -I, the row of a drive in turn `i + 1` is measured from its reading in turn `i` if and only if
   * there was one and the drive was among the first `maxShow` then, or had counted nothing since it was last
   * measured.
   */
  lemma MeasuredFromTurnBefore(o: Options, before: seq<Happening>, states: seq<State>, turns: seq<Turn>, pending: bool,
      requests: seq<bool>, screens: seq<seq<Shown>>, i: nat, n: string)
    requires IsRun(o, before + HappeningsOf(turns), states) && !o.cumulative && i + 1 < |turns|
    requires Held(o, before + HappeningsOf(turns), states, |before|, turns, pending, requests, screens)
    requires Sole(states, n, SampleAt(|before|, turns, i), SampleAt(|before|, turns, i + 1))
    requires Seen(o, turns[i + 1].registry, states[SampleAt(|before|, turns, i + 1)], n)
    ensures var p, k := SampleAt(|before|, turns, i), SampleAt(|before|, turns, i + 1);
      var d, row, reading := Entry(states[p], n), Find(states[k].live, n), turns[i].registry;
      && d.driver in turns[i + 1].registry && row < |screens[i + 1]| && screens[i + 1][row].Shown?
      && (d.driver in reading
          && screens[i + 1][row].interval == Interval(turns[i + 1].registry[d.driver], reading[d.driver])
          <==> d.driver in reading && (Find(states[p].live, n) < o.maxShow || d.totals == reading[d.driver]))
  {
    hide Find, Next, Interval, HappeningsOf, Raised;
    var p, k := SampleAt(|before|, turns, i), SampleAt(|before|, turns, i + 1);
    BetweenTurns(before, turns, i);
    MeasuredFromPrevious(o, before + HappeningsOf(turns), states, n, p, k);
    assert TurnHeld(o, before + HappeningsOf(turns), states, k, turns[i + 1], pending && i + 1 == 0, requests[i + 1],
      screens[i + 1]);
  }

  /**
   * Each field of a row is that of the reading minus that of the totals it is measured from, modulo 2^64: the
   * drive's own, after the readings that measured it before.
   */
  lemma RowFields(o: Options, past: seq<Happening>, states: seq<State>, start: nat, turns: seq<Turn>, pending: bool,
      requests: seq<bool>, screens: seq<seq<Shown>>, i: nat, n: string, b: nat, a: nat)
    requires IsRun(o, past, states) && Held(o, past, states, start, turns, pending, requests, screens) && i < |turns|
    requires Joins(past, states, b, a, n) && b < SampleAt(start, turns, i) < |past|
    requires Sole(states, n, b + 1, SampleAt(start, turns, i))
    requires Seen(o, turns[i].registry, states[SampleAt(start, turns, i)], n)
    ensures var k, medium := SampleAt(start, turns, i), MediumOf(past, states, b, a, n);
      var row := Find(states[k].live, n);
      && medium.driver in turns[i].registry && medium.blocksize != 0
      && row < |screens[i]| && screens[i][row].Shown?
      && var total, shown := turns[i].registry[medium.driver], screens[i][row].interval;
      var base := Base(o.cumulative, FirstOf(past, states, b, a, n), Readings(o, past, states, n, b + 1, k));
      && shown.bytes == (total.bytes - base.bytes) % WORD
      && shown.readBytes == (total.readBytes - base.readBytes) % WORD
      && shown.writtenBytes == (total.writtenBytes - base.writtenBytes) % WORD
      && shown.transfers == (total.transfers - base.transfers) % WORD
      && shown.time == (total.time - base.time) % WORD
      && screens[i][row].blocks == shown.bytes / medium.blocksize
  {
    hide Find, Next, Once, Readings, HappeningsOf, Raised, ScreenOf, Base;
    var k := SampleAt(start, turns, i);
    assert TurnHeld(o, past, states, k, turns[i], pending && i == 0, requests[i], screens[i]);
    ShownFields(o, past, states, n, b, a, k);
  }

  // ----- Rows of one drive added up -----

  /** The rows shown for a drive in the turns `i` up to `j`, added up field by field. */
  function RowSums(states: seq<State>, start: nat, turns: seq<Turn>, screens: seq<seq<Shown>>, n: string, i: nat,
      j: nat): Sums
    requires i <= j <= |turns| == |screens|
    requires forall t | i <= t < j :: SampleAt(start, turns, t) < |states|
  {
    if i == j then NO_ROWS
    else
      var s := RowSums(states, start, turns, screens, n, i, j - 1);
      var row := Find(states[SampleAt(start, turns, j - 1)].live, n);
      var screen := screens[j - 1];
      if row < |screen| && screen[row].Shown?
      then Sums(s.bytes + screen[row].interval.bytes, s.readBytes + screen[row].interval.readBytes,
                s.writtenBytes + screen[row].interval.writtenBytes, s.transfers + screen[row].interval.transfers,
                s.time + screen[row].interval.time)
      else s
  }

  lemma TurnAt(o: Options, past: seq<Happening>, states: seq<State>, start: nat, turns: seq<Turn>, pending: bool,
      requests: seq<bool>, screens: seq<seq<Shown>>, i: nat)
    requires Held(o, past, states, start, turns, pending, requests, screens) && i < |turns|
    ensures |screens| == |turns|
    ensures var k := SampleAt(start, turns, i);
      && k < |past| < |states| && past[k] == DriveRuns.Sample(turns[i].registry) && Sound(states[k].live)
      && screens[i] == ScreenOf(o, turns[i].registry, states[k].live)
  {
    hide SampleAt, Raised, ScreenOf;
    assert TurnHeld(o, past, states, SampleAt(start, turns, i), turns[i], pending && i == 0, requests[i], screens[i]);
  }

  lemma SamplesInside(o: Options, past: seq<Happening>, states: seq<State>, start: nat, turns: seq<Turn>, pending: bool,
      requests: seq<bool>, screens: seq<seq<Shown>>)
    requires Held(o, past, states, start, turns, pending, requests, screens)
    ensures |screens| == |requests| == |turns|
    ensures forall t | 0 <= t < |turns| :: SampleAt(start, turns, t) < |past| < |states|
  {
    hide SampleAt, TurnHeld, ScreenOf, Sound;
    forall t | 0 <= t < |turns|
      ensures SampleAt(start, turns, t) < |past| < |states|
    {
      TurnAt(o, past, states, start, turns, pending, requests, screens, t);
    }
  }

  lemma RowSumsStep(states: seq<State>, start: nat, turns: seq<Turn>, screens: seq<seq<Shown>>, n: string, i: nat,
      j: nat)
    requires i < j <= |turns| == |screens|
    requires forall t | i <= t < j :: SampleAt(start, turns, t) < |states|
    ensures var s := RowSums(states, start, turns, screens, n, i, j - 1);
      var row := Find(states[SampleAt(start, turns, j - 1)].live, n);
      var screen := screens[j - 1];
      RowSums(states, start, turns, screens, n, i, j) ==
        if row < |screen| && screen[row].Shown? then Plus(s, screen[row].interval) else s
  {
    hide SampleAt, Find;
  }

  /** A turn shows a drive exactly if its sample measures it, and adds to the sums what its totals rise by. */
  lemma TurnAdds(o: Options, s: State, registry: Registry, t: State, n: string, sums: Sums, first: Totals)
    requires !o.cumulative && Next(o, s, DriveRuns.Sample(registry), t) && Once(s.live, n) && Once(t.live, n)
    requires Sound(s.live) && SumsTo(sums, Entry(s, n).totals, first)
    ensures var screen, row := ScreenOf(o, registry, s.live), Find(s.live, n);
      SumsTo(if row < |screen| && screen[row].Shown? then Plus(sums, screen[row].interval) else sums,
        Entry(t, n).totals, first)
  {
    EntryStays(o, s, DriveRuns.Sample(registry), t, n);
    if Seen(o, registry, s, n) {
      hide Find, Next, Interval, ScreenOf, SumsTo, Plus, Once;
      RowOf(o, registry, s, n);
      OneMoreRow(sums, first, Entry(s, n).totals, registry[Entry(s, n).driver]);
    } else {
      hide Next, Interval, SumsTo, Plus;
    }
  }

  lemma {:induction false} SumsFollow(o: Options, before: seq<Happening>, states: seq<State>, turns: seq<Turn>,
      pending: bool, requests: seq<bool>, screens: seq<seq<Shown>>, n: string, i: nat, j: nat)
    requires IsRun(o, before + HappeningsOf(turns), states) && !o.cumulative && i < j <= |turns|
    requires Held(o, before + HappeningsOf(turns), states, |before|, turns, pending, requests, screens)
    requires Sole(states, n, SampleAt(|before|, turns, i), SampleAt(|before|, turns, j - 1) + 1)
    ensures |screens| == |turns|
    ensures forall t | 0 <= t < |turns| :: SampleAt(|before|, turns, t) < |states|
    ensures SumsTo(RowSums(states, |before|, turns, screens, n, i, j),
      Entry(states[SampleAt(|before|, turns, j - 1) + 1], n).totals,
      Entry(states[SampleAt(|before|, turns, i)], n).totals)
    decreases j
  {
    hide Find, Next, Once, HappeningsOf, SampleAt, Raised, ScreenOf, SumsTo, Plus, RowSums, Base, Readings, Held;
    var past := before + HappeningsOf(turns);
    SamplesInside(o, past, states, |before|, turns, pending, requests, screens);
    var k := SampleAt(|before|, turns, j - 1);
    var first := Entry(states[SampleAt(|before|, turns, i)], n).totals;
    RowSumsStep(states, |before|, turns, screens, n, i, j);
    var sums := RowSums(states, |before|, turns, screens, n, i, j - 1);
    if j - 1 == i {
      NoRowSums(states, |before|, turns, screens, n, i);
      NoRows(first);
    } else {
      BetweenTurns(before, turns, j - 2);
      SampleOrder(before, turns, i, j - 2);
      var p := SampleAt(|before|, turns, j - 2);
      SumsFollow(o, before, states, turns, pending, requests, screens, n, i, j - 1);
      EntryFollows(o, past, states, n, p + 1, k);
      NothingRead(o, past, states, n, p + 1, k);
      BaseNone(o.cumulative, Entry(states[p + 1], n).totals);
    }
    TurnAt(o, past, states, |before|, turns, pending, requests, screens, j - 1);
    assert Next(o, states[k], past[k], states[k + 1]);
    TurnAdds(o, states[k], turns[j - 1].registry, states[k + 1], n, sums, first);
  }

  lemma {:induction false} SampleOrder(before: seq<Happening>, turns: seq<Turn>, i: nat, j: nat)
    requires i <= j < |turns|
    ensures SampleAt(|before|, turns, i) <= SampleAt(|before|, turns, j)
    decreases j
  {
    if i < j {
      SampleOrder(before, turns, i, j - 1);
      BetweenTurns(before, turns, j - 1);
    }
  }

  /** No sample was taken between the happening `b` and the happening `k`. */
  predicate NoSample(past: seq<Happening>, b: nat, k: nat) {
    b < k <= |past| && forall t | b < t < k :: past[t].Drives?
  }

  lemma NoRowSums(states: seq<State>, start: nat, turns: seq<Turn>, screens: seq<seq<Shown>>, n: string, i: nat)
    requires i <= |turns| == |screens|
    ensures RowSums(states, start, turns, screens, n, i, i) == NO_ROWS
  {
  }

  /**
   * Without -I, the rows shown for a drive add up, in every field and modulo 2^64, to its last reading minus
   * what its slot held when it was recorded.
   */
  lemma RowsAddUp(o: Options, before: seq<Happening>, states: seq<State>, turns: seq<Turn>, pending: bool,
      requests: seq<bool>, screens: seq<seq<Shown>>, n: string, b: nat, a: nat, i: nat, j: nat)
    requires IsRun(o, before + HappeningsOf(turns), states) && !o.cumulative && i < j <= |turns|
    requires Held(o, before + HappeningsOf(turns), states, |before|, turns, pending, requests, screens)
    requires Joins(before + HappeningsOf(turns), states, b, a, n)
    requires NoSample(before + HappeningsOf(turns), b, SampleAt(|before|, turns, i))
    requires Sole(states, n, b + 1, SampleAt(|before|, turns, j - 1) + 1)
    ensures SampleAt(|before|, turns, j - 1) < |before + HappeningsOf(turns)| < |states|
    ensures |screens| == |turns|
    ensures forall t | 0 <= t < |turns| :: SampleAt(|before|, turns, t) < |states|
    ensures var past, end := before + HappeningsOf(turns), SampleAt(|before|, turns, j - 1) + 1;
      var first, rs := FirstOf(past, states, b, a, n), Readings(o, past, states, n, b + 1, end);
      var last := if rs == [] then first else rs[|rs| - 1];
      var s := RowSums(states, |before|, turns, screens, n, i, j);
      && s.bytes % WORD == (last.bytes - first.bytes) % WORD
      && s.readBytes % WORD == (last.readBytes - first.readBytes) % WORD
      && s.writtenBytes % WORD == (last.writtenBytes - first.writtenBytes) % WORD
      && s.transfers % WORD == (last.transfers - first.transfers) % WORD
      && s.time % WORD == (last.time - first.time) % WORD
  {
    hide Find, Next, Once, HappeningsOf, SampleAt, RowSums, Readings, Held, Base;
    var past := before + HappeningsOf(turns);
    var k, end := SampleAt(|before|, turns, i), SampleAt(|before|, turns, j - 1) + 1;
    SamplesInside(o, past, states, |before|, turns, pending, requests, screens);
    SampleOrder(before, turns, i, j - 1);
    SumsFollow(o, before, states, turns, pending, requests, screens, n, i, j);
    EntryRecorded(o, past, states, n, b, a);
    EntryFollows(o, past, states, n, b + 1, k);
    NothingRead(o, past, states, n, b + 1, k);
    EntryFollows(o, past, states, n, b + 1, end);
    var first, rs := FirstOf(past, states, b, a, n), Readings(o, past, states, n, b + 1, end);
    BaseNone(false, first);
    PlainBase(first, rs, |rs|);
    assert rs[..|rs|] == rs;
  }
}
