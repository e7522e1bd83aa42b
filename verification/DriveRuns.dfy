/** license/iostat.cpp: the table of drives over a whole run, in which arrivals, departures and samples alternate. */
module DriveRuns {
  import opened Wrappers
  import opened Words
  import opened DeviceTable
  import opened Intervals

  /** -I, and how many drives are shown. */
  datatype Options = Options(cumulative: bool, maxShow: nat)

  /** What the registry says at one sample, for every storage driver whose properties can be read. */
  type Registry = map<int, Totals>

  datatype Happening = Drives(event: Event) | Sample(registry: Registry)

  /** The entries of the table and the slots behind them. */
  datatype State = State(live: seq<Drive>, free: seq<Drive>)

  function Reading(registry: Registry, d: Drive): Option<Totals> {
    if d.driver in registry then Some(registry[d.driver]) else None
  }

  /** What devstats computes for one drive; nothing if its properties could not be read. */
  datatype Shown = Skipped | Shown(interval: Totals, blocks: nat)

  function ShownOf(d: Drive, reading: Option<Totals>): Shown
    requires d.blocksize != 0
  {
    match reading
    case None => Skipped
    case Some(total) => var interval := Interval(total, d.totals); Shown(interval, interval.bytes / d.blocksize)
  }

  function Measured(cumulative: bool, d: Drive, reading: Option<Totals>): Drive {
    match reading
    case None => d
    case Some(total) => d.(totals := NewBase(cumulative, d.totals, total))
  }

  /** The entries after a sample: the first `maxShow` are measured. */
  function Sampled(o: Options, registry: Registry, live: seq<Drive>): seq<Drive> {
    seq(|live|, i requires 0 <= i < |live| =>
      if i < o.maxShow then Measured(o.cumulative, live[i], Reading(registry, live[i])) else live[i])
  }

  predicate Sound(live: seq<Drive>) {
    forall i | 0 <= i < |live| :: live[i].blocksize != 0
  }

  /** What one call of devstats shows. */
  function ScreenOf(o: Options, registry: Registry, live: seq<Drive>): seq<Shown>
    requires Sound(live)
  {
    seq(if |live| < o.maxShow then |live| else o.maxShow,
      i requires 0 <= i < |live| && i < o.maxShow => ShownOf(live[i], Reading(registry, live[i])))
  }

  // ----- Runs -----

  /** One happening, as the program's table goes through it. */
  ghost predicate Next(o: Options, s: State, h: Happening, t: State) {
    && |t.live| + |t.free| == MAXDRIVES && ByName(t.live)
    && match h
       case Drives(event) => Moves(s.live, s.free, event, t.live, t.free)
       case Sample(registry) => t.live == Sampled(o, registry, s.live) && t.free == s.free
  }

  /** The table before anything was recorded. */
  function Boot(): State {
    State([], seq(MAXDRIVES, _ => NEVER_USED))
  }

  ghost predicate IsRun(o: Options, past: seq<Happening>, states: seq<State>) {
    && |states| == |past| + 1 && states[0] == Boot()
    && forall k | 0 <= k < |past| :: Next(o, states[k], past[k], states[k + 1])
  }

  lemma StartRun(o: Options)
    ensures IsRun(o, [], [Boot()])
  {
  }

  lemma ExtendRun(o: Options, past: seq<Happening>, states: seq<State>, h: Happening, t: State)
    requires IsRun(o, past, states) && Next(o, states[|past|], h, t)
    ensures IsRun(o, past + [h], states + [t])
  {
    var past', states' := past + [h], states + [t];
    forall k | 0 <= k < |past'|
      ensures Next(o, states'[k], past'[k], states'[k + 1])
    {
      if k < |past| {
        assert states'[k] == states[k] && states'[k + 1] == states[k + 1];
      }
    }
  }

  lemma StateFits(o: Options, past: seq<Happening>, states: seq<State>, k: nat)
    requires IsRun(o, past, states) && k < |states|
    ensures |states[k].live| + |states[k].free| == MAXDRIVES && ByName(states[k].live)
  {
    if k > 0 {
      assert Next(o, states[k - 1], past[k - 1], states[k - 1 + 1]);
    }
  }

  /** The arrivals and departures alone. */
  function EventsOf(past: seq<Happening>): seq<Event> {
    if past == [] then []
    else
      EventsOf(past[..|past| - 1]) + (if past[|past| - 1].Drives? then [past[|past| - 1].event] else [])
  }

  /** The names in the table, and with them the places of the drives, follow from the arrivals and departures alone. */
  lemma {:induction false} NamesOfRun(o: Options, past: seq<Happening>, states: seq<State>, k: nat)
    requires IsRun(o, past, states) && k < |states|
    ensures multiset(Names(states[k].live)) == Bag(EventsOf(past[..k])) && ByName(states[k].live)
  {
    hide Names, Moves, BagAfter, ByName;
    StateFits(o, past, states, k);
    if k == 0 {
      NoNames();
    } else {
      var h, es := past[k - 1], EventsOf(past[..k - 1]);
      NamesOfRun(o, past, states, k - 1);
      assert Next(o, states[k - 1], past[k - 1], states[k - 1 + 1]);
      assert past[..k][..k - 1] == past[..k - 1];
      if h.Drives? {
        MovesNames(states[k - 1].live, states[k - 1].free, h.event, states[k].live, states[k].free);
        assert (es + [h.event])[..|es|] == es;
      } else {
        SampledNames(o, h.registry, states[k - 1].live);
        assert es + [] == es;
      }
    }
  }

  lemma MovesNames(live: seq<Drive>, free: seq<Drive>, event: Event, live': seq<Drive>, free': seq<Drive>)
    requires Moves(live, free, event, live', free')
    ensures multiset(Names(live')) == BagAfter(multiset(Names(live)), event)
  {
  }

  lemma SampledNames(o: Options, registry: Registry, live: seq<Drive>)
    ensures Names(Sampled(o, registry, live)) == Names(live)
    ensures forall n :: Find(Sampled(o, registry, live), n) == Find(live, n)
  {
    hide Names, Find;
    var after := Sampled(o, registry, live);
    assert forall i | 0 <= i < |live| :: Names(after)[i] == Names(live)[i];
    forall n
      ensures Find(after, n) == Find(live, n)
    {
      assert forall i | 0 <= i < |live| :: after[i].name == live[i].name;
    }
  }

  // ----- One drive -----

  /** The name stands in the table exactly once. */
  predicate Once(live: seq<Drive>, n: string) {
    Find(live, n) < |live| && forall j | Find(live, n) < j < |live| :: live[j].name != n
  }

  lemma OnceIsOne(live: seq<Drive>, n: string)
    ensures Once(live, n) <==> multiset(Names(live))[n] == 1
  {
    hide Names, Find;
    FindsName(live, n);
    var i, ns := Find(live, n), Names(live);
    if i < |live| {
      PutBack(ns, i);
      var rest := ns[..i] + ns[i + 1..];
      assert n in rest <==> exists j :: i < j < |live| && live[j].name == n by {
        if j :| i < j < |live| && live[j].name == n {
          assert rest[j - 1] == ns[j] == n;
        }
        if n in rest {
          var k :| 0 <= k < |rest| && rest[k] == n;
          assert k >= i && live[k + 1].name == n;
        }
      }
    }
  }

  lemma TheOne(live: seq<Drive>, n: string, d: Drive)
    requires Once(live, n) && d in live && d.name == n
    ensures live[Find(live, n)] == d
  {
  }

  function Entry(s: State, n: string): Drive
    requires Once(s.live, n)
  {
    s.live[Find(s.live, n)]
  }

  /** The drive is among those that a sample measures, and its properties can be read. */
  predicate Seen(o: Options, registry: Registry, s: State, n: string)
    requires Once(s.live, n)
  {
    Find(s.live, n) < o.maxShow && Entry(s, n).driver in registry
  }

  /** Whatever comes and goes, a drive that stays keeps its entry through shift and sort; only a sample measures it. */
  lemma EntryStays(o: Options, s: State, h: Happening, t: State, n: string)
    requires Next(o, s, h, t) && Once(s.live, n) && Once(t.live, n)
    ensures Entry(t, n) == if h.Sample? && Seen(o, h.registry, s, n)
      then Measured(o.cumulative, Entry(s, n), Reading(h.registry, Entry(s, n))) else Entry(s, n)
  {
    var d, e := Entry(s, n), Entry(t, n);
    match h
    case Sample(registry) =>
      SampledNames(o, registry, s.live);
    case Drives(event) =>
      hide Find, Names, ByName, BagAfter, Spares;
      if event.Arrive? {
        assert d in multiset(t.live);
        TheOne(t.live, n, d);
      } else {
        assert e in multiset(t.live);
        TheOne(s.live, n, e);
      }
  }

  /** `n` stands in the table exactly once in all states `from` to `upto`. */
  predicate Sole(states: seq<State>, n: string, from: nat, upto: nat) {
    from <= upto < |states| && forall k | from <= k <= upto :: Once(states[k].live, n)
  }

  /** Happening `b` records the drive `n`, as the `a`-th of its media. */
  predicate Joins(past: seq<Happening>, states: seq<State>, b: nat, a: nat, n: string) {
    && b < |past| && b < |states| && past[b].Drives? && past[b].event.Arrive?
    && a < |Accepted(past[b].event.list, |states[b].free|)|
    && Accepted(past[b].event.list, |states[b].free|)[a].name == n
  }

  function MediumOf(past: seq<Happening>, states: seq<State>, b: nat, a: nat, n: string): Medium
    requires Joins(past, states, b, a, n)
  {
    Accepted(past[b].event.list, |states[b].free|)[a]
  }

  /** The totals that its slot held then. */
  function FirstOf(past: seq<Happening>, states: seq<State>, b: nat, a: nat, n: string): Totals
    requires Joins(past, states, b, a, n)
  {
    states[b].free[a].totals
  }

  /** What was read for the drive `n` between the states `from` and `upto`, at the samples that measure it. */
  function Readings(o: Options, past: seq<Happening>, states: seq<State>, n: string, from: nat, upto: nat): seq<Totals>
    requires from <= upto <= |past| && |past| < |states|
    requires forall k | from <= k < upto :: Once(states[k].live, n)
  {
    if upto == from then []
    else
      var before := Readings(o, past, states, n, from, upto - 1);
      if past[upto - 1].Sample? && Seen(o, past[upto - 1].registry, states[upto - 1], n)
      then before + [past[upto - 1].registry[Entry(states[upto - 1], n).driver]] else before
  }

  lemma {:induction false} RecordedAt(acc: seq<Medium>, slots: seq<Drive>, a: nat)
    requires a < |acc| <= |slots|
    ensures RecordedAll(acc, slots)[a] == Recorded(acc[a], slots[a])
  {
    if a > 0 {
      RecordedAt(acc[1..], slots[1..], a - 1);
    }
  }

  /** A new drive has the totals of the slot it was recorded in. */
  lemma EntryRecorded(o: Options, past: seq<Happening>, states: seq<State>, n: string, b: nat, a: nat)
    requires IsRun(o, past, states) && Joins(past, states, b, a, n) && Once(states[b + 1].live, n)
    ensures Entry(states[b + 1], n) == Recorded(MediumOf(past, states, b, a, n), states[b].free[a])
  {
    hide Find, Names, ByName, BagAfter, Accepted, RecordedAll;
    assert Next(o, states[b], past[b], states[b + 1]);
    var s, t := states[b], states[b + 1];
    var acc := Accepted(past[b].event.list, |s.free|);
    var added := RecordedAll(acc, s.free);
    RecordedAt(acc, s.free, a);
    assert added[a] in multiset(added);
    assert added[a] in multiset(t.live);
    TheOne(t.live, n, added[a]);
  }

  lemma ReadingsStep(o: Options, past: seq<Happening>, states: seq<State>, n: string, from: nat, k: nat)
    requires from <= k < |past| < |states|
    requires forall j | from <= j <= k :: Once(states[j].live, n)
    ensures Readings(o, past, states, n, from, k + 1) == Readings(o, past, states, n, from, k)
      + if past[k].Sample? && Seen(o, past[k].registry, states[k], n)
        then [past[k].registry[Entry(states[k], n).driver]] else []
  {
  }

  lemma BaseNone(cumulative: bool, first: Totals)
    ensures Base(cumulative, first, []) == first
  {
  }

  /** While a drive stays, its running totals are those of the readings at the samples that measured it. */
  lemma {:induction false} EntryFollows(o: Options, past: seq<Happening>, states: seq<State>, n: string, from: nat,
      upto: nat)
    requires IsRun(o, past, states) && Sole(states, n, from, upto)
    ensures var d := Entry(states[from], n);
      Entry(states[upto], n) == d.(totals := Base(o.cumulative, d.totals, Readings(o, past, states, n, from, upto)))
    decreases upto
  {
    hide Find, Next, Once, Base, Readings;
    if upto == from {
      NothingRead(o, past, states, n, from, from);
      BaseNone(o.cumulative, Entry(states[from], n).totals);
    } else {
      var k := upto - 1;
      EntryFollows(o, past, states, n, from, k);
      assert Next(o, states[k], past[k], states[k + 1]);
      EntryStays(o, states[k], past[k], states[upto], n);
      var d, rs := Entry(states[from], n), Readings(o, past, states, n, from, k);
      ReadingsStep(o, past, states, n, from, k);
      if past[k].Sample? && Seen(o, past[k].registry, states[k], n) {
        BaseSnoc(o.cumulative, d.totals, rs, past[k].registry[d.driver]);
      } else {
        assert rs + [] == rs;
      }
    }
  }

  /**
   * The interval shown for a drive at the sample `k` is the one of its own history: measured from what its
   * slot held when it was recorded and from its readings at the samples that measured it since then.
   */
  lemma ShownForDrive(o: Options, past: seq<Happening>, states: seq<State>, n: string, b: nat, a: nat, k: nat)
    requires IsRun(o, past, states) && Joins(past, states, b, a, n) && Sole(states, n, b + 1, k)
    requires k < |past| && past[k].Sample? && Sound(states[k].live) && Seen(o, past[k].registry, states[k], n)
    ensures Entry(states[k], n).driver == MediumOf(past, states, b, a, n).driver
    ensures var rs, i := Readings(o, past, states, n, b + 1, k + 1), Find(states[k].live, n);
      && rs == Readings(o, past, states, n, b + 1, k) + [past[k].registry[Entry(states[k], n).driver]]
      && i < |ScreenOf(o, past[k].registry, states[k].live)|
      && ScreenOf(o, past[k].registry, states[k].live)[i].Shown?
      && ScreenOf(o, past[k].registry, states[k].live)[i].interval
           == IntervalAt(o.cumulative, FirstOf(past, states, b, a, n), rs, |rs| - 1)
  {
    hide Find, Next;
    EntryRecorded(o, past, states, n, b, a);
    EntryFollows(o, past, states, n, b + 1, k);
    var before := Readings(o, past, states, n, b + 1, k);
    var rs := Readings(o, past, states, n, b + 1, k + 1);
    assert rs[..|rs| - 1] == before;
  }

  /** The row of a drive that a sample measures. */
  lemma RowOf(o: Options, registry: Registry, s: State, n: string)
    requires Sound(s.live) && Once(s.live, n) && Seen(o, registry, s, n)
    ensures var screen, row, d := ScreenOf(o, registry, s.live), Find(s.live, n), Entry(s, n);
      && row < |screen| && screen[row].Shown? && d.blocksize != 0
      && screen[row].interval == Interval(registry[d.driver], d.totals)
      && screen[row].blocks == screen[row].interval.bytes / d.blocksize
  {
    hide Find, Interval;
  }

  /** What is shown for it, field by field, and in blocks of the size that its medium was recorded with. */
  lemma ShownFields(o: Options, past: seq<Happening>, states: seq<State>, n: string, b: nat, a: nat, k: nat)
    requires IsRun(o, past, states) && Joins(past, states, b, a, n) && Sole(states, n, b + 1, k)
    requires k < |past| && past[k].Sample? && Sound(states[k].live) && Seen(o, past[k].registry, states[k], n)
    ensures var medium, row, screen := MediumOf(past, states, b, a, n), Find(states[k].live, n),
        ScreenOf(o, past[k].registry, states[k].live);
      && medium.driver in past[k].registry && medium.blocksize != 0 && row < |screen| && screen[row].Shown?
      && var total, i := past[k].registry[medium.driver], screen[row].interval;
      var base := Base(o.cumulative, FirstOf(past, states, b, a, n), Readings(o, past, states, n, b + 1, k));
      && i.bytes == (total.bytes - base.bytes) % WORD
      && i.readBytes == (total.readBytes - base.readBytes) % WORD
      && i.writtenBytes == (total.writtenBytes - base.writtenBytes) % WORD
      && i.transfers == (total.transfers - base.transfers) % WORD
      && i.time == (total.time - base.time) % WORD
      && screen[row].blocks == i.bytes / medium.blocksize
  {
    hide Find, Next, ScreenOf, Interval, Once;
    EntryRecorded(o, past, states, n, b, a);
    EntryFollows(o, past, states, n, b + 1, k);
    RowOf(o, past[k].registry, states[k], n);
    IntervalFields(past[k].registry[Entry(states[k], n).driver], Entry(states[k], n).totals);
  }

  /**
   * Without -I, let `p` and `k` be samples with none between them. What is shown at `k` is measured from the
   * reading at `p` if and only if there was one and either the drive was among the first `maxShow` then, or it
   * had not counted anything since it was last measured.
   */
  lemma MeasuredFromPrevious(o: Options, past: seq<Happening>, states: seq<State>, n: string, p: nat, k: nat)
    requires IsRun(o, past, states) && !o.cumulative && p < k < |past| && Sole(states, n, p, k)
    requires past[p].Sample? && past[k].Sample? && forall j | p < j < k :: past[j].Drives?
    requires Seen(o, past[k].registry, states[k], n)
    ensures var d := Entry(states[p], n);
      && Entry(states[k], n).driver == d.driver
      && var total := past[k].registry[d.driver];
      && (d.driver in past[p].registry
          && Interval(total, Entry(states[k], n).totals) == Interval(total, past[p].registry[d.driver])
          <==> d.driver in past[p].registry
               && (Find(states[p].live, n) < o.maxShow || d.totals == past[p].registry[d.driver]))
  {
    hide Find, Next, Once;
    var d := Entry(states[p], n);
    assert Next(o, states[p], past[p], states[p + 1]);
    EntryStays(o, states[p], past[p], states[p + 1], n);
    NothingRead(o, past, states, n, p + 1, k);
    EntryFollows(o, past, states, n, p + 1, k);
    if d.driver in past[p].registry {
      IntervalTells(past[k].registry[d.driver], Entry(states[k], n).totals, past[p].registry[d.driver]);
    }
  }

  lemma {:induction false} NothingRead(o: Options, past: seq<Happening>, states: seq<State>, n: string, from: nat,
      upto: nat)
    requires from <= upto <= |past| < |states| && (forall k | from <= k < upto :: Once(states[k].live, n))
    requires forall j | from <= j < upto :: past[j].Drives?
    ensures Readings(o, past, states, n, from, upto) == []
    decreases upto
  {
    if upto > from {
      NothingRead(o, past, states, n, from, upto - 1);
    }
  }

  // ----- Slots that hold the totals of earlier drives -----

  /** No free slot holds any totals. */
  predicate Clean(free: seq<Drive>) {
    forall i | 0 <= i < |free| :: free[i].totals == NEVER_USED.totals
  }

  /** A departure frees a slot with totals in it in two cases only. */
  predicate Spills(live: seq<Drive>, name: string, stray: Drive) {
    Find(live, name) < |live|
    && NEVER_USED.totals != if Find(live, name) == MAXDRIVES - 1 then live[MAXDRIVES - 1].totals else stray.totals
  }

  /** The removals of `list` free a slot with totals in it. */
  predicate SpillsAny(live: seq<Drive>, list: seq<Departure>)
    decreases |list|
  {
    list != []
    && if list[0].name.None? then SpillsAny(live, list[1..])
       else Spills(live, list[0].name.value, list[0].stray) || SpillsAny(Without(live, list[0].name.value), list[1..])
  }

  predicate SpillsAt(s: State, h: Happening) {
    h.Drives? && h.event.Depart? && SpillsAny(s.live, h.event.left)
  }

  lemma {:induction false} SparesClean(live: seq<Drive>, list: seq<Departure>)
    ensures Clean(Spares(live, list)) <==> !SpillsAny(live, list)
    decreases |list|
  {
    if list != [] {
      if list[0].name.None? {
        SparesClean(live, list[1..]);
      } else {
        hide Find, Spares, Without;
        var n := list[0].name.value;
        SparesStep(live, list);
        SparesClean(Without(live, n), list[1..]);
        CleanBoth(SparesOf(live, n, list[0].stray), Spares(Without(live, n), list[1..]));
      }
    }
  }

  lemma CleanBoth(a: seq<Drive>, b: seq<Drive>)
    ensures Clean(a + b) <==> Clean(a) && Clean(b)
  {
    if Clean(a + b) {
      assert forall i | 0 <= i < |a| :: (a + b)[i] == a[i];
      assert forall i | 0 <= i < |b| :: (a + b)[|a| + i] == b[i];
    }
  }

  /** A departure keeps every free slot clean exactly if they were and it does not spill; all else keeps them clean. */
  lemma CleanStep(o: Options, s: State, h: Happening, t: State)
    requires Next(o, s, h, t)
    ensures h.Drives? && h.event.Depart? ==> (Clean(t.free) <==> Clean(s.free) && !SpillsAt(s, h))
    ensures !(h.Drives? && h.event.Depart?) && Clean(s.free) ==> Clean(t.free)
  {
    hide Names, ByName, BagAfter, Spares, SpillsAny, Accepted, RecordedAll;
    if h.Drives? && h.event.Depart? {
      SparesClean(s.live, h.event.left);
      CleanBoth(s.free, Spares(s.live, h.event.left));
    }
  }

  /** In a run every free slot is clean, in every state, if and only if no departure ever spilled. */
  lemma {:induction false} CleanIffNoSpill(o: Options, past: seq<Happening>, states: seq<State>, k: nat)
    requires IsRun(o, past, states) && k < |states|
    ensures (forall j | 0 <= j <= k :: Clean(states[j].free))
      <==> (forall j | 0 <= j < k :: !SpillsAt(states[j], past[j]))
  {
    hide Clean, SpillsAt, Next;
    if k == 0 {
      BootClean();
    } else {
      CleanIffNoSpill(o, past, states, k - 1);
      assert Next(o, states[k - 1], past[k - 1], states[k - 1 + 1]);
      CleanStep(o, states[k - 1], past[k - 1], states[k]);
      NoSpillElse(states[k - 1], past[k - 1]);
    }
  }

  lemma BootClean()
    ensures Clean(Boot().free)
  {
  }

  lemma NoSpillElse(s: State, h: Happening)
    ensures !(h.Drives? && h.event.Depart?) ==> !SpillsAt(s, h)
  {
  }

  /**
   * All that is shown of a drive recorded before any departure spilled is measured from what is due, with -I
   * or without.
   */
  lemma NoSpillAsDue(o: Options, past: seq<Happening>, states: seq<State>, n: string, b: nat, a: nat, k: nat)
    requires IsRun(o, past, states) && Joins(past, states, b, a, n) && b < k <= |past| && Sole(states, n, b + 1, k)
    requires forall j | 0 <= j < b :: !SpillsAt(states[j], past[j])
    ensures AsDue(o.cumulative, FirstOf(past, states, b, a, n), Readings(o, past, states, n, b + 1, k))
  {
    hide SpillsAt, Next, Readings, AsDue;
    CleanIffNoSpill(o, past, states, b);
    var first := FirstOf(past, states, b, a, n);
    assert Clean(states[b].free);
    AsDueIff(o.cumulative, first, Readings(o, past, states, n, b + 1, k));
  }
}
