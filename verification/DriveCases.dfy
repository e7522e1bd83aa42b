/** license/iostat.cpp: two runs in which a drive's interval is not measured from what it is due to be measured from. */
module DriveCases {
  import opened Wrappers
  import opened Ordering
  import opened DeviceTable
  import opened Intervals
  import opened DriveRuns
  import opened IoStat

  /** Drives a, b, c, and so on, each with its place as its driver. */
  function Letter(i: nat): string
    requires i < 26
  {
    [('a' as int + i) as char]
  }

  function Letters(n: nat): seq<string>
    requires n <= 26
  {
    seq(n, i requires 0 <= i < n => Letter(i))
  }

  function Media(n: nat): seq<Medium>
    requires n <= 26
  {
    seq(n, i requires 0 <= i < n => Medium(true, i, Letter(i), 512))
  }

  lemma LettersAscend(n: nat)
    requires n <= 26
    ensures Ascends(Letters(n)) && forall i, j | 0 <= i < j < n :: Letters(n)[i] != Letters(n)[j]
  {
  }

  lemma {:induction false} AllAccepted(list: seq<Medium>, room: nat)
    requires |list| <= room && forall m | m in list :: m.isDisk
    ensures Accepted(list, room) == list
  {
    if list != [] {
      AllAccepted(list[1..], room - 1);
    }
  }

  lemma {:induction false} MediumNameAt(ms: seq<Medium>, i: nat)
    requires i < |ms|
    ensures |MediumNames(ms)| == |ms| && MediumNames(ms)[i] == ms[i].name
  {
    MediumNamesLength(ms);
    if i > 0 {
      MediumNameAt(ms[1..], i - 1);
    }
  }

  lemma MediaNames(n: nat)
    requires n <= MAXDRIVES
    ensures Accepted(Media(n), MAXDRIVES) == Media(n) && MediumNames(Media(n)) == Letters(n)
  {
    var ms := Media(n);
    AllAccepted(ms, MAXDRIVES);
    MediumNamesLength(ms);
    forall i | 0 <= i < n
      ensures MediumNames(ms)[i] == Letters(n)[i]
    {
      MediumNameAt(ms, i);
    }
  }

  lemma PlaceOf(live: seq<Drive>, ns: seq<string>, i: nat)
    requires Names(live) == ns && i < |ns| && forall j, k | 0 <= j < k < |ns| :: ns[j] != ns[k]
    ensures Find(live, ns[i]) == i && Once(live, ns[i])
  {
    hide Names, Find;
    assert live[i].name == ns[i];
    var f := Find(live, ns[i]);
    assert f < |live| ==> ns[f] == live[f].name;
    forall j | i < j < |live|
      ensures live[j].name != ns[i]
    {
      assert ns[j] == live[j].name;
    }
  }

  lemma AscendsByName(live: seq<Drive>)
    requires ByName(live)
    ensures Ascends(Names(live))
  {
    hide Names, Le;
  }

  /** After the drives have arrived in an empty table each stands at its own place. */
  lemma FirstArrivals(o: Options, past: seq<Happening>, states: seq<State>, n: nat)
    requires IsRun(o, past, states) && past != [] && n <= MAXDRIVES && past[0] == Drives(Arrive(Media(n)))
    ensures Names(states[1].live) == Letters(n)
    ensures forall i | 0 <= i < n :: Find(states[1].live, Letter(i)) == i && Once(states[1].live, Letter(i))
  {
    hide Names, Moves, ByName, Ascends, Find, Once;
    assert Next(o, states[0], past[0], states[0 + 1]);
    var live := states[1].live;
    MovesNames(states[0].live, states[0].free, past[0].event, live, states[1].free);
    NoNames();
    MediaNames(n);
    BagOfArrivals(n);
    AscendsByName(live);
    LettersAscend(n);
    SortedNamesUnique(Names(live), Letters(n));
    forall i | 0 <= i < n
      ensures Find(live, Letter(i)) == i && Once(live, Letter(i))
    {
      PlaceOf(live, Letters(n), i);
    }
  }

  lemma BagOfArrivals(n: nat)
    requires n <= MAXDRIVES
    ensures BagAfter(multiset{}, Arrive(Media(n))) == multiset(Letters(n))
  {
    MediaNames(n);
  }

  lemma AfterSample(o: Options, s: State, registry: Registry, t: State)
    requires Next(o, s, DriveRuns.Sample(registry), t)
    ensures Names(t.live) == Names(s.live) && t.free == s.free && forall n :: Find(t.live, n) == Find(s.live, n)
  {
    SampledNames(o, registry, s.live);
  }

  lemma AfterDeparture(o: Options, s: State, name: string, stray: Drive, t: State)
    requires Next(o, s, Drives(Depart([Departure(Some(name), stray)])), t)
    ensures multiset(Names(t.live)) == multiset(Names(s.live)) - multiset{name}
    ensures t.free == s.free + SparesOf(s.live, name, stray) && |t.live| + |t.free| == MAXDRIVES
  {
    hide Names, Find, SparesOf, Spares, WithoutNames, ByName;
    OneDeparture(multiset(Names(s.live)), s.live, name, stray);
  }

  lemma OneDeparture(bag: multiset<string>, live: seq<Drive>, name: string, stray: Drive)
    ensures WithoutNames(bag, [Departure(Some(name), stray)]) == bag - multiset{name}
    ensures Spares(live, [Departure(Some(name), stray)]) == SparesOf(live, name, stray)
  {
    hide SparesOf;
    var list := [Departure(Some(name), stray)];
    assert list[1..] == [];
    SparesStep(live, list);
    SparesStep(Without(live, name), []);
  }

  /** Each of them starts from a slot that was never used. */
  lemma FirstEntry(o: Options, past: seq<Happening>, states: seq<State>, n: nat, i: nat)
    requires IsRun(o, past, states) && past != [] && i < n <= MAXDRIVES && past[0] == Drives(Arrive(Media(n)))
    ensures Joins(past, states, 0, i, Letter(i)) && FirstOf(past, states, 0, i, Letter(i)) == NEVER_USED.totals
    ensures Once(states[1].live, Letter(i))
    ensures Entry(states[1], Letter(i)) == Drive(i, Letter(i), 512, NEVER_USED.totals)
  {
    hide Find, Next, Once, Accepted;
    MediaNames(n);
    FirstArrivals(o, past, states, n);
    EntryRecorded(o, past, states, Letter(i), 0, i);
  }

  // ----- A drive that is not shown at every sample -----

  function HiddenPast(stray: Drive, one: Registry, two: Registry): seq<Happening> {
    [Drives(Arrive(Media(4))), DriveRuns.Sample(one), Drives(Depart([Departure(Some(Letter(0)), stray)])),
     DriveRuns.Sample(two)]
  }

  lemma HiddenNames(states: seq<State>, stray: Drive, one: Registry, two: Registry)
    requires IsRun(Options(false, 3), HiddenPast(stray, one, two), states)
    ensures Sole(states, Letter(3), 1, 3)
    ensures Find(states[1].live, Letter(3)) == 3 && Find(states[3].live, Letter(3)) < 3
  {
    hide Find, Next, Once, Names, Sampled, Moves, SparesOf;
    var o, past, n := Options(false, 3), HiddenPast(stray, one, two), Letter(3);
    FirstArrivals(o, past, states, 4);
    assert Next(o, states[1], past[1], states[1 + 1]) && Next(o, states[2], past[2], states[2 + 1]);
    AfterSample(o, states[1], one, states[2]);
    AfterDeparture(o, states[2], Letter(0), stray, states[3]);
    OnceIsOne(states[1].live, n);
    OnceIsOne(states[2].live, n);
    OnceIsOne(states[3].live, n);
    FindsOnce(states[3].live, n);
    assert Letters(4)[0] == Letter(0);
    assert |multiset(Names(states[3].live))| == 3;
  }

  lemma FindsOnce(live: seq<Drive>, n: string)
    requires Once(live, n)
    ensures Find(live, n) < |live|
  {
  }

  /**
   * Four drives, three of them shown, all of which can be read. The last is not measured by the first sample;
   * once another has left it is shown, and its interval is measured from the start and not from that sample.
   */
  lemma HiddenDrive(states: seq<State>, stray: Drive, one: Registry, two: Registry) returns (row: nat)
    requires IsRun(Options(false, 3), HiddenPast(stray, one, two), states) && Sound(states[3].live)
    requires 3 in one && 3 in two
    ensures var screen := ScreenOf(Options(false, 3), two, states[3].live);
      row < |screen| && screen[row].Shown? && screen[row].interval == Interval(two[3], NEVER_USED.totals)
    ensures Interval(two[3], NEVER_USED.totals) == Interval(two[3], one[3]) <==> one[3] == NEVER_USED.totals
  {
    hide Find, Next, Once, Readings, ScreenOf, IntervalAt, Base;
    var o, past, n := Options(false, 3), HiddenPast(stray, one, two), Letter(3);
    FirstEntry(o, past, states, 4, 3);
    HiddenNames(states, stray, one, two);
    ReadingsStep(o, past, states, n, 1, 1);
    ReadingsStep(o, past, states, n, 1, 2);
    NothingRead(o, past, states, n, 1, 1);
    EntryFollows(o, past, states, n, 1, 3);
    ShownForDrive(o, past, states, n, 0, 3, 3);
    assert Readings(o, past, states, n, 1, 4) == [two[3]];
    OneReading(false, NEVER_USED.totals, two[3]);
    IntervalTells(two[3], NEVER_USED.totals, one[3]);
    row := Find(states[3].live, n);
  }

  lemma OneReading(cumulative: bool, first: Totals, s: Totals)
    ensures IntervalAt(cumulative, first, [s], 0) == Interval(s, first)
  {
  }

  // ----- A slot that still holds an earlier drive -----

  const LAST: nat := MAXDRIVES - 1

  /** Sixteen drives, all of them shown. */
  function All(cumulative: bool): Options {
    Options(cumulative, MAXDRIVES)
  }

  function StalePast(stray: Drive, one: Registry, two: Registry, three: Registry): seq<Happening> {
    [Drives(Arrive(Media(MAXDRIVES))), DriveRuns.Sample(one),
     Drives(Depart([Departure(Some(Letter(LAST)), stray)])),
     Drives(Arrive([Medium(true, MAXDRIVES, Letter(MAXDRIVES), 512)])), DriveRuns.Sample(two), DriveRuns.Sample(three)]
  }

  predicate Readable(one: Registry, two: Registry, three: Registry) {
    LAST in one && MAXDRIVES in two && MAXDRIVES in three
  }

  /** The departure from the full table leaves the totals of the drive that left in the last slot. */
  lemma StaleDeparture(c: bool, states: seq<State>, stray: Drive, one: Registry, two: Registry, three: Registry)
    requires IsRun(All(c), StalePast(stray, one, two, three), states) && Readable(one, two, three)
    ensures Find(states[2].live, Letter(LAST)) == LAST < |states[2].live| && states[2].live[LAST].totals == one[LAST]
    ensures states[3].free == [states[2].live[LAST]]
    ensures multiset(Names(states[3].live)) == multiset(Letters(MAXDRIVES)) - multiset{Letter(LAST)}
  {
    hide Find, Next, Once, Names, Sampled, Moves;
    var o, past, n := All(c), StalePast(stray, one, two, three), Letter(LAST);
    FirstArrivals(o, past, states, MAXDRIVES);
    FirstEntry(o, past, states, MAXDRIVES, LAST);
    assert Next(o, states[1], past[1], states[1 + 1]) && Next(o, states[2], past[2], states[2 + 1]);
    AfterSample(o, states[1], one, states[2]);
    OnceIsOne(states[1].live, n);
    OnceIsOne(states[2].live, n);
    EntryStays(o, states[1], past[1], states[2], n);
    AfterDeparture(o, states[2], n, stray, states[3]);
    StateFits(o, past, states, 2);
    FindsOnce(states[2].live, n);
    assert |Names(states[2].live)| == MAXDRIVES;
  }

  /** The drive that arrives then stands in the table once, with the totals of the one that left. */
  lemma StaleArrival(c: bool, states: seq<State>, stray: Drive, one: Registry, two: Registry, three: Registry)
    requires IsRun(All(c), StalePast(stray, one, two, three), states) && Readable(one, two, three)
    ensures Sole(states, Letter(MAXDRIVES), 4, 5) && Find(states[4].live, Letter(MAXDRIVES)) < MAXDRIVES
    ensures Find(states[5].live, Letter(MAXDRIVES)) < MAXDRIVES
    ensures Joins(StalePast(stray, one, two, three), states, 3, 0, Letter(MAXDRIVES))
    ensures FirstOf(StalePast(stray, one, two, three), states, 3, 0, Letter(MAXDRIVES)) == one[LAST]
  {
    hide Find, Next, Once, Names, Sampled, Moves;
    var o, past, n := All(c), StalePast(stray, one, two, three), Letter(MAXDRIVES);
    StaleDeparture(c, states, stray, one, two, three);
    assert Next(o, states[3], past[3], states[3 + 1]) && Next(o, states[4], past[4], states[4 + 1]);
    var list := past[3].event.list;
    AllAccepted(list, 1);
    StateFits(o, past, states, 3);
    NamesAfterOne(o, states[3], list[0], states[4]);
    AfterSample(o, states[4], two, states[5]);
    assert Letters(MAXDRIVES)[LAST] == Letter(LAST);
    assert n !in Letters(MAXDRIVES);
    OnceIsOne(states[4].live, n);
    OnceIsOne(states[5].live, n);
    StateFits(o, past, states, 4);
    StateFits(o, past, states, 5);
    FindsOnce(states[4].live, n);
    FindsOnce(states[5].live, n);
  }

  lemma NamesAfterOne(o: Options, s: State, m: Medium, t: State)
    requires Next(o, s, Drives(Arrive([m])), t) && m.isDisk && |s.free| == 1 && |s.live| == LAST
    ensures multiset(Names(t.live)) == multiset(Names(s.live)) + multiset{m.name}
  {
    hide Names, Accepted;
    AllAccepted([m], 1);
    assert |multiset(Names(s.live))| == LAST;
    assert MediumNames([m]) == [m.name];
  }

  lemma StaleSpill(c: bool, states: seq<State>, stray: Drive, one: Registry, two: Registry, three: Registry)
    requires IsRun(All(c), StalePast(stray, one, two, three), states) && Readable(one, two, three)
    requires one[LAST] != NEVER_USED.totals
    ensures SpillsAt(states[2], StalePast(stray, one, two, three)[2]) && !Clean(states[3].free)
  {
    hide Find, Next, Without;
    StaleDeparture(c, states, stray, one, two, three);
    assert states[3].free[0].totals == one[LAST];
  }

  lemma StaleReadings(c: bool, states: seq<State>, stray: Drive, one: Registry, two: Registry, three: Registry)
    requires IsRun(All(c), StalePast(stray, one, two, three), states) && Readable(one, two, three)
    ensures Sole(states, Letter(MAXDRIVES), 4, 5)
    ensures var past, n := StalePast(stray, one, two, three), Letter(MAXDRIVES);
      && Readings(All(c), past, states, n, 4, 5) == [two[MAXDRIVES]]
      && Readings(All(c), past, states, n, 4, 6) == [two[MAXDRIVES], three[MAXDRIVES]]
      && Seen(All(c), two, states[4], n) && Seen(All(c), three, states[5], n)
  {
    hide Find, Next, Once, Readings;
    var o, past, n := All(c), StalePast(stray, one, two, three), Letter(MAXDRIVES);
    StaleArrival(c, states, stray, one, two, three);
    EntryRecorded(o, past, states, n, 3, 0);
    EntryFollows(o, past, states, n, 4, 5);
    NothingRead(o, past, states, n, 4, 4);
    ReadingsStep(o, past, states, n, 4, 4);
    ReadingsStep(o, past, states, n, 4, 5);
  }

  /**
   * Sixteen drives, with -I or without: the last has been measured and leaves, and another arrives. Its slot
   * still holds the totals of the one that left, and its first row is measured from those and not from the
   * start, unless they are zero.
   */
  lemma StaleFirstRow(c: bool, states: seq<State>, stray: Drive, one: Registry, two: Registry, three: Registry)
    returns (row: nat)
    requires IsRun(All(c), StalePast(stray, one, two, three), states) && Readable(one, two, three)
    requires Sound(states[4].live)
    ensures var screen := ScreenOf(All(c), two, states[4].live);
      row < |screen| && screen[row].Shown? && screen[row].interval == Interval(two[MAXDRIVES], one[LAST])
    ensures AsDue(c, one[LAST], [two[MAXDRIVES]]) <==> one[LAST] == NEVER_USED.totals
  {
    hide Find, Next, Once, Readings, ScreenOf, IntervalAt, Base, AsDue, Due, FirstOf, Joins;
    StaleArrival(c, states, stray, one, two, three);
    StaleReadings(c, states, stray, one, two, three);
    ShownForDrive(All(c), StalePast(stray, one, two, three), states, Letter(MAXDRIVES), 3, 0, 4);
    OneReading(c, one[LAST], two[MAXDRIVES]);
    AsDueIff(c, one[LAST], [two[MAXDRIVES]]);
    row := Find(states[4].live, Letter(MAXDRIVES));
  }

  /**
   * And under -I, if those totals have bytes, its second row is measured from them as well and not from its
   * first sample, unless they are the same.
   */
  lemma StaleSlot(states: seq<State>, stray: Drive, one: Registry, two: Registry, three: Registry) returns (row: nat)
    requires IsRun(All(true), StalePast(stray, one, two, three), states) && Readable(one, two, three)
    requires Sound(states[5].live) && one[LAST].bytes != 0
    ensures SpillsAt(states[2], StalePast(stray, one, two, three)[2]) && !Clean(states[3].free)
    ensures var screen := ScreenOf(All(true), three, states[5].live);
      row < |screen| && screen[row].Shown? && screen[row].interval == Interval(three[MAXDRIVES], one[LAST])
    ensures LaterAsDue(true, one[LAST], [two[MAXDRIVES], three[MAXDRIVES]]) <==> one[LAST] == two[MAXDRIVES]
  {
    hide Find, Next, Once, Readings, ScreenOf, IntervalAt, Base, LaterAsDue, Due, Spills, Clean, FirstOf, Joins;
    var t, u, v := one[LAST], two[MAXDRIVES], three[MAXDRIVES];
    StaleSpill(true, states, stray, one, two, three);
    StaleArrival(true, states, stray, one, two, three);
    StaleReadings(true, states, stray, one, two, three);
    ShownForDrive(All(true), StalePast(stray, one, two, three), states, Letter(MAXDRIVES), 3, 0, 5);
    TwoReadings(t, u, v);
    LaterAsDueIff(true, t, [u, v]);
    row := Find(states[5].live, Letter(MAXDRIVES));
  }

  lemma TwoReadings(first: Totals, u: Totals, v: Totals)
    requires first.bytes != 0
    ensures IntervalAt(true, first, [u, v], 1) == Interval(v, first)
  {
    StaleBase(first, [u, v], 1);
  }

  // ----- The program goes through them -----

  /** An interval stands in one of the rows. */
  predicate Shows(screen: seq<Shown>, interval: Totals) {
    exists row :: 0 <= row < |screen| && screen[row].Shown? && screen[row].interval == interval
  }

  /** The rows of the last sample in the run of HiddenDrive. */
  method ShowHiddenDrive(stray: Drive, one: Registry, two: Registry) returns (screen: seq<Shown>)
    requires 3 in one && 3 in two
    ensures |screen| == 3 && Shows(screen, Interval(two[3], NEVER_USED.totals))
  {
    hide IsRun, ScreenOf, Interval, Monitor.Valid, Raises, Sound, Spills, Clean;
    var m := new Monitor(Options(false, 3));
    m.Notice(Arrive(Media(4)));
    screen := m.Sample(one);
    m.Notice(Depart([Departure(Some(Letter(0)), stray)]));
    m.Known();
    screen := m.Sample(two);
    m.Known();
    assert m.past == HiddenPast(stray, one, two);
    HiddenRows(m.states, stray, one, two);
    ghost var row := HiddenDrive(m.states, stray, one, two);
  }

  lemma HiddenRows(states: seq<State>, stray: Drive, one: Registry, two: Registry)
    requires IsRun(Options(false, 3), HiddenPast(stray, one, two), states) && Sound(states[3].live)
    ensures |ScreenOf(Options(false, 3), two, states[3].live)| == 3
  {
    hide Find, Next, Once, Names, Sampled, Moves, SparesOf;
    var o, past := Options(false, 3), HiddenPast(stray, one, two);
    FirstArrivals(o, past, states, 4);
    assert Next(o, states[1], past[1], states[1 + 1]) && Next(o, states[2], past[2], states[2 + 1]);
    AfterSample(o, states[1], one, states[2]);
    AfterDeparture(o, states[2], Letter(0), stray, states[3]);
    assert Letters(4)[0] == Letter(0);
    assert |multiset(Names(states[3].live))| == 3;
  }

  /** The first four steps of StalePast. */
  method StaleTable(c: bool, stray: Drive, one: Registry) returns (m: Monitor)
    ensures fresh(m) && fresh(m.table) && fresh(m.table.drives) && m.Valid() && m.o == All(c)
    ensures forall two, three :: m.past == StalePast(stray, one, two, three)[..4]
  {
    hide IsRun, ScreenOf, Monitor.Valid, Raises, Sound;
    m := new Monitor(All(c));
    m.Notice(Arrive(Media(MAXDRIVES)));
    var _ := m.Sample(one);
    m.Notice(Depart([Departure(Some(Letter(LAST)), stray)]));
    m.Notice(Arrive([Medium(true, MAXDRIVES, Letter(MAXDRIVES), 512)]));
  }

  /** The rows of the last two samples in the run of StaleFirstRow and StaleSlot. */
  method ShowStaleSlot(c: bool, stray: Drive, one: Registry, two: Registry, three: Registry)
    returns (screen: seq<Shown>, next: seq<Shown>)
    requires Readable(one, two, three)
    ensures Shows(screen, Interval(two[MAXDRIVES], one[LAST]))
    ensures c && one[LAST].bytes != 0 ==> Shows(next, Interval(three[MAXDRIVES], one[LAST]))
  {
    hide IsRun, ScreenOf, Interval, Monitor.Valid, Raises, Sound, Shows;
    var m := StaleTable(c, stray, one);
    m.Known();
    screen := m.Sample(two);
    m.Known();
    next := m.Sample(three);
    m.Known();
    assert m.past == StalePast(stray, one, two, three);
    StaleRows(c, m.states, stray, one, two, three);
  }

  lemma StaleRows(c: bool, states: seq<State>, stray: Drive, one: Registry, two: Registry, three: Registry)
    requires IsRun(All(c), StalePast(stray, one, two, three), states) && Readable(one, two, three)
    requires Sound(states[4].live) && Sound(states[5].live)
    ensures Shows(ScreenOf(All(c), two, states[4].live), Interval(two[MAXDRIVES], one[LAST]))
    ensures c && one[LAST].bytes != 0 ==>
      Shows(ScreenOf(All(c), three, states[5].live), Interval(three[MAXDRIVES], one[LAST]))
  {
    hide IsRun, ScreenOf, Interval, Sound;
    var row := StaleFirstRow(c, states, stray, one, two, three);
    if c && one[LAST].bytes != 0 {
      row := StaleSlot(states, stray, one, two, three);
    }
  }
}
