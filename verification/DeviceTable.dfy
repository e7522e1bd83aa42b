/** The table of drives of c/mac/Disk.cpp, which license/iostat.cpp has as well. */
module DeviceTable {
  import opened Wrappers
  import opened Words
  import opened Ordering

  const MAXDRIVES: nat := 16

  /** The running totals of a drive, as of the sample they were last measured from. */
  datatype Totals = Totals(bytes: Word, readBytes: Word, writtenBytes: Word, transfers: Word, time: Word)

  /** struct drivestats */
  datatype Drive = Drive(driver: int, name: string, blocksize: Word, totals: Totals)

  /** A slot of the table before anything was recorded in it. */
  const NEVER_USED: Drive := Drive(0, "", 0, Totals(0, 0, 0, 0, 0))

  /** What the registry says of a medium that appeared; only disks have a storage driver above them. */
  datatype Medium = Medium(isDisk: bool, driver: int, name: string, blocksize: Word)

  function Names(ds: seq<Drive>): (ns: seq<string>)
    ensures |ns| == |ds|
    ensures forall i | 0 <= i < |ds| :: ns[i] == ds[i].name
  {
    if ds == [] then [] else [ds[0].name] + Names(ds[1..])
  }

  predicate ByName(ds: seq<Drive>) {
    forall i, j | 0 <= i < j < |ds| :: Le(ds[i].name, ds[j].name)
  }

  // ----- Sorting -----

  /** `x` moved from index `k` down to `j`. */
  function Moved(s: seq<Drive>, j: nat, k: nat): seq<Drive>
    requires j <= k < |s|
  {
    s[..j] + [s[k]] + s[j..k] + s[k + 1..]
  }

  lemma MovedSorted(s: seq<Drive>, j: nat, k: nat)
    requires j <= k < |s| && ByName(s[..k])
    requires forall i | 0 <= i < j :: Le(s[i].name, s[k].name)
    requires forall i | j <= i < k :: Le(s[k].name, s[i].name)
    ensures ByName(Moved(s, j, k)[..k + 1])
  {
    var t := Moved(s, j, k)[..k + 1];
    forall a, b | 0 <= a < b < |t|
      ensures Le(t[a].name, t[b].name)
    {
      if a != j && b != j {
        var a', b' := if a < j then a else a - 1, if b < j then b else b - 1;
        assert t[a] == s[..k][a'] && t[b] == s[..k][b'];
      }
    }
  }

  lemma MovedParts(s: seq<Drive>, j: nat, k: nat, n: nat)
    requires j <= k < n <= |s|
    ensures Moved(s, j, k)[..n] == s[..j] + [s[k]] + s[j..k] + s[k + 1..n]
    ensures s[..n] == s[..j] + s[j..k] + [s[k]] + s[k + 1..n]
    ensures Moved(s, j, k)[n..] == s[n..] && |Moved(s, j, k)| == |s|
  {
    assert s[..j] + s[j..k] == s[..k];
    assert s[..k] + [s[k]] == s[..k + 1];
    assert s[..k + 1] + s[k + 1..n] == s[..n];
    assert s[k + 1..] == s[k + 1..n] + s[n..];
  }

  lemma MovedSame(s: seq<Drive>, j: nat, k: nat, n: nat)
    requires j <= k < n <= |s|
    ensures multiset(Moved(s, j, k)[..n]) == multiset(s[..n])
    ensures Moved(s, j, k)[n..] == s[n..] && |Moved(s, j, k)| == |s|
  {
    var front, x, middle, back := s[..j], [s[k]], s[j..k], s[k + 1..n];
    MovedParts(s, j, k, n);
    assert multiset(front + x + middle + back)
      == multiset(front) + multiset(x) + multiset(middle) + multiset(back);
    assert multiset(front + middle + x + back)
      == multiset(front) + multiset(middle) + multiset(x) + multiset(back);
  }

  lemma MovedIs(t: seq<Drive>, s: seq<Drive>, j: nat, k: nat)
    requires j <= k < |s| == |t| && t[j] == s[k]
    requires forall i | 0 <= i < j || k < i < |s| :: t[i] == s[i]
    requires forall i | j < i <= k :: t[i] == s[i - 1]
    ensures t == Moved(s, j, k)
  {
  }

  /** Where the entry before the place is not greater, none before it is. */
  lemma BelowPlace(s: seq<Drive>, j: nat, k: nat)
    requires 0 < j <= k < |s| && ByName(s[..k]) && Le(s[j - 1].name, s[k].name)
    ensures forall i | 0 <= i < j :: Le(s[i].name, s[k].name)
  {
    hide Le;
    forall i | 0 <= i < j
      ensures Le(s[i].name, s[k].name)
    {
      if i < j - 1 {
        assert Le(s[..k][i].name, s[..k][j - 1].name);
        LeTransitive(s[i].name, s[j - 1].name, s[k].name);
      }
    }
  }

  /** Moves entry `k` down to its place among the sorted entries before it. */
  method Insert(a: array<Drive>, k: nat)
    requires k < a.Length && ByName(a[..k])
    modifies a
    ensures exists j :: 0 <= j <= k && a[..] == Moved(old(a[..]), j, k)
    ensures ByName(a[..k + 1])
  {
    hide Le;
    ghost var s := a[..];
    var x := a[k];
    var j := k;
    while j > 0 && !Le(a[j - 1].name, x.name)
      invariant 0 <= j <= k
      invariant forall i | 0 <= i < j || k < i < a.Length :: a[i] == s[i]
      invariant forall i | j < i <= k :: a[i] == s[i - 1]
      invariant forall i | j <= i < k :: Le(x.name, s[i].name)
    {
      LeTotal(s[j - 1].name, x.name);
      a[j] := a[j - 1];
      j := j - 1;
    }
    a[j] := x;
    MovedIs(a[..], s, j, k);
    if j > 0 {
      BelowPlace(s, j, k);
    }
    assert s[..k] == old(a[..k]);
    MovedSorted(s, j, k);
    assert a[..k + 1] == Moved(s, j, k)[..k + 1];
  }

  /** qsort of the first `n` entries by compare_drivestats. */
  method Sort(a: array<Drive>, n: nat)
    requires n <= a.Length
    modifies a
    ensures ByName(a[..n])
    ensures multiset(a[..n]) == multiset(old(a[..n]))
    ensures a[n..] == old(a[n..])
  {
    ghost var s := a[..];
    for k := 0 to n
      invariant ByName(a[..k])
      invariant multiset(a[..n]) == multiset(s[..n]) && a[n..] == s[n..]
    {
      ghost var t := a[..];
      Insert(a, k);
      ghost var j :| 0 <= j <= k && a[..] == Moved(t, j, k);
      MovedSame(t, j, k, n);
      assert a[..n] == a[..][..n] && a[n..] == a[..][n..] && t[n..] == s[n..];
    }
  }

  // ----- What arrivals and departures do to the table -----

  /** The media of a list that are recorded when `room` slots are free: the first that are disks. */
  function Accepted(list: seq<Medium>, room: nat): (acc: seq<Medium>)
    ensures |acc| <= room
  {
    if list == [] || room == 0 then []
    else if list[0].isDisk then [list[0]] + Accepted(list[1..], room - 1)
    else Accepted(list[1..], room)
  }

  /** How many media of a list are disks. */
  function Disks(list: seq<Medium>): nat {
    if list == [] then 0 else (if list[0].isDisk then 1 else 0) + Disks(list[1..])
  }

  /** Exactly as many are recorded as are disks or as fit; each is a disk of the list, and the first are taken. */
  lemma {:induction false} AcceptedAre(list: seq<Medium>, room: nat)
    ensures |Accepted(list, room)| == if Disks(list) < room then Disks(list) else room
    ensures forall m | m in Accepted(list, room) :: m in list && m.isDisk
    ensures forall k | 0 <= k <= |list| && Disks(list[..k]) <= room :: Accepted(list[..k], room) <= Accepted(list, room)
  {
    if list != [] && room != 0 {
      var more := if list[0].isDisk then room - 1 else room;
      AcceptedAre(list[1..], more);
      forall k | 0 <= k <= |list| && Disks(list[..k]) <= room
        ensures Accepted(list[..k], room) <= Accepted(list, room)
      {
        if k > 0 {
          assert list[..k][1..] == list[1..][..k - 1];
        }
      }
    }
  }

  /** record_device fills in three fields and leaves the totals that the slot held. */
  function Recorded(m: Medium, slot: Drive): Drive {
    Drive(m.driver, m.name, m.blocksize, slot.totals)
  }

  function RecordedAll(acc: seq<Medium>, slots: seq<Drive>): (ds: seq<Drive>)
    requires |acc| <= |slots|
    ensures |ds| == |acc|
  {
    if acc == [] then [] else [Recorded(acc[0], slots[0])] + RecordedAll(acc[1..], slots[1..])
  }

  /** The entries once `list` is recorded behind `live`, with the free slots `slots`. */
  function Filled(live: seq<Drive>, list: seq<Medium>, slots: seq<Drive>): seq<Drive> {
    live + RecordedAll(Accepted(list, |slots|), slots)
  }

  lemma FilledStep(live: seq<Drive>, list: seq<Medium>, slots: seq<Drive>)
    requires list != []
    ensures Filled(live, list, slots) ==
      if slots == [] || !list[0].isDisk then Filled(live, list[1..], slots)
      else Filled(live + [Recorded(list[0], slots[0])], list[1..], slots[1..])
  {
  }

  lemma FilledEnds(live: seq<Drive>, list: seq<Medium>, slots: seq<Drive>)
    ensures Filled(live, [], slots) == live
    ensures var added := RecordedAll(Accepted(list, |slots|), slots);
      && multiset(Filled(live, list, slots)) == multiset(live) + multiset(added)
      && |Filled(live, list, slots)| == |live| + |added|
  {
  }

  /** The entry that strcmp finds first. */
  function Find(ds: seq<Drive>, name: string): (i: nat)
    ensures i <= |ds| && (i < |ds| ==> ds[i].name == name)
    ensures forall j | 0 <= j < i :: ds[j].name != name
  {
    if ds == [] || ds[0].name == name then 0 else 1 + Find(ds[1..], name)
  }

  /** The shift of the entries behind the one found. */
  function Without(ds: seq<Drive>, name: string): seq<Drive> {
    var i := Find(ds, name);
    if i < |ds| then ds[..i] + ds[i + 1..] else ds
  }

  lemma TakeOut<T>(s: seq<T>, i: nat)
    requires i < |s|
    ensures multiset(s[..i] + s[i + 1..]) == multiset(s) - multiset{s[i]}
  {
    assert s == s[..i] + [s[i]] + s[i + 1..];
  }

  lemma PutBack<T>(s: seq<T>, i: nat)
    requires i < |s|
    ensures multiset(s) == multiset(s[..i] + s[i + 1..]) + multiset{s[i]}
  {
    assert s == s[..i] + [s[i]] + s[i + 1..];
  }

  lemma TakeFirst<T>(s: seq<T>)
    requires s != []
    ensures multiset(s[1..]) == multiset(s) - multiset{s[0]}
    ensures multiset(s) == multiset{s[0]} + multiset(s[1..])
  {
    assert s == [s[0]] + s[1..];
  }

  lemma TakeNone<T>(s: seq<T>, x: T)
    requires x !in s
    ensures multiset(s) - multiset{x} == multiset(s)
  {
    assert multiset(s)[x] == 0;
  }

  /** A removal takes away the one entry found and no other. */
  lemma WithoutTakesOne(ds: seq<Drive>, name: string)
    ensures var i := Find(ds, name);
      multiset(Without(ds, name)) == multiset(ds) - (if i < |ds| then multiset{ds[i]} else multiset{})
  {
    hide Find;
    var i := Find(ds, name);
    if i < |ds| {
      TakeOut(ds, i);
    } else {
      assert multiset(ds) - multiset{} == multiset(ds);
    }
  }

  lemma FindsName(ds: seq<Drive>, name: string)
    ensures Find(ds, name) == |ds| <==> name !in Names(ds)
  {
    hide Names;
    var i, ns := Find(ds, name), Names(ds);
    if i < |ds| {
      assert ns[i] == name;
    } else {
      assert forall j | 0 <= j < |ns| :: ns[j] == ds[j].name;
    }
  }

  lemma NamesAppend(a: seq<Drive>, b: seq<Drive>)
    ensures Names(a + b) == Names(a) + Names(b)
  {
    hide Names;
    var both, ns := Names(a + b), Names(a) + Names(b);
    forall k | 0 <= k < |both|
      ensures both[k] == ns[k]
    {
      assert both[k] == (a + b)[k].name;
    }
  }

  lemma NamesOfWithout(ds: seq<Drive>, i: nat)
    requires i < |ds|
    ensures Names(ds[..i] + ds[i + 1..]) == Names(ds)[..i] + Names(ds)[i + 1..]
  {
    hide Names;
    NamesAppend(ds[..i], ds[i + 1..]);
    NamesAppend(ds[..i], ds[i..]);
    NamesAppend(ds[..i + 1], ds[i + 1..]);
    assert ds[..i] + ds[i..] == ds && ds[..i + 1] + ds[i + 1..] == ds;
  }

  /** There is an entry to find exactly if the name is in the table; then the name occurs once less. */
  lemma WithoutTakesName(ds: seq<Drive>, name: string)
    ensures multiset(Names(Without(ds, name))) == multiset(Names(ds)) - multiset{name}
  {
    hide Names, Find;
    var i := Find(ds, name);
    FindsName(ds, name);
    if i < |ds| {
      NamesOfWithout(ds, i);
      TakeOut(Names(ds), i);
    } else {
      TakeNone(Names(ds), name);
    }
  }

  /** The shift alone keeps a sorted table sorted. */
  lemma WithoutKeepsOrder(ds: seq<Drive>, name: string)
    requires ByName(ds)
    ensures ByName(Without(ds, name))
  {
    var i, out := Find(ds, name), Without(ds, name);
    if i < |ds| {
      forall a, b | 0 <= a < b < |out|
        ensures Le(out[a].name, out[b].name)
      {
        assert out[a] == ds[if a < i then a else a + 1] && out[b] == ds[if b < i then b else b + 1];
      }
    }
  }

  /**
   * What is behind the live entries once entry `i` is gone: the last slot of the array is not overwritten by
   * memmove.
   */
  function Spare(live: seq<Drive>, i: nat, stray: Drive): Drive
    requires i < |live|
  {
    if i == MAXDRIVES - 1 then live[i] else stray
  }

  /** The slot that one removal frees at the end of the array, if it finds anything. */
  function SparesOf(live: seq<Drive>, name: string, stray: Drive): seq<Drive> {
    if Find(live, name) < |live| then [Spare(live, Find(live, name), stray)] else []
  }

  lemma AtFound(live: seq<Drive>, name: string, stray: Drive)
    ensures var i := Find(live, name);
      if i < |live| then
        Without(live, name) == live[..i] + live[i + 1..] && SparesOf(live, name, stray) == [Spare(live, i, stray)]
      else Without(live, name) == live && SparesOf(live, name, stray) == []
  {
  }

  /** The slots that the removals of `list` free, one behind the other. */
  function Spares(live: seq<Drive>, list: seq<Departure>): seq<Drive>
    decreases |list|
  {
    if list == [] then []
    else if list[0].name.None? then Spares(live, list[1..])
    else
      SparesOf(live, list[0].name.value, list[0].stray) + Spares(Without(live, list[0].name.value), list[1..])
  }

  lemma SparesStep(live: seq<Drive>, list: seq<Departure>)
    ensures Spares(live, list) ==
      if list == [] then []
      else if list[0].name.None? then Spares(live, list[1..])
      else
        SparesOf(live, list[0].name.value, list[0].stray) + Spares(Without(live, list[0].name.value), list[1..])
  {
  }

  lemma FoundInBoth(a: seq<Drive>, b: seq<Drive>, name: string)
    requires multiset(Names(a)) == multiset(Names(b))
    ensures Find(a, name) < |a| <==> Find(b, name) < |b|
  {
    hide Names, Find;
    FindsName(a, name);
    FindsName(b, name);
    assert name in multiset(Names(a)) <==> name in multiset(Names(b));
  }

  lemma WithoutLength(ds: seq<Drive>, name: string)
    ensures |Without(ds, name)| == |ds| - if Find(ds, name) < |ds| then 1 else 0
  {
  }

  lemma SparesOfSame(a: seq<Drive>, b: seq<Drive>, name: string, stray: Drive)
    requires multiset(Names(a)) == multiset(Names(b)) && |a| == |b| < MAXDRIVES
    ensures SparesOf(a, name, stray) == SparesOf(b, name, stray)
    ensures multiset(Names(Without(a, name))) == multiset(Names(Without(b, name)))
    ensures |Without(a, name)| == |Without(b, name)| < MAXDRIVES
  {
    hide Names, Find, Without;
    FoundInBoth(a, b, name);
    WithoutLength(a, name);
    WithoutLength(b, name);
    WithoutTakesName(a, name);
    WithoutTakesName(b, name);
  }

  /** Once the table is not full, which slots are freed depends on the names in it only. */
  lemma {:induction false} SparesSame(a: seq<Drive>, b: seq<Drive>, list: seq<Departure>)
    requires multiset(Names(a)) == multiset(Names(b)) && |a| == |b| < MAXDRIVES
    ensures Spares(a, list) == Spares(b, list)
    decreases |list|
  {
    hide Names, Find, Spares, SparesOf, Without;
    SparesStep(a, list);
    SparesStep(b, list);
    if list != [] {
      if list[0].name.Some? {
        var n := list[0].name.value;
        SparesOfSame(a, b, n, list[0].stray);
        SparesSame(Without(a, n), Without(b, n), list[1..]);
      } else {
        SparesSame(a, b, list[1..]);
      }
    }
  }

  /** So the sort after a removal makes no difference to the slots freed by the next. */
  lemma SparesAfter(live: seq<Drive>, name: string, now: seq<Drive>, list: seq<Departure>)
    requires |live| <= MAXDRIVES && multiset(now) == multiset(Without(live, name))
    requires name !in Names(live) ==> now == live
    ensures Spares(now, list) == Spares(Without(live, name), list)
  {
    hide Names, Find, Spares;
    FindsName(live, name);
    if Find(live, name) < |live| {
      SameNames(now, Without(live, name));
      assert |now| == |multiset(now)| == |Without(live, name)|;
      SparesSame(now, Without(live, name), list);
    }
  }

  /** `live` and `free` with the departures `rest` still to come lead where `start` and `space` lead with `list`. */
  ghost predicate Leaves(live: seq<Drive>, free: seq<Drive>, rest: seq<Departure>, start: seq<Drive>, space: seq<Drive>,
      list: seq<Departure>) {
    && WithoutNames(multiset(Names(live)), rest) == WithoutNames(multiset(Names(start)), list)
    && free + Spares(live, rest) == space + Spares(start, list)
    && multiset(live) <= multiset(start) && |live| <= MAXDRIVES
  }

  lemma LeavesStep(live: seq<Drive>, free: seq<Drive>, now: seq<Drive>, free': seq<Drive>, rest: seq<Departure>,
      start: seq<Drive>, space: seq<Drive>, list: seq<Departure>)
    requires Leaves(live, free, rest, start, space, list) && rest != [] && rest[0].name.Some? && |now| <= MAXDRIVES
    requires multiset(now) == multiset(Without(live, rest[0].name.value))
    requires rest[0].name.value !in Names(live) ==> now == live
    requires free' == free + SparesOf(live, rest[0].name.value, rest[0].stray)
    ensures Leaves(now, free', rest[1..], start, space, list)
  {
    hide Names, Find, Without, SparesOf, Spares, WithoutNames;
    var n, after := rest[0].name.value, rest[1..];
    RemovalStep(live, rest);
    SameNames(now, Without(live, n));
    SparesStep(live, rest);
    SparesAfter(live, n, now, after);
    assert free' + Spares(now, after) == free + (SparesOf(live, n, rest[0].stray) + Spares(Without(live, n), after));
  }

  lemma LeavesSame(live: seq<Drive>, free: seq<Drive>, rest: seq<Departure>, start: seq<Drive>, space: seq<Drive>,
      list: seq<Departure>)
    requires Leaves(live, free, rest, start, space, list) && rest != [] && rest[0].name.None?
    ensures Leaves(live, free, rest[1..], start, space, list)
  {
    hide Names;
  }

  lemma LeavesEnds(live: seq<Drive>, free: seq<Drive>, start: seq<Drive>, space: seq<Drive>, list: seq<Departure>)
    requires |start| <= MAXDRIVES
    ensures Leaves(start, space, list, start, space, list)
    ensures Leaves(live, free, [], start, space, list) ==>
      && multiset(Names(live)) == WithoutNames(multiset(Names(start)), list)
      && free == space + Spares(start, list) && multiset(live) <= multiset(start)
  {
    assert free + [] == free;
  }

  /** What one notification makes of the live entries and of the slots behind them. */
  ghost predicate Moves(live: seq<Drive>, free: seq<Drive>, event: Event, live': seq<Drive>, free': seq<Drive>) {
    && ByName(live')
    && multiset(Names(live')) == BagAfter(multiset(Names(live)), event)
    && match event
       case Arrive(list) =>
         var acc := Accepted(list, |free|);
         multiset(live') == multiset(live) + multiset(RecordedAll(acc, free)) && free' == free[|acc|..]
       case Depart(list) =>
         multiset(live') <= multiset(live) && free' == free + Spares(live, list)
  }

  /** The live entries and the free slots once `d` is put in the first free slot of the array `s`. */
  lemma OneMore(s: seq<Drive>, n: nat, d: Drive)
    requires n < |s|
    ensures s[n := d][..n + 1] == s[..n] + [d] && s[n := d][n + 1..] == s[n..][1..] && s[n] == s[n..][0]
  {
  }

  /** The live entries and the free slots after the shift of the array `s`, of which `n` entries were live. */
  lemma ShiftedOut(s: seq<Drive>, n: nat, i: nat, stray: Drive)
    requires i < n <= |s|
    ensures var t := s[..i] + s[i + 1..] + [stray];
      t[..n - 1] == s[..n][..i] + s[..n][i + 1..] && t[n - 1..] == s[n..] + [stray]
  {
    var t := s[..i] + s[i + 1..] + [stray];
    assert s[..n][..i] == s[..i] && s[..n][i + 1..] == s[i + 1..n];
    assert s[i + 1..] == s[i + 1..n] + s[n..];
    assert t == s[..i] + s[i + 1..n] + (s[n..] + [stray]);
  }

  /** The same when the last slot of the array is freed: nothing moves. */
  lemma LastOut(s: seq<Drive>)
    requires s != []
    ensures var n := |s| - 1; s[..n] == s[..|s|][..n] + s[..|s|][n + 1..] && s[n..] == s[|s|..] + [s[n]]
  {
  }

  class Table {
    const drives: array<Drive>
    var numDevices: nat

    ghost predicate Valid()
      reads this
    {
      drives.Length == MAXDRIVES && numDevices <= MAXDRIVES
    }

    ghost function Live(): seq<Drive>
      requires Valid()
      reads this, drives
    {
      drives[..numDevices]
    }

    /** The slots that the next drives will be recorded in, the first of them first. */
    ghost function Free(): seq<Drive>
      requires Valid()
      reads this, drives
    {
      drives[numDevices..]
    }

    /** Static storage: all slots zero. */
    constructor ()
      ensures Valid() && fresh(drives) && Live() == [] && Free() == seq(MAXDRIVES, _ => NEVER_USED)
    {
      drives := new Drive[MAXDRIVES](_ => NEVER_USED);
      numDevices := 0;
    }

    method RecordDevice(m: Medium) returns (failed: bool)
      requires Valid() && numDevices < MAXDRIVES
      modifies `numDevices, drives
      ensures Valid() && failed == !m.isDisk
      ensures numDevices == old(numDevices) + if failed then 0 else 1
      ensures var i := old(numDevices);
        !failed ==> drives[..] == old(drives[..])[i := Drive(m.driver, m.name, m.blocksize, old(drives[i].totals))]
      ensures failed ==> drives[..] == old(drives[..])
    {
      if !m.isDisk {
        return true;
      }
      drives[numDevices] := Recorded(m, drives[numDevices]);
      numDevices := numDevices + 1;
      return false;
    }

    method RecordDriveList(list: seq<Medium>)
      requires Valid()
      modifies `numDevices, drives
      ensures Valid() && ByName(Live())
      ensures var acc := Accepted(list, MAXDRIVES - old(numDevices));
        && numDevices == old(numDevices) + |acc|
        && multiset(Live()) == multiset(old(Live())) + multiset(RecordedAll(acc, old(Free())))
        && Free() == old(Free())[|acc|..]
    {
      hide Filled, Accepted, RecordedAll, ByName;
      ghost var before, slots := Live(), drives[numDevices..];
      FilledEnds(before, list, slots);
      var rest := list;
      while rest != []
        invariant Valid()
        invariant Filled(Live(), rest, Free()) == Filled(before, list, slots)
        invariant old(numDevices) <= numDevices && Free() == slots[numDevices - old(numDevices)..]
        decreases |rest|
      {
        FilledStep(Live(), rest, Free());
        if numDevices < MAXDRIVES {
          ghost var s, n := drives[..], numDevices;
          var failed := RecordDevice(rest[0]);
          OneMore(s, n, Recorded(rest[0], s[n]));
        }
        rest := rest[1..];
      }
      FilledEnds(Live(), [], Free());
      Sort(drives, numDevices);
    }

    /** memmove over the entry `i`; one element more than the array has is read from behind it. */
    method Shift(i: nat, stray: Drive)
      requires Valid() && i < MAXDRIVES - 1
      modifies drives
      ensures drives[..] == old(drives[..i]) + old(drives[i + 1..]) + [stray]
    {
      ghost var s := drives[..];
      for j := i to MAXDRIVES - 1
        invariant forall k | i <= k < j :: drives[k] == s[k + 1]
        invariant forall k | 0 <= k < i || j <= k < MAXDRIVES :: drives[k] == s[k]
      {
        drives[j] := drives[j + 1];
      }
      drives[MAXDRIVES - 1] := stray;
    }

    /** What remove_drivelist does with the entry it found, before it sorts. */
    method DeleteAt(i: nat, stray: Drive)
      requires Valid() && i < numDevices
      modifies `numDevices, drives
      ensures Valid() && numDevices == old(numDevices) - 1
      ensures Live() == old(Live()[..i] + Live()[i + 1..])
      ensures Free() == old(Free()) + [Spare(old(Live()), i, stray)]
    {
      ghost var s, n := drives[..], numDevices;
      if i < MAXDRIVES - 1 {
        Shift(i, stray);
        ShiftedOut(s, n, i, stray);
      } else {
        LastOut(s);
      }
      numDevices := numDevices - 1;
    }

    /** What remove_drivelist does with the entry it found. */
    method RemoveAt(i: nat, stray: Drive)
      requires Valid() && i < numDevices
      modifies `numDevices, drives
      ensures Valid() && ByName(Live())
      ensures multiset(Live()) == multiset(old(Live())[..i] + old(Live())[i + 1..])
      ensures Free() == old(Free()) + [Spare(old(Live()), i, stray)]
    {
      hide ByName, Spare;
      DeleteAt(i, stray);
      Sort(drives, numDevices);
    }

    /** remove_drivelist for one medium whose name could be read. */
    method RemoveDrive(name: string, stray: Drive)
      requires Valid()
      modifies `numDevices, drives
      ensures Valid()
      ensures multiset(Live()) == multiset(Without(old(Live()), name))
      ensures Free() == old(Free()) + SparesOf(old(Live()), name, stray)
      ensures name !in Names(old(Live())) ==> Live() == old(Live())
      ensures name in Names(old(Live())) || old(ByName(Live())) ==> ByName(Live())
    {
      hide Le, ByName, Find, Without, SparesOf, Names;
      ghost var live := Live();
      FindsName(live, name);
      AtFound(live, name, stray);
      for i := 0 to numDevices
        invariant Valid() && i <= Find(live, name) && Live() == live && Free() == old(Free())
      {
        FindAt(live, name, i);
        if drives[i].name == name {
          RemoveAt(i, stray);
          return;
        }
      }
    }

    /** Each medium that left, whether or not its name could be read. */
    method RemoveDriveList(list: seq<Departure>)
      requires Valid()
      modifies `numDevices, drives
      ensures Valid() && (old(ByName(Live())) ==> ByName(Live()))
      ensures multiset(Names(Live())) == WithoutNames(multiset(Names(old(Live()))), list)
      ensures multiset(Live()) <= multiset(old(Live()))
      ensures Free() == old(Free()) + Spares(old(Live()), list)
    {
      hide Le, ByName, Names, WithoutNames, Without, Spares, SparesOf, Find, Leaves;
      LeavesEnds(Live(), Free(), Live(), Free(), list);
      var rest := list;
      while rest != []
        invariant Valid() && (old(ByName(Live())) ==> ByName(Live()))
        invariant Leaves(Live(), Free(), rest, old(Live()), old(Free()), list)
        decreases |rest|
      {
        var d := rest[0];
        ghost var live, free := Live(), Free();
        if d.name.Some? {
          RemoveDrive(d.name.value, d.stray);
          LeavesStep(live, free, Live(), Free(), rest, old(Live()), old(Free()), list);
        } else {
          LeavesSame(live, free, rest, old(Live()), old(Free()), list);
        }
        rest := rest[1..];
      }
      LeavesEnds(Live(), Free(), old(Live()), old(Free()), list);
    }

    /** The notification of one list of media that arrived or left. */
    method Notice(event: Event)
      requires Valid() && ByName(Live())
      modifies `numDevices, drives
      ensures Valid() && Moves(old(Live()), old(Free()), event, Live(), Free())
    {
      hide Le, ByName, Names, Accepted, WithoutNames, RecordedAll, Spares;
      match event
      case Arrive(list) =>
        ghost var live, slots := Live(), Free();
        RecordDriveList(list);
        NamesArrive(live, list, slots, Live());
      case Depart(list) =>
        RemoveDriveList(list);
    }

    /** The notifications of a whole session, in any order. */
    method Replay(events: seq<Event>)
      requires Valid() && Live() == []
      modifies `numDevices, drives
      ensures Valid() && ByName(Live())
      ensures multiset(Names(Live())) == Bag(events)
    {
      hide Le, ByName, Names, BagAfter;
      NoNames();
      for i := 0 to |events|
        invariant Valid() && ByName(Live())
        invariant multiset(Names(Live())) == Bag(events[..i])
      {
        assert events[..i + 1][..i] == events[..i];
        Notice(events[i]);
      }
      assert events[..|events|] == events;
    }
  }

  lemma FindAt(ds: seq<Drive>, name: string, i: nat)
    requires i < |ds| && i <= Find(ds, name)
    ensures ds[i].name == name <==> i == Find(ds, name)
  {
  }

  // ----- The names in the table, over any session -----

  /** A medium that left: its name if it could be read, and what then lies behind the array. */
  datatype Departure = Departure(name: Option<string>, stray: Drive)

  datatype Event = Arrive(list: seq<Medium>) | Depart(left: seq<Departure>)

  function WithoutNames(bag: multiset<string>, list: seq<Departure>): multiset<string> {
    if list == [] then bag
    else WithoutNames(if list[0].name.Some? then bag - multiset{list[0].name.value} else bag, list[1..])
  }

  /** How often a list of departures names `n`. */
  function Named(list: seq<Departure>, n: string): nat {
    if list == [] then 0 else (if list[0].name == Some(n) then 1 else 0) + Named(list[1..], n)
  }

  /** Every departure takes its own name out once, as long as it is there, and no other. */
  lemma {:induction false} WithoutNamesCounts(bag: multiset<string>, list: seq<Departure>, n: string)
    ensures WithoutNames(bag, list)[n] == if Named(list, n) < bag[n] then bag[n] - Named(list, n) else 0
  {
    if list != [] {
      WithoutNamesCounts(if list[0].name.Some? then bag - multiset{list[0].name.value} else bag, list[1..], n);
    }
  }

  function MediumNames(ms: seq<Medium>): seq<string> {
    if ms == [] then [] else [ms[0].name] + MediumNames(ms[1..])
  }

  /** What one event makes of the names: no departure touches another name, no arrival is lost while there is room. */
  function BagAfter(before: multiset<string>, event: Event): multiset<string> {
    match event
    case Arrive(list) =>
      before + multiset(MediumNames(Accepted(list, if |before| <= MAXDRIVES then MAXDRIVES - |before| else 0)))
    case Depart(left) => WithoutNames(before, left)
  }

  /** The names a session leaves in the table. */
  function Bag(events: seq<Event>): multiset<string> {
    if events == [] then multiset{}
    else BagAfter(Bag(events[..|events| - 1]), events[|events| - 1])
  }

  lemma NamesArrive(live: seq<Drive>, list: seq<Medium>, slots: seq<Drive>, now: seq<Drive>)
    requires |live| + |slots| == MAXDRIVES
    requires multiset(now) == multiset(live) + multiset(RecordedAll(Accepted(list, |slots|), slots))
    ensures multiset(Names(now)) == BagAfter(multiset(Names(live)), Arrive(list))
  {
    hide Names, Accepted, RecordedAll, MediumNames;
    var acc := Accepted(list, |slots|);
    var added := RecordedAll(acc, slots);
    NamesCount(live);
    NamesOfRecorded(acc, slots);
    NamesOfBoth(live, added);
    SameNames(now, live + added);
  }

  lemma NoNames()
    ensures multiset(Names([])) == Bag([]) && ByName([])
  {
  }

  lemma NamesCount(ds: seq<Drive>)
    ensures |multiset(Names(ds))| == |ds|
  {
    assert |Names(ds)| == |ds|;
  }

  lemma RemovalStep(ds: seq<Drive>, list: seq<Departure>)
    requires list != []
    ensures WithoutNames(multiset(Names(ds)), list) ==
      if list[0].name.Some? then WithoutNames(multiset(Names(Without(ds, list[0].name.value))), list[1..])
      else WithoutNames(multiset(Names(ds)), list[1..])
    ensures list[0].name.Some? ==> multiset(Without(ds, list[0].name.value)) <= multiset(ds)
  {
    if list[0].name.Some? {
      WithoutTakesName(ds, list[0].name.value);
      WithoutTakesOne(ds, list[0].name.value);
    }
  }

  lemma NamesOfBoth(a: seq<Drive>, b: seq<Drive>)
    ensures multiset(Names(a + b)) == multiset(Names(a)) + multiset(Names(b))
    ensures multiset(a + b) == multiset(a) + multiset(b)
  {
    hide Names;
    NamesAppend(a, b);
  }

  lemma {:induction false} NamesOfRecorded(acc: seq<Medium>, slots: seq<Drive>)
    requires |acc| <= |slots|
    ensures Names(RecordedAll(acc, slots)) == MediumNames(acc)
  {
    if acc != [] {
      NamesOfRecorded(acc[1..], slots[1..]);
    }
  }

  lemma NamesPutBack(ds: seq<Drive>, i: nat)
    requires i < |ds|
    ensures multiset(Names(ds)) == multiset(Names(ds[..i] + ds[i + 1..])) + multiset{ds[i].name}
  {
    NamesOfWithout(ds, i);
    PutBack(Names(ds), i);
  }

  /** Rearranging the entries rearranges their names. */
  lemma {:induction false} SameNames(a: seq<Drive>, b: seq<Drive>)
    requires multiset(a) == multiset(b)
    ensures multiset(Names(a)) == multiset(Names(b))
    decreases |a|
  {
    hide Names;
    if a == [] {
      assert |multiset(b)| == 0;
    } else {
      assert a[0] in multiset(b);
      var i :| 0 <= i < |b| && b[i] == a[0];
      TakeOut(b, i);
      TakeFirst(a);
      var rest := b[..i] + b[i + 1..];
      SameNames(a[1..], rest);
      NamesPutBack(b, i);
      NamesPutFirst(a);
      var n, same := a[0].name, multiset(Names(rest));
      assert multiset(Names(a)) == multiset{n} + same == same + multiset{n};
    }
  }

  lemma NamesPutFirst(ds: seq<Drive>)
    requires ds != []
    ensures multiset(Names(ds)) == multiset{ds[0].name} + multiset(Names(ds[1..]))
  {
    TakeFirst(Names(ds));
  }

  predicate Ascends(ns: seq<string>) {
    forall i, j | 0 <= i < j < |ns| :: Le(ns[i], ns[j])
  }

  /** So the order of the names in the table is determined too, however the sort treats equal names. */
  lemma {:induction false} SortedNamesUnique(a: seq<string>, b: seq<string>)
    requires Ascends(a) && Ascends(b) && multiset(a) == multiset(b)
    ensures a == b
    decreases |a|
  {
    if a == [] {
      assert |multiset(b)| == 0;
    } else {
      SameFirst(a, b);
      TakeFirst(a);
      TakeFirst(b);
      assert Ascends(a[1..]) && Ascends(b[1..]);
      SortedNamesUnique(a[1..], b[1..]);
      assert a == [a[0]] + a[1..] && b == [b[0]] + b[1..];
    }
  }

  lemma SameFirst(a: seq<string>, b: seq<string>)
    requires Ascends(a) && Ascends(b) && multiset(a) == multiset(b) && a != []
    ensures b != [] && a[0] == b[0]
  {
    assert a[0] in multiset(b);
    assert b[0] in multiset(a);
    var i :| 0 <= i < |b| && b[i] == a[0];
    var j :| 0 <= j < |a| && a[j] == b[0];
    LeTotal(a[0], a[0]);
    LeAntisymmetric(a[0], b[0]);
  }

  /** The number of drives never exceeds the array, so a session's arrivals always have a defined room. */
  lemma {:induction false} BagFits(events: seq<Event>)
    ensures |Bag(events)| <= MAXDRIVES
  {
    if events != [] {
      BagFits(events[..|events| - 1]);
      match events[|events| - 1]
      case Arrive(list) =>
        var room := MAXDRIVES - |Bag(events[..|events| - 1])|;
        MediumNamesLength(Accepted(list, room));
      case Depart(left) =>
        WithoutNamesShrinks(Bag(events[..|events| - 1]), left);
    }
  }

  lemma MediumNamesLength(ms: seq<Medium>)
    ensures |MediumNames(ms)| == |ms|
  {
  }

  lemma WithoutNamesShrinks(bag: multiset<string>, list: seq<Departure>)
    ensures |WithoutNames(bag, list)| <= |bag|
  {
  }
}
