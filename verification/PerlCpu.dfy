/** perl/systat.pl: current and aggregate CPU percentages. */
module PerlCpu {
  import opened Ordering

  /** The four numbers of a cpu line that the script looks at. */
  datatype Ticks = Ticks(user: int, nice: int, system: int, idle: int) {
    function Minus(o: Ticks): Ticks {
      Ticks(user - o.user, nice - o.nice, system - o.system, idle - o.idle)
    }

    function Plus(o: Ticks): Ticks {
      Ticks(user + o.user, nice + o.nice, system + o.system, idle + o.idle)
    }

    function Total(): int {
      user + nice + system + idle
    }
  }

  const NONE: Ticks := Ticks(0, 0, 0, 0)

  /** A hash of joined numbers; what is not there counts as zero. */
  function At(m: map<string, Ticks>, key: string): Ticks {
    if key in m then m[key] else NONE
  }

  // ----- Percentages -----

  /** int(): towards zero. */
  function Int(x: real): int {
    if x >= 0.0 then x.Floor else -(-x).Floor
  }

  /** A share of a total in tenths of a percent: int(y / total * 1000 + .5). */
  function Tenths(y: int, total: int): int
    requires total != 0
  {
    Int(y as real / total as real * 1000.0 + 0.5)
  }

  /** All four shares, zero when nothing was counted. */
  function Percents(t: Ticks): Ticks {
    var total := t.Total();
    if total == 0 then NONE
    else Ticks(Tenths(t.user, total), Tenths(t.nice, total), Tenths(t.system, total), Tenths(t.idle, total))
  }

  lemma TenthsNear(y: int, total: int)
    requires 0 <= y && 0 < total
    ensures var x := y as real / total as real * 1000.0; x - 0.5 < Tenths(y, total) as real <= x + 0.5
  {
    var x := y as real / total as real * 1000.0;
    assert y as real / total as real >= 0.0;
    assert x >= 0.0;
  }

  lemma SharesAddUp(a: int, b: int, c: int, d: int, total: int)
    requires 0 < total && a + b + c + d == total
    ensures a as real / total as real * 1000.0 + b as real / total as real * 1000.0
      + c as real / total as real * 1000.0 + d as real / total as real * 1000.0 == 1000.0
  {
    var t := total as real;
    assert a as real / t + b as real / t + c as real / t + d as real / t
      == (a as real + b as real + c as real + d as real) / t;
    assert a as real + b as real + c as real + d as real == t;
  }

  /** The four rounded shares add up to between 99.9 and 100.2 percent. */
  lemma PercentsAddUp(t: Ticks)
    requires t.user >= 0 && t.nice >= 0 && t.system >= 0 && t.idle >= 0 && t.Total() > 0
    ensures 999 <= Percents(t).Total() <= 1002
  {
    var total := t.Total();
    TenthsNear(t.user, total);
    TenthsNear(t.nice, total);
    TenthsNear(t.system, total);
    TenthsNear(t.idle, total);
    SharesAddUp(t.user, t.nice, t.system, t.idle, total);
    var p := Percents(t);
    assert 998.0 < p.user as real + p.nice as real + p.system as real + p.idle as real <= 1002.0;
    assert p.Total() as real == p.user as real + p.nice as real + p.system as real + p.idle as real;
  }

  /** Both ends are reached. */
  lemma PercentsReachBounds()
    ensures Percents(Ticks(1, 1, 1, 3997)).Total() == 999
    ensures Percents(Ticks(1, 1, 1, 1997)).Total() == 1002
  {
    assert Ticks(1, 1, 1, 3997).Total() == 4000 && Ticks(1, 1, 1, 1997).Total() == 2000;
    TenthsIs(1, 4000, 0);
    TenthsIs(3997, 4000, 999);
    TenthsIs(1, 2000, 1);
    TenthsIs(1997, 2000, 999);
    hide Tenths;
  }

  lemma TenthsIs(y: int, total: int, n: nat)
    requires 0 <= y && 0 < total
    requires n as real <= y as real / total as real * 1000.0 + 0.5 < n as real + 1.0
    ensures Tenths(y, total) == n
  {
  }

  // ----- One screen -----

  /** What has been counted since the last screen and since the start, each with its percentages in tenths. */
  datatype Line = Line(key: string, now: Ticks, nowShown: Ticks, all: Ticks, allShown: Ticks)

  /** `tenths` is `y` over `total` in tenths of a percent, rounded. */
  predicate Near(tenths: int, y: int, total: int)
    requires total > 0
  {
    var exact := y as real / total as real * 1000.0;
    exact - 0.5 < tenths as real <= exact + 0.5
  }

  /** Each of the four percentages shown is that of its own state. */
  predicate InTenths(shown: Ticks, n: Ticks) {
    var total := n.user + n.nice + n.system + n.idle;
    && (total == 0 ==> shown.user == shown.nice == shown.system == shown.idle == 0)
    && (n.user >= 0 && n.nice >= 0 && n.system >= 0 && n.idle >= 0 && total > 0 ==>
          && Near(shown.user, n.user, total) && Near(shown.nice, n.nice, total)
          && Near(shown.system, n.system, total) && Near(shown.idle, n.idle, total))
  }

  lemma PercentsInTenths(n: Ticks)
    ensures InTenths(Percents(n), n)
  {
    var total := n.user + n.nice + n.system + n.idle;
    if n.user >= 0 && n.nice >= 0 && n.system >= 0 && n.idle >= 0 && total > 0 {
      TenthsNear(n.user, total);
      TenthsNear(n.nice, total);
      TenthsNear(n.system, total);
      TenthsNear(n.idle, total);
    }
  }

  /** `t` is what `stat` has counted in each state since the numbers kept for the key, zero if there are none. */
  predicate Counts(t: Ticks, stat: Ticks, since: map<string, Ticks>, key: string) {
    var was := if key in since then since[key] else Ticks(0, 0, 0, 0);
    && t.user == stat.user - was.user && t.nice == stat.nice - was.nice
    && t.system == stat.system - was.system && t.idle == stat.idle - was.idle
  }

  predicate IsCpu(key: string) {
    "cpu" <= key
  }

  function LineFor(key: string, stat: Ticks, current: map<string, Ticks>, initial: map<string, Ticks>): Line {
    var now, all := stat.Minus(At(current, key)), stat.Minus(At(initial, key));
    Line(key, now, Percents(now), all, Percents(all))
  }

  /** The lines of the keys `keys`, of which those that do not start with "cpu" have none. */
  function LinesFor(keys: seq<string>, stat: map<string, Ticks>, current: map<string, Ticks>,
      initial: map<string, Ticks>): seq<Line> {
    if keys == [] then []
    else
      (if IsCpu(keys[0]) then [LineFor(keys[0], At(stat, keys[0]), current, initial)] else [])
        + LinesFor(keys[1..], stat, current, initial)
  }

  /** What will have been printed after `done` when the keys `rest` are still ahead. */
  function LinesAfter(done: seq<Line>, rest: set<string>, stat: map<string, Ticks>, current: map<string, Ticks>,
      initial: map<string, Ticks>): seq<Line> {
    done + LinesFor(Ascending(rest), stat, current, initial)
  }

  lemma LinesStart(stat: map<string, Ticks>, current: map<string, Ticks>, initial: map<string, Ticks>)
    ensures LinesAfter([], stat.Keys, stat, current, initial) == LinesFor(Ascending(stat.Keys), stat, current, initial)
  {
  }

  lemma LinesEnd(done: seq<Line>, stat: map<string, Ticks>, current: map<string, Ticks>, initial: map<string, Ticks>)
    ensures LinesAfter(done, {}, stat, current, initial) == done
  {
  }

  lemma LinesStep(done: seq<Line>, rest: set<string>, stat: map<string, Ticks>, current: map<string, Ticks>,
      initial: map<string, Ticks>)
    requires rest != {}
    ensures var k := Least(rest);
      LinesAfter(done, rest, stat, current, initial) ==
        LinesAfter(if IsCpu(k) then done + [LineFor(k, At(stat, k), current, initial)] else done,
          rest - {k}, stat, current, initial)
  {
    hide Ascending, Least, Le, Sorted, Distinct, IsLeast, IsCpu, LinesFor, LineFor, At;
    AscendingStep([], rest);
    var k := Least(rest);
    var ks := Ascending(rest - {k});
    LinesCons(k, ks, stat, current, initial);
    var l := LineFor(k, At(stat, k), current, initial);
    assert done + ([l] + LinesFor(ks, stat, current, initial)) == done + [l] + LinesFor(ks, stat, current, initial);
    assert done + ([] + LinesFor(ks, stat, current, initial)) == done + LinesFor(ks, stat, current, initial);
  }

  lemma LinesCons(k: string, ks: seq<string>, stat: map<string, Ticks>, current: map<string, Ticks>,
      initial: map<string, Ticks>)
    ensures LinesFor([k] + ks, stat, current, initial) ==
      (if IsCpu(k) then [LineFor(k, At(stat, k), current, initial)] else []) + LinesFor(ks, stat, current, initial)
  {
    assert ([k] + ks)[1..] == ks;
  }

  /** The hash `current` after a screen: the new numbers of every cpu line. */
  function Seen(current: map<string, Ticks>, stat: map<string, Ticks>): map<string, Ticks> {
    current + map k | k in stat && IsCpu(k) :: stat[k]
  }

  /** The same with the keys `rest` still to come. */
  function PartlySeen(current: map<string, Ticks>, stat: map<string, Ticks>, rest: set<string>): map<string, Ticks> {
    current + map k | k in stat && k !in rest && IsCpu(k) :: stat[k]
  }

  lemma SeenEnds(current: map<string, Ticks>, stat: map<string, Ticks>)
    ensures PartlySeen(current, stat, stat.Keys) == current
    ensures PartlySeen(current, stat, {}) == Seen(current, stat)
  {
  }

  /** No key is written before its turn, so each line is made from the numbers of the last screen. */
  lemma SeenStep(current: map<string, Ticks>, stat: map<string, Ticks>, rest: set<string>, k: string)
    requires k in rest && k in stat
    ensures var m := PartlySeen(current, stat, rest);
      && At(m, k) == At(current, k)
      && PartlySeen(current, stat, rest - {k}) == if IsCpu(k) then m[k := stat[k]] else m
  {
    var m, m' := PartlySeen(current, stat, rest), PartlySeen(current, stat, rest - {k});
    var want := if IsCpu(k) then m[k := stat[k]] else m;
    assert m'.Keys == want.Keys;
    forall j | j in m'
      ensures m'[j] == want[j]
    {
    }
  }

  class Script {
    var current: map<string, Ticks>
    var initial: map<string, Ticks>

    /** InitState */
    constructor (stat: map<string, Ticks>)
      ensures current == initial == stat
    {
      current := stat;
      initial := stat;
    }

    /** PrintCPU; `row` is the next free row of the screen. */
    method PrintCpu(stat: map<string, Ticks>, compress: bool, row: nat) returns (lines: seq<Line>, next: nat)
      modifies `current
      ensures lines == LinesFor(Ascending(stat.Keys), stat, old(current), initial)
      ensures TrueScreen(lines, stat, old(current), initial)
      ensures current == Seen(old(current), stat)
      ensures next == row + (if compress then 2 else 3) + |lines|
    {
      LinesStart(stat, current, initial);
      hide Ascending, Least, Le, Sorted, Distinct, IsLeast, LinesFor, LinesAfter, Percents, PartlySeen, Seen, IsCpu,
        TrueScreen;
      ghost var was, goal := current, LinesFor(Ascending(stat.Keys), stat, current, initial);
      SeenEnds(was, stat);
      lines := [];
      next := if compress then row + 2 else row + 3;
      var rest := stat.Keys;
      while rest != {}
        invariant rest <= stat.Keys
        invariant LinesAfter(lines, rest, stat, was, initial) == goal
        invariant current == PartlySeen(was, stat, rest)
        invariant next == row + (if compress then 2 else 3) + |lines|
        decreases rest
      {
        var key := Least(rest);
        LinesStep(lines, rest, stat, was, initial);
        SeenStep(was, stat, rest, key);
        rest := rest - {key};
        if !IsCpu(key) {
          continue;
        }
        lines := lines + [LineFor(key, stat[key], current, initial)];
        current := current[key := stat[key]];
        next := next + 1;
      }
      LinesEnd(lines, stat, was, initial);
      ScreenIsTrue(stat, was, initial);
    }

    /** Any number of screens, one for each reading of the file. */
    method Watch(stats: seq<map<string, Ticks>>, compress: bool) returns (screens: seq<seq<Line>>)
      requires current == initial
      modifies `current
      ensures screens == Screens(stats, initial, initial)
      ensures current == SeenAll(initial, stats)
      ensures forall k, l | 0 <= k < |screens| && l in screens[k] :: l.all == ShownOn(screens[..k + 1], l.key)
    {
      hide Ascending, LinesFor, Seen, ShownOn, Screens, SeenAll, TrueScreen;
      screens := [];
      ScreensStart(stats, initial);
      for i := 0 to |stats|
        invariant ScreensAfter(screens, stats[i..], current, initial) == Screens(stats, initial, initial)
        invariant SeenAll(current, stats[i..]) == SeenAll(initial, stats)
      {
        ScreensStep(screens, stats[i..], current, initial);
        assert stats[i..][0] == stats[i] && stats[i..][1..] == stats[i + 1..];
        var lines, _ := PrintCpu(stats[i], compress, 0);
        screens := screens + [lines];
      }
      ScreensStep(screens, stats[|stats|..], current, initial);
      AllAggregates(initial, stats);
    }
  }

  /** What a line says, state by state. */
  predicate TrueLine(l: Line, stat: map<string, Ticks>, current: map<string, Ticks>, initial: map<string, Ticks>) {
    && l.key in stat && "cpu" <= l.key
    && Counts(l.now, stat[l.key], current, l.key) && InTenths(l.nowShown, l.now)
    && Counts(l.all, stat[l.key], initial, l.key) && InTenths(l.allShown, l.all)
  }

  lemma LineIsTrue(key: string, stat: map<string, Ticks>, current: map<string, Ticks>, initial: map<string, Ticks>)
    requires key in stat && IsCpu(key)
    ensures var l := LineFor(key, At(stat, key), current, initial); l.key == key && TrueLine(l, stat, current, initial)
  {
    hide Percents, Near;
    var l := LineFor(key, At(stat, key), current, initial);
    PercentsInTenths(l.now);
    PercentsInTenths(l.all);
  }

  /** One true line for every key that starts with "cpu", in ascending order, and no others. */
  ghost predicate TrueScreen(lines: seq<Line>, stat: map<string, Ticks>, current: map<string, Ticks>,
      initial: map<string, Ticks>) {
    && (forall l | l in lines :: TrueLine(l, stat, current, initial))
    && (forall i, j | 0 <= i < j < |lines| :: Le(lines[i].key, lines[j].key) && lines[i].key != lines[j].key)
    && forall k | k in stat && "cpu" <= k :: exists l :: l in lines && l.key == k
  }

  /** The lines stand in ascending order of their keys, which are among `keys`, and every key that is due has one. */
  ghost predicate InOrder(lines: seq<Line>, keys: seq<string>) {
    && (forall i | 0 <= i < |lines| :: lines[i].key in keys)
    && (forall i, j | 0 <= i < j < |lines| :: Le(lines[i].key, lines[j].key) && lines[i].key != lines[j].key)
    && forall k | k in keys && "cpu" <= k :: exists i :: 0 <= i < |lines| && lines[i].key == k
  }

  lemma InOrderCons(l: Line, rest: seq<Line>, keys: seq<string>)
    requires keys != [] && l.key == keys[0] && InOrder(rest, keys[1..])
    requires forall k | k in keys[1..] :: Le(keys[0], k) && keys[0] != k
    ensures InOrder([l] + rest, keys)
  {
    hide Le;
    var lines := [l] + rest;
    forall i, j | 0 <= i < j < |lines|
      ensures Le(lines[i].key, lines[j].key) && lines[i].key != lines[j].key
    {
      assert lines[j] == rest[j - 1];
      if i > 0 {
        assert lines[i] == rest[i - 1];
      }
    }
    forall k | k in keys && "cpu" <= k
      ensures exists i :: 0 <= i < |lines| && lines[i].key == k
    {
      if k == l.key {
        assert lines[0].key == k;
      } else {
        assert k in keys[1..];
        var i :| 0 <= i < |rest| && rest[i].key == k;
        assert lines[i + 1].key == k;
      }
    }
  }

  lemma InOrderSkip(rest: seq<Line>, keys: seq<string>)
    requires keys != [] && !("cpu" <= keys[0]) && InOrder(rest, keys[1..])
    ensures InOrder(rest, keys)
  {
    hide Le;
    assert forall k | k in keys && "cpu" <= k :: k in keys[1..];
  }

  lemma {:induction false} LinesAreTrue(keys: seq<string>, stat: map<string, Ticks>, current: map<string, Ticks>,
      initial: map<string, Ticks>)
    requires Sorted(keys) && Distinct(keys) && forall k | k in keys :: k in stat
    ensures InOrder(LinesFor(keys, stat, current, initial), keys)
    ensures forall l | l in LinesFor(keys, stat, current, initial) :: TrueLine(l, stat, current, initial)
    decreases |keys|
  {
    hide TrueLine, LineFor, At, Le, LinesFor, InOrder, Sorted, Distinct;
    if keys == [] {
      NoneFor(stat, current, initial);
    } else {
      var k, rest := keys[0], LinesFor(keys[1..], stat, current, initial);
      FirstBelow(keys);
      LinesAreTrue(keys[1..], stat, current, initial);
      LinesHead(keys, stat, current, initial);
      if IsCpu(k) {
        LineIsTrue(k, stat, current, initial);
        InOrderCons(LineFor(k, At(stat, k), current, initial), rest, keys);
      } else {
        InOrderSkip(rest, keys);
      }
    }
  }

  lemma NoneFor(stat: map<string, Ticks>, current: map<string, Ticks>, initial: map<string, Ticks>)
    ensures LinesFor([], stat, current, initial) == [] && InOrder([], [])
  {
  }

  lemma FirstBelow(keys: seq<string>)
    requires keys != [] && Sorted(keys) && Distinct(keys)
    ensures Sorted(keys[1..]) && Distinct(keys[1..])
    ensures forall k | k in keys[1..] :: Le(keys[0], k) && keys[0] != k
  {
  }

  lemma ScreenIsTrue(stat: map<string, Ticks>, current: map<string, Ticks>, initial: map<string, Ticks>)
    ensures TrueScreen(LinesFor(Ascending(stat.Keys), stat, current, initial), stat, current, initial)
  {
    hide TrueLine, LinesFor, Sorted, Distinct, Le;
    var keys, lines := Ascending(stat.Keys), LinesFor(Ascending(stat.Keys), stat, current, initial);
    LinesAreTrue(keys, stat, current, initial);
    forall k | k in stat && "cpu" <= k
      ensures exists l :: l in lines && l.key == k
    {
      assert k in keys;
      var i :| 0 <= i < |lines| && lines[i].key == k;
      assert lines[i] in lines;
    }
  }

  // ----- Any number of screens -----

  /** Everything that the lines of a screen show as current for a key. */
  function NowOn(lines: seq<Line>, key: string): Ticks {
    if lines == [] then NONE else (if lines[0].key == key then lines[0].now else NONE).Plus(NowOn(lines[1..], key))
  }

  /** Everything that several screens show as current for a key. */
  function ShownOn(screens: seq<seq<Line>>, key: string): Ticks {
    if screens == [] then NONE else NowOn(screens[0], key).Plus(ShownOn(screens[1..], key))
  }

  /** The screens that the readings `stats` lead to. */
  function Screens(stats: seq<map<string, Ticks>>, current: map<string, Ticks>,
      initial: map<string, Ticks>): (ss: seq<seq<Line>>)
    ensures |ss| == |stats|
    decreases |stats|
  {
    if stats == [] then []
    else
      [LinesFor(Ascending(stats[0].Keys), stats[0], current, initial)]
        + Screens(stats[1..], Seen(current, stats[0]), initial)
  }

  /** The hash `current` after the screens of `stats`. */
  function SeenAll(current: map<string, Ticks>, stats: seq<map<string, Ticks>>): map<string, Ticks>
    decreases |stats|
  {
    if stats == [] then current else SeenAll(Seen(current, stats[0]), stats[1..])
  }

  /** The screens `done` and those that the readings `rest` lead to. */
  function ScreensAfter(done: seq<seq<Line>>, rest: seq<map<string, Ticks>>, current: map<string, Ticks>,
      initial: map<string, Ticks>): seq<seq<Line>> {
    done + Screens(rest, current, initial)
  }

  lemma ScreensStart(stats: seq<map<string, Ticks>>, initial: map<string, Ticks>)
    ensures stats[0..] == stats && ScreensAfter([], stats, initial, initial) == Screens(stats, initial, initial)
  {
  }

  lemma ScreensStep(done: seq<seq<Line>>, rest: seq<map<string, Ticks>>, current: map<string, Ticks>,
      initial: map<string, Ticks>)
    ensures rest == [] ==> ScreensAfter(done, rest, current, initial) == done && SeenAll(current, rest) == current
    ensures rest != [] ==>
      var lines, after := LinesFor(Ascending(rest[0].Keys), rest[0], current, initial), Seen(current, rest[0]);
      && ScreensAfter(done, rest, current, initial) == ScreensAfter(done + [lines], rest[1..], after, initial)
      && SeenAll(current, rest) == SeenAll(after, rest[1..])
  {
    hide Ascending, LinesFor, Seen, SeenAll, Screens;
    SeenAllStep(rest, current);
    ScreensHead(rest, current, initial);
    if rest == [] {
      assert done + [] == done;
    } else {
      var lines, after := LinesFor(Ascending(rest[0].Keys), rest[0], current, initial), Seen(current, rest[0]);
      var later := Screens(rest[1..], after, initial);
      assert done + ([lines] + later) == done + [lines] + later;
    }
  }

  lemma ScreensHead(rest: seq<map<string, Ticks>>, current: map<string, Ticks>, initial: map<string, Ticks>)
    ensures Screens(rest, current, initial) ==
      if rest == [] then []
      else
        [LinesFor(Ascending(rest[0].Keys), rest[0], current, initial)]
          + Screens(rest[1..], Seen(current, rest[0]), initial)
  {
    hide Ascending, LinesFor, Seen;
  }

  lemma SeenAllStep(rest: seq<map<string, Ticks>>, current: map<string, Ticks>)
    ensures SeenAll(current, rest) == if rest == [] then current else SeenAll(Seen(current, rest[0]), rest[1..])
  {
  }

  lemma AtSeen(current: map<string, Ticks>, stat: map<string, Ticks>, key: string)
    ensures At(Seen(current, stat), key) == if key in stat && IsCpu(key) then stat[key] else At(current, key)
  {
  }

  /** One screen shows for a key exactly the change of its numbers. */
  lemma {:induction false} NowOnLines(keys: seq<string>, stat: map<string, Ticks>, current: map<string, Ticks>,
      initial: map<string, Ticks>, key: string)
    requires Distinct(keys)
    ensures NowOn(LinesFor(keys, stat, current, initial), key) ==
      if key in keys && IsCpu(key) then At(stat, key).Minus(At(current, key)) else NONE
    decreases |keys|
  {
    hide At, Percents, IsCpu, LinesFor, NowOn, LineFor, Distinct, Ticks.Plus, Ticks.Minus;
    if keys == [] {
      NoLines(stat, current, initial, key);
    } else {
      var first, rest := keys[0], LinesFor(keys[1..], stat, current, initial);
      PlusNone();
      LineForIs(first, At(stat, first), current, initial);
      DistinctHead(keys, key);
      NowOnLines(keys[1..], stat, current, initial, key);
      LinesHead(keys, stat, current, initial);
      NowOnCons(LineFor(first, At(stat, first), current, initial), rest, key);
    }
  }

  lemma NoLines(stat: map<string, Ticks>, current: map<string, Ticks>, initial: map<string, Ticks>, key: string)
    ensures NowOn(LinesFor([], stat, current, initial), key) == NONE
  {
  }

  lemma PlusNone()
    ensures forall t: Ticks :: t.Plus(NONE) == NONE.Plus(t) == t
  {
  }

  lemma LineForIs(key: string, stat: Ticks, current: map<string, Ticks>, initial: map<string, Ticks>)
    ensures var l := LineFor(key, stat, current, initial);
      l.key == key && l.now == stat.Minus(At(current, key)) && l.all == stat.Minus(At(initial, key))
  {
  }

  lemma DistinctHead(keys: seq<string>, key: string)
    requires keys != [] && Distinct(keys)
    ensures Distinct(keys[1..]) && keys[0] !in keys[1..]
    ensures key in keys <==> key == keys[0] || key in keys[1..]
  {
  }

  lemma LinesHead(keys: seq<string>, stat: map<string, Ticks>, current: map<string, Ticks>, initial: map<string, Ticks>)
    requires keys != []
    ensures var rest := LinesFor(keys[1..], stat, current, initial);
      LinesFor(keys, stat, current, initial) ==
        if IsCpu(keys[0]) then [LineFor(keys[0], At(stat, keys[0]), current, initial)] + rest else rest
  {
  }

  lemma NowOnCons(l: Line, rest: seq<Line>, key: string)
    ensures NowOn([l] + rest, key) == (if l.key == key then l.now else NONE).Plus(NowOn(rest, key))
  {
    assert ([l] + rest)[1..] == rest;
  }

  /** What all screens up to `k` show as current for a key is the change of its numbers since before the first. */
  lemma {:induction false} ShownIsDifference(stats: seq<map<string, Ticks>>, current: map<string, Ticks>,
      initial: map<string, Ticks>, k: nat, key: string)
    requires k <= |stats|
    ensures ShownOn(Screens(stats, current, initial)[..k], key)
      == At(SeenAll(current, stats[..k]), key).Minus(At(current, key))
    decreases k
  {
    hide Ascending, LinesFor, At, Seen, NowOn, ShownOn, Screens, SeenAll, Ticks.Plus, Ticks.Minus;
    if k == 0 {
      NothingShown(stats, current, initial, key);
    } else {
      var stat, after := stats[0], Seen(current, stats[0]);
      ShownIsDifference(stats[1..], after, initial, k - 1, key);
      NowOnScreen(stat, current, initial, key);
      FirstScreen(stats, current, initial, k, key);
      Chained(At(current, key), At(after, key), At(SeenAll(current, stats[..k]), key));
    }
  }

  lemma NothingShown(stats: seq<map<string, Ticks>>, current: map<string, Ticks>, initial: map<string, Ticks>,
      key: string)
    ensures ShownOn(Screens(stats, current, initial)[..0], key) == NONE
    ensures At(SeenAll(current, stats[..0]), key).Minus(At(current, key)) == NONE
  {
  }

  lemma Chained(a: Ticks, b: Ticks, c: Ticks)
    ensures b.Minus(a).Plus(c.Minus(b)) == c.Minus(a)
  {
  }

  lemma NowOnScreen(stat: map<string, Ticks>, current: map<string, Ticks>, initial: map<string, Ticks>, key: string)
    ensures NowOn(LinesFor(Ascending(stat.Keys), stat, current, initial), key)
      == At(Seen(current, stat), key).Minus(At(current, key))
  {
    hide LinesFor, Seen, NowOn, Sorted, Distinct, IsCpu;
    var keys := Ascending(stat.Keys);
    hide Ascending;
    assert key in keys <==> key in stat;
    NowOnLines(keys, stat, current, initial, key);
    AtSeen(current, stat, key);
  }

  lemma FirstScreen(stats: seq<map<string, Ticks>>, current: map<string, Ticks>, initial: map<string, Ticks>, k: nat,
      key: string)
    requires 0 < k <= |stats|
    ensures var stat, after := stats[0], Seen(current, stats[0]);
      && ShownOn(Screens(stats, current, initial)[..k], key) ==
           NowOn(LinesFor(Ascending(stat.Keys), stat, current, initial), key)
             .Plus(ShownOn(Screens(stats[1..], after, initial)[..k - 1], key))
      && SeenAll(current, stats[..k]) == SeenAll(after, stats[1..][..k - 1])
  {
    hide Ascending, LinesFor, Seen, NowOn;
    var after := Seen(current, stats[0]);
    assert Screens(stats, current, initial)[..k][1..] == Screens(stats[1..], after, initial)[..k - 1];
    assert stats[..k][1..] == stats[1..][..k - 1];
  }

  /** A line of screen `k` is made from the numbers of reading `k`. */
  lemma {:induction false} LineOfScreen(stats: seq<map<string, Ticks>>, current: map<string, Ticks>,
      initial: map<string, Ticks>, k: nat, l: Line)
    requires k < |stats| && l in Screens(stats, current, initial)[k]
    ensures l.key in stats[k] && IsCpu(l.key) && l.all == stats[k][l.key].Minus(At(initial, l.key))
    decreases k
  {
    if k > 0 {
      LineOfScreen(stats[1..], Seen(current, stats[0]), initial, k - 1, l);
    } else {
      LineOfLines(Ascending(stats[0].Keys), stats[0], current, initial, l);
    }
  }

  lemma {:induction false} LineOfLines(keys: seq<string>, stat: map<string, Ticks>, current: map<string, Ticks>,
      initial: map<string, Ticks>, l: Line)
    requires l in LinesFor(keys, stat, current, initial)
    ensures l.key in keys && IsCpu(l.key) && l.all == At(stat, l.key).Minus(At(initial, l.key))
  {
    hide At, Percents, IsCpu;
    LinesHead(keys, stat, current, initial);
    if !(IsCpu(keys[0]) && l == LineFor(keys[0], At(stat, keys[0]), current, initial)) {
      LineOfLines(keys[1..], stat, current, initial, l);
    }
  }

  lemma {:induction false} SeenAllSnoc(current: map<string, Ticks>, stats: seq<map<string, Ticks>>,
      stat: map<string, Ticks>)
    ensures SeenAll(current, stats + [stat]) == Seen(SeenAll(current, stats), stat)
    decreases |stats|
  {
    if stats != [] {
      assert (stats + [stat])[1..] == stats[1..] + [stat];
      SeenAllSnoc(Seen(current, stats[0]), stats[1..], stat);
    } else {
      assert [stat][1..] == [];
    }
  }

  /**
   * On every screen, the aggregate of a line is the sum of everything that was shown as current for its key
   * since the start, this screen included; for keys that appear later as well.
   */
  lemma AggregateIsSum(initial: map<string, Ticks>, stats: seq<map<string, Ticks>>, k: nat, l: Line)
    requires k < |stats| && l in Screens(stats, initial, initial)[k]
    ensures l.all == ShownOn(Screens(stats, initial, initial)[..k + 1], l.key)
  {
    hide Ascending, LinesFor, At, Seen, ShownOn, Screens, IsCpu;
    LineOfScreen(stats, initial, initial, k, l);
    ShownIsDifference(stats, initial, initial, k + 1, l.key);
    assert stats[..k + 1] == stats[..k] + [stats[k]];
    SeenAllSnoc(initial, stats[..k], stats[k]);
    AtSeen(SeenAll(initial, stats[..k]), stats[k], l.key);
  }

  lemma AllAggregates(initial: map<string, Ticks>, stats: seq<map<string, Ticks>>)
    ensures var ss := Screens(stats, initial, initial);
      forall k: nat, l: Line | 0 <= k < |ss| && l in ss[k] :: l.all == ShownOn(ss[..k + 1], l.key)
  {
    hide Screens, ShownOn;
    var ss := Screens(stats, initial, initial);
    forall k: nat, l: Line | 0 <= k < |ss| && l in ss[k]
      ensures l.all == ShownOn(ss[..k + 1], l.key)
    {
      AggregateIsSum(initial, stats, k, l);
    }
  }
}
