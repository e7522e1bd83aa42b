/**
 * The state machine behind every statistics class: three tables `last`, `current` and `delta`
 * of counters by name, read, copied and subtracted once per refresh.
 *
 * `skip` holds the columns that the class's copy() forgets to assign.
 */
module Snapshot {
  import opened Words

  type View = map<string, Row>

  predicate Wide(v: View, w: nat) {
    forall n | n in v :: |v[n]| == w
  }

  datatype Snap = Snap(last: View, current: View, delta: View)

  /** What every lookup in the delta loop relies on. */
  predicate Inv(s: Snap, w: nat) {
    && s.delta.Keys <= s.last.Keys <= s.current.Keys
    && Wide(s.last, w) && Wide(s.current, w) && Wide(s.delta, w)
  }

  /** The counters of `newer` minus those of `older`, for the given names. */
  function Diff(newer: View, older: View, names: set<string>): View
    requires names <= newer.Keys && names <= older.Keys
    requires forall n | n in names :: |newer[n]| == |older[n]|
  {
    map n | n in names :: RowSub(newer[n], older[n])
  }

  /** `to` is what copy(dst, src) leaves in dst: copied columns from src, everything else kept. */
  ghost predicate Copied(to: View, dst: View, src: View, skip: set<nat>) {
    && to.Keys == dst.Keys + src.Keys
    && (forall n | n in src :: |to[n]| == |src[n]| &&
          forall c | 0 <= c < |src[n]| && c !in skip :: to[n][c] == src[n][c])
    && (forall n | n in dst && n in src ::
          forall c | 0 <= c < |dst[n]| && c < |to[n]| && c in skip :: to[n][c] == dst[n][c])
    && (forall n | n in dst && n !in src :: to[n] == dst[n])
  }

  lemma CopiedKeys(to: View, dst: View, src: View, skip: set<nat>)
    requires Copied(to, dst, src, skip)
    ensures to.Keys == dst.Keys + src.Keys
  {
  }

  /** One update(): copy current to last, read the sample into current, subtract. */
  ghost predicate Next(s: Snap, sample: View, t: Snap, w: nat, skip: set<nat>)
    requires Inv(s, w) && Wide(sample, w)
  {
    && Inv(t, w)
    && Copied(t.last, s.last, s.current, skip)
    && t.current == s.current + sample
    && t.delta == Diff(t.current, t.last, s.delta.Keys)
  }

  /** The constructor up to its own call of update(). */
  ghost predicate Starts(first: View, s: Snap, w: nat, skip: set<nat>) {
    && Inv(s, w)
    && s.current == first
    && Copied(s.last, map[], first, skip)
    && Copied(s.delta, map[], first, skip)
  }

  /** A run: the constructor's state, then one update per sample. */
  ghost predicate IsRun(trail: seq<Snap>, samples: seq<View>, w: nat, skip: set<nat>) {
    && |trail| == |samples| + 1
    && (forall i | 0 <= i < |trail| :: Inv(trail[i], w))
    && (forall i | 0 <= i < |samples| :: Wide(samples[i], w))
    && (forall i | 0 <= i < |samples| :: Next(trail[i], samples[i], trail[i + 1], w, skip))
  }

  /** Filling the two other tables from the first sample starts a run. */
  lemma StartsRun(first: View, s: Snap, w: nat, skip: set<nat>)
    requires Wide(first, w) && Wide(s.last, w) && Wide(s.delta, w) && s.current == first
    requires Copied(s.last, map[], first, skip) && Copied(s.delta, map[], first, skip)
    ensures Inv(s, w) && Starts(first, s, w, skip) && IsRun([s], [], w, skip)
  {
  }

  /** One update() as the program runs it continues a run, whatever copy leaves out. */
  lemma UpdateIsNext(s: Snap, sample: View, t: Snap, w: nat, skip: set<nat>)
    requires Inv(s, w) && Wide(sample, w) && Wide(t.last, w) && Wide(t.current, w) && Wide(t.delta, w)
    requires Copied(t.last, s.last, s.current, skip) && t.current == s.current + sample
    requires t.last.Keys == s.last.Keys + s.current.Keys
    requires t.delta == Diff(t.current, t.last, s.delta.Keys)
    ensures Inv(t, w) && Next(s, sample, t, w, skip)
  {
  }

  lemma StartRun(s: Snap, w: nat, skip: set<nat>)
    requires Inv(s, w)
    ensures IsRun([s], [], w, skip)
  {
  }

  lemma ExtendRun(trail: seq<Snap>, samples: seq<View>, sample: View, t: Snap, w: nat, skip: set<nat>)
    requires IsRun(trail, samples, w, skip) && Wide(sample, w)
    requires Next(trail[|trail| - 1], sample, t, w, skip)
    ensures IsRun(trail + [t], samples + [sample], w, skip)
  {
    var trail', samples' := trail + [t], samples + [sample];
    forall i | 0 <= i < |samples'|
      ensures Next(trail'[i], samples'[i], trail'[i + 1], w, skip)
    {
      if i < |samples| {
        assert trail'[i] == trail[i] && trail'[i + 1] == trail[i + 1];
      }
    }
  }

  // ----- When copy assigns every column, update is a function -----

  function Step(s: Snap, sample: View, w: nat): (t: Snap)
    requires Inv(s, w) && Wide(sample, w)
    ensures Inv(t, w)
  {
    var current := s.current + sample;
    Snap(s.current, current, Diff(current, s.current, s.delta.Keys))
  }

  /** With nothing forgotten, `last` becomes the previous `current` and the new state is determined. */
  lemma NextIsStep(s: Snap, sample: View, t: Snap, w: nat)
    requires Inv(s, w) && Wide(sample, w)
    ensures Next(s, sample, t, w, {}) <==> t == Step(s, sample, w)
  {
    if Next(s, sample, t, w, {}) {
      assert t.last.Keys == s.current.Keys;
      forall n | n in s.current
        ensures t.last[n] == s.current[n]
      {
      }
      assert t.last == s.current;
    }
  }

  /** update() as the program runs it: over maps that already hold the names. */
  lemma UpdateIsStep(s: Snap, sample: View, t: Snap, w: nat)
    requires Inv(s, w) && Wide(sample, w)
    requires t.last == s.last + s.current && t.current == s.current + sample
    requires t.delta == Diff(t.current, t.last, s.delta.Keys)
    ensures t == Step(s, sample, w)
    ensures Next(s, sample, t, w, {})
  {
    assert t.last == s.current;
    NextIsStep(s, sample, t, w);
  }

  // ----- Telescoping -----

  /** Column `c` of name `n` can be followed through the whole run. */
  predicate Tracked(trail: seq<Snap>, n: string, c: nat) {
    && trail != []
    && forall i | 0 <= i < |trail| ::
        && n in trail[i].delta && c < |trail[i].delta[n]|
        && n in trail[i].current && c < |trail[i].current[n]|
  }

  /** Everything column `c` of name `n` showed as activity during the run. */
  function Shown(trail: seq<Snap>, n: string, c: nat): int
    requires Tracked(trail, n, c)
  {
    var k := |trail| - 1;
    if k == 0 then 0 else Shown(trail[..k], n, c) + trail[k].delta[n][c]
  }

  /** The counter at the end of the run minus the counter first read. */
  function Rise(trail: seq<Snap>, n: string, c: nat): int
    requires Tracked(trail, n, c)
  {
    var final: int := trail[|trail| - 1].current[n][c];
    final - trail[0].current[n][c]
  }

  predicate FellAt(trail: seq<Snap>, n: string, c: nat, i: nat)
    requires Tracked(trail, n, c) && 0 < i < |trail|
  {
    trail[i].current[n][c] < trail[i - 1].current[n][c]
  }

  /** How often the counter was lower than at the sample before. */
  function Falls(trail: seq<Snap>, n: string, c: nat): nat
    requires Tracked(trail, n, c)
  {
    var k := |trail| - 1;
    if k == 0 then 0 else Falls(trail[..k], n, c) + if FellAt(trail, n, c, k) then 1 else 0
  }

  /** The names shown are those of the first sample, for ever. */
  lemma {:induction false} NamesStay(trail: seq<Snap>, samples: seq<View>, w: nat, skip: set<nat>, i: nat)
    requires IsRun(trail, samples, w, skip) && i < |trail|
    ensures trail[i].delta.Keys == trail[0].delta.Keys
    ensures trail[0].last.Keys <= trail[i].last.Keys
  {
    if i > 0 {
      NamesStay(trail, samples, w, skip, i - 1);
      assert Next(trail[i - 1], samples[i - 1], trail[i - 1 + 1], w, skip);
    }
  }

  lemma NameStays(trail: seq<Snap>, samples: seq<View>, w: nat, skip: set<nat>, n: string, c: nat)
    requires IsRun(trail, samples, w, skip)
    requires n in trail[0].delta && c < w
    ensures Tracked(trail, n, c)
  {
    forall i | 0 <= i < |trail|
      ensures n in trail[i].delta && n in trail[i].current
    {
      NamesStay(trail, samples, w, skip, i);
      assert Inv(trail[i], w);
    }
  }

  lemma PrefixRun(trail: seq<Snap>, samples: seq<View>, w: nat, skip: set<nat>)
    requires IsRun(trail, samples, w, skip) && samples != []
    ensures IsRun(trail[..|samples|], samples[..|samples| - 1], w, skip)
  {
    var trail', samples' := trail[..|samples|], samples[..|samples| - 1];
    forall i | 0 <= i < |samples'|
      ensures Next(trail'[i], samples'[i], trail'[i + 1], w, skip)
    {
      assert Next(trail[i], samples[i], trail[i + 1], w, skip);
    }
  }

  /**
   * The activity shown over a run is the final counter minus the first, plus 2^64 for every fall
   * of the counter: exact when it never falls, and right modulo 2^64 always.
   */
  lemma {:induction false} Telescope(trail: seq<Snap>, samples: seq<View>, w: nat, skip: set<nat>, n: string, c: nat)
    requires IsRun(trail, samples, w, skip)
    requires n in trail[0].delta && c < w && c !in skip
    ensures Tracked(trail, n, c)
    ensures Shown(trail, n, c) == Rise(trail, n, c) + WORD * Falls(trail, n, c)
    decreases |trail|
  {
    NameStays(trail, samples, w, skip, n, c);
    if samples != [] {
      var k := |samples|;
      PrefixRun(trail, samples, w, skip);
      Telescope(trail[..k], samples[..k - 1], w, skip, n, c);
      assert Next(trail[k - 1], samples[k - 1], trail[k - 1 + 1], w, skip);
      assert trail[k].last[n][c] == trail[k - 1].current[n][c];
    }
  }

  /** The sum of everything shown is exact if and only if the counter never fell. */
  lemma ExactIffNeverFalls(trail: seq<Snap>, samples: seq<View>, w: nat, skip: set<nat>, n: string, c: nat)
    requires IsRun(trail, samples, w, skip)
    requires n in trail[0].delta && c < w && c !in skip
    ensures Tracked(trail, n, c)
    ensures Shown(trail, n, c) == Rise(trail, n, c)
      <==> forall i | 0 < i < |trail| :: !FellAt(trail, n, c, i)
  {
    Telescope(trail, samples, w, skip, n, c);
    FallsZero(trail, n, c);

  }

  lemma ModuloTurns(shown: int, rise: int, falls: nat)
    requires shown == rise + WORD * falls
    ensures shown % WORD == rise % WORD
  {
    WholeTurns(rise, falls);
  }

  /** Modulo 2^64 the sum of everything shown is always the final counter minus the first. */
  lemma SumIsModular(trail: seq<Snap>, samples: seq<View>, w: nat, skip: set<nat>, n: string, c: nat)
    requires IsRun(trail, samples, w, skip)
    requires n in trail[0].delta && c < w && c !in skip
    ensures Tracked(trail, n, c)
    ensures Shown(trail, n, c) % WORD == Rise(trail, n, c) % WORD
  {
    Telescope(trail, samples, w, skip, n, c);
    var shown, rise, falls := Shown(trail, n, c), Rise(trail, n, c), Falls(trail, n, c);
    ModuloTurns(shown, rise, falls);
  }

  lemma {:induction false} FallsZero(trail: seq<Snap>, n: string, c: nat)
    requires Tracked(trail, n, c)
    ensures Falls(trail, n, c) == 0 <==> forall i | 0 < i < |trail| :: !FellAt(trail, n, c, i)
  {
    if |trail| > 1 {
      var k := |trail| - 1;
      FallsZero(trail[..k], n, c);
      assert forall i | 0 < i < k :: FellAt(trail[..k], n, c, i) <==> FellAt(trail, n, c, i);
    }
  }

  // ----- The column that copy forgets -----

  /** A forgotten column of `last` keeps for ever the value it was created with. */
  lemma {:induction false} ForgottenColumnFrozen(trail: seq<Snap>, samples: seq<View>, w: nat, skip: set<nat>,
      n: string, c: nat, i: nat)
    requires IsRun(trail, samples, w, skip)
    requires n in trail[0].last && c < w && c in skip && i < |trail|
    ensures n in trail[i].last && trail[i].last[n][c] == trail[0].last[n][c]
  {
    if i > 0 {
      ForgottenColumnFrozen(trail, samples, w, skip, n, c, i - 1);
      assert Next(trail[i - 1], samples[i - 1], trail[i - 1 + 1], w, skip);
      assert Inv(trail[i - 1], w) && Inv(trail[i], w);
    }
  }

  /**
   * So what is shown for a forgotten column is never the activity since the last refresh but the
   * distance from that first value; it is the activity exactly when the counter had that value before.
   */
  lemma ForgottenColumnShown(trail: seq<Snap>, samples: seq<View>, w: nat, skip: set<nat>, n: string, c: nat, i: nat)
    requires IsRun(trail, samples, w, skip)
    requires n in trail[0].delta && c < w && c in skip && 0 < i < |trail|
    ensures n in trail[i].delta && n in trail[i].current && n in trail[i - 1].current && n in trail[0].last
    ensures trail[i].delta[n][c] == Sub(trail[i].current[n][c], trail[0].last[n][c])
    ensures trail[i].delta[n][c] == Sub(trail[i].current[n][c], trail[i - 1].current[n][c])
      <==> trail[i - 1].current[n][c] == trail[0].last[n][c]
  {
    NameStays(trail, samples, w, skip, n, c);
    ForgottenColumnFrozen(trail, samples, w, skip, n, c, i);
    assert Next(trail[i - 1], samples[i - 1], trail[i - 1 + 1], w, skip);
  }

  // ----- Copying one name after the other -----

  /** `kept` after the names of `from` that are not in `rest` were copied over it. */
  function Partly(kept: View, from: View, rest: set<string>): View {
    kept + (from - rest)
  }

  lemma PartlyStep(kept: View, from: View, rest: set<string>, k: string)
    requires k in rest && k in from
    ensures Partly(kept, from, rest)[k := from[k]] == Partly(kept, from, rest - {k})
  {
  }

  lemma PartlyEnds(kept: View, from: View)
    ensures Partly(kept, from, from.Keys) == kept
    ensures Partly(kept, from, {}) == kept + from
    ensures kept.Keys <= from.Keys ==> kept + from == from
  {
  }

  /** Copying one more name keeps the relation, whatever stands in the forgotten columns of a new name. */
  lemma CopiedStep(to: View, kept: View, from: View, rest: set<string>, k: string, row: Row, skip: set<nat>)
    requires k in rest && k in from
    requires Copied(to, kept, from - rest, skip)
    requires |row| == |from[k]| && forall c | 0 <= c < |row| && c !in skip :: row[c] == from[k][c]
    requires k in to ==> |to[k]| == |row| && forall c | 0 <= c < |row| && c in skip :: row[c] == to[k][c]
    ensures Copied(to[k := row], kept, from - (rest - {k}), skip)
  {
    var to', done := to[k := row], from - (rest - {k});
    assert done.Keys == (from - rest).Keys + {k};
    forall n | n in done
      ensures |to'[n]| == |done[n]| && forall c | 0 <= c < |done[n]| && c !in skip :: to'[n][c] == done[n][c]
    {
      assert n != k ==> n in from - rest && (from - rest)[n] == from[n];
    }
    forall n | n in kept && n in done
      ensures forall c | 0 <= c < |kept[n]| && c < |to'[n]| && c in skip :: to'[n][c] == kept[n][c]
    {
      if n == k {
        assert n !in from - rest && to[n] == kept[n];
      } else {
        assert n in from - rest;
      }
    }
  }

  lemma CopiedEnds(kept: View, from: View, skip: set<nat>)
    ensures from - from.Keys == map[] && from - {} == from
    ensures Copied(kept, kept, map[], skip)
  {
  }

  // ----- Samples -----

  /** One accepted line of a /proc file. */
  datatype Entry = Entry(name: string, vals: Row)

  /** Reading accepted lines in order into a table. */
  function Overlay(v: View, es: seq<Entry>): View
    decreases |es|
  {
    if es == [] then v else Overlay(v[es[0].name := es[0].vals], es[1..])
  }

  lemma {:induction false} OverlayAppend(v: View, es: seq<Entry>, fs: seq<Entry>)
    ensures Overlay(v, es + fs) == Overlay(Overlay(v, es), fs)
    decreases |es|
  {
    if es == [] {
      assert es + fs == fs;
    } else {
      assert (es + fs)[1..] == es[1..] + fs;
      OverlayAppend(v[es[0].name := es[0].vals], es[1..], fs);
    }
  }

  lemma OverlayOne(v: View, e: Entry)
    ensures Overlay(v, [e]) == v[e.name := e.vals]
  {
  }

  /** The last line that bears the name `n`, if any. */
  function LastOf(es: seq<Entry>, n: string): (i: int)
    ensures -1 <= i < |es|
    ensures 0 <= i ==> es[i].name == n
    ensures forall j | i < j < |es| :: es[j].name != n
  {
    if es == [] then -1
    else if es[|es| - 1].name == n then |es| - 1
    else LastOf(es[..|es| - 1], n)
  }

  /** Reading touches exactly the names on the lines; each gets the counters of its last line. */
  lemma {:induction false} OverlayLastWins(v: View, es: seq<Entry>, n: string)
    ensures n in Overlay(v, es) <==> n in v || LastOf(es, n) >= 0
    ensures n in Overlay(v, es) ==>
      Overlay(v, es)[n] == if LastOf(es, n) >= 0 then es[LastOf(es, n)].vals else v[n]
    decreases |es|
  {
    if es != [] {
      var k := |es| - 1;
      OverlayLastWins(v, es[..k], n);
      assert es == es[..k] + [es[k]];
      OverlayAppend(v, es[..k], [es[k]]);
    }
  }

  predicate DistinctNames(es: seq<Entry>) {
    forall i, j | 0 <= i < j < |es| :: es[i].name != es[j].name
  }

  /** Lines with distinct names, read into an empty table, give exactly their records. */
  lemma DistinctLinesRebuilt(es: seq<Entry>)
    requires DistinctNames(es)
    ensures Overlay(map[], es).Keys == set e | e in es :: e.name
    ensures forall i | 0 <= i < |es| :: es[i].name in Overlay(map[], es) && Overlay(map[], es)[es[i].name] == es[i].vals
  {
    var v := Overlay(map[], es);
    forall i | 0 <= i < |es|
      ensures es[i].name in v && v[es[i].name] == es[i].vals
    {
      OverlayLastWins(map[], es, es[i].name);
    }
    forall n
      ensures n in v.Keys <==> n in set e | e in es :: e.name
    {
      OverlayLastWins(map[], es, n);
    }
  }

  /** Reading into a table is overriding it with what reading into an empty table gives. */
  lemma OverlayIsOverride(v: View, es: seq<Entry>)
    ensures Overlay(v, es) == v + Overlay(map[], es)
  {
    forall n
      ensures n in Overlay(v, es) <==> n in v + Overlay(map[], es)
      ensures n in Overlay(v, es) ==> Overlay(v, es)[n] == (v + Overlay(map[], es))[n]
    {
      OverlayLastWins(v, es, n);
      OverlayLastWins(map[], es, n);
    }
  }

  lemma {:induction false} OverlayWide(v: View, es: seq<Entry>, w: nat)
    requires Wide(v, w) && forall i | 0 <= i < |es| :: |es[i].vals| == w
    ensures Wide(Overlay(v, es), w)
    decreases |es|
  {
    if es != [] {
      OverlayWide(v[es[0].name := es[0].vals], es[1..], w);
    }
  }
}
