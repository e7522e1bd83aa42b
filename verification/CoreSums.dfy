/** c/mac/Processor.cpp, on values: the row "CPU" beside the rows "CPU0", "CPU1", ... of the cores. */
module CoreSums {
  import opened Words
  import opened Decimal
  import opened Snapshot

  const WIDTH: nat := 4
  const TOTAL: string := "CPU"

  /** The unsigned int counters of one core, as the kernel hands them over. */
  type Tick = x: int | 0 <= x < 0x1_0000_0000
  datatype Ticks = Ticks(user: Tick, system: Tick, idle: Tick, nice: Tick)

  function RowOf(t: Ticks): (r: Row)
    ensures |r| == WIDTH
  {
    [t.user, t.nice, t.system, t.idle]
  }

  /** sprintf(name, "CPU%d", i) */
  function CoreName(i: nat): string {
    TOTAL + Dec(i)
  }

  lemma CoreNamesDiffer(i: nat, j: nat)
    ensures CoreName(i) != TOTAL
    ensures CoreName(i) == CoreName(j) ==> i == j
  {
    assert |CoreName(i)| > |TOTAL|;
    if CoreName(i) == CoreName(j) {
      assert CoreName(i)[3..] == Dec(i) && CoreName(j)[3..] == Dec(j);
      DecInjective(i, j);
    }
  }

  const ZERO: Row := [0, 0, 0, 0]

  /** The table after the cores `ticks` were read into an empty one. */
  function Sample(ticks: seq<Ticks>): (v: View)
    ensures Wide(v, WIDTH) && TOTAL in v
  {
    if ticks == [] then map[TOTAL := ZERO]
    else
      var k := |ticks| - 1;
      AddCore(Sample(ticks[..k]), k, RowOf(ticks[k]))
  }

  /** The body of read's loop: the core's record is overwritten, the total's is added to. */
  function AddCore(v: View, i: nat, row: Row): (w: View)
    requires TOTAL in v && Wide(v, WIDTH) && |row| == WIDTH
    ensures TOTAL in w && Wide(w, WIDTH)
  {
    v[CoreName(i) := row][TOTAL := RowAdd(v[TOTAL], row)]
  }

  lemma AddCoreOver(before: View, v: View, i: nat, row: Row)
    requires TOTAL in v && Wide(v, WIDTH) && Wide(before, WIDTH) && |row| == WIDTH
    ensures AddCore(before + v, i, row) == before + AddCore(v, i, row)
  {
  }

  lemma NoCores()
    ensures Sample([]) == map[TOTAL := ZERO]
  {
  }

  lemma ReadStep(before: View, ticks: seq<Ticks>, i: nat)
    requires i < |ticks| && Wide(before, WIDTH)
    ensures AddCore(before + Sample(ticks[..i]), i, RowOf(ticks[i])) == before + Sample(ticks[..i + 1])
  {
    assert ticks[..i + 1][..i] == ticks[..i];
    AddCoreOver(before, Sample(ticks[..i]), i, RowOf(ticks[i]));
  }

  /** One of the kernel's counters added up over all cores. */
  function Over(ticks: seq<Ticks>, count: Ticks -> int): int {
    if ticks == [] then 0 else Over(ticks[..|ticks| - 1], count) + count(ticks[|ticks| - 1])
  }

  lemma {:induction false} TotalOver(ticks: seq<Ticks>, c: nat, count: Ticks -> int)
    requires c < WIDTH && forall t :: RowOf(t)[c] == count(t)
    ensures Sample(ticks)[TOTAL][c] == Over(ticks, count) % WORD
  {
    if ticks != [] {
      var k := |ticks| - 1;
      TotalOver(ticks[..k], c, count);
      CoreNamesDiffer(k, k);
      var sum, last := Sample(ticks[..k])[TOTAL][c], RowOf(ticks[k])[c];
      WrapIsModular(sum, last);
    }
  }

  // ----- The total is the sum of its cores -----

  predicate HasCores(v: View, n: nat) {
    Wide(v, WIDTH) && TOTAL in v && forall i | 0 <= i < n :: CoreName(i) in v
  }

  /** The cores `from` up to `n` added up, in one column. */
  function Sum(v: View, from: nat, n: nat, c: nat): Word
    requires HasCores(v, n) && c < WIDTH
    decreases n
  {
    if n <= from then 0 else Add(Sum(v, from, n - 1, c), v[CoreName(n - 1)][c])
  }

  predicate AgreesAt(v: View, n: nat, c: nat)
    requires HasCores(v, n) && c < WIDTH
  {
    v[TOTAL][c] == Sum(v, 0, n, c)
  }

  predicate Agrees(v: View, n: nat) {
    HasCores(v, n) && forall c | 0 <= c < WIDTH :: AgreesAt(v, n, c)
  }

  lemma {:induction false} SumDepends(v: View, w: View, from: nat, n: nat, c: nat)
    requires HasCores(v, n) && HasCores(w, n) && c < WIDTH
    requires forall i | from <= i < n :: v[CoreName(i)] == w[CoreName(i)]
    ensures Sum(v, from, n, c) == Sum(w, from, n, c)
    decreases n
  {
    if n > from {
      SumDepends(v, w, from, n - 1, c);
    }
  }

  /** A sample has exactly the total and one row per core, and the total is their sum. */
  lemma {:induction false} SampleAgrees(ticks: seq<Ticks>)
    ensures Agrees(Sample(ticks), |ticks|)
    ensures forall i | 0 <= i < |ticks| :: Sample(ticks)[CoreName(i)] == RowOf(ticks[i])
  {
    if ticks != [] {
      var k := |ticks| - 1;
      var v, w := Sample(ticks[..k]), Sample(ticks);
      SampleAgrees(ticks[..k]);
      forall i | 0 <= i < k
        ensures CoreName(i) in w && w[CoreName(i)] == v[CoreName(i)] == RowOf(ticks[i])
      {
        CoreNamesDiffer(i, k);
        assert ticks[..k][i] == ticks[i];
      }
      CoreNamesDiffer(k, k);
      forall c | 0 <= c < WIDTH
        ensures AgreesAt(w, |ticks|, c)
      {
        assert AgreesAt(v, k, c);
        SumDepends(v, w, 0, k, c);
      }
    }
  }

  /** Reading such a sample over a table leaves the table with the sample's total and cores. */
  lemma OverrideAgrees(v: View, sample: View, n: nat)
    requires Wide(v, WIDTH) && Agrees(sample, n)
    ensures Agrees(v + sample, n)
  {
    forall c | 0 <= c < WIDTH
      ensures AgreesAt(v + sample, n, c)
    {
      assert AgreesAt(sample, n, c);
      SumDepends(sample, v + sample, 0, n, c);
    }
  }

  lemma {:induction false} SumOfDiff(newer: View, older: View, names: set<string>, n: nat, c: nat)
    requires HasCores(newer, n) && HasCores(older, n) && c < WIDTH
    requires names <= newer.Keys && names <= older.Keys
    requires HasCores(Diff(newer, older, names), n)
    ensures Sum(Diff(newer, older, names), 0, n, c) == Sub(Sum(newer, 0, n, c), Sum(older, 0, n, c))
  {
    if n > 0 {
      SumOfDiff(newer, older, names, n - 1, c);
      SubOfAdds(Sum(newer, 0, n - 1, c), newer[CoreName(n - 1)][c], Sum(older, 0, n - 1, c), older[CoreName(n - 1)][c]);
    }
  }

  /** Differences of totals are totals of differences, whatever wraps. */
  lemma DiffAgrees(newer: View, older: View, names: set<string>, n: nat)
    requires Agrees(newer, n) && Agrees(older, n)
    requires names <= newer.Keys && names <= older.Keys
    requires TOTAL in names && forall i | 0 <= i < n :: CoreName(i) in names
    ensures Agrees(Diff(newer, older, names), n)
  {
    var d := Diff(newer, older, names);
    forall c | 0 <= c < WIDTH
      ensures AgreesAt(d, n, c)
    {
      assert AgreesAt(newer, n, c) && AgreesAt(older, n, c);
      SumOfDiff(newer, older, names, n, c);
    }
  }

  // ----- Runs with a fixed number of cores -----

  /** In all three tables of every state the total is the sum of the cores. */
  predicate AllAgree(s: Snap, n: nat) {
    Agrees(s.last, n) && Agrees(s.current, n) && Agrees(s.delta, n)
  }

  lemma StepAgrees(s: Snap, ticks: seq<Ticks>, n: nat)
    requires Inv(s, WIDTH) && AllAgree(s, n) && |ticks| == n
    ensures AllAgree(Step(s, Sample(ticks), WIDTH), n)
  {
    SampleAgrees(ticks);
    OverrideAgrees(s.current, Sample(ticks), n);
    DiffAgrees(s.current + Sample(ticks), s.current, s.delta.Keys, n);
  }

  /** The run `trail` came from the kernel's counters in `history`, one entry per reading. */
  ghost predicate Recorded(trail: seq<Snap>, samples: seq<View>, history: seq<seq<Ticks>>) {
    && |history| == |trail| == |samples| + 1
    && trail[0] == Snap(Sample(history[0]), Sample(history[0]), Sample(history[0]))
    && forall i | 0 <= i < |samples| :: samples[i] == Sample(history[i + 1])
  }

  lemma StartRecorded(ticks: seq<Ticks>)
    ensures Recorded([Snap(Sample(ticks), Sample(ticks), Sample(ticks))], [], [ticks])
  {
  }

  lemma ExtendRecorded(trail: seq<Snap>, samples: seq<View>, history: seq<seq<Ticks>>, ticks: seq<Ticks>, t: Snap)
    requires Recorded(trail, samples, history)
    ensures Recorded(trail + [t], samples + [Sample(ticks)], history + [ticks])
  {
  }

  /**
   * As long as the kernel reports the same cores, in every state the total is the sum of the cores:
   * in what was read, in what was read before, and in what is shown.
   */
  lemma {:induction false} RunAgrees(trail: seq<Snap>, samples: seq<View>, history: seq<seq<Ticks>>, n: nat, i: nat)
    requires IsRun(trail, samples, WIDTH, {}) && Recorded(trail, samples, history)
    requires i < |trail| && forall k | 0 <= k < |history| :: |history[k]| == n
    ensures AllAgree(trail[i], n)
  {
    if i == 0 {
      SampleAgrees(history[0]);
    } else {
      RunAgrees(trail, samples, history, n, i - 1);
      assert Next(trail[i - 1], samples[i - 1], trail[i - 1 + 1], WIDTH, {});
      NextIsStep(trail[i - 1], samples[i - 1], trail[i], WIDTH);
      assert samples[i - 1] == Sample(history[i - 1 + 1]);
      StepAgrees(trail[i - 1], history[i], n);
    }
  }

  // ----- When a core goes away -----

  lemma {:induction false} SumSplits(v: View, k: nat, n: nat, c: nat)
    requires k <= n && HasCores(v, n) && c < WIDTH
    ensures Sum(v, 0, n, c) == Add(Sum(v, 0, k, c), Sum(v, k, n, c))
    decreases n
  {
    if n > k {
      SumSplits(v, k, n - 1, c);
    }
  }

  /** The cores `k` up to `n` have counted nothing in a column, modulo 2^64. */
  predicate IdleAt(v: View, k: nat, n: nat, c: nat)
    requires HasCores(v, n) && c < WIDTH
  {
    Sum(v, k, n, c) == 0
  }

  /**
   * With fewer cores than before, read leaves the records of the lost cores as they were. The total
   * shown is then the sum of the cores shown exactly if the lost cores had counted nothing, column by
   * column, modulo 2^64.
   */
  lemma LostCores(s: Snap, ticks: seq<Ticks>, n: nat)
    requires Inv(s, WIDTH) && AllAgree(s, n) && |ticks| <= n
    ensures HasCores(Step(s, Sample(ticks), WIDTH).delta, n)
    ensures Agrees(Step(s, Sample(ticks), WIDTH).delta, n)
      <==> forall c | 0 <= c < WIDTH :: IdleAt(s.current, |ticks|, n, c)
  {
    var t := Step(s, Sample(ticks), WIDTH);
    LostCoresStay(s, ticks, n);
    hide Step, Sample, Diff, Agrees, IdleAt;
    LostColumns(t.current, s.current, s.delta.Keys, |ticks|, n);
  }

  /** All columns of `LostColumn`, when the lost cores have the same records in both tables. */
  lemma LostColumns(newer: View, older: View, names: set<string>, k: nat, n: nat)
    requires k <= n && HasCores(newer, n) && Agrees(newer, k) && Agrees(older, n)
    requires names <= newer.Keys && names <= older.Keys && HasCores(Diff(newer, older, names), n)
    requires forall i | k <= i < n :: newer[CoreName(i)] == older[CoreName(i)]
    ensures Agrees(Diff(newer, older, names), n) <==> forall c | 0 <= c < WIDTH :: IdleAt(older, k, n, c)
  {
    var d := Diff(newer, older, names);
    hide Diff, Sum;
    forall c | 0 <= c < WIDTH
      ensures AgreesAt(d, n, c) <==> IdleAt(older, k, n, c)
    {
      LostColumn(newer, older, names, k, n, c);
      SumDepends(older, newer, k, n, c);
    }
  }

  lemma LostCoresStay(s: Snap, ticks: seq<Ticks>, n: nat)
    requires Inv(s, WIDTH) && AllAgree(s, n) && |ticks| <= n
    ensures var t := Step(s, Sample(ticks), WIDTH);
      && Agrees(t.current, |ticks|) && HasCores(t.current, n) && HasCores(t.delta, n)
      && t.last == s.current && t.delta == Diff(t.current, t.last, s.delta.Keys)
      && forall i | |ticks| <= i < n :: t.current[CoreName(i)] == s.current[CoreName(i)]
  {
    SampleAgrees(ticks);
    OverrideAgrees(s.current, Sample(ticks), |ticks|);
    SampleNames(ticks);
  }

  /** `newer` has a total over its first `k` cores only, `older` one over all `n`. */
  lemma LostColumn(newer: View, older: View, names: set<string>, k: nat, n: nat, c: nat)
    requires k <= n && c < WIDTH && HasCores(newer, n) && Agrees(newer, k) && Agrees(older, n)
    requires names <= newer.Keys && names <= older.Keys && HasCores(Diff(newer, older, names), n)
    ensures AgreesAt(Diff(newer, older, names), n, c) <==> IdleAt(newer, k, n, c)
  {
    assert AgreesAt(newer, k, c) && AgreesAt(older, n, c);
    SumOfDiff(newer, older, names, n, c);
    SumSplits(newer, k, n, c);
    hide Sum;
    ShiftIsZero(newer[TOTAL][c], Sum(newer, k, n, c), older[TOTAL][c]);
  }

  // ----- Any number of cores at every reading -----

  /** With more cores than before, the new ones are counted in the total but not shown. */
  lemma GainedCores(s: Snap, ticks: seq<Ticks>, n: nat)
    requires Inv(s, WIDTH) && AllAgree(s, n) && n <= |ticks|
    ensures var t := Step(s, Sample(ticks), WIDTH);
      && HasCores(t.delta, n) && HasCores(t.current, |ticks|)
      && (Agrees(t.delta, n) <==> forall c | 0 <= c < WIDTH :: IdleAt(t.current, n, |ticks|, c))
  {
    var t := Step(s, Sample(ticks), WIDTH);
    SampleAgrees(ticks);
    OverrideAgrees(s.current, Sample(ticks), |ticks|);
    hide Step, Sample, Diff, Agrees, IdleAt;
    GainedColumns(t.current, s.current, s.delta.Keys, n, |ticks|);
  }

  lemma GainedColumns(newer: View, older: View, names: set<string>, n: nat, b: nat)
    requires n <= b && Agrees(newer, b) && Agrees(older, n)
    requires names <= newer.Keys && names <= older.Keys && HasCores(Diff(newer, older, names), n)
    ensures Agrees(Diff(newer, older, names), n) <==> forall c | 0 <= c < WIDTH :: IdleAt(newer, n, b, c)
  {
    var d := Diff(newer, older, names);
    forall c | 0 <= c < WIDTH
      ensures AgreesAt(d, n, c) <==> IdleAt(newer, n, b, c)
    {
      assert AgreesAt(newer, b, c) && AgreesAt(older, n, c);
      SumOfDiff(newer, older, names, n, c);
      SumSplits(newer, n, b, c);
      ShiftIsZero(Sum(newer, 0, n, c), Sum(newer, n, b, c), older[TOTAL][c]);
    }
  }

  const ONE: Ticks := Ticks(1, 0, 0, 0)

  /** Two cores that have counted something, and then only one of them: the total shown is not the sum shown. */
  lemma OneCoreLost()
    ensures var v := Sample([ONE, ONE]);
      var s := Step(Snap(v, v, v), v, WIDTH);
      AllAgree(s, 2) && !Agrees(Step(s, Sample([ONE]), WIDTH).delta, 2)
  {
    var v := Sample([ONE, ONE]);
    SampleAgrees([ONE, ONE]);
    StepAgrees(Snap(v, v, v), [ONE, ONE], 2);
    var s := Step(Snap(v, v, v), v, WIDTH);
    LostCores(s, [ONE], 2);
    OneOnly(s.current, 1);
  }

  /** One core, and then two: the same. */
  lemma OneCoreGained()
    ensures var v := Sample([ONE]);
      var s := Step(Snap(v, v, v), v, WIDTH);
      AllAgree(s, 1) && !Agrees(Step(s, Sample([ONE, ONE]), WIDTH).delta, 1)
  {
    var v := Sample([ONE]);
    SampleAgrees([ONE]);
    StepAgrees(Snap(v, v, v), [ONE], 1);
    var s := Step(Snap(v, v, v), v, WIDTH);
    GainedCores(s, [ONE, ONE], 1);
    SampleAgrees([ONE, ONE]);
    OneOnly(Step(s, Sample([ONE, ONE]), WIDTH).current, 1);
  }

  lemma OneOnly(v: View, k: nat)
    requires HasCores(v, k + 1) && v[CoreName(k)] == RowOf(ONE)
    ensures !IdleAt(v, k, k + 1, 0)
  {
    assert Sum(v, k, k, 0) == 0;
  }

  /** What the total over `m` cores counts beyond the `n` cores that are shown. */
  function Surplus(v: View, m: nat, n: nat, c: nat): Word
    requires HasCores(v, m) && HasCores(v, n) && c < WIDTH
  {
    Sub(Sum(v, 0, m, c), Sum(v, 0, n, c))
  }

  predicate SameSurplus(newer: View, b: nat, older: View, a: nat, n: nat) {
    && HasCores(newer, b) && HasCores(newer, n) && HasCores(older, a) && HasCores(older, n)
    && forall c | 0 <= c < WIDTH :: Surplus(newer, b, n, c) == Surplus(older, a, n, c)
  }

  /** `newer` has a total over `b` cores, `older` one over `a`; the differences of `n` cores are shown. */
  lemma ShownColumns(newer: View, b: nat, older: View, a: nat, names: set<string>, n: nat)
    requires Agrees(newer, b) && Agrees(older, a) && HasCores(newer, n) && HasCores(older, n)
    requires names <= newer.Keys && names <= older.Keys && HasCores(Diff(newer, older, names), n)
    ensures Agrees(Diff(newer, older, names), n) <==> SameSurplus(newer, b, older, a, n)
  {
    var d := Diff(newer, older, names);
    forall c | 0 <= c < WIDTH
      ensures AgreesAt(d, n, c) <==> Surplus(newer, b, n, c) == Surplus(older, a, n, c)
    {
      assert AgreesAt(newer, b, c) && AgreesAt(older, a, c);
      SumOfDiff(newer, older, names, n, c);
      hide Sum;
      SubSwaps(Sum(newer, 0, b, c), Sum(newer, 0, n, c), Sum(older, 0, a, c), Sum(older, 0, n, c));
    }
  }

  /** Every reading leaves a total over the cores that it found, and no core is ever taken out. */
  lemma {:induction false} CurrentAgrees(trail: seq<Snap>, samples: seq<View>, history: seq<seq<Ticks>>, i: nat)
    requires IsRun(trail, samples, WIDTH, {}) && Recorded(trail, samples, history) && i < |trail|
    ensures Agrees(trail[i].current, |history[i]|)
    ensures HasCores(trail[i].current, |history[0]|) && HasCores(trail[i].delta, |history[0]|)
  {
    SampleAgrees(history[i]);
    if i > 0 {
      CurrentAgrees(trail, samples, history, i - 1);
      assert Next(trail[i - 1], samples[i - 1], trail[i - 1 + 1], WIDTH, {});
      assert samples[i - 1] == Sample(history[i - 1 + 1]);
      OverrideAgrees(trail[i - 1].current, samples[i - 1], |history[i]|);
    }
  }

  /**
   * However the number of cores changes during a run: the total shown is the sum of the cores shown, which
   * are those of the first reading, if and only if the total counts the same beyond them as one reading before.
   */
  lemma RunAgreesExactly(trail: seq<Snap>, samples: seq<View>, history: seq<seq<Ticks>>, i: nat)
    requires IsRun(trail, samples, WIDTH, {}) && Recorded(trail, samples, history) && 0 < i < |trail|
    ensures Agrees(trail[i].delta, |history[0]|) <==>
      SameSurplus(trail[i].current, |history[i]|, trail[i - 1].current, |history[i - 1]|, |history[0]|)
  {
    CurrentAgrees(trail, samples, history, i);
    CurrentAgrees(trail, samples, history, i - 1);
    assert Next(trail[i - 1], samples[i - 1], trail[i - 1 + 1], WIDTH, {});
    NextIsStep(trail[i - 1], samples[i - 1], trail[i], WIDTH);
    hide Agrees, SameSurplus;
    ShownColumns(trail[i].current, |history[i]|, trail[i - 1].current, |history[i - 1]|, trail[i - 1].delta.Keys,
      |history[0]|);
  }

  lemma {:induction false} SampleNames(ticks: seq<Ticks>)
    ensures forall i: nat :: CoreName(i) in Sample(ticks) <==> i < |ticks|
  {
    if ticks != [] {
      SampleNames(ticks[..|ticks| - 1]);
    }
    forall i: nat
      ensures CoreName(i) in Sample(ticks) <==> i < |ticks|
    {
      CoreNamesDiffer(i, i);
      if ticks != [] {
        CoreNamesDiffer(i, |ticks| - 1);
      }
    }
  }
}
