/** license/iostat.cpp: what devstats measures the activity of one drive from. */
module Intervals {
  import opened Words
  import opened DeviceTable

  function Interval(total: Totals, base: Totals): Totals {
    Totals(Sub(total.bytes, base.bytes), Sub(total.readBytes, base.readBytes),
           Sub(total.writtenBytes, base.writtenBytes), Sub(total.transfers, base.transfers),
           Sub(total.time, base.time))
  }

  /** Each field is the difference of its own two totals, modulo 2^64. */
  lemma IntervalFields(total: Totals, base: Totals)
    ensures var i := Interval(total, base);
      && i.bytes == (total.bytes - base.bytes) % WORD
      && i.readBytes == (total.readBytes - base.readBytes) % WORD
      && i.writtenBytes == (total.writtenBytes - base.writtenBytes) % WORD
      && i.transfers == (total.transfers - base.transfers) % WORD
      && i.time == (total.time - base.time) % WORD
  {
    WrapIsModular(total.bytes, base.bytes);
    WrapIsModular(total.readBytes, base.readBytes);
    WrapIsModular(total.writtenBytes, base.writtenBytes);
    WrapIsModular(total.transfers, base.transfers);
    WrapIsModular(total.time, base.time);
  }

  /** Rows added up, field by field. */
  datatype Sums = Sums(bytes: int, readBytes: int, writtenBytes: int, transfers: int, time: int)

  /** The sums are what the totals have risen by, modulo 2^64. */
  predicate SumsTo(s: Sums, last: Totals, first: Totals) {
    && s.bytes % WORD == (last.bytes - first.bytes) % WORD
    && s.readBytes % WORD == (last.readBytes - first.readBytes) % WORD
    && s.writtenBytes % WORD == (last.writtenBytes - first.writtenBytes) % WORD
    && s.transfers % WORD == (last.transfers - first.transfers) % WORD
    && s.time % WORD == (last.time - first.time) % WORD
  }

  function Plus(s: Sums, i: Totals): Sums {
    Sums(s.bytes + i.bytes, s.readBytes + i.readBytes, s.writtenBytes + i.writtenBytes, s.transfers + i.transfers,
         s.time + i.time)
  }

  const NO_ROWS: Sums := Sums(0, 0, 0, 0, 0)

  lemma NoRows(t: Totals)
    ensures SumsTo(NO_ROWS, t, t)
  {
  }

  lemma ChainedDifference(s: int, first: Word, base: Word, total: Word, i: Word)
    requires s % WORD == (base - first) % WORD && i == (total - base) % WORD
    ensures (s + i) % WORD == (total - first) % WORD
  {
    var j: int := i;
    assert (total - base) == WORD * ((total - base) / WORD) + j;
    assert s == WORD * (s / WORD) + (base - first) % WORD;
    assert (base - first) == WORD * ((base - first) / WORD) + (base - first) % WORD;
    var q := s / WORD - (base - first) / WORD - (total - base) / WORD;
    assert s + j == (total - first) + WORD * q;
    AnyTurns(total - first, q);
  }

  lemma AnyTurns(x: int, q: int)
    ensures (x + WORD * q) % WORD == x % WORD
  {
    if q >= 0 {
      WholeTurns(x, q);
    } else {
      WholeTurns(x + WORD * q, -q);
    }
  }

  lemma OneMoreRow(s: Sums, first: Totals, base: Totals, total: Totals)
    requires SumsTo(s, base, first)
    ensures SumsTo(Plus(s, Interval(total, base)), total, first)
  {
    hide Interval;
    IntervalFields(total, base);
    var i := Interval(total, base);
    ChainedDifference(s.bytes, first.bytes, base.bytes, total.bytes, i.bytes);
    ChainedDifference(s.readBytes, first.readBytes, base.readBytes, total.readBytes, i.readBytes);
    ChainedDifference(s.writtenBytes, first.writtenBytes, base.writtenBytes, total.writtenBytes, i.writtenBytes);
    ChainedDifference(s.transfers, first.transfers, base.transfers, total.transfers, i.transfers);
    ChainedDifference(s.time, first.time, base.time, total.time, i.time);
  }

  /** An interval tells what it was measured from. */
  lemma IntervalTells(total: Totals, a: Totals, b: Totals)
    ensures Interval(total, a) == Interval(total, b) <==> a == b
  {
    SubTells(total.bytes, a.bytes, b.bytes);
    SubTells(total.readBytes, a.readBytes, b.readBytes);
    SubTells(total.writtenBytes, a.writtenBytes, b.writtenBytes);
    SubTells(total.transfers, a.transfers, b.transfers);
    SubTells(total.time, a.time, b.time);
  }

  lemma SubTells(x: Word, a: Word, b: Word)
    ensures Sub(x, a) == Sub(x, b) <==> a == b
  {
  }

  /** What the drive's running totals become: every new sample, but under -I only while they are zero. */
  function NewBase(cumulative: bool, base: Totals, total: Totals): Totals {
    if !cumulative || base.bytes == 0 then total else base
  }

  /** The running totals of a drive after the samples `rs`, from those its slot held when it was recorded. */
  function Base(cumulative: bool, first: Totals, rs: seq<Totals>): Totals {
    if rs == [] then first
    else NewBase(cumulative, Base(cumulative, first, rs[..|rs| - 1]), rs[|rs| - 1])
  }

  lemma BaseSnoc(cumulative: bool, first: Totals, rs: seq<Totals>, total: Totals)
    ensures Base(cumulative, first, rs + [total]) == NewBase(cumulative, Base(cumulative, first, rs), total)
  {
    assert (rs + [total])[..|rs|] == rs;
  }

  /** What is shown for the sample `k`. */
  function IntervalAt(cumulative: bool, first: Totals, rs: seq<Totals>, k: nat): Totals
    requires k < |rs|
  {
    Interval(rs[k], Base(cumulative, first, rs[..k]))
  }

  /** The first sample with bytes; |rs| if there is none. */
  function FirstWithBytes(rs: seq<Totals>): (z: nat)
    ensures z <= |rs| && (forall j | 0 <= j < z :: rs[j].bytes == 0)
    ensures z < |rs| ==> rs[z].bytes != 0
  {
    if rs == [] || rs[0].bytes != 0 then 0 else 1 + FirstWithBytes(rs[1..])
  }

  /**
   * What sample `k` of a drive is to be measured from: its sample before, or under -I its first with bytes
   * once there is one; its first sample of all from the start.
   */
  function Due(cumulative: bool, rs: seq<Totals>, k: nat): Totals
    requires k <= |rs|
  {
    if cumulative && FirstWithBytes(rs) < k then rs[FirstWithBytes(rs)]
    else if k == 0 then NEVER_USED.totals else rs[k - 1]
  }

  /** Without -I the base of every sample but the first is the one before. */
  lemma PlainBase(first: Totals, rs: seq<Totals>, k: nat)
    requires k <= |rs|
    ensures Base(false, first, rs[..k]) == if k == 0 then first else Due(false, rs, k)
  {
  }

  lemma {:induction false} BaseStays(first: Totals, rs: seq<Totals>, z: nat, k: nat)
    requires z <= k <= |rs| && Base(true, first, rs[..z]).bytes != 0
    ensures Base(true, first, rs[..k]) == Base(true, first, rs[..z])
    decreases k
  {
    if k > z {
      BaseStays(first, rs, z, k - 1);
      assert rs[..k][..k - 1] == rs[..k - 1];
    }
  }

  lemma {:induction false} BaseFollows(first: Totals, rs: seq<Totals>, k: nat)
    requires k <= |rs| && first.bytes == 0 && forall j | 0 <= j < k :: rs[j].bytes == 0
    ensures Base(true, first, rs[..k]) == (if k == 0 then first else rs[k - 1])
    decreases k
  {
    if k > 0 {
      BaseFollows(first, rs, k - 1);
      assert rs[..k][..k - 1] == rs[..k - 1];
    }
  }

  /** With -I and a slot that held no bytes, the base of every sample but the first is the one that is due. */
  lemma CumulativeBase(first: Totals, rs: seq<Totals>, k: nat)
    requires k <= |rs| && first.bytes == 0
    ensures Base(true, first, rs[..k]) == if k == 0 then first else Due(true, rs, k)
  {
    hide Base, FirstWithBytes;
    var z := FirstWithBytes(rs);
    if k <= z {
      BaseFollows(first, rs, k);
    } else {
      BaseFollows(first, rs, z);
      BaseSnoc(true, first, rs[..z], rs[z]);
      assert rs[..z + 1] == rs[..z] + [rs[z]];
      BaseStays(first, rs, z + 1, k);
    }
  }

  /** A slot that still holds bytes makes -I measure everything from those. */
  lemma StaleBase(first: Totals, rs: seq<Totals>, k: nat)
    requires k <= |rs| && first.bytes != 0
    ensures Base(true, first, rs[..k]) == first
  {
    BaseStays(first, rs, 0, k);
  }

  predicate DueAt(cumulative: bool, first: Totals, rs: seq<Totals>, k: nat)
    requires k < |rs|
  {
    IntervalAt(cumulative, first, rs, k) == Interval(rs[k], Due(cumulative, rs, k))
  }

  /** Every sample of a drive, its first included, is shown as measured from what is due. */
  predicate AsDue(cumulative: bool, first: Totals, rs: seq<Totals>) {
    forall k | 0 <= k < |rs| :: DueAt(cumulative, first, rs, k)
  }

  /** The same of all samples but the first. */
  predicate LaterAsDue(cumulative: bool, first: Totals, rs: seq<Totals>) {
    forall k | 1 <= k < |rs| :: DueAt(cumulative, first, rs, k)
  }

  /** The first sample is measured from what the slot held. */
  lemma FirstDue(cumulative: bool, first: Totals, rs: seq<Totals>)
    requires rs != []
    ensures DueAt(cumulative, first, rs, 0) <==> first == NEVER_USED.totals
  {
    IntervalTells(rs[0], first, NEVER_USED.totals);
  }

  /**
   * With -I or without, all intervals of a drive that was ever measured are as due if and only if the slot it
   * was recorded in held nothing at all.
   */
  lemma AsDueIff(cumulative: bool, first: Totals, rs: seq<Totals>)
    ensures AsDue(cumulative, first, rs) <==> rs == [] || first == NEVER_USED.totals
  {
    if rs != [] {
      FirstDue(cumulative, first, rs);
      LaterAsDueIff(cumulative, first, rs);
      assert AsDue(cumulative, first, rs) <==> DueAt(cumulative, first, rs, 0) && LaterAsDue(cumulative, first, rs);
    }
  }

  /**
   * The intervals after the first are as due if and only if there is no -I, or the slot held no bytes, or held
   * already what the first sample says, or there are none.
   */
  lemma LaterAsDueIff(cumulative: bool, first: Totals, rs: seq<Totals>)
    ensures LaterAsDue(cumulative, first, rs) <==> !cumulative || first.bytes == 0 || |rs| <= 1 || rs[0] == first
  {
    hide Base, FirstWithBytes, Interval;
    forall k | 1 <= k < |rs|
      ensures !cumulative || first.bytes == 0 ==> DueAt(cumulative, first, rs, k)
    {
      if !cumulative {
        PlainBase(first, rs, k);
      } else if first.bytes == 0 {
        CumulativeBase(first, rs, k);
      }
    }
    if cumulative && first.bytes != 0 {
      StaleIff(first, rs);
    }
  }

  lemma FirstHasBytes(rs: seq<Totals>, k: nat)
    requires 1 <= k < |rs| && rs[0].bytes != 0
    ensures Due(true, rs, k) == rs[0]
  {
  }

  lemma StaleIff(first: Totals, rs: seq<Totals>)
    requires first.bytes != 0
    ensures LaterAsDue(true, first, rs) <==> |rs| <= 1 || rs[0] == first
  {
    hide Base, Interval;
    forall k | 0 <= k < |rs|
      ensures IntervalAt(true, first, rs, k) == Interval(rs[k], first)
    {
      StaleBase(first, rs, k);
    }
    if |rs| > 1 {
      assert Due(true, rs, 1) == rs[0];
      IntervalTells(rs[1], first, rs[0]);
      assert DueAt(true, first, rs, 1) <==> rs[0] == first;
      if rs[0] == first {
        forall k | 1 <= k < |rs|
          ensures DueAt(true, first, rs, k)
        {
          FirstHasBytes(rs, k);
        }
      }
    }
  }
}
