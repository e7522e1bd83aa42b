/** c/mac/Network.cpp, on values: routing messages one after the other in a buffer, and the walk over them. */
module RouteMessages {
  import opened Wrappers
  import opened Words
  import opened Sampling
  import opened Snapshot

  type Byte = x: int | 0 <= x < 0x100
  type Bytes = seq<Byte>

  /** ifm_msglen in two bytes, ifm_version, ifm_type: what the loop reads of every message. */
  const HEADER: nat := 4
  const RTM_IFINFO2: Byte := 0x12

  function MsgLen(m: Bytes): nat
    requires |m| >= HEADER
  {
    var low: nat, high: nat := m[0], m[1];
    low + 0x100 * high
  }

  /** A message is as long as its own header says. */
  predicate IsMessage(m: Bytes) {
    |m| >= HEADER && MsgLen(m) == |m|
  }

  predicate Messages(ms: seq<Bytes>) {
    forall i | 0 <= i < |ms| :: IsMessage(ms[i])
  }

  function Flatten(ms: seq<Bytes>): Bytes {
    if ms == [] then [] else ms[0] + Flatten(ms[1..])
  }

  /** Where the messages start when the first of them starts at `base`. */
  function StartsFrom(base: nat, ms: seq<Bytes>): seq<nat>
    decreases |ms|
  {
    if ms == [] then [] else [base] + StartsFrom(base + |ms[0]|, ms[1..])
  }

  lemma {:induction false} StartAt(base: nat, ms: seq<Bytes>, k: nat)
    requires k < |ms|
    ensures |StartsFrom(base, ms)| == |ms| && StartsFrom(base, ms)[k] == base + |Flatten(ms[..k])|
    decreases |ms|
  {
    if k > 0 {
      StartAt(base + |ms[0]|, ms[1..], k - 1);
      assert ms[1..][..k - 1] == ms[..k][1..];
    } else if |ms| > 1 {
      StartAt(base + |ms[0]|, ms[1..], 0);
    }
  }

  // ----- A buffer is cut into messages in one way only -----

  function Cut(buf: Bytes): Option<seq<Bytes>> {
    if buf == [] then Some([])
    else if |buf| < HEADER || MsgLen(buf) < HEADER || MsgLen(buf) > |buf| then None
    else
      match Cut(buf[MsgLen(buf)..])
      case None => None
      case Some(ms) => Some([buf[..MsgLen(buf)]] + ms)
  }

  lemma {:induction false} CutFlatten(ms: seq<Bytes>)
    requires Messages(ms)
    ensures Cut(Flatten(ms)) == Some(ms)
  {
    if ms != [] {
      var buf, m := Flatten(ms), ms[0];
      assert IsMessage(m) && buf[0] == m[0] && buf[1] == m[1] && MsgLen(buf) == |m|;
      assert buf[|m|..] == Flatten(ms[1..]) && buf[..|m|] == m;
      assert [m] + ms[1..] == ms;
      CutFlatten(ms[1..]);
    }
  }

  lemma FlattenCons(m: Bytes, ms: seq<Bytes>)
    ensures Flatten([m] + ms) == m + Flatten(ms)
    ensures Messages(ms) && IsMessage(m) ==> Messages([m] + ms)
  {
    assert ([m] + ms)[1..] == ms;
  }

  lemma CutStep(buf: Bytes) returns (n: nat)
    requires buf != [] && Cut(buf).Some?
    ensures 0 < n <= |buf| && IsMessage(buf[..n])
    ensures Cut(buf[n..]).Some? && Cut(buf) == Some([buf[..n]] + Cut(buf[n..]).value)
  {
    n := MsgLen(buf);
  }

  lemma {:induction false} FlattenCut(buf: Bytes)
    requires Cut(buf).Some?
    ensures Messages(Cut(buf).value) && Flatten(Cut(buf).value) == buf
    decreases |buf|
  {
    if buf != [] {
      hide Cut, IsMessage, Flatten, Messages;
      var n := CutStep(buf);
      FlattenCut(buf[n..]);
      FlattenCons(buf[..n], Cut(buf[n..]).value);
      assert buf[..n] + buf[n..] == buf;
    }
  }

  // ----- The walk -----

  /** `next` after so many turns, as long as nothing outside the buffer was read. */
  function Position(buf: Bytes, turns: nat): nat {
    if turns == 0 then 0
    else
      var p := Position(buf, turns - 1);
      if p + HEADER <= |buf| then p + MsgLen(buf[p..]) else p
  }

  /** The loop's guard is false: next < lim no longer holds. */
  predicate Ended(buf: Bytes, turns: nat) {
    Position(buf, turns) >= |buf|
  }

  /** The header that the turn reads lies inside the buffer; with one to three bytes left it does not. */
  predicate HeaderInside(buf: Bytes, turns: nat) {
    Position(buf, turns) + HEADER <= |buf|
  }

  predicate Advances(buf: Bytes, turns: nat) {
    HeaderInside(buf, turns) && MsgLen(buf[Position(buf, turns)..]) > 0
  }

  // ----- Its three outcomes -----

  /** It comes to the end of the buffer or past it without having read anything outside. */
  ghost predicate Ends(buf: Bytes) {
    exists t: nat :: Ended(buf, t)
  }

  predicate AtZero(buf: Bytes, turns: nat) {
    HeaderInside(buf, turns) && MsgLen(buf[Position(buf, turns)..]) == 0
  }

  /** It comes to a message that says a length of zero. */
  ghost predicate GetsStuck(buf: Bytes) {
    exists t: nat :: AtZero(buf, t)
  }

  predicate OutsideAt(buf: Bytes, turns: nat) {
    !Ended(buf, turns) && !HeaderInside(buf, turns)
  }

  /** It comes to a header that does not lie inside the buffer. */
  ghost predicate ReadsOutside(buf: Bytes) {
    exists t: nat :: OutsideAt(buf, t)
  }

  lemma {:induction false} NeverBack(buf: Bytes, t: nat, u: nat)
    requires t <= u
    ensures Position(buf, t) <= Position(buf, u)
    ensures !Advances(buf, t) ==> Position(buf, u) == Position(buf, t)
    decreases u
  {
    if t < u {
      NeverBack(buf, t, u - 1);
    }
  }

  lemma {:induction false} AtLeastTurns(buf: Bytes, turns: nat)
    requires forall t: nat | t < turns :: !Ended(buf, t) ==> Advances(buf, t)
    ensures Ended(buf, turns) || turns <= Position(buf, turns)
  {
    if turns > 0 {
      AtLeastTurns(buf, turns - 1);
      assert !Ended(buf, turns - 1) ==> Advances(buf, turns - 1);
    }
  }

  /**
   * For any buffer, the walk comes to its end or past it without reading outside if and only if every header
   * that it reaches lies inside the buffer and says a length that is not zero.
   */
  lemma EndsIffAlwaysAdvances(buf: Bytes)
    ensures Ends(buf) <==> forall t: nat :: !Ended(buf, t) ==> Advances(buf, t)
  {
    if t: nat, u: nat :| Ended(buf, t) && !Ended(buf, u) && !Advances(buf, u) {
      NeverBack(buf, if t <= u then t else u, if t <= u then u else t);
    }
    if forall t: nat :: !Ended(buf, t) ==> Advances(buf, t) {
      AtLeastTurns(buf, |buf|);
      assert Ended(buf, |buf|);
    }
  }

  /** Two turns that do not advance are at the same place. */
  lemma SamePlace(buf: Bytes, t: nat, u: nat)
    requires !Advances(buf, t) && !Advances(buf, u)
    ensures Position(buf, t) == Position(buf, u)
  {
    NeverBack(buf, if t <= u then t else u, if t <= u then u else t);
  }

  /** For any buffer, exactly one of the three comes about. */
  lemma OneOutcome(buf: Bytes)
    ensures Ends(buf) || GetsStuck(buf) || ReadsOutside(buf)
    ensures !(Ends(buf) && (GetsStuck(buf) || ReadsOutside(buf))) && !(GetsStuck(buf) && ReadsOutside(buf))
  {
    EndsIffAlwaysAdvances(buf);
    if !Ends(buf) {
      var t: nat :| !Ended(buf, t) && !Advances(buf, t);
      assert AtZero(buf, t) || OutsideAt(buf, t);
    }
    forall t: nat | AtZero(buf, t) || OutsideAt(buf, t)
      ensures !Ended(buf, t) && !Advances(buf, t)
    {
    }
    if GetsStuck(buf) && ReadsOutside(buf) {
      var t: nat :| AtZero(buf, t);
      var u: nat :| OutsideAt(buf, u);
      SamePlace(buf, t, u);
    }
  }

  /** At a length of zero it stays for good: no later turn ends the loop or reads anything else. */
  lemma StuckForGood(buf: Bytes, t: nat, u: nat)
    requires AtZero(buf, t) && t <= u
    ensures !Ended(buf, u) && AtZero(buf, u) && Position(buf, u) == Position(buf, t)
  {
    NeverBack(buf, t, u);
  }

  /** Whatever follows a run of messages, the walk is at the start of each of them in turn. */
  lemma {:induction false} PositionIsStart(ms: seq<Bytes>, rest: Bytes, k: nat)
    requires Messages(ms) && k <= |ms|
    ensures Position(Flatten(ms) + rest, k) == |Flatten(ms[..k])|
  {
    if k > 0 {
      PositionIsStart(ms, rest, k - 1);
      FlattenAround(ms, k - 1);
      StepOver(Flatten(ms[..k - 1]), ms[k - 1], Flatten(ms[k..]) + rest);
      assert Flatten(ms) + rest == Flatten(ms[..k - 1]) + ms[k - 1] + (Flatten(ms[k..]) + rest);
    }
  }

  /** At the start of a message, a turn takes the walk to its end. */
  lemma StepOver(before: Bytes, m: Bytes, after: Bytes)
    requires IsMessage(m)
    ensures var buf, p := before + m + after, |before|; p + HEADER <= |buf| && MsgLen(buf[p..]) == |m|
  {
    assert (before + m + after)[|before|..] == m + after;
  }

  lemma FlattenAround(ms: seq<Bytes>, k: nat)
    requires k < |ms|
    ensures Flatten(ms) == Flatten(ms[..k]) + ms[k] + Flatten(ms[k + 1..])
    ensures |Flatten(ms[..k + 1])| == |Flatten(ms[..k])| + |ms[k]|
  {
    FlattenSplit(ms, k);
    FlattenSplit(ms, k + 1);
    assert ms[k..][1..] == ms[k + 1..];
    assert Flatten(ms[k..]) == ms[k] + Flatten(ms[k + 1..]);
    assert |Flatten(ms)| == |Flatten(ms[..k])| + |ms[k]| + |Flatten(ms[k + 1..])|;
  }

  lemma {:induction false} FlattenSplit(ms: seq<Bytes>, k: nat)
    requires k <= |ms|
    ensures Flatten(ms) == Flatten(ms[..k]) + Flatten(ms[k..])
  {
    if k > 0 {
      FlattenSplit(ms[1..], k - 1);
      assert ms[1..][..k - 1] == ms[..k][1..] && ms[1..][k - 1..] == ms[k..];
    }
  }

  /** Over a buffer of messages the walk ends at the end, after exactly as many turns as there are messages. */
  lemma EndsWithLastMessage(ms: seq<Bytes>, t: nat)
    requires Messages(ms)
    ensures Ends(Flatten(ms)) && Position(Flatten(ms), |ms|) == |Flatten(ms)|
    ensures Ended(Flatten(ms), t) <==> |ms| <= t
  {
    assert Flatten(ms) + [] == Flatten(ms) && ms[..|ms|] == ms;
    PositionIsStart(ms, [], |ms|);
    assert Ended(Flatten(ms), |ms|);
    if t < |ms| {
      PositionIsStart(ms, [], t);
      FlattenSplit(ms, t);
      assert IsMessage(ms[t]) && Flatten(ms[t..]) == ms[t] + Flatten(ms[t..][1..]);
    } else {
      NeverBack(Flatten(ms), |ms|, t);
    }
  }

  /** A message of length zero behind others is met and never left. */
  lemma StuckAtZero(ms: seq<Bytes>, rest: Bytes, t: nat)
    requires Messages(ms) && |rest| >= HEADER && MsgLen(rest) == 0
    ensures GetsStuck(Flatten(ms) + rest) && !Ended(Flatten(ms) + rest, t)
    ensures |ms| <= t ==> HeaderInside(Flatten(ms) + rest, t) && Position(Flatten(ms) + rest, t) == |Flatten(ms)|
  {
    var buf := Flatten(ms) + rest;
    assert ms[..|ms|] == ms;
    PositionIsStart(ms, rest, |ms|);
    assert buf[|Flatten(ms)|..] == rest;
    assert AtZero(buf, |ms|);
    if t < |ms| {
      NeverBack(buf, t, |ms|);
    } else {
      NeverBack(buf, |ms|, t);
    }
  }

  /** One to three bytes behind the messages, whatever they are, make a turn read outside the buffer. */
  lemma CroppedHeader(ms: seq<Bytes>, rest: Bytes)
    requires Messages(ms) && 0 < |rest| < HEADER
    ensures ReadsOutside(Flatten(ms) + rest) && OutsideAt(Flatten(ms) + rest, |ms|)
    ensures Position(Flatten(ms) + rest, |ms|) == |Flatten(ms)|
  {
    assert ms[..|ms|] == ms;
    PositionIsStart(ms, rest, |ms|);
    assert OutsideAt(Flatten(ms) + rest, |ms|);
  }

  /** One turn of the loop, with the messages `ahead` still to come. */
  lemma FirstMessage(buf: Bytes, next: nat, ahead: seq<Bytes>)
    requires next < |buf| && Messages(ahead) && buf[next..] == Flatten(ahead)
    ensures ahead != [] && IsMessage(ahead[0]) && Messages(ahead[1..])
    ensures |buf[next..]| >= HEADER && MsgLen(buf[next..]) == |ahead[0]| && next + |ahead[0]| <= |buf|
    ensures buf[next..next + |ahead[0]|] == ahead[0] && buf[next + |ahead[0]|..] == Flatten(ahead[1..])
  {
    var rest, m := buf[next..], ahead[0];
    assert IsMessage(m);
    assert rest == m + Flatten(ahead[1..]);
    assert rest[0] == m[0] && rest[1] == m[1];
    assert buf[next..next + |m|] == rest[..|m|];
    assert buf[next + |m|..] == rest[|m|..];
  }

  lemma NoneAhead(ahead: seq<Bytes>)
    requires Messages(ahead)
    ensures Flatten(ahead) == [] <==> ahead == []
  {
    if ahead != [] {
      assert IsMessage(ahead[0]);
    }
  }

  lemma StartsStep(visited: seq<nat>, next: nat, ahead: seq<Bytes>)
    requires ahead != []
    ensures visited + StartsFrom(next, ahead) == visited + [next] + StartsFrom(next + |ahead[0]|, ahead[1..])
  {
  }

  // ----- What the messages say -----

  /** What one RTM_IFINFO2 message carries; its layout is the kernel's. */
  datatype Info = Info(name: string, packetsIn: Word, packetsOut: Word, bytesIn: Word, bytesOut: Word,
                       flags: Word, kind: Word, speed: Word, mac: Word)
  type Decoder = Bytes -> Info

  function CounterRow(i: Info): (r: Row)
    ensures |r| == 4
  {
    [i.packetsIn, i.packetsOut, i.bytesIn, i.bytesOut]
  }

  function FactRow(i: Info): (r: Row)
    ensures |r| == 4
  {
    [i.flags, i.kind, i.speed, i.mac]
  }

  predicate IsInfo(m: Bytes) {
    |m| >= HEADER && m[3] == RTM_IFINFO2
  }

  function CounterReader(decode: Decoder): (f: LineReader<Bytes>)
    ensures Reads(f, 4)
  {
    m => if IsInfo(m) then [Entry(decode(m).name, CounterRow(decode(m)))] else []
  }

  function FactReader(decode: Decoder): (f: LineReader<Bytes>)
    ensures Reads(f, 4)
  {
    m => if IsInfo(m) then [Entry(decode(m).name, FactRow(decode(m)))] else []
  }

  /** What one turn of the loop makes of a table. */
  lemma OneMessage(decode: Decoder, m: Bytes, v: View)
    ensures Overlay(v, CounterReader(decode)(m)) == if IsInfo(m) then v[decode(m).name := CounterRow(decode(m))] else v
    ensures Overlay(v, FactReader(decode)(m)) == if IsInfo(m) then v[decode(m).name := FactRow(decode(m))] else v
  {
    OverlayOne(v, Entry(decode(m).name, CounterRow(decode(m))));
    OverlayOne(v, Entry(decode(m).name, FactRow(decode(m))));
  }

  /** The counters that a buffer of messages gives, read into an empty table. */
  function Counters(decode: Decoder, ms: seq<Bytes>): (v: View)
    ensures Wide(v, 4)
  {
    SampleWide(CounterReader(decode), ms, 4);
    SampleOf(CounterReader(decode), ms)
  }

  /** And the other fields. */
  function Facts(decode: Decoder, ms: seq<Bytes>): (v: View)
    ensures Wide(v, 4)
  {
    SampleWide(FactReader(decode), ms, 4);
    SampleOf(FactReader(decode), ms)
  }

  /** The last RTM_IFINFO2 message that bears the name `n`; -1 if there is none. */
  function LastInfo(decode: Decoder, ms: seq<Bytes>, n: string): (i: int)
    ensures -1 <= i < |ms|
    ensures 0 <= i ==> |ms[i]| >= 4 && ms[i][3] == 0x12 && decode(ms[i]).name == n
    ensures forall j | i < j < |ms| :: |ms[j]| >= 4 && ms[j][3] == 0x12 ==> decode(ms[j]).name != n
  {
    if ms == [] then -1
    else
      var k := |ms| - 1;
      if IsInfo(ms[k]) && decode(ms[k]).name == n then k else LastInfo(decode, ms[..k], n)
  }

  lemma {:induction false} SameLast(decode: Decoder, ms: seq<Bytes>, n: string)
    ensures LastLine(CounterReader(decode), ms, n) == LastLine(FactReader(decode), ms, n) == LastInfo(decode, ms, n)
  {
    if ms != [] {
      SameLast(decode, ms[..|ms| - 1], n);
    }
  }

  /** Every interface record holds what the last message bearing its name says, and no others are made. */
  lemma LastMessageWins(decode: Decoder, ms: seq<Bytes>, n: string)
    ensures n in Counters(decode, ms) <==> LastInfo(decode, ms, n) >= 0
    ensures n in Facts(decode, ms) <==> LastInfo(decode, ms, n) >= 0
    ensures LastInfo(decode, ms, n) >= 0 ==>
      var i := decode(ms[LastInfo(decode, ms, n)]);
      Counters(decode, ms)[n] == CounterRow(i) && Facts(decode, ms)[n] == FactRow(i)
  {
    SameLast(decode, ms, n);
    ReadsLastLine(CounterReader(decode), map[], ms, n, 4);
    ReadsLastLine(FactReader(decode), map[], ms, n, 4);
  }
}
