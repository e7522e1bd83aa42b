/** license/iostat.cpp: the header and row lines of the main loop. */
module Headers {

  datatype Line = Header | Row

  /** headercount at the top of a turn; `requests` says for each turn whether phdr_flag is set at its check. */
  function Countdown(requests: seq<bool>, i: nat): (n: int)
    requires i <= |requests|
    ensures 1 <= n <= 20
    decreases i, 0
  {
    if i == 0 then 1
    else if HeaderAt(requests, i - 1) then 20
    else Countdown(requests, i - 1) - 1
  }

  predicate HeaderAt(requests: seq<bool>, i: nat)
    requires i < |requests|
    decreases i, 1
  {
    Countdown(requests, i) == 1 || requests[i]
  }

  /** What the first `turns` turns print. */
  function Output(requests: seq<bool>, turns: nat): seq<Line>
    requires turns <= |requests|
  {
    if turns == 0 then []
    else Output(requests, turns - 1) + (if HeaderAt(requests, turns - 1) then [Header] else []) + [Row]
  }

  /** The turns the loop takes when it could take `n`: a count below zero never ends it, zero acts like one. */
  function Turns(count: int, n: nat): (t: nat)
    ensures t <= n
  {
    if count < 0 then n else if count <= 1 then (if n < 1 then n else 1) else if n < count then n else count
  }

  lemma {:induction false} LaterRequests(requests: seq<bool>, more: seq<bool>, i: nat)
    requires i <= |requests|
    ensures Countdown(requests + more, i) == Countdown(requests, i)
    ensures Output(requests + more, i) == Output(requests, i)
  {
    if i > 0 {
      LaterRequests(requests, more, i - 1);
    }
  }

  /** One turn: the countdown runs out or a header is asked for, and it starts anew; then a row. */
  lemma OutputStep(requests: seq<bool>, asked: bool)
    ensures var i, more := |requests|, requests + [asked];
      var due := Countdown(requests, i) - 1 == 0 || asked;
      && Countdown(more, i + 1) == (if due then 20 else Countdown(requests, i) - 1)
      && Output(more, i + 1) == Output(requests, i) + (if due then [Header] else []) + [Row]
  {
    LaterRequests(requests, [asked], |requests|);
  }

  // ----- What is true of the lines -----

  /** How many rows have been printed since the last header. */
  function Since(lines: seq<Line>): (n: nat)
    ensures n <= |lines|
  {
    if lines == [] || lines[|lines| - 1].Header? then 0 else 1 + Since(lines[..|lines| - 1])
  }

  lemma SinceStep(lines: seq<Line>)
    ensures Since(lines + [Row]) == Since(lines) + 1 && Since(lines + [Header]) == 0
  {
    assert (lines + [Row])[..|lines|] == lines;
  }

  lemma {:induction false} SinceMeans(lines: seq<Line>)
    ensures forall j | |lines| - Since(lines) <= j < |lines| :: lines[j].Row?
    ensures Since(lines) < |lines| ==> lines[|lines| - Since(lines) - 1].Header?
  {
    if lines != [] && lines[|lines| - 1].Row? {
      SinceMeans(lines[..|lines| - 1]);
    }
  }

  predicate NoHeader(lines: seq<Line>) {
    forall j | 0 <= j < |lines| :: lines[j].Row?
  }

  lemma {:induction false} StretchWithin(lines: seq<Line>, i: nat)
    requires i <= |lines| && NoHeader(lines[i..])
    ensures |lines| - i <= Since(lines)
    decreases |lines|
  {
    if i < |lines| {
      var k := |lines| - 1;
      assert lines[i..][k - i] == lines[k];
      assert lines[..k][i..] == lines[i..][..k - i];
      StretchWithin(lines[..k], i);
    }
  }

  /** The countdown is the number of rows since the last header, counted down from 21. */
  lemma {:induction false} SinceIsCountdown(requests: seq<bool>, turns: nat)
    requires 0 < turns <= |requests|
    ensures Since(Output(requests, turns)) == 21 - Countdown(requests, turns)
  {
    var before := Output(requests, turns - 1);
    SinceStep(before);
    if HeaderAt(requests, turns - 1) {
      SinceStep(before + [Header]);
    } else {
      SinceIsCountdown(requests, turns - 1);
      assert before + [] == before;
    }
  }

  lemma {:induction false} SinceAtMostTwenty(requests: seq<bool>, turns: nat, j: nat)
    requires turns <= |requests| && j <= |Output(requests, turns)|
    ensures Since(Output(requests, turns)[..j]) <= 20
  {
    if turns > 0 {
      var before, out := Output(requests, turns - 1), Output(requests, turns);
      if j <= |before| {
        SinceAtMostTwenty(requests, turns - 1, j);
        assert out[..j] == before[..j];
      } else if j < |out| {
        assert out[..j] == before + [Header];
        SinceStep(before);
      } else {
        assert out[..j] == out;
        SinceIsCountdown(requests, turns);
      }
    }
  }

  /** The first line is a header, and no more than 20 rows are printed without one between them. */
  predicate WellHeaded(lines: seq<Line>) {
    && (lines != [] ==> lines[0].Header?)
    && forall i, j | 0 <= i <= j <= |lines| && NoHeader(lines[i..j]) :: j - i <= 20
  }

  lemma {:induction false} HeaderFirst(requests: seq<bool>, turns: nat)
    requires turns <= |requests|
    ensures turns > 0 ==> Output(requests, turns) != [] && Output(requests, turns)[0].Header?
  {
    if turns > 1 {
      HeaderFirst(requests, turns - 1);
    } else if turns == 1 {
      assert Output(requests, 0) == [] && HeaderAt(requests, 0);
    }
  }

  /** Whatever the requests. */
  lemma OutputWellHeaded(requests: seq<bool>, turns: nat)
    requires turns <= |requests|
    ensures WellHeaded(Output(requests, turns))
  {
    var out := Output(requests, turns);
    HeaderFirst(requests, turns);
    forall i, j | 0 <= i <= j <= |out| && NoHeader(out[i..j])
      ensures j - i <= 20
    {
      assert out[..j][i..] == out[i..j];
      StretchWithin(out[..j], i);
      SinceAtMostTwenty(requests, turns, j);
    }
  }

  /** A header that nobody asked for is printed behind exactly 20 rows, and those behind a header. */
  lemma UnaskedHeader(requests: seq<bool>, i: nat)
    requires 0 < i < |requests| && !requests[i]
    ensures var out := Output(requests, i);
      Output(requests, i + 1) == out + [Header, Row] <==>
        |out| > 20 && out[|out| - 21].Header? && forall j | |out| - 20 <= j < |out| :: out[j].Row?
  {
    var out := Output(requests, i);
    SinceIsCountdown(requests, i);
    SinceMeans(out);
    HeaderFirst(requests, i);
    assert out + [Header] + [Row] == out + [Header, Row];
  }

  /** A header that is asked for is printed in that very turn. */
  lemma AskedHeader(requests: seq<bool>, i: nat)
    requires i < |requests| && requests[i]
    ensures Output(requests, i + 1) == Output(requests, i) + [Header, Row]
  {
    assert Output(requests, i) + [Header] + [Row] == Output(requests, i) + [Header, Row];
  }

  function Rows(output: seq<Line>): nat {
    if output == [] then 0 else Rows(output[..|output| - 1]) + if output[|output| - 1].Row? then 1 else 0
  }

  /** The loop prints one row per turn. */
  lemma {:induction false} OneRowPerTurn(requests: seq<bool>, turns: nat)
    requires turns <= |requests|
    ensures Rows(Output(requests, turns)) == turns
  {
    if turns > 0 {
      OneRowPerTurn(requests, turns - 1);
      var before := Output(requests, turns - 1);
      var head := before + if HeaderAt(requests, turns - 1) then [Header] else [];
      assert Output(requests, turns)[..|head|] == head;
      assert HeaderAt(requests, turns - 1) ==> head[..|before|] == before;
      assert !HeaderAt(requests, turns - 1) ==> head == before;
    }
  }

  /** A count of n >= 1 gives exactly n rows; a negative count never ends the loop. */
  lemma RowsPrinted(count: int, n: nat, requests: seq<bool>)
    requires |requests| == Turns(count, n)
    ensures 1 <= count <= n ==> Rows(Output(requests, |requests|)) == count
    ensures count < 0 ==> Rows(Output(requests, |requests|)) == n
    ensures count == 0 ==> Rows(Output(requests, |requests|)) == if n == 0 then 0 else 1
  {
    OneRowPerTurn(requests, |requests|);
  }
}
