/** c/common/Console.cpp, reduced to a trace of the rows of the screen that are written. */
module Terminal {
  import opened Words

  /** Something written on a row; the empty text is a row cleared to its end. */
  datatype Paint = Paint(row: nat, what: string)

  /** Lines printed one below the other, from `row` on. */
  function Lines(row: nat, whats: seq<string>): (ps: seq<Paint>)
    ensures |ps| == |whats| && forall i | 0 <= i < |whats| :: ps[i] == Paint(row + i, whats[i])
  {
    seq(|whats|, i requires 0 <= i < |whats| => Paint(row + i, whats[i]))
  }

  /** The cursor row and what was written so far. */
  datatype Screen = Screen(row: nat, painted: seq<Paint>) {

    function MoveTo(row: nat): Screen {
      this.(row := row)
    }

    /** println and inverseln. */
    function Println(what: string): Screen {
      Screen(row + 1, painted + [Paint(row, what)])
    }

    function ClearEol(): Screen {
      this.(painted := painted + [Paint(row, "")])
    }

    /** The screen after `whats` were printed one below the other, unless this is only a test. */
    function After(test: bool, whats: seq<string>): Screen {
      if test then this else Screen(row + |whats|, painted + Lines(row, whats))
    }

    lemma AfterStep(test: bool, whats: seq<string>, what: string)
      ensures After(test, whats + [what]) == if test then this else After(test, whats).Println(what)
      ensures After(test, []) == After(true, whats) == this
    {
      assert painted + [] == painted;
    }
  }

  /**
   * The step every section's print repeats: a line unless this is only a test, and one more counted.
   * `start` is the screen the section began on, `done` what it printed or counted since.
   */
  method PrintRow(screen: Screen, what: string, test: bool, count: nat, ghost start: Screen, ghost done: seq<string>)
    returns (counted: nat, out: Screen)
    requires screen == start.After(test, done) && count == U16(|done|)
    ensures out == start.After(test, done + [what]) && counted == U16(|done + [what]|)
  {
    start.AfterStep(test, done, what);
    U16Add(|done|, 1);
    out := screen;
    if !test {
      out := out.Println(what);
    }
    counted := U16(count + 1);
  }
}
