/** What c/linux/main.cpp draws: six sections one below the other, and how far they are condensed. */
module Layout {
  import opened Words
  import opened Terminal

  /** What a section's print() returns and the lines it emits when it is not just a test. */
  datatype Section = Section(height: nat, lines: seq<string>)

  /** The rows all sections take, with `blank` (0 or 1) rows after each. */
  function Height(secs: seq<Section>, blank: nat): nat {
    if secs == [] then 0 else secs[0].height + blank + Height(secs[1..], blank)
  }

  /** render's `y`, a uint16_t, after one section. */
  function Below(y: nat, s: Section, blank: nat): nat {
    U16(U16(y + s.height) + blank)
  }

  /** What a real run writes when the first of `secs` starts on row `y`. */
  function Draw(secs: seq<Section>, blank: nat, y: nat): seq<Paint> {
    if secs == [] then []
    else DrawOne(secs[0], blank, y) + Draw(secs[1..], blank, Below(y, secs[0], blank))
  }

  function DrawOne(s: Section, blank: nat, y: nat): seq<Paint> {
    Lines(y, s.lines) + if blank == 0 then [] else [Paint(U16(y + s.height), "")]
  }

  /** The row render returns. */
  function End(secs: seq<Section>, blank: nat, y: nat): nat {
    if secs == [] then y else End(secs[1..], blank, Below(y, secs[0], blank))
  }

  lemma {:induction false} EndIsHeight(secs: seq<Section>, blank: nat, y: nat)
    requires y < SHORT
    ensures End(secs, blank, y) == U16(y + Height(secs, blank))
  {
    hide U16;
    if secs != [] {
      var rest := Height(secs[1..], blank);
      EndIsHeight(secs[1..], blank, Below(y, secs[0], blank));
      U16Add(y + secs[0].height, blank);
      U16Add(y + secs[0].height + blank, rest);
    }
  }

  /** Every row is written at most once, from top to bottom, inside the rows `from` to `to`. */
  predicate Ordered(ps: seq<Paint>, from: nat, to: nat) {
    && (forall i | 0 <= i < |ps| :: from <= ps[i].row < to)
    && forall i, j | 0 <= i < j < |ps| :: ps[i].row < ps[j].row
  }

  /** The sections and the blank rows between them never overlap. */
  lemma {:induction false} SectionsDisjoint(secs: seq<Section>, blank: nat, y: nat)
    requires forall i | 0 <= i < |secs| :: |secs[i].lines| <= secs[i].height
    requires blank <= 1 && y + Height(secs, blank) < SHORT
    ensures Ordered(Draw(secs, blank, y), y, y + Height(secs, blank))
  {
    hide U16, Ordered, DrawOne;
    if secs == [] {
      NothingDrawn(y);
    } else {
      var s := secs[0];
      OneOrdered(s, blank, y);
      SectionsDisjoint(secs[1..], blank, y + s.height + blank);
      OrderedBoth(DrawOne(s, blank, y), Draw(secs[1..], blank, y + s.height + blank), y, y + s.height + blank,
        y + Height(secs, blank));
    }
  }

  lemma NothingDrawn(y: nat)
    ensures Ordered([], y, y)
  {
  }

  lemma OneOrdered(s: Section, blank: nat, y: nat)
    requires |s.lines| <= s.height && blank <= 1 && y + s.height + blank < SHORT
    ensures Ordered(DrawOne(s, blank, y), y, y + s.height + blank)
  {
  }

  lemma OrderedBoth(above: seq<Paint>, below: seq<Paint>, from: nat, between: nat, end: nat)
    requires Ordered(above, from, between) && Ordered(below, between, end) && from <= between <= end
    ensures Ordered(above + below, from, end)
  {
  }

  // ----- fit -----

  /** How far the display is condensed: nothing, no rows per core, no blank rows either. */
  datatype Mode = Full | NoCores | NoBlanks

  /** What fit() decides from the heights it is given as uint16_t. */
  function Decide(console: nat, full: nat, noCores: nat): Mode {
    if U16(full) <= console then Full else if U16(noCores) <= console then NoCores else NoBlanks
  }

  /** The least condensed layout that fits, or the most condensed one if none does. */
  function Best(console: nat, full: nat, noCores: nat): Mode {
    if full <= console then Full else if noCores <= console then NoCores else NoBlanks
  }

  /** fit() picks the best layout exactly when no height it looks at has wrapped into the console. */
  lemma DecideIsBest(console: nat, full: nat, noCores: nat)
    requires console < SHORT && noCores <= full
    ensures Decide(console, full, noCores) == Best(console, full, noCores)
      <==> (full < SHORT || (U16(full) > console && (noCores < SHORT || U16(noCores) > console)))
  {
  }
}
