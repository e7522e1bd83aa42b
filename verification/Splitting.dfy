/** What it means to split a line into tokens, said without the cursor, and what printing a line gives back. */
module Splitting {
  import opened Words
  import opened Decimal
  import opened Parsing

  predicate Blank(s: string) {
    forall c | c in s :: IsBlank(c)
  }

  /** A token holds no space and does not begin with a tab (it may hold one further on). */
  predicate IsToken(t: string) {
    t != "" && !IsBlank(t[0]) && ' ' !in t
  }

  function Weave(gaps: seq<string>, ts: seq<string>): string
    requires |gaps| == |ts| + 1
  {
    if ts == [] then gaps[0] else gaps[0] + ts[0] + Weave(gaps[1..], ts[1..])
  }

  /** The gap behind a token begins with a space; only the last gap may be empty. */
  predicate Closes(gap: string, last: bool) {
    if gap == "" then last else gap[0] == ' '
  }

  /** `ts` are the tokens of `s`, and `gaps` the blanks before, between and after them. */
  predicate IsSplit(s: string, gaps: seq<string>, ts: seq<string>) {
    && |gaps| == |ts| + 1
    && s == Weave(gaps, ts)
    && (forall g | g in gaps :: Blank(g))
    && (forall t | t in ts :: IsToken(t))
    && (forall i | 1 <= i < |gaps| :: Closes(gaps[i], i == |ts|))
  }

  lemma {:induction false} SkipGap(gap: string, rest: string)
    requires Blank(gap)
    requires rest != "" ==> !IsBlank(rest[0])
    ensures SkipBlanks(gap + rest) == rest
  {
    if gap == "" {
      assert gap + rest == rest;
    } else {
      assert (gap + rest)[1..] == gap[1..] + rest;
      SkipGap(gap[1..], rest);
    }
  }

  lemma {:induction false} MeasureToken(t: string, rest: string)
    requires ' ' !in t
    requires rest != "" ==> rest[0] == ' '
    ensures TokenLength(t + rest) == |t|
  {
    if t == "" {
      assert t + rest == rest;
    } else {
      assert (t + rest)[1..] == t[1..] + rest;
      MeasureToken(t[1..], rest);
    }
  }

  lemma WeaveFront(gaps: seq<string>, ts: seq<string>)
    requires |gaps| == |ts| + 1
    requires Closes(gaps[0], ts == [])
    ensures Weave(gaps, ts) != "" ==> Weave(gaps, ts)[0] == ' '
  {
  }

  /** Reading a line back: whatever blanks stand between the tokens, the tokens are what Tokens returns. */
  lemma {:induction false} TokensOfWeave(s: string, gaps: seq<string>, ts: seq<string>)
    requires IsSplit(s, gaps, ts)
    ensures Tokens(s) == ts
    decreases |ts|
  {
    if ts == [] {
      SkipGap(gaps[0], "");
      assert gaps[0] + "" == gaps[0];
    } else {
      var rest := Weave(gaps[1..], ts[1..]);
      assert IsToken(ts[0]);
      assert s == gaps[0] + (ts[0] + rest);
      SkipGap(gaps[0], ts[0] + rest);
      assert Closes(gaps[1], 1 == |ts|);
      WeaveFront(gaps[1..], ts[1..]);
      MeasureToken(ts[0], rest);
      forall i | 1 <= i < |gaps[1..]|
        ensures Closes(gaps[1..][i], i == |ts[1..]|)
      {
        assert Closes(gaps[i + 1], i + 1 == |ts|);
      }
      TokensOfWeave(rest, gaps[1..], ts[1..]);
      assert (ts[0] + rest)[..|ts[0]|] == ts[0] && (ts[0] + rest)[|ts[0]|..] == rest;
    }
  }

  lemma {:induction false} SkippedIsGap(s: string) returns (gap: string)
    ensures Blank(gap) && s == gap + SkipBlanks(s)
    ensures s != "" && s[0] == ' ' ==> gap != "" && gap[0] == ' '
  {
    if s != "" && IsBlank(s[0]) {
      var g := SkippedIsGap(s[1..]);
      gap := [s[0]] + g;
    } else {
      gap := "";
    }
  }

  lemma {:induction false} MeasuredIsToken(s: string)
    ensures ' ' !in s[..TokenLength(s)]
    ensures TokenLength(s) < |s| ==> s[TokenLength(s)] == ' '
  {
    if s != "" && s[0] != ' ' {
      MeasuredIsToken(s[1..]);
      assert s[..TokenLength(s)] == [s[0]] + s[1..][..TokenLength(s[1..])];
    }
  }

  /** Every line is its tokens and the blanks around them: nothing is lost and nothing is made up. */
  lemma {:induction false} WeaveOfTokens(s: string) returns (gaps: seq<string>)
    ensures IsSplit(s, gaps, Tokens(s))
    ensures s != "" && s[0] == ' ' ==> Closes(gaps[0], false)
    decreases |s|
  {
    var gap := SkippedIsGap(s);
    var t := SkipBlanks(s);
    SkipBlanksShortens(s);
    if t == "" {
      gaps := [gap];
      assert s == gap;
    } else {
      var n := TokenLength(t);
      MeasuredIsToken(t);
      var gs := WeaveOfTokens(t[n..]);
      gaps := [gap] + gs;
      var ts := Tokens(s);
      assert ts[0] == t[..n] && ts[1..] == Tokens(t[n..]) && gaps[1..] == gs;
      assert s == gap + t[..n] + t[n..];
      assert IsToken(t[..n]) by { assert t[..n][0] == t[0]; }
      forall i | 1 <= i < |gaps|
        ensures Closes(gaps[i], i == |ts|)
      {
        if i == 1 {
          if t[n..] == "" {
            assert Tokens("") == [];
            assert gs[0] == "";
          }
        } else {
          assert Closes(gs[i - 1], i - 1 == |ts[1..]|);
        }
      }
    }
  }

  /** Tokens is the one split of a line into tokens. */
  lemma TokensIsTheSplit(s: string, ts: seq<string>)
    ensures Tokens(s) == ts <==> exists gaps :: IsSplit(s, gaps, ts)
  {
    if Tokens(s) == ts {
      var gaps := WeaveOfTokens(s);
    }
    forall gaps | IsSplit(s, gaps, ts)
      ensures Tokens(s) == ts
    {
      TokensOfWeave(s, gaps, ts);
    }
  }

  // ----- Whole files -----

  predicate ProperRow(ts: seq<string>) {
    forall i | 0 <= i < |ts| :: ts[i] != ""
  }

  /** No token that read is given is empty. */
  lemma {:induction false} RowsAreProper(text: string)
    ensures forall i | 0 <= i < |Rows(text)| :: ProperRow(Rows(text)[i])
    decreases |text|
  {
    RowsUnfold(text);
    if text != "" {
      var n := LineLength(text);
      var line := Chop(CString(text[..n]));
      var gaps := WeaveOfTokens(line);
      assert forall i | 0 <= i < |Tokens(line)| :: IsToken(Tokens(line)[i]);
      RowsAreProper(text[n..]);
    }
  }

  /** A line as the kernel writes it: no newline or NUL inside. */
  predicate IsLine(s: string) {
    '\n' !in s && '\0' !in s
  }

  function PrintLines(lines: seq<string>): string {
    if lines == [] then "" else lines[0] + "\n" + PrintLines(lines[1..])
  }

  function TokensOfLines(lines: seq<string>): seq<seq<string>> {
    if lines == [] then [] else [Tokens(lines[0])] + TokensOfLines(lines[1..])
  }

  lemma {:induction false} MeasureLine(s: string, rest: string)
    requires IsLine(s)
    ensures LineLength(s + "\n" + rest) == |s| + 1
  {
    var text := s + "\n" + rest;
    if s != "" {
      assert text[1..] == s[1..] + "\n" + rest;
      MeasureLine(s[1..], rest);
    }
  }

  lemma {:induction false} WholeCString(s: string)
    requires '\0' !in s
    ensures CString(s) == s
  {
    if s != "" {
      WholeCString(s[1..]);
    }
  }

  /** Reading a file back: the lines come out as they were printed. */
  lemma {:induction false} RowsOfLines(lines: seq<string>)
    requires forall l | l in lines :: IsLine(l)
    ensures Rows(PrintLines(lines)) == TokensOfLines(lines)
  {
    if lines != [] {
      var l, rest := lines[0], PrintLines(lines[1..]);
      var text := l + "\n" + rest;
      MeasureLine(l, rest);
      RowsUnfold(text);
      assert text[..|l| + 1] == l + "\n" && text[|l| + 1..] == rest;
      WholeCString(l + "\n");
      assert Chop(l + "\n") == l;
      RowsOfLines(lines[1..]);
    }
  }

  /** The counters of a record, printed. */
  function Decs(ticks: seq<nat>): seq<string> {
    if ticks == [] then [] else [Dec(ticks[0])] + Decs(ticks[1..])
  }

  /** The number a printed counter is read as. */
  function Clamp(n: nat): Word {
    if n < LONG then n else LONG - 1
  }

  lemma {:induction false} NumOfDecs(front: seq<string>, ticks: seq<nat>, k: nat)
    requires k < |ticks|
    decreases k
    ensures Num(front + Decs(ticks), |front| + k) == Clamp(ticks[k])
  {
    if k == 0 {
      AtolDec(ticks[0]);
    } else {
      NumOfDecs(front + [Dec(ticks[0])], ticks[1..], k - 1);
      assert front + Decs(ticks) == front + [Dec(ticks[0])] + Decs(ticks[1..]);
    }
  }

  lemma {:induction false} DecsAreTokens(ticks: seq<nat>)
    ensures |Decs(ticks)| == |ticks|
    ensures forall t | t in Decs(ticks) :: IsToken(t) && IsLine(t)
  {
    if ticks != [] {
      var d := Dec(ticks[0]);
      assert d[0] in d;
      DecsAreTokens(ticks[1..]);
    }
  }

  lemma {:induction false} WeaveIsLine(gaps: seq<string>, ts: seq<string>)
    requires |gaps| == |ts| + 1
    requires (forall g | g in gaps :: Blank(g)) && forall t | t in ts :: IsLine(t)
    ensures IsLine(Weave(gaps, ts))
    decreases |ts|
  {
    if ts != [] {
      WeaveIsLine(gaps[1..], ts[1..]);
      assert Blank(gaps[0]) && IsLine(ts[0]);
    } else {
      assert Blank(gaps[0]);
    }
  }
}
