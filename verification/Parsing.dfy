/** c/common/Parser.cpp: a cursor over one NUL-terminated line, and a reader of lines and numbers. */
module Parsing {
  import opened Wrappers
  import opened Words
  import opened Decimal

  // ----- The pure view of a line and of a file -----

  /** The C string stored in a buffer: everything before the first NUL. */
  function CString(s: string): string {
    if s == "" || s[0] == '\0' then "" else [s[0]] + CString(s[1..])
  }

  /** A line without its one trailing newline. */
  function Chop(s: string): string {
    if s != "" && s[|s| - 1] == '\n' then s[..|s| - 1] else s
  }

  predicate IsBlank(c: char) {
    c == ' ' || c == '\t'
  }

  function SkipBlanks(s: string): string {
    if s != "" && IsBlank(s[0]) then SkipBlanks(s[1..]) else s
  }

  /** The length of the token at the front of `s`: only a space ends it. */
  function TokenLength(s: string): nat
    ensures TokenLength(s) <= |s|
  {
    if s == "" || s[0] == ' ' then 0 else 1 + TokenLength(s[1..])
  }

  function Tokens(s: string): seq<string>
    decreases |s|
  {
    SkipBlanksShortens(s);
    var t := SkipBlanks(s);
    if t == "" then [] else [t[..TokenLength(t)]] + Tokens(t[TokenLength(t)..])
  }

  lemma {:induction false} SkipBlanksShortens(s: string)
    ensures |SkipBlanks(s)| <= |s|
    ensures SkipBlanks(s) != "" ==> !IsBlank(SkipBlanks(s)[0]) && TokenLength(SkipBlanks(s)) > 0
  {
    if s != "" && IsBlank(s[0]) {
      SkipBlanksShortens(s[1..]);
    }
  }

  /** One call of get_token, on the pure side. */
  lemma TokensUnfold(s: string)
    ensures var t := SkipBlanks(s);
      if t == "" then Tokens(s) == []
      else At(Tokens(s), 0) == Some(t[..TokenLength(t)]) && Drop(Tokens(s), 1) == Tokens(t[TokenLength(t)..])
  {
  }

  /** How many characters getline takes: up to and including the first newline. */
  function LineLength(text: string): (n: nat)
    ensures n <= |text| && (text != "" ==> 0 < n)
  {
    if text == "" then 0 else if text[0] == '\n' then 1 else 1 + LineLength(text[1..])
  }

  /** The tokens of every line of a file. */
  function Rows(text: string): seq<seq<string>>
    decreases |text|
  {
    if text == "" then []
    else
      var n := LineLength(text);
      [Tokens(Chop(CString(text[..n])))] + Rows(text[n..])
  }

  /** One call of getline, on the pure side. */
  lemma RowsUnfold(text: string)
    ensures if text == "" then Rows(text) == []
      else Rows(text) == [Tokens(Chop(CString(text[..LineLength(text)])))] + Rows(text[LineLength(text)..])
  {
  }

  /** The tokens left after `k` calls of get_token. */
  function Drop(ts: seq<string>, k: nat): seq<string> {
    if k <= |ts| then ts[k..] else []
  }

  /** What the call of get_token after `k` others returns. */
  function At(ts: seq<string>, k: nat): Option<string> {
    if k < |ts| then Some(ts[k]) else None
  }

  /** The value of the k-th token as get_long reads it; 0 when there is none. */
  function Num(ts: seq<string>, k: nat): Word {
    if k < |ts| then ToWord(Atol(ts[k])) else 0
  }

  lemma DropStep(ts: seq<string>, k: nat)
    ensures Drop(Drop(ts, k), 1) == Drop(ts, k + 1)
    ensures At(Drop(ts, k), 0) == At(ts, k)
  {
  }

  // ----- The source's objects -----

  class Line {
    const buf: array<char>
    const len: nat
    var token: nat

    ghost predicate Valid()
      reads this, buf
    {
      && token <= len < buf.Length
      && buf[len] == '\0'
      && forall i | 0 <= i < len :: buf[i] != '\0'
    }

    /** The text from the cursor to the end of the line. */
    ghost function Rest(): string
      requires Valid()
      reads this, buf
    {
      buf[token..len]
    }

    constructor (l: array<char>)
      requires exists i :: 0 <= i < l.Length && l[i] == '\0'
      modifies l
      ensures Valid() && buf == l && token == 0
      ensures Rest() == Chop(CString(old(l[..])))
      ensures forall i | 0 <= i < l.Length :: l[i] == old(l[i]) || (old(l[i]) == '\n' && i == len && l[i] == '\0')
    {
      var n := StrLen(l);
      if n > 0 && l[n - 1] == '\n' {
        l[n - 1] := '\0';
        n := n - 1;
      }
      len := n;
      buf := l;
      token := 0;
    }

    method GetToken() returns (tok: Option<string>)
      requires Valid()
      modifies this
      ensures Valid() && token >= old(token)
      ensures tok == At(Tokens(old(Rest())), 0)
      ensures Tokens(Rest()) == Drop(Tokens(old(Rest())), 1)
      ensures tok.None? ==> Rest() == ""
    {
      ghost var before := Rest();
      TokensUnfold(before);
      while buf[token] == ' ' || buf[token] == '\t'
        invariant old(token) <= token <= len
        invariant SkipBlanks(buf[token..len]) == SkipBlanks(before)
        decreases len - token
      {
        assert buf[token..len][1..] == buf[token + 1..len];
        token := token + 1;
      }
      if buf[token] == '\0' {
        return None;
      }
      var n := Scan(token);
      tok := Some(buf[token..n]);
      token := n;
    }

    /** The inner loop of get_token: where the token that starts at `from` ends. */
    method Scan(from: nat) returns (ptr: nat)
      requires Valid() && from <= len
      ensures from <= ptr <= len
      ensures ptr - from == TokenLength(buf[from..len])
      ensures buf[from..len][..ptr - from] == buf[from..ptr]
      ensures buf[from..len][ptr - from..] == buf[ptr..len]
    {
      ptr := from;
      while buf[ptr] != '\0' && buf[ptr] != ' '
        invariant from <= ptr <= len
        invariant TokenLength(buf[from..len]) == ptr - from + TokenLength(buf[ptr..len])
        decreases len - ptr
      {
        assert buf[ptr..len][1..] == buf[ptr + 1..len];
        ptr := ptr + 1;
      }
    }
  }

  method StrLen(l: array<char>) returns (n: nat)
    requires exists i :: 0 <= i < l.Length && l[i] == '\0'
    ensures n < l.Length && l[n] == '\0' && forall i | 0 <= i < n :: l[i] != '\0'
    ensures l[..n] == CString(l[..])
  {
    ghost var end :| 0 <= end < l.Length && l[end] == '\0';
    n := 0;
    while l[n] != '\0'
      invariant 0 <= n <= end
      invariant forall i | 0 <= i < n :: l[i] != '\0'
      invariant CString(l[..]) == l[..][..n] + CString(l[..][n..])
      decreases end - n
    {
      CStringStep(l[..], n);
      n := n + 1;
    }
  }

  lemma CStringStep(s: string, n: nat)
    requires n < |s| && s[n] != '\0'
    ensures s[..n] + CString(s[n..]) == s[..n + 1] + CString(s[n + 1..])
  {
    assert s[n..][1..] == s[n + 1..];
    assert s[..n + 1] == s[..n] + [s[n]];
  }

  /** new Line of the buffer that getline allocates, fills and terminates. */
  method GetLine(chunk: string) returns (line: Line)
    ensures fresh(line) && fresh(line.buf) && line.Valid()
    ensures line.Rest() == Chop(CString(chunk))
  {
    var n := |chunk|;
    var buf := new char[n + 1](i requires 0 <= i <= n => if i < n then chunk[i] else '\0');
    assert buf[n] == '\0';
    assert buf[..] == chunk + ['\0'];
    CStringTerminated(chunk);
    line := new Line(buf);
  }

  class Parser {
    var input: string
    var line: Line?
    var token: Option<string>
    ghost var tokens: seq<string>      // the tokens of the current line
    ghost var taken: nat               // how many of them get_token was asked for
    ghost var ahead: seq<seq<string>>  // the tokens of the lines still to come
    ghost var Repr: set<object>

    ghost predicate Valid()
      reads this, Repr
    {
      && this in Repr
      && ahead == Rows(input)
      && if line == null then tokens == []
         else line in Repr && line.buf in Repr && line.Valid() && Tokens(line.Rest()) == Drop(tokens, taken)
    }

    /** Opens a file that holds `text`. */
    constructor (text: string)
      ensures Valid() && fresh(Repr) && ahead == Rows(text)
    {
      input := text;
      line := null;
      token := None;
      tokens, taken, ahead := [], 0, Rows(text);
      Repr := {this};
    }

    method Next() returns (more: bool)
      requires Valid()
      modifies Repr
      ensures Valid() && fresh(Repr - old(Repr))
      ensures more == (old(ahead) != [])
      ensures more ==> tokens == old(ahead)[0] && taken == 0 && ahead == old(ahead)[1..]
      ensures !more ==> ahead == []
    {
      hide Rows, Tokens, Chop, CString, LineLength, Line.Valid;
      RowsUnfold(input);
      line := null;
      tokens, taken := [], 0;
      if input == "" {
        return false;
      }
      var n := LineLength(input);
      line := GetLine(input[..n]);
      tokens := Tokens(line.Rest());
      Repr := Repr + {line, line.buf};
      input := input[n..];
      ahead := ahead[1..];
      return true;
    }

    method GetToken() returns (tok: Option<string>)
      requires Valid()
      modifies Repr
      ensures Valid() && Repr == old(Repr) && ahead == old(ahead)
      ensures tokens == old(tokens) && taken == old(taken) + 1
      ensures tok == token == At(tokens, old(taken))
    {
      token := None;
      DropStep(tokens, taken);
      taken := taken + 1;
      if line == null {
        return None;
      }
      token := line.GetToken();
      return token;
    }

    method GetLong() returns (v: Word)
      requires Valid()
      modifies Repr
      ensures Valid() && Repr == old(Repr) && ahead == old(ahead)
      ensures tokens == old(tokens) && taken == old(taken) + 1
      ensures v == Num(tokens, old(taken))
    {
      var t := GetToken();
      if t.Some? {
        return ToWord(Atol(t.value));
      }
      return 0;
    }
  }

  lemma {:induction false} CStringTerminated(s: string)
    ensures CString(s + ['\0']) == CString(s)
  {
    if s != "" {
      assert (s + ['\0'])[1..] == s[1..] + ['\0'];
      CStringTerminated(s[1..]);
    }
  }
}
