/** The pure string helpers of `pretty_str` in
    `prettyprinter/prettyprinter.py`: `determine_quote_strategy` and
    `str_to_lines`, which cuts a long string into pieces for a multi-line
    literal. `escaped_len` is a parameter `esc`; the regular-expression
    split on `\s+` (falling back to `\W+`) is modelled as a split into
    maximal runs of separator and non-separator characters, with the word
    characters of `\W` given as a parameter `isWord`. */
module Strs {
  import opened Wrappers
  import Render
  import Utils

  // ---------------------------------------------------------------------
  // determine_quote_strategy
  // ---------------------------------------------------------------------

  function Count(s: string, c: char): (n: nat)
    ensures n == 0 <==> c !in s
    ensures n <= |s|
  {
    if s == [] then 0
    else (if s[0] == c then 1 else 0) + Count(s[1..], c)
  }

  /** `determine_quote_strategy(s)`: single quotes unless the string holds
      a single quote and either no double quote or more single quotes than
      double ones. */
  function DetermineQuoteStrategy(s: string): (q: char)
    ensures q == '\'' || q == '"'
    ensures q == '\'' <==> '\'' !in s || ('"' in s && Count(s, '\'') <= Count(s, '"'))
  {
    if '\'' !in s then '\''
    else if '"' !in s then '"'
    else if Count(s, '\'') <= Count(s, '"') then '\''
    else '"'
  }

  /** The chosen quote never occurs in the string more often than the other
      one, so the literal needs the fewer escapes, ties going to `'`. */
  lemma QuoteNeedsFewestEscapes(s: string)
    ensures var q := DetermineQuoteStrategy(s);
            var other := if q == '\'' then '"' else '\'';
            Count(s, q) <= Count(s, other) && (Count(s, q) == Count(s, other) ==> q == '\'')
  {
  }

  // ---------------------------------------------------------------------
  // The alternating split
  // ---------------------------------------------------------------------

  /** A non-empty piece of the split, tagged with whether it is a run of
      separator characters (whitespace, or non-word characters). */
  datatype Part = Part(text: string, sep: bool)

  /** Length of the longest prefix of `s` whose characters are all
      separators (`sep`) or all not. */
  function RunLen(s: string, isSep: char -> bool, sep: bool): (n: nat)
    ensures n <= |s|
    ensures forall k :: 0 <= k < n ==> isSep(s[k]) == sep
    ensures n < |s| ==> isSep(s[n]) != sep
  {
    if s == [] || isSep(s[0]) != sep then 0 else 1 + RunLen(s[1..], isSep, sep)
  }

  function JoinParts(ps: seq<Part>): string
  {
    if ps == [] then "" else ps[0].text + JoinParts(ps[1..])
  }

  predicate NonEmptyParts(ps: seq<Part>)
  {
    forall i :: 0 <= i < |ps| ==> ps[i].text != ""
  }

  /** `pattern.split(s)` for a capturing pattern `(X+)`, with the empty
      pieces it can produce at either end removed (the loop skips them). */
  function Runs(s: string, isSep: char -> bool): (r: seq<Part>)
    ensures JoinParts(r) == s
    ensures NonEmptyParts(r)
    ensures forall i :: 0 <= i < |r| ==> forall k :: 0 <= k < |r[i].text| ==> isSep(r[i].text[k]) == r[i].sep
    ensures forall i :: 0 <= i < |r| - 1 ==> r[i].sep != r[i + 1].sep
    decreases |s|
  {
    if s == [] then []
    else
      var sep := isSep(s[0]);
      var n := RunLen(s, isSep, sep);
      var rest := Runs(s[n..], isSep);
      ConsRun(s, n, sep, rest, isSep);
      [Part(s[..n], sep)] + rest
  }

  /** A maximal run put in front of the runs of what follows it keeps
      every property of `Runs`. */
  lemma ConsRun(s: string, n: nat, sep: bool, rest: seq<Part>, isSep: char -> bool)
    requires 0 < n <= |s|
    requires forall k :: 0 <= k < n ==> isSep(s[k]) == sep
    requires n < |s| ==> isSep(s[n]) != sep
    requires JoinParts(rest) == s[n..] && NonEmptyParts(rest)
    requires forall i :: 0 <= i < |rest| ==> forall k :: 0 <= k < |rest[i].text| ==> isSep(rest[i].text[k]) == rest[i].sep
    requires forall i :: 0 <= i < |rest| - 1 ==> rest[i].sep != rest[i + 1].sep
    ensures var r := [Part(s[..n], sep)] + rest;
            JoinParts(r) == s && NonEmptyParts(r) &&
            (forall i :: 0 <= i < |r| ==> forall k :: 0 <= k < |r[i].text| ==> isSep(r[i].text[k]) == r[i].sep) &&
            (forall i :: 0 <= i < |r| - 1 ==> r[i].sep != r[i + 1].sep)
  {
    var r := [Part(s[..n], sep)] + rest;
    assert r[1..] == rest;
    assert s == s[..n] + s[n..];
    if rest != [] {
      assert JoinParts(rest) == rest[0].text + JoinParts(rest[1..]);
      assert rest[0].text[0] == s[n];
      assert r[0].sep != r[1].sep;
    }
    forall i | 0 <= i < |r| - 1
      ensures r[i].sep != r[i + 1].sep
    {
      if i > 0 {
        assert r[i] == rest[i - 1] && r[i + 1] == rest[i];
      }
    }
  }

  /** The split `str_to_lines` uses: on whitespace, or on non-word
      characters when the string has no whitespace at all. */
  function SplitWords(s: string, isWord: char -> bool): (r: seq<Part>)
    ensures JoinParts(r) == s && NonEmptyParts(r)
  {
    if exists k :: 0 <= k < |s| && Render.IsSpace(s[k]) then Runs(s, Render.IsSpace)
    else Runs(s, (c: char) => !isWord(c))
  }

  // ---------------------------------------------------------------------
  // The loop of str_to_lines
  // ---------------------------------------------------------------------

  function Join(xs: seq<string>): string
  {
    if xs == [] then "" else xs[0] + Join(xs[1..])
  }

  /** The loop state: the part being placed (`next_part` with its tag), the
      parts not yet taken, the pieces of the current line and their escaped
      length. */
  datatype LineState = LineState(next: Option<Part>, rest: seq<Part>, line: seq<string>, lineLen: int)

  predicate Done(st: LineState)
  {
    st.next.None? && st.rest == []
  }

  /** Every part and every line piece is non-empty. */
  predicate WellFormed(st: LineState)
  {
    (st.next.Some? ==> st.next.value.text != "") && NonEmptyParts(st.rest) &&
    forall i :: 0 <= i < |st.line| ==> st.line[i] != ""
  }

  /** What is left to be yielded, in order. */
  function Remaining(st: LineState): string
  {
    Join(st.line) + ((if st.next.Some? then st.next.value.text else "") + JoinParts(st.rest))
  }

  function Chars(st: LineState): nat
  {
    (if st.next.Some? then |st.next.value.text| else 0) + |JoinParts(st.rest)|
  }

  function Max(a: int, b: int): int
  {
    if a >= b then a else b
  }

  /** One iteration of the `while True` loop with a pending or fetched part,
      returning the lines it yields. A part that overflows the line is cut
      after `Max(remaining, floor)` characters: the code as written uses
      floor 0. */
  function LineStep(st: LineState, maxLen: int, floor: nat, esc: string -> nat): (r: (seq<string>, LineState))
    requires !Done(st)
  {
    var p := if st.next.Some? then st.next.value else st.rest[0];
    var rest := if st.next.Some? then st.rest else st.rest[1..];
    var len := st.lineLen + esc(p.text);
    if len == maxLen then
      if !p.sep && |st.line| > 1 then ([Join(st.line)], LineState(Some(p), rest, [], 0))
      else ([Join(st.line + [p.text])], LineState(None, rest, [], 0))
    else if len > maxLen then
      if !p.sep && st.line != [] then ([Join(st.line)], LineState(Some(p), rest, [], 0))
      else
        var at := Max(maxLen - st.lineLen, floor);
        var cut := if at <= |p.text| then at else |p.text|;
        var here := p.text[..cut];
        var there := p.text[cut..];
        var line := if here != "" then st.line + [here] else st.line;
        (if line != [] then [Join(line)] else [],
         LineState(if there != "" then Some(Part(there, p.sep)) else None, rest, [], 0))
    else ([], LineState(None, rest, st.line + [p.text], len))
  }

  /** The code as written: with a maximum line length of zero (or less), a
      part that does not fit is cut after no characters, nothing is yielded,
      and the loop comes back to the state it started from, forever. */
  lemma StrToLinesStuck(t: string, sep: bool, maxLen: int, esc: string -> nat)
    requires t != "" && maxLen <= 0 && esc(t) > maxLen
    ensures var st := LineState(Some(Part(t, sep)), [], [], 0);
            LineStep(st, maxLen, 0, esc) == ([], st)
  {
    assert t[0..] == t;
  }

  /** With the cut floored at one character the same state yields the
      first character and moves on. */
  lemma StrToLinesCorrectedMoves(t: string, sep: bool, maxLen: int, esc: string -> nat)
    requires t != "" && maxLen <= 0 && esc(t) > maxLen
    ensures var st := LineState(Some(Part(t, sep)), [], [], 0);
            LineStep(st, maxLen, 1, esc).0 == [t[..1]]
  {
    var st := LineState(Some(Part(t, sep)), [], [], 0);
    assert Max(maxLen - 0, 1) == 1;
    assert [] + [t[..1]] == [t[..1]];
    assert Join([t[..1]]) == t[..1] + Join([]);
    assert t[..1] + "" == t[..1];
    assert LineStep(st, maxLen, 1, esc).0 == [Join([t[..1]])];
  }

  lemma {:induction false} JoinAppend(a: seq<string>, b: seq<string>)
    ensures Join(a + b) == Join(a) + Join(b)
    decreases a
  {
    if a == [] {
      assert a + b == b;
    } else {
      assert (a + b)[0] == a[0];
      assert (a + b)[1..] == a[1..] + b;
      JoinAppend(a[1..], b);
      Utils.Assoc(a[0], Join(a[1..]), Join(b));
    }
  }

  lemma {:induction false} JoinNonEmpty(xs: seq<string>)
    requires xs != [] && xs[0] != ""
    ensures Join(xs) != ""
  {
  }

  /** The next part to place and the parts after it. */
  function Pending(st: LineState): (r: (Part, seq<Part>))
    requires !Done(st) && WellFormed(st)
    ensures r.0.text != "" && NonEmptyParts(r.1)
    ensures (if st.next.Some? then st.next.value.text else "") + JoinParts(st.rest) == r.0.text + JoinParts(r.1)
    ensures Chars(st) == |r.0.text| + |JoinParts(r.1)|
  {
    if st.next.Some? then (st.next.value, st.rest)
    else
      assert JoinParts(st.rest) == st.rest[0].text + JoinParts(st.rest[1..]);
      (st.rest[0], st.rest[1..])
  }

  /** What one corrected step must achieve: what it yields followed by
      what is left after it is what was left before, every yielded line is
      non-empty, and the step makes progress. */
  predicate StepOk(st: LineState, out: seq<string>, st': LineState)
  {
    WellFormed(st') &&
    Join(out) + Remaining(st') == Remaining(st) &&
    (forall i :: 0 <= i < |out| ==> out[i] != "") &&
    (Chars(st') < Chars(st) || (Chars(st') == Chars(st) && |st'.line| < |st.line|))
  }

  lemma RemainingOfPending(st: LineState)
    requires !Done(st) && WellFormed(st)
    ensures Remaining(st) == Join(st.line) + (Pending(st).0.text + JoinParts(Pending(st).1))
  {
  }

  lemma StepKeepsText(st: LineState, maxLen: int, esc: string -> nat)
    requires !Done(st) && WellFormed(st)
    ensures StepOk(st, LineStep(st, maxLen, 1, esc).0, LineStep(st, maxLen, 1, esc).1)
  {
    var (p, rest) := Pending(st);
    var len := st.lineLen + esc(p.text);
    RemainingOfPending(st);
    if len == maxLen && !(!p.sep && |st.line| > 1) {
      FitStep(st, p, rest, maxLen, esc);
    } else if len > maxLen && !(!p.sep && st.line != []) {
      CutStep(st, p, rest, maxLen, esc);
    } else if len < maxLen {
      AppendStep(st, p, rest, maxLen, esc);
    } else {
      FlushStep(st, p, rest, maxLen, esc);
    }
  }

  /** The part exactly fills the line and ends it. */
  lemma FitStep(st: LineState, p: Part, rest: seq<Part>, maxLen: int, esc: string -> nat)
    requires !Done(st) && WellFormed(st) && Pending(st) == (p, rest)
    requires Remaining(st) == Join(st.line) + (p.text + JoinParts(rest))
    requires st.lineLen + esc(p.text) == maxLen && !(!p.sep && |st.line| > 1)
    ensures StepOk(st, LineStep(st, maxLen, 1, esc).0, LineStep(st, maxLen, 1, esc).1)
  {
    var L := Join(st.line);
    var R := JoinParts(rest);
    JoinAppend(st.line, [p.text]);
    assert Join([p.text]) == p.text;
    var (out, st') := LineStep(st, maxLen, 1, esc);
    assert out == [L + p.text];
    assert Join(out) == L + p.text;
    if st.line != [] { JoinNonEmpty(st.line); }
    assert Remaining(st') == R;
    Utils.Assoc(L, p.text, R);
  }

  /** The part fits with room to spare and joins the line. */
  lemma AppendStep(st: LineState, p: Part, rest: seq<Part>, maxLen: int, esc: string -> nat)
    requires !Done(st) && WellFormed(st) && Pending(st) == (p, rest)
    requires Remaining(st) == Join(st.line) + (p.text + JoinParts(rest))
    requires st.lineLen + esc(p.text) < maxLen
    ensures StepOk(st, LineStep(st, maxLen, 1, esc).0, LineStep(st, maxLen, 1, esc).1)
  {
    var L := Join(st.line);
    var R := JoinParts(rest);
    JoinAppend(st.line, [p.text]);
    assert Join([p.text]) == p.text;
    var (out, st') := LineStep(st, maxLen, 1, esc);
    assert Join(out) == "";
    assert Remaining(st') == (L + p.text) + R;
    Utils.Assoc(L, p.text, R);
  }

  /** A word that would overflow a line holding other pieces ends that line
      and waits for the next one. */
  lemma FlushStep(st: LineState, p: Part, rest: seq<Part>, maxLen: int, esc: string -> nat)
    requires !Done(st) && WellFormed(st) && Pending(st) == (p, rest)
    requires Remaining(st) == Join(st.line) + (p.text + JoinParts(rest))
    requires !p.sep && st.line != [] && st.lineLen + esc(p.text) >= maxLen
    requires st.lineLen + esc(p.text) == maxLen ==> |st.line| > 1
    ensures StepOk(st, LineStep(st, maxLen, 1, esc).0, LineStep(st, maxLen, 1, esc).1)
  {
    var (out, st') := LineStep(st, maxLen, 1, esc);
    JoinNonEmpty(st.line);
    assert out == [Join(st.line)];
    assert Join(out) == Join(st.line);
    assert Remaining(st') == p.text + JoinParts(rest);
  }

  /** Where the corrected step cuts a part that does not fit: after the
      room left on the line, but at least one and at most all characters. */
  function CutPoint(t: string, room: int): (k: nat)
    requires t != ""
    ensures 1 <= k <= |t|
    ensures room >= 1 && room <= |t| ==> k == room
  {
    var at := Max(room, 1);
    if at <= |t| then at else |t|
  }

  /** The corrected step on a part that does not fit yields the line with
      the head of the part, and keeps the tail, if any, pending. */
  lemma CutShape(st: LineState, p: Part, rest: seq<Part>, maxLen: int, esc: string -> nat)
    requires !Done(st) && WellFormed(st) && Pending(st) == (p, rest)
    requires st.lineLen + esc(p.text) > maxLen && !(!p.sep && st.line != [])
    ensures var k := CutPoint(p.text, maxLen - st.lineLen);
            LineStep(st, maxLen, 1, esc) ==
              ([Join(st.line + [p.text[..k]])],
               LineState(if k < |p.text| then Some(Part(p.text[k..], p.sep)) else None, rest, [], 0))
  {
    var k := CutPoint(p.text, maxLen - st.lineLen);
    assert p.text[..k] != "";
    assert p.text[k..] != "" <==> k < |p.text|;
  }

  /** A part that does not fit is cut: the head ends the line, the tail
      waits for the next one. */
  lemma CutStep(st: LineState, p: Part, rest: seq<Part>, maxLen: int, esc: string -> nat)
    requires !Done(st) && WellFormed(st) && Pending(st) == (p, rest)
    requires Remaining(st) == Join(st.line) + (p.text + JoinParts(rest))
    requires st.lineLen + esc(p.text) > maxLen && !(!p.sep && st.line != [])
    ensures StepOk(st, LineStep(st, maxLen, 1, esc).0, LineStep(st, maxLen, 1, esc).1)
  {
    CutShape(st, p, rest, maxLen, esc);
    CutKeepsText(st, p, rest, CutPoint(p.text, maxLen - st.lineLen));
  }

  /** Cutting the pending part after `k` characters, yielding the line with
      the head and keeping the tail, loses nothing and makes progress. */
  lemma CutKeepsText(st: LineState, p: Part, rest: seq<Part>, k: nat)
    requires !Done(st) && WellFormed(st) && Pending(st) == (p, rest)
    requires Remaining(st) == Join(st.line) + (p.text + JoinParts(rest))
    requires 1 <= k <= |p.text|
    ensures StepOk(st, [Join(st.line + [p.text[..k]])],
                   LineState(if k < |p.text| then Some(Part(p.text[k..], p.sep)) else None, rest, [], 0))
  {
    var L := Join(st.line);
    var R := JoinParts(rest);
    var here := p.text[..k];
    var there := p.text[k..];
    assert p.text == here + there;
    var out := [Join(st.line + [here])];
    var st' := LineState(if k < |p.text| then Some(Part(there, p.sep)) else None, rest, [], 0);
    JoinAppend(st.line, [here]);
    assert Join([here]) == here + Join([]);
    assert Join(out) == Join(st.line + [here]) + Join([]);
    assert Join(out) == L + here;
    assert out[0] != "";
    assert Remaining(st') == there + R;
    Utils.Assoc(L, here, there + R);
    Utils.Assoc(here, there, R);
  }

  /** Runs the loop to the end, then yields the last line if any. */
  function RunLines(st: LineState, maxLen: int, esc: string -> nat): (r: seq<string>)
    requires WellFormed(st)
    ensures Join(r) == Remaining(st)
    ensures forall i :: 0 <= i < |r| ==> r[i] != ""
    decreases Chars(st), |st.line|
  {
    if Done(st) then
      if st.line != [] then JoinNonEmpty(st.line); assert Join([Join(st.line)]) == Join(st.line); [Join(st.line)] else []
    else
      var (out, st') := LineStep(st, maxLen, 1, esc);
      StepKeepsText(st, maxLen, esc);
      assert StepOk(st, out, st');
      var tail := RunLines(st', maxLen, esc);
      JoinAppend(out, tail);
      out + tail
  }

  /** `str_to_lines(max_len, use_quote, s)` with the cut floored at one
      character: a string short enough is yielded whole (nothing for an
      empty one); otherwise the split parts are packed into lines. */
  function StrToLines(maxLen: int, s: string, esc: string -> nat, isWord: char -> bool): (r: seq<string>)
    ensures Join(r) == s
    ensures forall i :: 0 <= i < |r| ==> r[i] != ""
  {
    if |s| <= maxLen then (if s != "" then [s] else [])
    else RunLines(LineState(None, SplitWords(s, isWord), [], 0), maxLen, esc)
  }

  /** With a positive maximum the line's escaped length stays below it
      between iterations, so the floor is never reached and the corrected
      step is the step as written. */
  lemma FloorUnreachedForPositiveMax(st: LineState, maxLen: int, esc: string -> nat)
    requires !Done(st) && maxLen > 0 && st.lineLen < maxLen
    ensures LineStep(st, maxLen, 1, esc) == LineStep(st, maxLen, 0, esc)
    ensures LineStep(st, maxLen, 0, esc).1.lineLen < maxLen
  {
  }

  /** The generator as a loop: the lines yielded so far plus what the rest
      of the loop yields are always the full answer. */
  method StrToLinesLoop(maxLen: int, s: string, esc: string -> nat, isWord: char -> bool) returns (lines: seq<string>)
    ensures lines == StrToLines(maxLen, s, esc, isWord)
  {
    if |s| <= maxLen {
      lines := if s != "" then [s] else [];
      return;
    }
    var st := LineState(None, SplitWords(s, isWord), [], 0);
    lines := [];
    assert lines + RunLines(st, maxLen, esc) == StrToLines(maxLen, s, esc, isWord);
    while !Done(st)
      invariant WellFormed(st)
      invariant lines + RunLines(st, maxLen, esc) == StrToLines(maxLen, s, esc, isWord)
      decreases Chars(st), |st.line|
    {
      var step := LineStep(st, maxLen, 1, esc);
      StepKeepsText(st, maxLen, esc);
      assert RunLines(st, maxLen, esc) == step.0 + RunLines(step.1, maxLen, esc);
      Utils.Assoc(lines, step.0, RunLines(step.1, maxLen, esc));
      lines := lines + step.0;
      st := step.1;
    }
    if st.line != [] {
      lines := lines + [Join(st.line)];
    } else {
      assert lines + [] == lines;
    }
  }
}
