/** The plain renderer of `prettyprinter/render.py`: the SDoc stream is cut
    into lines, the last string of each line loses its trailing whitespace,
    and the text is appended to an output string that stands for the
    stream. */
module Render {
  import opened SDocs
  import Utils

  // ---------------------------------------------------------------------
  // Lines.
  // ---------------------------------------------------------------------

  function Flatten(lines: seq<seq<SDoc>>): seq<SDoc>
  {
    if lines == [] then [] else lines[0] + Flatten(lines[1..])
  }

  lemma {:induction false} FlattenAppend(a: seq<seq<SDoc>>, b: seq<seq<SDoc>>)
    ensures Flatten(a + b) == Flatten(a) + Flatten(b)
    decreases a
  {
    if a == [] {
      assert a + b == b;
    } else {
      assert (a + b)[1..] == a[1..] + b;
      FlattenAppend(a[1..], b);
    }
  }

  /** No line break anywhere in `xs`. */
  predicate NoLines(xs: seq<SDoc>)
  {
    forall k :: 0 <= k < |xs| ==> !xs[k].SLine?
  }

  /** A line as `as_lines` builds it: an optional leading SLine, then no
      other SLine. */
  predicate LineBody(line: seq<SDoc>)
  {
    forall k :: 1 <= k < |line| ==> !line[k].SLine?
  }

  function CountLines(xs: seq<SDoc>): nat
  {
    if xs == [] then 0 else (if xs[0].SLine? then 1 else 0) + CountLines(xs[1..])
  }

  /** The generator of `as_lines`, with `cur` the line collected so far:
      every SLine closes the current line (even an empty one) and starts a
      new line with itself; the last line is yielded only when non-empty. */
  function AsLinesFrom(cur: seq<SDoc>, xs: seq<SDoc>): (r: seq<seq<SDoc>>)
    requires LineBody(cur)
    ensures Flatten(r) == cur + xs
    ensures |r| > 0 ==> cur <= r[0] && NoLines(r[0][|cur|..])
    ensures forall i :: 0 < i < |r| ==> r[i] != [] && r[i][0].SLine? && LineBody(r[i])
    decreases xs
  {
    if xs == [] then
      (if cur == [] then [] else [cur])
    else if xs[0].SLine? then
      var tail := AsLinesFrom([xs[0]], xs[1..]);
      LinesBreak(cur, xs[0], xs[1..], tail);
      [cur] + tail
    else
      var r := AsLinesFrom(cur + [xs[0]], xs[1..]);
      assert (cur + [xs[0]]) + xs[1..] == cur + xs;
      LinesExtend(cur, xs[0], r);
      r
  }

  /** An SLine closes the current line: the lines after it follow. */
  lemma LinesBreak(cur: seq<SDoc>, x: SDoc, xs: seq<SDoc>, tail: seq<seq<SDoc>>)
    requires x.SLine? && LineBody(cur)
    requires Flatten(tail) == [x] + xs
    requires |tail| > 0 ==> [x] <= tail[0] && NoLines(tail[0][1..])
    requires forall i :: 0 < i < |tail| ==> tail[i] != [] && tail[i][0].SLine? && LineBody(tail[i])
    ensures var r := [cur] + tail;
            Flatten(r) == cur + ([x] + xs) &&
            (|r| > 0 ==> cur <= r[0] && NoLines(r[0][|cur|..])) &&
            (forall i :: 0 < i < |r| ==> r[i] != [] && r[i][0].SLine? && LineBody(r[i]))
  {
    var r := [cur] + tail;
    assert r[0] == cur && r[1..] == tail;
    assert r[0][|cur|..] == [];
    assert |tail| > 0 ==> tail[0] != [] && tail[0][0].SLine?;
    assert forall i :: 0 < i < |r| ==> r[i] == tail[i - 1];
  }

  /** Anything but an SLine joins the current line. */
  lemma LinesExtend(cur: seq<SDoc>, x: SDoc, r: seq<seq<SDoc>>)
    requires !x.SLine?
    requires |r| > 0 ==> cur + [x] <= r[0] && NoLines(r[0][|cur + [x]|..])
    ensures |r| > 0 ==> cur <= r[0] && NoLines(r[0][|cur|..])
  {
    if |r| > 0 {
      var line, n := r[0], |cur|;
      assert line[..n] == (cur + [x])[..n] == cur;
      assert line[n] == x;
      forall k | 0 <= k < |line[n..]|
        ensures !line[n..][k].SLine?
      {
        if k > 0 {
          assert line[n..][k] == line[n + 1..][k - 1];
        }
      }
    }
  }

  lemma {:induction false} AsLinesFromCount(cur: seq<SDoc>, xs: seq<SDoc>)
    requires LineBody(cur)
    ensures |AsLinesFrom(cur, xs)| == (if cur == [] && xs == [] then 0 else 1 + CountLines(xs))
    decreases xs
  {
    if xs != [] {
      if xs[0].SLine? {
        AsLinesFromCount([xs[0]], xs[1..]);
      } else {
        AsLinesFromCount(cur + [xs[0]], xs[1..]);
      }
    }
  }

  /** `as_lines(sdocs)`: the lines concatenate back to the stream, there is
      one line per SLine plus the first, each later line starts with its
      SLine and has no other, and the first line has none. */
  function AsLines(out: seq<SDoc>): (r: seq<seq<SDoc>>)
    ensures Flatten(r) == out
    ensures |r| == (if out == [] then 0 else 1 + CountLines(out))
    ensures |r| > 0 ==> NoLines(r[0])
    ensures forall i :: 0 < i < |r| ==> r[i] != [] && r[i][0].SLine? && LineBody(r[i])
  {
    var r := AsLinesFrom([], out);
    AsLinesFromCount([], out);
    assert [] + out == out;
    assert |r| > 0 ==> r[0][0..] == r[0];
    r
  }

  // ---------------------------------------------------------------------
  // Text pieces.
  // ---------------------------------------------------------------------

  /** Python's `str.isspace` on one character. */
  predicate IsSpace(c: char)
  {
    var n := c as int;
    9 <= n <= 13 || 28 <= n <= 32 || n == 0x85 || n == 0xA0 || n == 0x1680 ||
    0x2000 <= n <= 0x200A || n == 0x2028 || n == 0x2029 || n == 0x202F || n == 0x205F || n == 0x3000
  }

  /** `s.rstrip()`: the longest prefix of `s` that does not end in
      whitespace, having removed only whitespace. */
  function RStrip(s: string): (r: string)
    ensures r <= s
    ensures r == [] || !IsSpace(r[|r| - 1])
    ensures forall k :: |r| <= k < |s| ==> IsSpace(s[k])
  {
    if s == [] || !IsSpace(s[|s| - 1]) then s else RStrip(s[..|s| - 1])
  }

  /** `separator * n`, which is empty for a negative `n`. */
  function Repeat(sep: string, n: int): (r: string)
    ensures |r| == (if n <= 0 then 0 else n * |sep|)
    decreases n
  {
    if n <= 0 then "" else sep + Repeat(sep, n - 1)
  }

  /** With a one-character separator the indentation is `n` copies of it. */
  lemma {:induction false} RepeatChar(c: char, n: int)
    ensures forall k :: 0 <= k < |Repeat([c], n)| ==> Repeat([c], n)[k] == c
    decreases n
  {
    if n > 0 {
      RepeatChar(c, n - 1);
      assert Repeat([c], n) == [c] + Repeat([c], n - 1);
    }
  }

  /** What one SDoc writes: a string (right-stripped when it is the last
      string on its line), a line break followed by the indentation, or
      nothing for an annotation marker. */
  function Piece(x: SDoc, lastOnLine: bool, newline: string, separator: string): string
  {
    match x
    case SText(s) => if lastOnLine then RStrip(s) else s
    case SLine(i) => newline + Repeat(separator, i)
    case _ => ""
  }

  /** No string before the next line break (or the end) of `xs`. */
  predicate NoTextBeforeLine(xs: seq<SDoc>)
  {
    xs == [] || xs[0].SLine? || (!xs[0].SText? && NoTextBeforeLine(xs[1..]))
  }

  /** The rendered text, defined element by element without cutting the
      stream into lines: a string is stripped exactly when no other string
      follows it on its line. */
  function Rendered(out: seq<SDoc>, newline: string, separator: string): string
  {
    if out == [] then ""
    else Piece(out[0], out[0].SText? && NoTextBeforeLine(out[1..]), newline, separator) + Rendered(out[1..], newline, separator)
  }

  lemma {:induction false} NoTextBeforeLineAppend(xs: seq<SDoc>, b: seq<SDoc>)
    requires b == [] || b[0].SLine?
    ensures NoTextBeforeLine(xs + b) == NoTextBeforeLine(xs)
    decreases xs
  {
    if xs == [] {
      assert xs + b == b;
    } else {
      assert (xs + b)[0] == xs[0] && (xs + b)[1..] == xs[1..] + b;
      NoTextBeforeLineAppend(xs[1..], b);
    }
  }

  /** Rendering splits at a line break. */
  lemma {:induction false} RenderedAppend(a: seq<SDoc>, b: seq<SDoc>, newline: string, separator: string)
    requires b == [] || b[0].SLine?
    ensures Rendered(a + b, newline, separator) == Rendered(a, newline, separator) + Rendered(b, newline, separator)
    decreases a
  {
    if a == [] {
      assert a + b == b;
    } else {
      assert (a + b)[0] == a[0] && (a + b)[1..] == a[1..] + b;
      NoTextBeforeLineAppend(a[1..], b);
      RenderedAppend(a[1..], b, newline, separator);
      var p := Piece(a[0], a[0].SText? && NoTextBeforeLine(a[1..]), newline, separator);
      assert Rendered(a + b, newline, separator) == p + Rendered(a[1..] + b, newline, separator);
      Utils.Assoc(p, Rendered(a[1..], newline, separator), Rendered(b, newline, separator));
    }
  }

  lemma {:induction false} NoLinesTextFree(xs: seq<SDoc>)
    requires NoLines(xs)
    ensures NoTextBeforeLine(xs) <==> forall k :: 0 <= k < |xs| ==> !xs[k].SText?
    decreases xs
  {
    if xs != [] {
      NoLinesTextFree(xs[1..]);
      assert forall k :: 1 <= k < |xs| ==> xs[k] == xs[1..][k - 1];
    }
  }

  predicate IsText(x: SDoc)
  {
    x.SText?
  }

  // ---------------------------------------------------------------------
  // The renderer.
  // ---------------------------------------------------------------------

  /** `default_render_to_stream(stream, sdocs, newline, separator)`, with the
      stream as the string it ends up holding. Each line's last string is
      found with `rfind_idx`, replaced by its right-stripped text, and the
      line is written out. */
  method RenderToStream(out: seq<SDoc>, newline: string, separator: string) returns (written: string)
    ensures out == [] ==> written == ""
    ensures written == Rendered(out, newline, separator)
  {
    if out == [] {
      return "";
    }
    var lines := AsLines(out);
    written := "";
    var i := 0;
    while i < |lines|
      invariant 0 <= i <= |lines|
      invariant written == Rendered(Flatten(lines[..i]), newline, separator)
    {
      var text := WriteLine(lines[i], newline, separator);
      LinesStep(lines, i, newline, separator);
      written := written + text;
      i := i + 1;
    }
    assert lines[..i] == lines;
  }

  /** The body of the renderer's loop for one line: the last string is
      right-stripped in place, then every SDoc of the line is written. */
  method WriteLine(line0: seq<SDoc>, newline: string, separator: string) returns (text: string)
    requires LineBody(line0)
    ensures text == Rendered(line0, newline, separator)
  {
    var idx := Utils.RFindIdx(IsText, line0);
    var line := line0;
    if idx != -1 {
      line := line0[idx := SText(RStrip(line0[idx].s))];
    }
    text := "";
    var j := 0;
    while j < |line|
      invariant 0 <= j <= |line| == |line0|
      invariant text + Rendered(line0[j..], newline, separator) == Rendered(line0, newline, separator)
    {
      LinePiece(line0, idx, j, newline, separator);
      var piece := match line[j] {
        case SText(s) => s
        case SLine(n) => newline + Repeat(separator, n)
        case _ => ""
      };
      assert piece == Piece(line[j], false, newline, separator);
      WriteStep(text, piece, line0, j, newline, separator);
      text := text + piece;
      j := j + 1;
    }
    assert line0[j..] == [];
    assert text + [] == text;
  }

  /** Writing the piece of position `j` keeps the loop invariant of `WriteLine`. */
  lemma WriteStep(text: string, piece: string, line0: seq<SDoc>, j: int, newline: string, separator: string)
    requires 0 <= j < |line0|
    requires text + Rendered(line0[j..], newline, separator) == Rendered(line0, newline, separator)
    requires piece == Piece(line0[j], line0[j].SText? && NoTextBeforeLine(line0[j + 1..]), newline, separator)
    ensures (text + piece) + Rendered(line0[j + 1..], newline, separator) == Rendered(line0, newline, separator)
  {
    assert line0[j..][0] == line0[j] && line0[j..][1..] == line0[j + 1..];
    Utils.Assoc(text, piece, Rendered(line0[j + 1..], newline, separator));
  }

  /** The text the loop writes for position `j` of a line is the piece the
      element-wise definition assigns it. */
  lemma LinePiece(line0: seq<SDoc>, idx: int, j: int, newline: string, separator: string)
    requires 0 <= j < |line0|
    requires LineBody(line0)
    requires -1 <= idx < |line0|
    requires idx == -1 <==> forall i :: 0 <= i < |line0| ==> !IsText(line0[i])
    requires idx >= 0 ==> IsText(line0[idx]) && forall k :: idx < k < |line0| ==> !IsText(line0[k])
    ensures var line := if idx != -1 then line0[idx := SText(RStrip(line0[idx].s))] else line0;
            Piece(line[j], false, newline, separator) ==
              Piece(line0[j], line0[j].SText? && NoTextBeforeLine(line0[j + 1..]), newline, separator)
  {
    var after := line0[j + 1..];
    assert NoLines(after) by {
      forall k | 0 <= k < |after| ensures !after[k].SLine? {
        assert after[k] == line0[j + 1 + k];
      }
    }
    NoLinesTextFree(after);
    if line0[j].SText? {
      if j == idx {
        assert forall k :: 0 <= k < |after| ==> !after[k].SText? by {
          forall k | 0 <= k < |after| ensures !after[k].SText? {
            assert after[k] == line0[j + 1 + k];
          }
        }
      } else {
        assert j < idx;
        assert after[idx - j - 1] == line0[idx];
      }
    }
  }

  lemma LinesStep(lines: seq<seq<SDoc>>, i: int, newline: string, separator: string)
    requires 0 <= i < |lines|
    requires forall k :: 0 < k < |lines| ==> lines[k] != [] && lines[k][0].SLine?
    ensures Rendered(Flatten(lines[..i + 1]), newline, separator) ==
              Rendered(Flatten(lines[..i]), newline, separator) + Rendered(lines[i], newline, separator)
  {
    var pre := lines[..i];
    var x := lines[i];
    assert lines[..i + 1] == pre + [x];
    FlattenAppend(pre, [x]);
    FlattenOne(x);
    assert Flatten(lines[..i + 1]) == Flatten(pre) + x;
    if i == 0 {
      assert Flatten(pre) == [];
      assert Flatten(pre) + x == x;
    } else {
      RenderedAppend(Flatten(pre), x, newline, separator);
    }
  }

  lemma FlattenOne(x: seq<SDoc>)
    ensures Flatten([x]) == x
  {
    assert [x][1..] == [];
    assert Flatten([x]) == x + Flatten([]);
  }

  /** `default_render_to_str(sdocs, newline, separator)`: exactly what the
      stream renderer wrote. */
  method RenderToStr(out: seq<SDoc>, newline: string, separator: string) returns (r: string)
    ensures r == Rendered(out, newline, separator)
  {
    r := RenderToStream(out, newline, separator);
  }

  // ---------------------------------------------------------------------
  // Properties.
  // ---------------------------------------------------------------------

  lemma {:induction false} NoTextBeforeLineIgnoresMarkers(xs: seq<SDoc>)
    ensures NoTextBeforeLine(Unannotated(xs)) == NoTextBeforeLine(xs)
    decreases xs
  {
    if xs != [] {
      NoTextBeforeLineIgnoresMarkers(xs[1..]);
      var u := Unannotated(xs[1..]);
      if !(xs[0].SPush? || xs[0].SPop?) {
        assert Unannotated(xs) == [xs[0]] + u;
        assert ([xs[0]] + u)[1..] == u;
      } else {
        assert Unannotated(xs) == [] + u;
      }
    }
  }

  /** Annotation push and pop SDocs contribute no characters. */
  lemma {:induction false} RenderedIgnoresMarkers(out: seq<SDoc>, newline: string, separator: string)
    ensures Rendered(Unannotated(out), newline, separator) == Rendered(out, newline, separator)
    decreases out
  {
    if out != [] {
      RenderedIgnoresMarkers(out[1..], newline, separator);
      NoTextBeforeLineIgnoresMarkers(out[1..]);
      var u := Unannotated(out[1..]);
      if !(out[0].SPush? || out[0].SPop?) {
        assert Unannotated(out) == [out[0]] + u;
        assert ([out[0]] + u)[1..] == u;
      } else {
        assert Unannotated(out) == [] + u == u;
        assert !out[0].SText? && Piece(out[0], false, newline, separator) == "";
        assert Rendered(out, newline, separator) == Rendered(out[1..], newline, separator);
      }
    }
  }

  /** Two lines of two strings each: only the second string of each line
      loses its trailing whitespace, and the line break writes the newline
      and the indentation. The stream the `align` example lays out,
      `["lorem ", "ipsum", SLine(6), "aligned!"]`, is an instance. */
  lemma TwoLinesRender(x: string, y: string, n: int, z: string, newline: string, separator: string)
    ensures Rendered([SText(x), SText(y), SLine(n), SText(z)], newline, separator)
              == (x + RStrip(y)) + (newline + Repeat(separator, n) + RStrip(z))
  {
    var a := [SText(x), SText(y)];
    var b := [SLine(n), SText(z)];
    assert a + b == [SText(x), SText(y), SLine(n), SText(z)];
    TwoPieces(SText(x), SText(y), newline, separator);
    TwoPieces(SLine(n), SText(z), newline, separator);
    RenderedAppend(a, b, newline, separator);
  }

  lemma TwoPieces(x: SDoc, y: SDoc, newline: string, separator: string)
    requires y.SText?
    ensures Rendered([x, y], newline, separator) == Piece(x, false, newline, separator) + RStrip(y.s)
  {
    var xs := [x, y];
    assert xs[1..] == [y] && [y][1..] == [];
    assert !NoTextBeforeLine([y]) && NoTextBeforeLine([]);
    assert Rendered([y], newline, separator) == RStrip(y.s) + "" == RStrip(y.s);
    assert Rendered(xs, newline, separator) == Piece(x, false, newline, separator) + Rendered([y], newline, separator);
  }

}
