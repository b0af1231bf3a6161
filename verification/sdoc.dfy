/** The simple-document stream of `prettyprinter/sdoctypes.py` that the
    layout produces and the renderers consume. Python's bare `str` SDocs are
    `SText`. */
module SDocs {
  import opened Wrappers
  import opened DocTypes

  datatype SDoc = SText(s: string) | SLine(indent: int) | SPush(value: Annotation) | SPop(value: Annotation)

  /** The output column after writing `out` from column `col`: a string
      advances by its length, a line break moves to its indent, annotation
      markers do not move. */
  function ColumnAfter(col: int, out: seq<SDoc>): int
    decreases out
  {
    if out == [] then col
    else
      var c := match out[0]
        case SText(s) => col + |s|
        case SLine(i) => i
        case _ => col;
      ColumnAfter(c, out[1..])
  }

  lemma {:induction false} ColumnAfterAppend(col: int, a: seq<SDoc>, b: seq<SDoc>)
    ensures ColumnAfter(col, a + b) == ColumnAfter(ColumnAfter(col, a), b)
    decreases a
  {
    if a == [] {
      assert a + b == b;
    } else {
      assert (a + b)[1..] == a[1..] + b;
      var c := match a[0]
        case SText(s) => col + |s|
        case SLine(i) => i
        case _ => col;
      ColumnAfterAppend(c, a[1..], b);
    }
  }

  /** Matches annotation markers against the open annotations `open`
      (innermost first): None on a pop that does not close the innermost
      open annotation, otherwise the annotations still open at the end. */
  function MatchMarkers(open: seq<Annotation>, out: seq<SDoc>): Option<seq<Annotation>>
    decreases out
  {
    if out == [] then Some(open)
    else
      match out[0]
      case SPush(a) => MatchMarkers([a] + open, out[1..])
      case SPop(a) => if open != [] && open[0] == a then MatchMarkers(open[1..], out[1..]) else None
      case _ => MatchMarkers(open, out[1..])
  }

  /** Every push is closed by a pop of the same value, properly nested. */
  predicate Balanced(out: seq<SDoc>)
  {
    MatchMarkers([], out) == Some([])
  }

  lemma {:induction false} MatchMarkersAppend(open: seq<Annotation>, a: seq<SDoc>, b: seq<SDoc>)
    ensures MatchMarkers(open, a + b) ==
              (if MatchMarkers(open, a).None? then None else MatchMarkers(MatchMarkers(open, a).value, b))
    decreases a
  {
    if a == [] {
      assert a + b == b;
    } else {
      assert (a + b)[1..] == a[1..] + b;
      assert (a + b)[0] == a[0];
      match a[0]
      case SPush(x) => MatchMarkersAppend([x] + open, a[1..], b);
      case SPop(x) =>
        if open != [] && open[0] == x {
          MatchMarkersAppend(open[1..], a[1..], b);
        }
      case _ => MatchMarkersAppend(open, a[1..], b);
    }
  }

  /** The stream without its annotation markers. */
  function Unannotated(out: seq<SDoc>): (r: seq<SDoc>)
    ensures forall k :: 0 <= k < |r| ==> r[k].SText? || r[k].SLine?
    ensures |r| <= |out|
  {
    if out == [] then []
    else (if out[0].SPush? || out[0].SPop? then [] else [out[0]]) + Unannotated(out[1..])
  }

  /** Markers never move the column. */
  lemma {:induction false} ColumnIgnoresMarkers(col: int, out: seq<SDoc>)
    ensures ColumnAfter(col, Unannotated(out)) == ColumnAfter(col, out)
    decreases out
  {
    if out != [] {
      var c := match out[0]
        case SText(s) => col + |s|
        case SLine(i) => i
        case _ => col;
      ColumnIgnoresMarkers(c, out[1..]);
      var head := if out[0].SPush? || out[0].SPop? then [] else [out[0]];
      ColumnAfterAppend(col, head, Unannotated(out[1..]));
    }
  }
}
