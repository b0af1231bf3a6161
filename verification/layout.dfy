/** `best_layout` of `prettyprinter/layout.py`: the stack-and-loop form of
    Lindig's "Strictly Pretty". `Advance` is one iteration of its loop, `Run`
    the whole loop as a recursive reference, and `BestLayout` the loop itself. */
module Layout {
  import opened Wrappers
  import opened DocTypes
  import opened SDocs
  import opened LayoutStack
  import opened Fitting

  /** The page width, the ribbon width and the fitting predicate. */
  datatype Config = Config(width: int, ribbonWidth: int, kind: Predicate)

  /** `max(0, min(width, round(ribbon_frac * width)))`, given the rounded
      product. */
  function RibbonWidth(width: int, roundedProduct: int): (r: int)
    ensures r >= 0
    ensures width >= 0 ==> r <= width
    ensures 0 <= roundedProduct <= width ==> r == roundedProduct
    ensures roundedProduct < 0 ==> r == 0
    ensures roundedProduct > width >= 0 ==> r == width
  {
    var m := if width < roundedProduct then width else roundedProduct;
    if m < 0 then 0 else m
  }

  function Min(a: int, b: int): (r: int)
    ensures r <= a && r <= b && (r == a || r == b)
  {
    if a <= b then a else b
  }

  /** The columns a Group or Fill may use: what is left of the page line and
      of the ribbon that starts at the current indent. */
  function AvailableWidth(cfg: Config, indent: int, outcol: int): (r: int)
    ensures r <= cfg.width - outcol && r <= indent + cfg.ribbonWidth - outcol
    ensures r == cfg.width - outcol || r == indent + cfg.ribbonWidth - outcol
  {
    Min(cfg.width - outcol, indent + cfg.ribbonWidth - outcol)
  }

  function FitParamsAt(cfg: Config, indent: int, outcol: int): (p: FitParams)
    ensures p.minNestingLevel == Min(outcol, indent) && p.maxWidth == AvailableWidth(cfg, indent, outcol)
  {
    FitParams(cfg.width, cfg.ribbonWidth, Min(outcol, indent), AvailableWidth(cfg, indent, outcol))
  }

  /** Whether a Group at this position is laid out flat: the predicate runs
      on a copy of the stack with the body, flat, on top. */
  predicate GroupFits(cfg: Config, indent: int, outcol: int, body: Doc, rest: seq<Frame>)
  {
    FitsWithin(cfg.kind, FitParamsAt(cfg, indent, outcol), [Frame(indent, Flat, DocItem(body))] + rest)
  }

  /** Whether a Fill's lookahead accepts `d` alone, flat; Fill always uses
      the fast predicate. */
  predicate FillFits(cfg: Config, indent: int, outcol: int, d: Doc)
  {
    FitsWithin(FastPredicate, FitParamsAt(cfg, indent, outcol), [Frame(indent, Flat, DocItem(d))])
  }

  function ModeIf(flat: bool): Mode
  {
    if flat then Flat else Break
  }

  datatype LayoutStep = LayoutStep(emitted: seq<SDoc>, stack: seq<Frame>, outcol: int)

  /** The frames a Fill with two or more children puts in its place. */
  function FillFrames(cfg: Config, f: Frame, ds: seq<Doc>, outcol: int): (r: seq<Frame>)
    requires |ds| >= 2
    ensures |r| == if |ds| == 2 then 2 else 3
    ensures r[0].indent == f.indent && r[0].item == DocItem(ds[0])
    ensures r[1].indent == f.indent && r[1].item == DocItem(ds[1])
    ensures |ds| > 2 ==> r[2] == Frame(f.indent, f.mode, DocItem(Fill(ds[2..])))
    ensures r[0].mode == Flat <==> FillFits(cfg, f.indent, outcol, ds[0])
    ensures |ds| == 2 ==> r[1].mode == r[0].mode
    ensures |ds| > 2 ==> (r[1].mode == Flat ==> r[0].mode == Flat)
    ensures |ds| > 2 ==> (r[1].mode == Flat <==> FillFits(cfg, f.indent, outcol, Concat(ds[..2])))
  {
    var i := f.indent;
    var fits := FillFits(cfg, i, outcol, ds[0]);
    if |ds| == 2 then
      [Frame(i, ModeIf(fits), DocItem(ds[0])), Frame(i, ModeIf(fits), DocItem(ds[1]))]
    else
      var pairFits := FillFits(cfg, i, outcol, Concat(ds[..2]));
      var remaining := Frame(i, f.mode, DocItem(Fill(ds[2..])));
      PairFitImpliesFirstFits(cfg, i, outcol, ds);
      if pairFits then
        [Frame(i, Flat, DocItem(ds[0])), Frame(i, Flat, DocItem(ds[1])), remaining]
      else if fits then
        [Frame(i, Flat, DocItem(ds[0])), Frame(i, Break, DocItem(ds[1])), remaining]
      else
        [Frame(i, Break, DocItem(ds[0])), Frame(i, Break, DocItem(ds[1])), remaining]
  }

  lemma StackSizeOfTwo(a: Frame, b: Frame)
    ensures StackSize([a, b]) == FrameSize(a) + FrameSize(b)
  {
    assert [a, b][1..] == [b];
    assert [b][1..] == [];
    assert StackSize([b]) == FrameSize(b) + StackSize([]);
    assert StackSize([a, b]) == FrameSize(a) + StackSize([b]);
  }

  lemma StackSizeOfThree(a: Frame, b: Frame, c: Frame)
    ensures StackSize([a, b, c]) == FrameSize(a) + FrameSize(b) + FrameSize(c)
  {
    assert [a, b, c][1..] == [b, c];
    StackSizeOfTwo(b, c);
    assert StackSize([a, b, c]) == FrameSize(a) + StackSize([b, c]);
  }

  lemma FillFramesShrink(cfg: Config, f: Frame, ds: seq<Doc>, outcol: int)
    requires |ds| >= 2
    ensures StackSize(FillFrames(cfg, f, ds, outcol)) < Size(Fill(ds))
  {
    var r := FillFrames(cfg, f, ds, outcol);
    assert SizeSum(ds) == Size(ds[0]) + SizeSum(ds[1..]);
    assert ds[1..][1..] == ds[2..];
    assert SizeSum(ds[1..]) == Size(ds[1]) + SizeSum(ds[2..]);
    if |ds| == 2 {
      assert r == [r[0], r[1]];
      StackSizeOfTwo(r[0], r[1]);
    } else {
      assert r == [r[0], r[1], r[2]];
      StackSizeOfThree(r[0], r[1], r[2]);
    }
  }

  /** When the first two children of a Fill fit flat together, the first
      fits alone: the lookahead of the pair starts with that of the first. */
  lemma PairFitImpliesFirstFits(cfg: Config, indent: int, outcol: int, ds: seq<Doc>)
    requires |ds| >= 2
    ensures FillFits(cfg, indent, outcol, Concat(ds[..2])) ==> FillFits(cfg, indent, outcol, ds[0])
  {
    var p := FitParamsAt(cfg, indent, outcol);
    var pair := [Frame(indent, Flat, DocItem(Concat(ds[..2])))];
    var first := [Frame(indent, Flat, DocItem(ds[0]))];
    FastFitsIffLineFits(p, p.maxWidth, pair);
    FastFitsIffLineFits(p, p.maxWidth, first);
    var a := DocTokens(Flat, ds[0]);
    var b := DocTokens(Flat, ds[1]);
    var two := [ds[0], ds[1]];
    assert ds[..2] == two;
    assert two[0] == ds[0] && two[1..] == [ds[1]];
    assert TokensSeq(Flat, [ds[1]]) == b + TokensSeq(Flat, []);
    assert TokensSeq(Flat, two) == a + TokensSeq(Flat, [ds[1]]);
    assert DocTokens(Flat, Concat(two)) == a + b;
    assert StackTokens(pair) == DocTokens(Flat, Concat(two)) + StackTokens([]);
    assert StackTokens(pair) == a + b;
    assert StackTokens(first) == a + StackTokens([]);
    assert StackTokens(first) == a;
    LineFitsPrefix(p.maxWidth, a, b);
    if Fits(FastPredicate, p, p.maxWidth, pair) {
      assert LineFits(p.maxWidth, a + b);
      assert LineFits(p.maxWidth, a);
      assert Fits(FastPredicate, p, p.maxWidth, first);
    }
    assert FillFits(cfg, indent, outcol, ds[0]) == Fits(FastPredicate, p, p.maxWidth, first);
    assert FillFits(cfg, indent, outcol, Concat(ds[..2])) == Fits(FastPredicate, p, p.maxWidth, pair);
  }

  /** Whether one step replaces a top frame holding `d` by a single frame
      holding a part of `d`. */
  predicate ReplacesTop(d: Doc)
  {
    d.Contextual? || d.FlatChoice? || d.Nest? || d.Group? || d.AlwaysBreak? || (d.Fill? && |d.docs| == 1)
  }

  /** The single frame that takes the place of a top frame holding `d`:
      the normalized evaluation of a contextual document, the branch of a
      FlatChoice that the mode picks, a Nest's body at the deeper indent, a
      Group's body in the mode its lookahead chose, the sole child of a
      Fill in the mode its own lookahead chose, or the body of an
      AlwaysBreak in BREAK mode. */
  function Replacement(cfg: Config, outcol: int, f: Frame, rest: seq<Frame>): (g: Frame)
    requires f.item.DocItem? && ReplacesTop(f.item.doc)
    ensures FrameSize(g) < FrameSize(f)
  {
    var d := f.item.doc;
    SizePositive(d);
    if d.Contextual? then
      var e := Evaluate(d.fn, f.indent, outcol, cfg.width, cfg.ribbonWidth);
      NormalizeSize(e);
      Frame(f.indent, f.mode, DocItem(Normalize(e)))
    else if d.FlatChoice? then
      Frame(f.indent, f.mode, DocItem(if f.mode == Break then d.whenBroken else d.whenFlat))
    else if d.Nest? then
      Frame(f.indent + d.indent, f.mode, DocItem(d.doc))
    else if d.Group? then
      Frame(f.indent, ModeIf(GroupFits(cfg, f.indent, outcol, d.doc, rest)), DocItem(d.doc))
    else if d.Fill? then
      assert SizeSum(d.docs) == Size(d.docs[0]) + SizeSum(d.docs[1..]);
      Frame(f.indent, ModeIf(FillFits(cfg, f.indent, outcol, d.docs[0])), DocItem(d.docs[0]))
    else
      Frame(f.indent, Break, DocItem(d.doc))
  }

  /** One iteration of the loop of `best_layout`. */
  function Advance(cfg: Config, outcol: int, stack: seq<Frame>): (r: LayoutStep)
    requires stack != []
    ensures StackSize(r.stack) < StackSize(stack)
    ensures r.outcol == ColumnAfter(outcol, r.emitted)
    ensures |r.emitted| <= 1
    ensures r.emitted != [] && r.emitted[0].SText? ==> stack[0].item == DocItem(Text(r.emitted[0].s))
    ensures r.emitted != [] && r.emitted[0].SLine? ==>
              stack[0].item == DocItem(HardLine) && r.emitted[0].indent == stack[0].indent
    ensures stack[0].item == DocItem(HardLine) ==>
              r == LayoutStep([SLine(stack[0].indent)], stack[1..], stack[0].indent)
    ensures stack[0].item.DocItem? && stack[0].item.doc.Text? ==>
              r == LayoutStep([SText(stack[0].item.doc.s)], stack[1..], outcol + |stack[0].item.doc.s|)
  {
    var f := stack[0];
    var rest := stack[1..];
    assert stack == [f] + rest;
    match f.item
    case PopItem(a) => LayoutStep([SPop(a)], rest, outcol)
    case DocItem(d) =>
      if ReplacesTop(d) then
        var g := Replacement(cfg, outcol, f, rest);
        ReplaceTopShrinks(f, g, rest);
        LayoutStep([], [g] + rest, outcol)
      else
        SizePositive(d);
        match d
        case Nil => LayoutStep([], rest, outcol)
        case HardLine => LayoutStep([SLine(f.indent)], rest, f.indent)
        case Text(s) => LayoutStep([SText(s)], rest, outcol + |s|)
        case Concat(ds) =>
          ChildrenShrink(f.indent, f.mode, ds, rest);
          LayoutStep([], FramesOf(f.indent, f.mode, ds) + rest, outcol)
        case Annotated(b, a) =>
          var frames := [Frame(f.indent, f.mode, DocItem(b)), Frame(f.indent, f.mode, PopItem(a))];
          AnnotatedFramesSize(frames, b, rest);
          LayoutStep([SPush(a)], frames + rest, outcol)
        case Fill(ds) =>
          if ds == [] then LayoutStep([], rest, outcol)
          else
            var frames := FillFrames(cfg, f, ds, outcol);
            FillFramesShrink(cfg, f, ds, outcol);
            StackSizeAppend(frames, rest);
            LayoutStep([], frames + rest, outcol)
        case _ => LayoutStep([], rest, outcol)
  }

  lemma AnnotatedFramesSize(frames: seq<Frame>, b: Doc, rest: seq<Frame>)
    requires |frames| == 2 && frames[0].item == DocItem(b) && frames[1].item.PopItem?
    ensures StackSize(frames + rest) == Size(b) + 1 + StackSize(rest)
  {
    StackSizeAppend(frames, rest);
    assert frames[1..] == [frames[1]];
    assert frames[1..][1..] == [];
  }

  lemma RunStep(cfg: Config, stack: seq<Frame>, outcol: int)
    requires stack != []
    ensures Run(cfg, stack, outcol) ==
              Advance(cfg, outcol, stack).emitted + Run(cfg, Advance(cfg, outcol, stack).stack, Advance(cfg, outcol, stack).outcol)
  {
  }

  /** The whole loop, from a stack and an output column. */
  function Run(cfg: Config, stack: seq<Frame>, outcol: int): seq<SDoc>
    decreases StackSize(stack)
  {
    if stack == [] then []
    else
      var st := Advance(cfg, outcol, stack);
      st.emitted + Run(cfg, st.stack, st.outcol)
  }

  function InitialStack(doc: Doc, outcol: int, mode: Mode): seq<Frame>
  {
    [Frame(outcol, mode, DocItem(Normalize(doc)))]
  }

  /** `best_layout(doc, width, ribbon_frac, fitting_predicate, outcol, mode)`. */
  function Layout(cfg: Config, doc: Doc, outcol: int, mode: Mode): seq<SDoc>
  {
    Run(cfg, InitialStack(doc, outcol, mode), outcol)
  }

  /** What the loop of `BestLayout` keeps: the output so far followed by the
      rest of the run is the whole layout, the column is where the output so
      far ends, and the open annotations are exactly the pending pops. */
  predicate LoopInvariant(cfg: Config, total: seq<SDoc>, startCol: int, out: seq<SDoc>, stack: seq<Frame>, col: int)
  {
    && out + Run(cfg, stack, col) == total
    && col == ColumnAfter(startCol, out)
    && MatchMarkers([], out) == Some(PendingPops(stack))
  }

  lemma LoopStep(cfg: Config, total: seq<SDoc>, startCol: int, out: seq<SDoc>, stack: seq<Frame>, col: int)
    requires stack != []
    requires LoopInvariant(cfg, total, startCol, out, stack, col)
    ensures var st := Advance(cfg, col, stack);
            LoopInvariant(cfg, total, startCol, out + st.emitted, st.stack, st.outcol)
  {
    var st := Advance(cfg, col, stack);
    RunStep(cfg, stack, col);
    AdvanceMatchesMarkers(cfg, col, stack);
    OutputStep(total, out, Run(cfg, stack, col), st.emitted, Run(cfg, st.stack, st.outcol),
               startCol, col, st.outcol, PendingPops(stack), PendingPops(st.stack));
  }

  /** The bookkeeping of one loop step, on the streams alone: appending
      what the step emitted keeps the total, the column and the open
      annotations in step. */
  lemma OutputStep(total: seq<SDoc>, out: seq<SDoc>, rest: seq<SDoc>, e: seq<SDoc>, rest2: seq<SDoc>,
                   startCol: int, col: int, col2: int, pops: seq<Annotation>, pops2: seq<Annotation>)
    requires out + rest == total && rest == e + rest2
    requires col == ColumnAfter(startCol, out) && col2 == ColumnAfter(col, e)
    requires MatchMarkers([], out) == Some(pops) && MatchMarkers(pops, e) == Some(pops2)
    ensures (out + e) + rest2 == total
    ensures col2 == ColumnAfter(startCol, out + e)
    ensures MatchMarkers([], out + e) == Some(pops2)
  {
    MatchMarkersAppend([], out, e);
    ColumnAfterAppend(startCol, out, e);
    assert (out + e) + rest2 == out + (e + rest2);
  }

  /** The stack-and-loop implementation. */
  method BestLayout(doc: Doc, width: int, roundedRibbon: int, kind: Predicate, outcol: int, mode: Mode)
    returns (out: seq<SDoc>)
    ensures out == Layout(Config(width, RibbonWidth(width, roundedRibbon), kind), doc, outcol, mode)
    ensures Balanced(out)
  {
    var cfg := Config(width, RibbonWidth(width, roundedRibbon), kind);
    var stack := InitialStack(doc, outcol, mode);
    var col := outcol;
    out := [];
    assert PendingPops(stack) == [] + PendingPops([]);
    while stack != []
      invariant LoopInvariant(cfg, Layout(cfg, doc, outcol, mode), outcol, out, stack, col)
      decreases StackSize(stack)
    {
      LoopStep(cfg, Layout(cfg, doc, outcol, mode), outcol, out, stack, col);
      var st := Advance(cfg, col, stack);
      out := out + st.emitted;
      stack := st.stack;
      col := st.outcol;
    }
    assert PendingPops(stack) == [];
  }

  /** `layout_smart`, with the default width 79 and ribbon 71 = round(0.9 * 79). */
  function LayoutSmart(doc: Doc, width: int, roundedRibbon: int): (r: seq<SDoc>)
    ensures Balanced(r)
    ensures LookaheadFree(doc) ==> r == LayoutFast(doc, width, roundedRibbon)
  {
    var cfg := Config(width, RibbonWidth(width, roundedRibbon), SmartPredicate);
    LayoutBalanced(cfg, doc, 0, Break);
    DocLookaheadFreeIgnoresConfig(cfg, cfg.(kind := FastPredicate), doc, 0, Break);
    Layout(cfg, doc, 0, Break)
  }

  /** `layout_fast`: the same loop with the fast predicate. */
  function LayoutFast(doc: Doc, width: int, roundedRibbon: int): (r: seq<SDoc>)
    ensures Balanced(r)
  {
    var cfg := Config(width, RibbonWidth(width, roundedRibbon), FastPredicate);
    LayoutBalanced(cfg, doc, 0, Break);
    Layout(cfg, doc, 0, Break)
  }

  const DefaultWidth: int := 79
  const DefaultRoundedRibbon: int := 71

  // ---------------------------------------------------------------------
  // Annotations are balanced.
  // ---------------------------------------------------------------------

  /** Each step emits a push exactly when it adds the matching pending pop,
      and a pop exactly when it removes the innermost pending pop. */
  lemma AdvanceMatchesMarkers(cfg: Config, outcol: int, stack: seq<Frame>)
    requires stack != []
    ensures MatchMarkers(PendingPops(stack), Advance(cfg, outcol, stack).emitted)
            == Some(PendingPops(Advance(cfg, outcol, stack).stack))
  {
    var f := stack[0];
    var rest := stack[1..];
    assert stack == [f] + rest;
    var st := Advance(cfg, outcol, stack);
    if f.item.PopItem? {
      PendingPopsAppend([f], rest);
      assert st.emitted == [SPop(f.item.annotation)] && st.stack == rest;
      assert PendingPops([f]) == [f.item.annotation] + PendingPops([]);
    } else if f.item.doc.Annotated? {
      AnnotatedMatchesMarkers(cfg, outcol, f, rest);
    } else if ReplacesTop(f.item.doc) {
      ReplaceMatchesMarkers(cfg, outcol, f, rest);
    } else {
      ExpandMatchesMarkers(cfg, outcol, f, rest);
    }
  }

  lemma ReplaceMatchesMarkers(cfg: Config, outcol: int, f: Frame, rest: seq<Frame>)
    requires f.item.DocItem? && ReplacesTop(f.item.doc)
    ensures MatchMarkers(PendingPops([f] + rest), Advance(cfg, outcol, [f] + rest).emitted)
            == Some(PendingPops(Advance(cfg, outcol, [f] + rest).stack))
  {
    var stack := [f] + rest;
    assert stack[0] == f && stack[1..] == rest;
    var g := Replacement(cfg, outcol, f, rest);
    assert [g][1..] == [];
    assert PendingPops([g]) == [] + PendingPops([]);
    QuietStep(f, [g], rest, []);
  }

  lemma ExpandMatchesMarkers(cfg: Config, outcol: int, f: Frame, rest: seq<Frame>)
    requires f.item.DocItem? && !f.item.doc.Annotated? && !ReplacesTop(f.item.doc)
    ensures MatchMarkers(PendingPops([f] + rest), Advance(cfg, outcol, [f] + rest).emitted)
            == Some(PendingPops(Advance(cfg, outcol, [f] + rest).stack))
  {
    var stack := [f] + rest;
    assert stack[0] == f && stack[1..] == rest;
    var d := f.item.doc;
    var st := Advance(cfg, outcol, stack);
    if d.Concat? {
      FramesOfNoPops(f.indent, f.mode, d.docs);
      QuietStep(f, FramesOf(f.indent, f.mode, d.docs), rest, st.emitted);
    } else if d.Fill? && |d.docs| >= 2 {
      var frames := FillFrames(cfg, f, d.docs, outcol);
      DocFramesNoPops(frames);
      QuietStep(f, frames, rest, st.emitted);
    } else {
      assert [] + rest == rest;
      QuietStep(f, [], rest, st.emitted);
    }
  }

  /** A step that emits no marker and pushes no pop in place of a document
      frame leaves the open annotations as they were. */
  lemma QuietStep(f: Frame, frames: seq<Frame>, rest: seq<Frame>, e: seq<SDoc>)
    requires f.item.DocItem? && PendingPops(frames) == []
    requires |e| <= 1 && (e != [] ==> e[0].SText? || e[0].SLine?)
    ensures MatchMarkers(PendingPops([f] + rest), e) == Some(PendingPops(frames + rest))
  {
    PendingPopsAppend([f], rest);
    PendingPopsAppend(frames, rest);
    assert PendingPops([f]) == [] + PendingPops([f][1..]);
    assert [f][1..] == [];
    if e != [] {
      assert e[1..] == [];
    }
  }

  lemma {:induction false} DocFramesNoPops(fs: seq<Frame>)
    requires forall k :: 0 <= k < |fs| ==> fs[k].item.DocItem?
    ensures PendingPops(fs) == []
  {
    if fs != [] {
      DocFramesNoPops(fs[1..]);
    }
  }

  lemma AnnotatedMatchesMarkers(cfg: Config, outcol: int, f: Frame, rest: seq<Frame>)
    requires f.item.DocItem? && f.item.doc.Annotated?
    ensures MatchMarkers(PendingPops([f] + rest), Advance(cfg, outcol, [f] + rest).emitted)
            == Some(PendingPops(Advance(cfg, outcol, [f] + rest).stack))
  {
    var stack := [f] + rest;
    assert stack[0] == f && stack[1..] == rest;
    var a := f.item.doc.annotation;
    var frames := [Frame(f.indent, f.mode, DocItem(f.item.doc.doc)), Frame(f.indent, f.mode, PopItem(a))];
    var st := Advance(cfg, outcol, stack);
    assert st.emitted == [SPush(a)];
    assert st.stack == frames + rest;
    PendingPopsAppend(frames, rest);
    PendingPopsAppend([f], rest);
    assert PendingPops([f]) == [] + PendingPops([]);
    assert frames[1..] == [frames[1]];
    assert frames[1..][1..] == [];
    assert PendingPops([frames[1]]) == [a] + PendingPops([]);
    assert PendingPops(frames) == [] + PendingPops(frames[1..]);
    assert PendingPops(stack) == PendingPops(rest);
    assert PendingPops(frames) == [a];
    assert PendingPops(st.stack) == [a] + PendingPops(rest);
    assert st.emitted[1..] == [];
    assert MatchMarkers(PendingPops(stack), st.emitted) == MatchMarkers([a] + PendingPops(stack), []);
  }

  lemma {:induction false} RunMatchesMarkers(cfg: Config, stack: seq<Frame>, outcol: int)
    ensures MatchMarkers(PendingPops(stack), Run(cfg, stack, outcol)) == Some([])
    decreases StackSize(stack)
  {
    if stack != [] {
      var st := Advance(cfg, outcol, stack);
      AdvanceMatchesMarkers(cfg, outcol, stack);
      RunMatchesMarkers(cfg, st.stack, st.outcol);
      MatchMarkersAppend(PendingPops(stack), st.emitted, Run(cfg, st.stack, st.outcol));
    }
  }

  /** Every annotation push of a layout is closed by its pop, properly nested. */
  lemma LayoutBalanced(cfg: Config, doc: Doc, outcol: int, mode: Mode)
    ensures Balanced(Layout(cfg, doc, outcol, mode))
  {
    var stack := InitialStack(doc, outcol, mode);
    RunMatchesMarkers(cfg, stack, outcol);
    assert stack[1..] == [];
    assert PendingPops(stack) == [] + PendingPops([]);
  }

  // ---------------------------------------------------------------------
  // Documents without lookahead lay out compositionally.
  // ---------------------------------------------------------------------

  /** No Group and no Fill anywhere: nothing in the document ever looks at
      what follows it on the stack. */
  predicate LookaheadFree(d: Doc)
  {
    match d
    case Group(_) => false
    case Fill(_) => false
    case Concat(ds) => forall k :: 0 <= k < |ds| ==> LookaheadFree(ds[k])
    case Nest(_, b) => LookaheadFree(b)
    case AlwaysBreak(b) => LookaheadFree(b)
    case Annotated(b, _) => LookaheadFree(b)
    case FlatChoice(b, fl) => LookaheadFree(b) && LookaheadFree(fl)
    case Contextual(fn) => LookaheadFree(fn.body)
    case _ => true
  }

  predicate FrameLookaheadFree(f: Frame)
  {
    f.item.DocItem? ==> LookaheadFree(f.item.doc)
  }

  predicate StackLookaheadFree(stack: seq<Frame>)
  {
    forall k :: 0 <= k < |stack| ==> FrameLookaheadFree(stack[k])
  }

  lemma {:induction false} NormalizeKeepsLookaheadFree(d: Doc)
    requires LookaheadFree(d)
    ensures LookaheadFree(Normalize(d))
    decreases d, 1
  {
    match d
    case Text(_) =>
    case Nil =>
    case HardLine =>
    case Contextual(_) =>
    case Concat(ds) =>
      ConcatPartsKeepLookaheadFree(ds);
      var parts := ConcatParts(ds);
      if parts != [] {
        var res := if |parts| == 1 then parts[0] else Concat(parts);
        assert LookaheadFree(res);
        assert Normalize(d) == (if ConcatBreaks(ds) then AlwaysBreak(res) else res);
      } else {
        assert Normalize(d) == Nil;
      }
    case Nest(_, b) =>
      NormalizeKeepsLookaheadFree(b);
    case AlwaysBreak(b) =>
      NormalizeKeepsLookaheadFree(b);
    case Annotated(b, _) =>
      NormalizeKeepsLookaheadFree(b);
    case FlatChoice(b, fl) =>
      NormalizeKeepsLookaheadFree(b);
      NormalizeKeepsLookaheadFree(fl);
  }

  lemma {:induction false} ConcatPartsKeepLookaheadFree(ds: seq<Doc>)
    requires forall k :: 0 <= k < |ds| ==> LookaheadFree(ds[k])
    ensures forall k :: 0 <= k < |ConcatParts(ds)| ==> LookaheadFree(ConcatParts(ds)[k])
    decreases ds, 0
  {
    if ds != [] {
      NormalizeKeepsLookaheadFree(ds[0]);
      ConcatPartsKeepLookaheadFree(ds[1..]);
      var n := Normalize(ds[0]);
      var p := ConcatParts(ds);
      assert p == Contribution(n) + ConcatParts(ds[1..]);
      forall k | 0 <= k < |p| ensures LookaheadFree(p[k]) {
        if k < |Contribution(n)| {
          assert p[k] == Contribution(n)[k];
        } else {
          assert p[k] == ConcatParts(ds[1..])[k - |Contribution(n)|];
        }
      }
    }
  }

  /** Over a lookahead-free top frame, a step does not look below it: it
      replaces the top by the same frames whatever lies underneath. */
  lemma AdvanceIgnoresRest(cfg: Config, outcol: int, f: Frame, rest: seq<Frame>)
    requires FrameLookaheadFree(f)
    ensures var a := Advance(cfg, outcol, [f]);
            Advance(cfg, outcol, [f] + rest) == LayoutStep(a.emitted, a.stack + rest, a.outcol)
    ensures StackLookaheadFree(Advance(cfg, outcol, [f]).stack)
  {
    var s := [f] + rest;
    assert s[0] == f && s[1..] == rest;
    assert [f][1..] == [];
    var a := Advance(cfg, outcol, [f]);
    if f.item.DocItem? {
      var d := f.item.doc;
      if d.Concat? {
        assert FramesOf(f.indent, f.mode, d.docs) + [] == FramesOf(f.indent, f.mode, d.docs);
      } else if d.Annotated? {
        var frames := [Frame(f.indent, f.mode, DocItem(d.doc)), Frame(f.indent, f.mode, PopItem(d.annotation))];
        assert frames + [] == frames;
      } else if d.Contextual? {
        var e := Evaluate(d.fn, f.indent, outcol, cfg.width, cfg.ribbonWidth);
        NormalizeKeepsLookaheadFree(e);
      }
    }
  }

  lemma SplitStep(cfg: Config, s1: seq<Frame>, s2: seq<Frame>, outcol: int)
    requires s1 != [] && StackLookaheadFree(s1)
    ensures var a := Advance(cfg, outcol, s1);
            Advance(cfg, outcol, s1 + s2) == LayoutStep(a.emitted, a.stack + s2, a.outcol) &&
            StackLookaheadFree(a.stack)
  {
    var f := s1[0];
    var rest1 := s1[1..];
    assert s1 == [f] + rest1;
    assert s1 + s2 == [f] + (rest1 + s2);
    assert FrameLookaheadFree(f);
    AdvanceIgnoresRest(cfg, outcol, f, rest1 + s2);
    AdvanceIgnoresRest(cfg, outcol, f, rest1);
    assert forall k :: 0 <= k < |rest1| ==> rest1[k] == s1[k + 1];
    ComposeSteps(Advance(cfg, outcol, [f]), Advance(cfg, outcol, s1), Advance(cfg, outcol, s1 + s2), rest1, s2);
  }

  /** The stack bookkeeping of `SplitStep`, on the steps alone. */
  lemma ComposeSteps(a: LayoutStep, b: LayoutStep, c: LayoutStep, rest1: seq<Frame>, s2: seq<Frame>)
    requires b == LayoutStep(a.emitted, a.stack + rest1, a.outcol)
    requires c == LayoutStep(a.emitted, a.stack + (rest1 + s2), a.outcol)
    requires StackLookaheadFree(a.stack) && StackLookaheadFree(rest1)
    ensures c == LayoutStep(b.emitted, b.stack + s2, b.outcol)
    ensures StackLookaheadFree(b.stack)
  {
    assert a.stack + (rest1 + s2) == (a.stack + rest1) + s2;
    assert forall k :: 0 <= k < |b.stack| ==> FrameLookaheadFree(b.stack[k]) by {
      forall k | 0 <= k < |b.stack|
        ensures FrameLookaheadFree(b.stack[k])
      {
        if k >= |a.stack| {
          assert b.stack[k] == rest1[k - |a.stack|];
        }
      }
    }
  }

  lemma {:induction false} RunSplit(cfg: Config, s1: seq<Frame>, s2: seq<Frame>, outcol: int)
    requires StackLookaheadFree(s1)
    ensures Run(cfg, s1 + s2, outcol) ==
              Run(cfg, s1, outcol) + Run(cfg, s2, ColumnAfter(outcol, Run(cfg, s1, outcol)))
    decreases StackSize(s1)
  {
    if s1 == [] {
      assert s1 + s2 == s2;
    } else {
      var a := Advance(cfg, outcol, s1);
      SplitStep(cfg, s1, s2, outcol);
      RunStep(cfg, s1 + s2, outcol);
      RunStep(cfg, s1, outcol);
      RunSplit(cfg, a.stack, s2, a.outcol);
      var r1 := Run(cfg, a.stack, a.outcol);
      var c1 := ColumnAfter(a.outcol, r1);
      SplitOutput(Run(cfg, s1 + s2, outcol), a.emitted, Run(cfg, a.stack + s2, a.outcol), r1, Run(cfg, s2, c1),
                  Run(cfg, s1, outcol), outcol, a.outcol, c1);
    }
  }

  /** The stream bookkeeping of `RunSplit`, on the streams alone. */
  lemma SplitOutput(whole: seq<SDoc>, e: seq<SDoc>, mid: seq<SDoc>, r1: seq<SDoc>, r2: seq<SDoc>, first: seq<SDoc>,
                    col: int, col1: int, c1: int)
    requires whole == e + mid && mid == r1 + r2 && first == e + r1
    requires col1 == ColumnAfter(col, e) && c1 == ColumnAfter(col1, r1)
    ensures whole == first + r2 && c1 == ColumnAfter(col, first)
  {
    ColumnAfterAppend(col, e, r1);
    assert e + (r1 + r2) == (e + r1) + r2;
  }

  /** The children of a lookahead-free Concat are laid out one after the
      other, each with the parent's indent and mode, each starting at the
      column where the previous one ended. */
  lemma ConcatLaysOutInOrder(cfg: Config, indent: int, mode: Mode, a: Doc, b: Doc, outcol: int)
    requires LookaheadFree(a) && LookaheadFree(b)
    ensures var ra := Run(cfg, [Frame(indent, mode, DocItem(a))], outcol);
            Run(cfg, [Frame(indent, mode, DocItem(Concat([a, b])))], outcol) ==
              ra + Run(cfg, [Frame(indent, mode, DocItem(b))], ColumnAfter(outcol, ra))
  {
    var fa := Frame(indent, mode, DocItem(a));
    var fb := Frame(indent, mode, DocItem(b));
    var top := [Frame(indent, mode, DocItem(Concat([a, b])))];
    RunStep(cfg, top, outcol);
    assert [a, b][1..] == [b];
    assert FramesOf(indent, mode, [a, b]) == [fa, fb];
    assert Advance(cfg, outcol, top) == LayoutStep([], [fa, fb] + top[1..], outcol);
    assert [fa, fb] + top[1..] == [fa] + [fb];
    RunSplit(cfg, [fa], [fb], outcol);
  }

  /** A lookahead-free stack lays out the same for every width, ribbon and
      fitting predicate. */
  lemma {:induction false} LookaheadFreeIgnoresConfig(c1: Config, c2: Config, stack: seq<Frame>, outcol: int)
    requires StackLookaheadFree(stack)
    ensures Run(c1, stack, outcol) == Run(c2, stack, outcol)
    decreases StackSize(stack)
  {
    if stack != [] {
      var f := stack[0];
      var rest := stack[1..];
      assert stack == [f] + rest;
      AdvanceIgnoresRest(c1, outcol, f, rest);
      AdvanceIgnoresRest(c2, outcol, f, rest);
      AdvanceIgnoresConfig(c1, c2, outcol, f);
      var a := Advance(c1, outcol, [f]);
      LookaheadFreeIgnoresConfig(c1, c2, a.stack + rest, a.outcol);
      RunStep(c1, stack, outcol);
      RunStep(c2, stack, outcol);
    }
  }

  /** A document without Group or Fill lays out the same for every width,
      ribbon and fitting predicate. */
  lemma DocLookaheadFreeIgnoresConfig(c1: Config, c2: Config, doc: Doc, outcol: int, mode: Mode)
    ensures LookaheadFree(doc) ==> Layout(c1, doc, outcol, mode) == Layout(c2, doc, outcol, mode)
  {
    if LookaheadFree(doc) {
      NormalizeKeepsLookaheadFree(doc);
      LookaheadFreeIgnoresConfig(c1, c2, InitialStack(doc, outcol, mode), outcol);
    }
  }

  lemma AdvanceIgnoresConfig(c1: Config, c2: Config, outcol: int, f: Frame)
    requires FrameLookaheadFree(f)
    ensures Advance(c1, outcol, [f]) == Advance(c2, outcol, [f])
  {
  }

  // ---------------------------------------------------------------------
  // Modes, nesting and alignment.
  // ---------------------------------------------------------------------

  /** How one step treats the mode and indent of the top frame: FlatChoice
      picks its branch by mode, Nest indents its body only, AlwaysBreak
      forces BREAK for its body, and a Group puts its body in the mode its
      lookahead chose, all without touching the frames below. */
  lemma AdvanceModeRules(cfg: Config, outcol: int, f: Frame, rest: seq<Frame>)
    requires f.item.DocItem?
    ensures var st := Advance(cfg, outcol, [f] + rest);
            var d := f.item.doc;
            (d.FlatChoice? ==>
               st == LayoutStep([], [Frame(f.indent, f.mode, DocItem(if f.mode == Flat then d.whenFlat else d.whenBroken))] + rest, outcol)) &&
            (d.Nest? ==> st == LayoutStep([], [Frame(f.indent + d.indent, f.mode, DocItem(d.doc))] + rest, outcol)) &&
            (d.AlwaysBreak? ==> st == LayoutStep([], [Frame(f.indent, Break, DocItem(d.doc))] + rest, outcol)) &&
            (d.Group? ==> st == LayoutStep([], [Frame(f.indent, ModeIf(GroupFits(cfg, f.indent, outcol, d.doc, rest)), DocItem(d.doc))] + rest, outcol))
  {
    assert ([f] + rest)[0] == f && ([f] + rest)[1..] == rest;
  }

  /** `align(d)` lays `d` out as if the current indent were the column at
      which the alignment starts. */
  lemma AlignIndentsToColumn(cfg: Config, f: Frame, rest: seq<Frame>, outcol: int)
    requires f.item.DocItem? && f.item.doc.Contextual?
    ensures var d := f.item.doc.fn.body;
            Run(cfg, [f] + rest, outcol) == Run(cfg, [Frame(outcol, f.mode, DocItem(Normalize(d)))] + rest, outcol)
  {
    var d := f.item.doc.fn.body;
    var k := outcol - f.indent;
    var n := Normalize(d);
    var g := Frame(f.indent, f.mode, DocItem(Normalize(Nest(k, d))));
    var t := Frame(outcol, f.mode, DocItem(n));
    RunReplaces(cfg, outcol, f, rest, g);
    if n.AlwaysBreak? {
      var h := Frame(f.indent, Break, DocItem(Nest(k, n.doc)));
      var x := Frame(outcol, Break, DocItem(n.doc));
      RunReplaces(cfg, outcol, g, rest, h);
      RunReplaces(cfg, outcol, h, rest, x);
      RunReplaces(cfg, outcol, t, rest, x);
    } else {
      RunReplaces(cfg, outcol, g, rest, t);
    }
  }

  /** A step that puts a single frame in place of the top one leaves the
      rest of the run to that frame. */
  lemma RunReplaces(cfg: Config, outcol: int, f: Frame, rest: seq<Frame>, g: Frame)
    requires f.item.DocItem? && ReplacesTop(f.item.doc)
    requires Replacement(cfg, outcol, f, rest) == g
    ensures Run(cfg, [f] + rest, outcol) == Run(cfg, [g] + rest, outcol)
  {
    var s := [f] + rest;
    assert s[0] == f && s[1..] == rest;
    RunStep(cfg, s, outcol);
  }

  /** Documents that contain no line break when laid out flat: no hard line
      outside the broken branch of a FlatChoice, and nothing (Group, Fill,
      AlwaysBreak) that could switch back to BREAK mode. */
  predicate FlatSafe(d: Doc)
  {
    match d
    case Text(_) => true
    case Nil => true
    case HardLine => false
    case Group(_) => false
    case Fill(_) => false
    case AlwaysBreak(_) => false
    case Concat(ds) => forall k :: 0 <= k < |ds| ==> FlatSafe(ds[k])
    case Nest(_, b) => FlatSafe(b)
    case Annotated(b, _) => FlatSafe(b)
    case FlatChoice(_, fl) => FlatSafe(fl)
    case Contextual(fn) => FlatSafe(fn.body)
  }

  predicate FlatSafeStack(stack: seq<Frame>)
  {
    forall k :: 0 <= k < |stack| ==> stack[k].item.DocItem? ==> stack[k].mode == Flat && FlatSafe(stack[k].item.doc)
  }

  lemma {:induction false} NormalizeKeepsFlatSafe(d: Doc)
    requires FlatSafe(d)
    ensures FlatSafe(Normalize(d))
    decreases d, 1
  {
    match d
    case Text(_) =>
    case Nil =>
    case Contextual(_) =>
    case Concat(ds) =>
      ConcatPartsKeepFlatSafe(ds);
      var parts := ConcatParts(ds);
      ConcatBreaksIffForced(ds);
      assert !ConcatBreaks(ds) by {
        forall k | 0 <= k < |ds| ensures !Forced(ds[k]) {
          FlatSafeNotForced(ds[k]);
        }
      }
      if parts != [] {
        var res := if |parts| == 1 then parts[0] else Concat(parts);
        assert FlatSafe(res);
        assert Normalize(d) == res;
      } else {
        assert Normalize(d) == Nil;
      }
    case Nest(_, b) =>
      NormalizeKeepsFlatSafe(b);
      FlatSafeNotForced(b);
      NormalizeBreaksIffForced(b);
    case Annotated(b, _) =>
      NormalizeKeepsFlatSafe(b);
    case FlatChoice(_, fl) =>
      NormalizeKeepsFlatSafe(fl);
  }

  lemma FlatSafeNotForced(d: Doc)
    requires FlatSafe(d)
    ensures !Forced(d)
  {
    if d.Concat? {
      forall k | 0 <= k < |d.docs| ensures !Forced(d.docs[k]) {
        FlatSafeNotForced(d.docs[k]);
      }
    } else if d.Nest? {
      FlatSafeNotForced(d.doc);
    }
  }

  lemma {:induction false} ConcatPartsKeepFlatSafe(ds: seq<Doc>)
    requires forall k :: 0 <= k < |ds| ==> FlatSafe(ds[k])
    ensures forall k :: 0 <= k < |ConcatParts(ds)| ==> FlatSafe(ConcatParts(ds)[k])
    decreases ds, 0
  {
    if ds != [] {
      NormalizeKeepsFlatSafe(ds[0]);
      ConcatPartsKeepFlatSafe(ds[1..]);
      var n := Normalize(ds[0]);
      var p := ConcatParts(ds);
      assert p == Contribution(n) + ConcatParts(ds[1..]);
      forall k | 0 <= k < |p| ensures FlatSafe(p[k]) {
        if k < |Contribution(n)| {
          assert p[k] == Contribution(n)[k];
        } else {
          assert p[k] == ConcatParts(ds[1..])[k - |Contribution(n)|];
        }
      }
    }
  }

  lemma AdvanceKeepsFlatSafe(cfg: Config, outcol: int, stack: seq<Frame>)
    requires stack != [] && FlatSafeStack(stack)
    ensures FlatSafeStack(Advance(cfg, outcol, stack).stack)
    ensures forall k :: 0 <= k < |Advance(cfg, outcol, stack).emitted| ==> !Advance(cfg, outcol, stack).emitted[k].SLine?
  {
    var f := stack[0];
    var rest := stack[1..];
    assert stack == [f] + rest;
    assert FlatSafeStack(rest) by {
      forall k | 0 <= k < |rest| ensures rest[k] == stack[k + 1] { }
    }
    if f.item.DocItem? && f.item.doc.Contextual? {
      var e := Evaluate(f.item.doc.fn, f.indent, outcol, cfg.width, cfg.ribbonWidth);
      NormalizeKeepsFlatSafe(e);
    }
  }

  /** A stack whose frames are all FLAT and flat-safe produces no line
      break: a Group laid out flat puts its body on the current line. */
  lemma {:induction false} FlatRunHasNoLines(cfg: Config, stack: seq<Frame>, outcol: int)
    requires FlatSafeStack(stack)
    ensures forall k :: 0 <= k < |Run(cfg, stack, outcol)| ==> !Run(cfg, stack, outcol)[k].SLine?
    decreases StackSize(stack)
  {
    if stack != [] {
      var st := Advance(cfg, outcol, stack);
      AdvanceKeepsFlatSafe(cfg, outcol, stack);
      FlatRunHasNoLines(cfg, st.stack, st.outcol);
      RunStep(cfg, stack, outcol);
    }
  }
}
