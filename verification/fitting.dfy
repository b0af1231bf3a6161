/** `fast_fitting_predicate` and `smart_fitting_predicate` of
    `prettyprinter/layout.py`, as one function over the lookahead stack: the
    two differ only at a hard line break. */
module Fitting {
  import opened DocTypes
  import opened LayoutStack

  datatype Predicate = FastPredicate | SmartPredicate

  /** The keyword arguments a predicate receives besides the stack. The
      ribbon width is the one `best_layout` derived from `ribbon_frac`. */
  datatype FitParams = FitParams(pageWidth: int, ribbonWidth: int, minNestingLevel: int, maxWidth: int)

  /** One iteration of the predicates' loop, with `charsLeft >= 0` and a
      non-empty stack: either the answer, or the next columns-left count and
      stack. */
  datatype FitStep = Answer(fits: bool) | Continue(charsLeft: int, stack: seq<Frame>)

  function Step(kind: Predicate, p: FitParams, charsLeft: int, stack: seq<Frame>): (r: FitStep)
    requires stack != []
    ensures r.Continue? ==> StackSize(r.stack) < StackSize(stack)
    ensures r.Continue? && r.charsLeft != charsLeft ==>
              (stack[0].item.DocItem? && stack[0].item.doc.Text? && r.charsLeft == charsLeft - |stack[0].item.doc.s|) ||
              (kind == SmartPredicate && stack[0].item == DocItem(HardLine) &&
               stack[0].indent > p.minNestingLevel && r.charsLeft == p.pageWidth - stack[0].indent)
    ensures stack[0].item.DocItem? && stack[0].item.doc.AlwaysBreak? ==> r == Answer(false)
    ensures stack[0].item == DocItem(HardLine) && (kind == FastPredicate || stack[0].indent <= p.minNestingLevel) ==>
              r == Answer(true)
    ensures r.Answer? ==> stack[0].item.DocItem? && (stack[0].item.doc.AlwaysBreak? || stack[0].item.doc.HardLine?)
  {
    var f := stack[0];
    var rest := stack[1..];
    assert stack == [f] + rest;
    match f.item
    case PopItem(_) => Continue(charsLeft, rest)
    case DocItem(d) =>
      SizePositive(d);
      match d
      case Nil => Continue(charsLeft, rest)
      case Text(s) => Continue(charsLeft - |s|, rest)
      case Concat(ds) =>
        ChildrenShrink(f.indent, f.mode, ds, rest);
        Continue(charsLeft, FramesOf(f.indent, f.mode, ds) + rest)
      case Fill(ds) =>
        ChildrenShrink(f.indent, f.mode, ds, rest);
        Continue(charsLeft, FramesOf(f.indent, f.mode, ds) + rest)
      case Annotated(b, _) =>
        var g := Frame(f.indent, f.mode, DocItem(b));
        ReplaceTopShrinks(f, g, rest);
        Continue(charsLeft, [g] + rest)
      case Nest(k, b) =>
        var g := Frame(f.indent + k, f.mode, DocItem(b));
        ReplaceTopShrinks(f, g, rest);
        Continue(charsLeft, [g] + rest)
      case AlwaysBreak(_) => Answer(false)
      case HardLine =>
        if kind == SmartPredicate && f.indent > p.minNestingLevel then
          Continue(p.pageWidth - f.indent, rest)
        else Answer(true)
      case FlatChoice(b, fl) =>
        var g := Frame(f.indent, f.mode, DocItem(if f.mode == Flat then fl else b));
        ReplaceTopShrinks(f, g, rest);
        Continue(charsLeft, [g] + rest)
      case Group(b) =>
        var g := Frame(f.indent, Flat, DocItem(b));
        ReplaceTopShrinks(f, g, rest);
        Continue(charsLeft, [g] + rest)
      case Contextual(fn) =>
        var e := Evaluate(fn, f.indent, p.maxWidth - charsLeft, p.pageWidth, p.ribbonWidth);
        NormalizeSize(e);
        var g := Frame(f.indent, f.mode, DocItem(Normalize(e)));
        ReplaceTopShrinks(f, g, rest);
        Continue(charsLeft, [g] + rest)
  }

  /** Whether the lookahead over `stack` stays within `charsLeft` columns.
      A Group's body is looked at flat, a forced break never fits, and a hard
      line ends the look (fast) or, while it is indented deeper than the
      minimum nesting level, starts a new line of `pageWidth - indent`
      columns (smart). */
  function Fits(kind: Predicate, p: FitParams, charsLeft: int, stack: seq<Frame>): bool
    decreases StackSize(stack)
  {
    if charsLeft < 0 then false
    else if stack == [] then true
    else
      match Step(kind, p, charsLeft, stack)
      case Answer(b) => b
      case Continue(c, s) => Fits(kind, p, c, s)
  }

  /** The entry point: the lookahead starts with the whole available width. */
  function FitsWithin(kind: Predicate, p: FitParams, stack: seq<Frame>): bool
  {
    Fits(kind, p, p.maxWidth, stack)
  }

  /** The smart predicate accepts no more than the fast one: they agree up to
      the first hard line, where the fast one stops with True. */
  lemma {:induction false} SmartImpliesFast(p: FitParams, charsLeft: int, stack: seq<Frame>)
    ensures Fits(SmartPredicate, p, charsLeft, stack) ==> Fits(FastPredicate, p, charsLeft, stack)
    decreases StackSize(stack)
  {
    if charsLeft >= 0 && stack != [] {
      var smart := Step(SmartPredicate, p, charsLeft, stack);
      var fast := Step(FastPredicate, p, charsLeft, stack);
      if smart != fast {
        assert stack[0].item == DocItem(HardLine);
      } else if smart.Continue? {
        SmartImpliesFast(p, smart.charsLeft, smart.stack);
      }
    }
  }

  // ---------------------------------------------------------------------
  // The fast predicate as a check on the flattened rest of the line.
  // ---------------------------------------------------------------------

  /** What the lookahead sees: text of some width, a line break, or a forced
      break. */
  datatype LineToken = TText(width: nat) | TNewline | TForced

  /** The tokens a document produces in a mode, independent of indentation. */
  function DocTokens(m: Mode, d: Doc): seq<LineToken>
    decreases Size(d), 0
  {
    match d
    case Nil => []
    case Text(s) => [TText(|s|)]
    case HardLine => [TNewline]
    case AlwaysBreak(_) => [TForced]
    case Concat(ds) => TokensSeq(m, ds)
    case Fill(ds) => TokensSeq(m, ds)
    case Annotated(b, _) => DocTokens(m, b)
    case Nest(_, b) => DocTokens(m, b)
    case FlatChoice(b, fl) => if m == Flat then DocTokens(m, fl) else DocTokens(m, b)
    case Group(b) => DocTokens(Flat, b)
    case Contextual(fn) =>
      NormalizeSize(fn.body);
      DocTokens(m, Normalize(fn.body))
  }

  function TokensSeq(m: Mode, ds: seq<Doc>): seq<LineToken>
    decreases SizeSum(ds), 1
  {
    if ds == [] then []
    else
      SizePositive(ds[0]);
      DocTokens(m, ds[0]) + TokensSeq(m, ds[1..])
  }

  function StackTokens(stack: seq<Frame>): seq<LineToken>
  {
    if stack == [] then []
    else
      (match stack[0].item
       case PopItem(_) => []
       case DocItem(d) => DocTokens(stack[0].mode, d)) + StackTokens(stack[1..])
  }

  /** Index of the first token that is not text, or the length. */
  function FirstNonText(ts: seq<LineToken>): (k: nat)
    ensures k <= |ts|
    ensures forall j :: 0 <= j < k ==> ts[j].TText?
    ensures k < |ts| ==> !ts[k].TText?
  {
    if ts == [] || !ts[0].TText? then 0 else 1 + FirstNonText(ts[1..])
  }

  function TextWidth(ts: seq<LineToken>): int
  {
    if ts == [] then 0 else (if ts[0].TText? then ts[0].width else 0) + TextWidth(ts[1..])
  }

  /** The rest of the current line fits in `c` columns and ends at a line
      break or at the end of the document, not at a forced break. */
  predicate LineFits(c: int, ts: seq<LineToken>)
  {
    var k := FirstNonText(ts);
    TextWidth(ts[..k]) <= c && (k == |ts| || ts[k].TNewline?)
  }

  lemma {:induction false} TextWidthNonNegative(ts: seq<LineToken>)
    ensures TextWidth(ts) >= 0
  {
    if ts != [] {
      TextWidthNonNegative(ts[1..]);
    }
  }

  lemma {:induction false} FirstNonTextAppend(a: seq<LineToken>, b: seq<LineToken>)
    ensures FirstNonText(a) < |a| ==> FirstNonText(a + b) == FirstNonText(a)
    ensures FirstNonText(a) == |a| ==> FirstNonText(a + b) == |a| + FirstNonText(b)
  {
    if a != [] {
      assert (a + b)[1..] == a[1..] + b;
      FirstNonTextAppend(a[1..], b);
    } else {
      assert a + b == b;
    }
  }

  lemma {:induction false} TextWidthAppend(a: seq<LineToken>, b: seq<LineToken>)
    ensures TextWidth(a + b) == TextWidth(a) + TextWidth(b)
  {
    if a == [] {
      assert a + b == b;
    } else {
      assert (a + b)[1..] == a[1..] + b;
      TextWidthAppend(a[1..], b);
    }
  }

  /** If a line fits with more tokens after `a`, it fits with `a` alone. */
  lemma LineFitsPrefix(c: int, a: seq<LineToken>, b: seq<LineToken>)
    ensures LineFits(c, a + b) ==> LineFits(c, a)
  {
    FirstNonTextAppend(a, b);
    var k := FirstNonText(a);
    if k < |a| {
      assert (a + b)[..k] == a[..k];
    } else {
      var kb := FirstNonText(b);
      assert (a + b)[..k + kb] == a + b[..kb];
      assert a[..k] == a;
      TextWidthAppend(a, b[..kb]);
      TextWidthNonNegative(b[..kb]);
    }
  }

  lemma LineFitsCons(c: int, t: LineToken, ts: seq<LineToken>)
    ensures t.TText? ==> (LineFits(c, [t] + ts) <==> LineFits(c - t.width, ts))
    ensures t.TNewline? ==> (LineFits(c, [t] + ts) <==> c >= 0)
    ensures t.TForced? ==> !LineFits(c, [t] + ts)
  {
    var ts' := [t] + ts;
    assert ts'[1..] == ts;
    if t.TText? {
      var k := FirstNonText(ts);
      assert FirstNonText(ts') == 1 + k;
      assert ts'[..1 + k][1..] == ts[..k];
      assert ts'[1 + k..] == ts[k..];
    } else {
      assert FirstNonText(ts') == 0;
    }
  }

  lemma {:induction false} TokensSeqAppend(m: Mode, a: seq<Doc>, b: seq<Doc>)
    ensures TokensSeq(m, a + b) == TokensSeq(m, a) + TokensSeq(m, b)
    decreases |a|
  {
    if a == [] {
      assert a + b == b;
    } else {
      assert (a + b)[1..] == a[1..] + b;
      assert (a + b)[0] == a[0];
      TokensSeqAppend(m, a[1..], b);
    }
  }

  lemma {:induction false} StackTokensAppend(a: seq<Frame>, b: seq<Frame>)
    ensures StackTokens(a + b) == StackTokens(a) + StackTokens(b)
  {
    if a == [] {
      assert a + b == b;
    } else {
      assert (a + b)[1..] == a[1..] + b;
      StackTokensAppend(a[1..], b);
    }
  }

  lemma {:induction false} FramesOfTokens(indent: int, m: Mode, ds: seq<Doc>)
    ensures StackTokens(FramesOf(indent, m, ds)) == TokensSeq(m, ds)
  {
    if ds != [] {
      FramesOfTokens(indent, m, ds[1..]);
      assert FramesOf(indent, m, ds)[1..] == FramesOf(indent, m, ds[1..]);
    }
  }

  /** Nesting never changes what the lookahead sees, so an evaluated `align`
      is seen as its body. */
  lemma AlignTokens(m: Mode, k: int, d: Doc)
    ensures DocTokens(m, Normalize(Nest(k, d))) == DocTokens(m, Normalize(d))
  {
  }

  function FrameTokens(f: Frame): seq<LineToken>
  {
    match f.item
    case PopItem(_) => []
    case DocItem(d) => DocTokens(f.mode, d)
  }

  lemma TopTokens(f: Frame, rest: seq<Frame>)
    ensures StackTokens([f] + rest) == FrameTokens(f) + StackTokens(rest)
  {
    assert ([f] + rest)[1..] == rest;
  }

  /** A step over a Concat or Fill spreads its children without changing
      the tokens still to be seen. */
  lemma SpliceKeepsTokens(p: FitParams, charsLeft: int, stack: seq<Frame>)
    requires stack != [] && stack[0].item.DocItem? && (stack[0].item.doc.Concat? || stack[0].item.doc.Fill?)
    ensures Step(FastPredicate, p, charsLeft, stack) ==
              Continue(charsLeft, FramesOf(stack[0].indent, stack[0].mode, stack[0].item.doc.docs) + stack[1..])
    ensures StackTokens(Step(FastPredicate, p, charsLeft, stack).stack) == StackTokens(stack)
  {
    SpliceStep(p, charsLeft, stack);
    assert stack == [stack[0]] + stack[1..];
    SpliceTokens(stack[0], stack[1..]);
  }

  lemma SpliceStep(p: FitParams, charsLeft: int, stack: seq<Frame>)
    requires stack != [] && stack[0].item.DocItem? && (stack[0].item.doc.Concat? || stack[0].item.doc.Fill?)
    ensures Step(FastPredicate, p, charsLeft, stack) ==
              Continue(charsLeft, FramesOf(stack[0].indent, stack[0].mode, stack[0].item.doc.docs) + stack[1..])
  {
  }

  /** The frames of a Concat's or Fill's children, in place of the node,
      hold the same tokens. */
  lemma SpliceTokens(f: Frame, rest: seq<Frame>)
    requires f.item.DocItem? && (f.item.doc.Concat? || f.item.doc.Fill?)
    ensures StackTokens(FramesOf(f.indent, f.mode, f.item.doc.docs) + rest) == StackTokens([f] + rest)
  {
    var ds := f.item.doc.docs;
    TopTokens(f, rest);
    assert FrameTokens(f) == TokensSeq(f.mode, ds);
    StackTokensAppend(FramesOf(f.indent, f.mode, ds), rest);
    FramesOfTokens(f.indent, f.mode, ds);
  }

  /** A step that replaces the top frame by one frame with the same tokens. */
  lemma ReplaceKeepsTokens(p: FitParams, charsLeft: int, stack: seq<Frame>)
    requires stack != [] && stack[0].item.DocItem?
    requires var d := stack[0].item.doc; d.Annotated? || d.Nest? || d.FlatChoice? || d.Group? || d.Contextual?
    ensures Step(FastPredicate, p, charsLeft, stack).Continue?
    ensures |Step(FastPredicate, p, charsLeft, stack).stack| == |stack|
    ensures Step(FastPredicate, p, charsLeft, stack).stack[1..] == stack[1..]
    ensures FrameTokens(Step(FastPredicate, p, charsLeft, stack).stack[0]) == FrameTokens(stack[0])
  {
    var f := stack[0];
    var d := f.item.doc;
    if d.Contextual? {
      AlignTokens(f.mode, p.maxWidth - charsLeft - f.indent, d.fn.body);
    }
  }

  /** Every step that neither consumes text nor answers leaves the tokens
      still to be seen unchanged. */
  lemma ContinueKeepsTokens(p: FitParams, charsLeft: int, stack: seq<Frame>)
    requires stack != []
    requires !(stack[0].item.DocItem? && (stack[0].item.doc.Text? || stack[0].item.doc.HardLine? || stack[0].item.doc.AlwaysBreak?))
    ensures Step(FastPredicate, p, charsLeft, stack).Continue?
    ensures StackTokens(Step(FastPredicate, p, charsLeft, stack).stack) == StackTokens(stack)
  {
    var f := stack[0];
    var rest := stack[1..];
    assert stack == [f] + rest;
    TopTokens(f, rest);
    if f.item.PopItem? || f.item.doc.Nil? {
      assert Step(FastPredicate, p, charsLeft, stack) == Continue(charsLeft, rest);
    } else if f.item.doc.Concat? || f.item.doc.Fill? {
      SpliceKeepsTokens(p, charsLeft, stack);
    } else {
      ReplaceKeepsTokens(p, charsLeft, stack);
      var st := Step(FastPredicate, p, charsLeft, stack).stack;
      assert st == [st[0]] + rest;
      TopTokens(st[0], rest);
    }
  }

  /** One step of the fast predicate keeps the question "does the rest of
      the line fit" unchanged, or answers it. */
  lemma StepKeepsLineFits(p: FitParams, charsLeft: int, stack: seq<Frame>)
    requires charsLeft >= 0 && stack != []
    ensures Step(FastPredicate, p, charsLeft, stack).Answer? ==>
              (Step(FastPredicate, p, charsLeft, stack).fits <==> LineFits(charsLeft, StackTokens(stack)))
    ensures Step(FastPredicate, p, charsLeft, stack).Continue? ==>
              (LineFits(Step(FastPredicate, p, charsLeft, stack).charsLeft, StackTokens(Step(FastPredicate, p, charsLeft, stack).stack))
               <==> LineFits(charsLeft, StackTokens(stack)))
  {
    var f := stack[0];
    var rest := stack[1..];
    assert stack == [f] + rest;
    TopTokens(f, rest);
    if f.item.DocItem? && f.item.doc.Text? {
      LineFitsCons(charsLeft, TText(|f.item.doc.s|), StackTokens(rest));
    } else if f.item.DocItem? && f.item.doc.HardLine? {
      LineFitsCons(charsLeft, TNewline, StackTokens(rest));
    } else if f.item.DocItem? && f.item.doc.AlwaysBreak? {
      LineFitsCons(charsLeft, TForced, StackTokens(rest));
    } else {
      ContinueKeepsTokens(p, charsLeft, stack);
    }
  }

  /** The fast predicate holds exactly when the flattened rest of the line
      fits in the columns left and is not cut by a forced break. */
  lemma {:induction false} FastFitsIffLineFits(p: FitParams, charsLeft: int, stack: seq<Frame>)
    ensures Fits(FastPredicate, p, charsLeft, stack) <==> LineFits(charsLeft, StackTokens(stack))
    decreases StackSize(stack)
  {
    var ts := StackTokens(stack);
    if charsLeft < 0 {
      TextWidthNonNegative(ts[..FirstNonText(ts)]);
    } else if stack != [] {
      StepKeepsLineFits(p, charsLeft, stack);
      var st := Step(FastPredicate, p, charsLeft, stack);
      if st.Continue? {
        FastFitsIffLineFits(p, st.charsLeft, st.stack);
      }
    }
  }
}
