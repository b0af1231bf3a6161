/** The `(indent, mode, doc)` triples of `prettyprinter/layout.py`. The
    stack's top is at index 0; a pending annotation pop is an item of its
    own, as in the source. */
module LayoutStack {
  import opened DocTypes

  /** BREAK_MODE = 0 and FLAT_MODE = 1. */
  datatype Mode = Break | Flat

  datatype Item = DocItem(doc: Doc) | PopItem(annotation: Annotation)

  datatype Frame = Frame(indent: int, mode: Mode, item: Item)

  /** One frame per child, the first child on top: `extend(reversed(docs))`. */
  function FramesOf(indent: int, mode: Mode, ds: seq<Doc>): (r: seq<Frame>)
    ensures |r| == |ds|
    ensures forall k :: 0 <= k < |ds| ==> r[k] == Frame(indent, mode, DocItem(ds[k]))
  {
    if ds == [] then [] else [Frame(indent, mode, DocItem(ds[0]))] + FramesOf(indent, mode, ds[1..])
  }

  function FrameSize(f: Frame): nat
  {
    match f.item
    case DocItem(d) => Size(d)
    case PopItem(_) => 1
  }

  /** The termination measure of the layout loop and the fitting predicates. */
  function StackSize(stack: seq<Frame>): nat
  {
    if stack == [] then 0 else FrameSize(stack[0]) + StackSize(stack[1..])
  }

  lemma {:induction false} StackSizeAppend(a: seq<Frame>, b: seq<Frame>)
    ensures StackSize(a + b) == StackSize(a) + StackSize(b)
  {
    if a == [] {
      assert a + b == b;
    } else {
      assert (a + b)[1..] == a[1..] + b;
      StackSizeAppend(a[1..], b);
    }
  }

  lemma {:induction false} FramesOfSize(indent: int, mode: Mode, ds: seq<Doc>)
    ensures StackSize(FramesOf(indent, mode, ds)) == SizeSum(ds)
  {
    if ds != [] {
      FramesOfSize(indent, mode, ds[1..]);
      StackSizeAppend([Frame(indent, mode, DocItem(ds[0]))], FramesOf(indent, mode, ds[1..]));
    }
  }

  /** Pushing the children of a Concat or Fill in place of the node shrinks
      the stack. */
  lemma ChildrenShrink(indent: int, mode: Mode, ds: seq<Doc>, rest: seq<Frame>)
    ensures StackSize(FramesOf(indent, mode, ds) + rest) < Size(Concat(ds)) + StackSize(rest)
    ensures StackSize(FramesOf(indent, mode, ds) + rest) < Size(Fill(ds)) + StackSize(rest)
  {
    StackSizeAppend(FramesOf(indent, mode, ds), rest);
    FramesOfSize(indent, mode, ds);
  }

  /** Replacing the top frame by a smaller one shrinks the stack. */
  lemma ReplaceTopShrinks(f: Frame, g: Frame, rest: seq<Frame>)
    requires FrameSize(g) < FrameSize(f)
    ensures StackSize([g] + rest) < StackSize([f] + rest)
  {
    assert ([g] + rest)[1..] == rest;
    assert ([f] + rest)[1..] == rest;
  }

  /** The annotations whose pops are still pending, innermost first. */
  function PendingPops(stack: seq<Frame>): seq<Annotation>
  {
    if stack == [] then []
    else (if stack[0].item.PopItem? then [stack[0].item.annotation] else []) + PendingPops(stack[1..])
  }

  lemma {:induction false} PendingPopsAppend(a: seq<Frame>, b: seq<Frame>)
    ensures PendingPops(a + b) == PendingPops(a) + PendingPops(b)
  {
    if a == [] {
      assert a + b == b;
    } else {
      var h := if a[0].item.PopItem? then [a[0].item.annotation] else [];
      assert (a + b)[0] == a[0];
      assert (a + b)[1..] == a[1..] + b;
      PendingPopsAppend(a[1..], b);
      var x, y := PendingPops(a[1..]), PendingPops(b);
      assert PendingPops(a + b) == h + (x + y);
      assert PendingPops(a) == h + x;
      assert h + (x + y) == (h + x) + y;
    }
  }

  lemma {:induction false} FramesOfNoPops(indent: int, mode: Mode, ds: seq<Doc>)
    ensures PendingPops(FramesOf(indent, mode, ds)) == []
  {
    if ds != [] {
      FramesOfNoPops(indent, mode, ds[1..]);
    }
  }
}
