/** The Python values the printers of `prettyprinter/prettyprinter.py`
    dispatch on, reduced to the shapes the modelled printers distinguish,
    and the comment wrappers that `comment_value` and `trailing_comment`
    put around a value. */
module Values {
  import opened Wrappers

  /** A Python value. Containers list their elements in iteration order (a
      dict in insertion order); `POther` is any value of another type,
      identified by its type id. */
  datatype PyValue =
    | PInt(i: int)
    | PStr(s: string)
    | PList(items: seq<PyValue>)
    | PTuple(items: seq<PyValue>)
    | PSet(items: seq<PyValue>)
    | PDict(entries: seq<(PyValue, PyValue)>)
    | POther(typeId: nat)
    | PCommented(value: PyValue, comment: string)
    | PTrailingCommented(value: PyValue, comment: string)

  predicate IsWrapper(v: PyValue)
  {
    v.PCommented? || v.PTrailingCommented?
  }

  /** What `unwrap_comments` returns: the bare value, the comment and the
      trailing comment found on its wrappers (None when there was none). */
  datatype Unwrapped = Unwrapped(value: PyValue, comment: Option<string>, trailing: Option<string>)

  /** The `while` loop of `unwrap_comments`, peeling wrappers from the
      outside in; each wrapper overwrites the comment of its kind, so the
      innermost one wins. */
  function UnwrapLoop(v: PyValue, comment: Option<string>, trailing: Option<string>): (r: Unwrapped)
    ensures !IsWrapper(r.value)
    ensures !IsWrapper(v) ==> r == Unwrapped(v, comment, trailing)
    ensures comment.Some? ==> r.comment.Some?
    ensures trailing.Some? ==> r.trailing.Some?
  {
    match v
    case PCommented(x, c) => UnwrapLoop(x, Some(c), trailing)
    case PTrailingCommented(x, c) => UnwrapLoop(x, comment, Some(c))
    case _ => Unwrapped(v, comment, trailing)
  }

  /** `unwrap_comments(value)`. */
  function UnwrapComments(v: PyValue): (r: Unwrapped)
    ensures !IsWrapper(r.value)
    ensures !IsWrapper(v) ==> r == Unwrapped(v, None, None)
  {
    UnwrapLoop(v, None, None)
  }

  /** The same result described from the inside out: a comment wrapper
      contributes its text only when no wrapper inside it carries a comment
      of the same kind. */
  lemma {:induction false} UnwrapInnermostWins(x: PyValue, c: string)
    ensures var inner := UnwrapComments(x);
            UnwrapComments(PCommented(x, c)) ==
              Unwrapped(inner.value, if inner.comment.Some? then inner.comment else Some(c), inner.trailing)
    ensures var inner := UnwrapComments(x);
            UnwrapComments(PTrailingCommented(x, c)) ==
              Unwrapped(inner.value, inner.comment, if inner.trailing.Some? then inner.trailing else Some(c))
  {
    LoopOverride(x, None, None, Some(c), None);
    LoopOverride(x, None, None, None, Some(c));
  }

  /** Starting the loop with a comment already found only changes the result
      where the rest of the value carries no comment of that kind. */
  lemma {:induction false} LoopOverride(x: PyValue, c0: Option<string>, t0: Option<string>, c1: Option<string>, t1: Option<string>)
    requires c0.None? && t0.None?
    ensures var r := UnwrapLoop(x, c0, t0);
            UnwrapLoop(x, c1, t1) ==
              Unwrapped(r.value, if r.comment.Some? then r.comment else c1, if r.trailing.Some? then r.trailing else t1)
    decreases x
  {
    match x
    case PCommented(y, c) =>
      LoopSeeded(y, Some(c), t0, t1);
    case PTrailingCommented(y, c) =>
      LoopSeededC(y, c0, c1, Some(c));
    case _ =>
  }

  /** Two runs that differ only in the trailing comment seeded, where the
      comment seed is already set. */
  lemma {:induction false} LoopSeeded(y: PyValue, c: Option<string>, t0: Option<string>, t1: Option<string>)
    requires c.Some? && t0.None?
    ensures var r := UnwrapLoop(y, c, t0);
            UnwrapLoop(y, c, t1) == Unwrapped(r.value, r.comment, if r.trailing.Some? then r.trailing else t1)
    decreases y
  {
    match y
    case PCommented(z, c2) => LoopSeeded(z, Some(c2), t0, t1);
    case PTrailingCommented(z, _) =>
    case _ =>
  }

  /** Two runs that differ only in the comment seeded, where the trailing
      seed is already set. */
  lemma {:induction false} LoopSeededC(y: PyValue, c0: Option<string>, c1: Option<string>, t: Option<string>)
    requires t.Some? && c0.None?
    ensures var r := UnwrapLoop(y, c0, t);
            UnwrapLoop(y, c1, t) == Unwrapped(r.value, if r.comment.Some? then r.comment else c1, r.trailing)
    decreases y
  {
    match y
    case PCommented(z, _) =>
    case PTrailingCommented(z, t2) => LoopSeededC(z, c0, c1, Some(t2));
    case _ =>
  }
}
