/** The container printers of `prettyprinter/prettyprinter.py`:
    `pretty_bracketable_iterable` for lists, tuples and sets and
    `pretty_dict`, with their truncation to `max_seq_len` elements, the
    dict's optional key sort, and their break rules. Elements are printed by
    a parameter standing for `pretty_python_value`; a key's sort order is an
    integer rank standing for the `_AlwaysSortable` comparison. */
module Containers {
  import opened Wrappers
  import opened DocTypes
  import opened Values
  import opened Context
  import opened Compose
  import Utils

  /** A negative `max_seq_len` makes a non-empty container recurse without
      end (lists, tuples, sets) or fail in `take` (dicts). */
  datatype ContainerError = NegativeMaxSeqLen

  /** Python truthiness of an optional comment: None and "" are false. */
  predicate Truthy(c: Option<string>)
  {
    c.Some? && c.value != ""
  }

  /** The trailing comment a truncated container carries: the count of the
      elements left out, then any comment it already had after `. `. */
  function TruncationComment(k: nat, trailing: Option<string>): (r: string)
    ensures Truthy(Some(r))
    ensures "...and " + Utils.NatToString(k) + " more elements" <= r
    ensures !Truthy(trailing) ==> r == "...and " + Utils.NatToString(k) + " more elements"
    ensures Truthy(trailing) ==> |r| > |trailing.value| + 2 && r[|r| - |trailing.value| - 2..] == ". " + trailing.value
    ensures Truthy(trailing) ==> r == "...and " + Utils.NatToString(k) + " more elements" + ". " + trailing.value
  {
    var base := "...and " + Utils.NatToString(k) + " more elements";
    assert base == "...and " + (Utils.NatToString(k) + " more elements");
    if Truthy(trailing) then base + ". " + trailing.value else base
  }

  /** The comment a container of `n` elements is printed with: the
      truncation comment, joined to the caller's, when elements were cut. */
  function CutComment(n: nat, maxSeqLen: nat, trailing: Option<string>): (c: Option<string>)
    ensures n <= maxSeqLen ==> c == trailing
    ensures n > maxSeqLen ==> c.Some? && Truthy(c)
  {
    if n > maxSeqLen then Some(TruncationComment(n - maxSeqLen, trailing)) else trailing
  }

  // ---------------------------------------------------------------------
  // Lists, tuples and sets
  // ---------------------------------------------------------------------

  datatype SeqKind = ListKind | TupleKind | SetKind

  function LeftBracket(kind: SeqKind): Doc
  {
    match kind
    case ListKind => LBRACKET
    case TupleKind => LPAREN
    case SetKind => LBRACE
  }

  function RightBracket(kind: SeqKind): Doc
  {
    match kind
    case ListKind => RBRACKET
    case TupleKind => RPAREN
    case SetKind => RBRACE
  }

  /** `general_identifier(set)`. */
  const SET_NAME: Doc := Annotated(Text("set"), Syntax(NameBuiltin))

  /** The context an element is printed in: one level deeper, with the
      plain strategy for a sole element and the hanging one otherwise. */
  function ElementCtx(ctx: Ctx, n: nat): (r: Ctx)
    ensures r.depthLeft == ctx.depthLeft - 1
    ensures r.strategy == if n == 1 then Plain else Hang
    ensures r.(depthLeft := ctx.depthLeft, strategy := ctx.strategy) == ctx
  {
    UseMultilineStrategy(NestedCall(ctx), if n == 1 then Plain else Hang)
  }

  /** The body of `pretty_bracketable_iterable` once no truncation is
      needed. A non-empty tuple of one element dangles a comma unless a
      trailing comment follows it; the comment forces a break. */
  function IterableBody(kind: SeqKind, items: seq<PyValue>, ctx: Ctx, trailing: Option<string>,
                        pp: (PyValue, Ctx) -> Doc, cb: CommentBody): Doc
  {
    var left := LeftBracket(kind);
    var right := RightBracket(kind);
    if items == [] then
      if kind == SetKind then PrettyCall(ctx, SET_NAME, [], [], pp, cb) else Concat([left, right])
    else if ctx.depthLeft == 0 then Concat([left, ELLIPSIS, right])
    else
      var els := PrintAll(items, pp, ElementCtx(ctx, |items|));
      var extra := if Truthy(trailing) then [CommentLines(cb, trailing.value)] else [];
      var dangle := kind == TupleKind && |items| == 1 && !Truthy(trailing);
      SequenceOfDocs(ctx.indent, left, els + extra, right, dangle, Truthy(trailing), cb)
  }

  /** `pretty_bracketable_iterable(value, ctx, trailing_comment)`: a
      container longer than `max_seq_len` is printed as its first
      `max_seq_len` elements with a truncation comment. */
  function PrettyIterable(kind: SeqKind, items: seq<PyValue>, ctx: Ctx, trailing: Option<string>,
                          pp: (PyValue, Ctx) -> Doc, cb: CommentBody): (r: Result<Doc, ContainerError>)
    ensures r.Failure? <==> ctx.maxSeqLen < 0
    ensures 0 <= ctx.maxSeqLen < |items| ==>
              r == PrettyIterable(kind, items[..ctx.maxSeqLen], ctx,
                                  Some(TruncationComment(|items| - ctx.maxSeqLen, trailing)), pp, cb)
    ensures |items| <= ctx.maxSeqLen ==> r == Success(IterableBody(kind, items, ctx, trailing, pp, cb))
    decreases |items|
  {
    if |items| > ctx.maxSeqLen then
      if ctx.maxSeqLen < 0 then Failure(NegativeMaxSeqLen)
      else
        var k := |items| - ctx.maxSeqLen;
        PrettyIterable(kind, items[..ctx.maxSeqLen], ctx, Some(TruncationComment(k, trailing)), pp, cb)
    else Success(IterableBody(kind, items, ctx, trailing, pp, cb))
  }

  /** The break rule of a shown, non-empty container below the depth limit:
      it is always broken iff it was truncated, has a trailing comment, is
      too long for the 150-column ribbon, or has a commented element. */
  lemma IterableBreakRule(kind: SeqKind, items: seq<PyValue>, ctx: Ctx, trailing: Option<string>,
                          pp: (PyValue, Ctx) -> Doc, cb: CommentBody)
    requires ctx.depthLeft != 0 && ctx.maxSeqLen > 0 && items != []
    ensures var n := if |items| > ctx.maxSeqLen then ctx.maxSeqLen else |items|;
            var els := PrintAll(items[..n], pp, ElementCtx(ctx, n));
            var r := PrettyIterable(kind, items, ctx, trailing, pp, cb);
            r.Success? && (r.value.AlwaysBreak? || r.value.Group?) &&
            (r.value.AlwaysBreak? <==>
               |items| > ctx.maxSeqLen || Truthy(trailing) || 3 * n > MAX_PRACTICAL_RIBBON_WIDTH || AnyCommented(els))
  {
    var n := if |items| > ctx.maxSeqLen then ctx.maxSeqLen else |items|;
    var shown := items[..n];
    var tc := if |items| > ctx.maxSeqLen then Some(TruncationComment(|items| - ctx.maxSeqLen, trailing)) else trailing;
    if |items| > ctx.maxSeqLen {
      assert PrettyIterable(kind, items, ctx, trailing, pp, cb) == PrettyIterable(kind, shown, ctx, tc, pp, cb);
    } else {
      assert shown == items;
    }
    assert PrettyIterable(kind, items, ctx, trailing, pp, cb) == Success(IterableBody(kind, shown, ctx, tc, pp, cb));
    var els := PrintAll(shown, pp, ElementCtx(ctx, n));
    var extra := if Truthy(tc) then [CommentLines(cb, tc.value)] else [];
    AnyCommentedAppend(els, [], extra);
    assert els + [] + extra == els + extra;
  }

  /** A non-empty container below the depth limit prints its first
      `max_seq_len` elements in order, each in the element context, then the
      comment it carries as a last element, through `sequence_of_docs`; a
      sole tuple element dangles a comma unless a comment follows. */
  lemma IterableShowsElements(kind: SeqKind, items: seq<PyValue>, ctx: Ctx, trailing: Option<string>,
                              pp: (PyValue, Ctx) -> Doc, cb: CommentBody)
    requires ctx.depthLeft != 0 && ctx.maxSeqLen > 0 && items != []
    ensures var n := if |items| > ctx.maxSeqLen then ctx.maxSeqLen else |items|;
            var tc := CutComment(|items|, ctx.maxSeqLen, trailing);
            var els := PrintAll(items[..n], pp, ElementCtx(ctx, n));
            var extra := if Truthy(tc) then [CommentLines(cb, tc.value)] else [];
            PrettyIterable(kind, items, ctx, trailing, pp, cb) ==
              Success(SequenceOfDocs(ctx.indent, LeftBracket(kind), els + extra, RightBracket(kind),
                                     kind == TupleKind && n == 1 && !Truthy(tc), Truthy(tc), cb))
  {
    var n := if |items| > ctx.maxSeqLen then ctx.maxSeqLen else |items|;
    var shown := items[..n];
    var tc := CutComment(|items|, ctx.maxSeqLen, trailing);
    if |items| > ctx.maxSeqLen {
      assert PrettyIterable(kind, items, ctx, trailing, pp, cb) == PrettyIterable(kind, shown, ctx, tc, pp, cb);
    } else {
      assert shown == items;
    }
    assert PrettyIterable(kind, items, ctx, trailing, pp, cb) == Success(IterableBody(kind, shown, ctx, tc, pp, cb));
  }

  /** A container cut to zero elements prints as an empty one and loses
      its truncation comment. */
  lemma TruncatedToNothing(kind: SeqKind, items: seq<PyValue>, ctx: Ctx, trailing: Option<string>,
                           pp: (PyValue, Ctx) -> Doc, cb: CommentBody)
    requires ctx.maxSeqLen == 0 && items != [] && kind != SetKind
    ensures PrettyIterable(kind, items, ctx, trailing, pp, cb) ==
              Success(Concat([LeftBracket(kind), RightBracket(kind)]))
  {
  }

  // ---------------------------------------------------------------------
  // Dicts
  // ---------------------------------------------------------------------

  type Entry = (PyValue, PyValue)

  /** Sorted by key rank, stated on neighbours. */
  predicate SortedByRank(es: seq<Entry>, rank: PyValue -> int)
  {
    forall i :: 0 <= i < |es| - 1 ==> rank(es[i].0) <= rank(es[i + 1].0)
  }

  /** Inserts an entry into a list sorted by rank, before the first entry
      of higher or equal rank. */
  function Insert(e: Entry, es: seq<Entry>, rank: PyValue -> int): (r: seq<Entry>)
    requires SortedByRank(es, rank)
    ensures SortedByRank(r, rank)
    ensures multiset(r) == multiset(es) + multiset{e}
    ensures |r| == |es| + 1
    ensures r[0] == e || (es != [] && r[0] == es[0])
  {
    if es == [] || rank(e.0) <= rank(es[0].0) then [e] + es
    else
      var rest := Insert(e, es[1..], rank);
      InsertBehind(e, es, rest, rank);
      [es[0]] + rest
  }

  /** The inductive step of `Insert`, once the entry has gone past the head. */
  lemma InsertBehind(e: Entry, es: seq<Entry>, rest: seq<Entry>, rank: PyValue -> int)
    requires es != [] && SortedByRank(es, rank) && rank(es[0].0) < rank(e.0)
    requires SortedByRank(rest, rank)
    requires multiset(rest) == multiset(es[1..]) + multiset{e}
    requires rest != [] && (rest[0] == e || (es[1..] != [] && rest[0] == es[1..][0]))
    ensures SortedByRank([es[0]] + rest, rank)
    ensures multiset([es[0]] + rest) == multiset(es) + multiset{e}
  {
    var r := [es[0]] + rest;
    assert es == [es[0]] + es[1..];
    assert forall i :: 1 <= i < |r| ==> r[i] == rest[i - 1];
  }

  /** `sorted(keys, key=_AlwaysSortable)` applied to the entries, with the
      comparison reduced to an integer rank. */
  function SortByRank(es: seq<Entry>, rank: PyValue -> int): (r: seq<Entry>)
    ensures SortedByRank(r, rank)
    ensures multiset(r) == multiset(es)
    ensures |r| == |es|
  {
    if es == [] then []
    else
      assert es == [es[0]] + es[1..];
      Insert(es[0], SortByRank(es[1..], rank), rank)
  }

  /** The printed parts of one key/value pair. */
  datatype PairDocs = PairDocs(kdoc: Doc, vdoc: Doc, kcomment: Option<string>, vcomment: Option<string>)

  /** The context a value is printed in. */
  function ValueCtx(ctx: Ctx): Ctx
  {
    UseMultilineStrategy(NestedCall(ctx), Indented)
  }

  /** A str key is printed without going one level deeper, with the
      parenthesised string strategy; any other key one level deeper. */
  function KeyCtx(ctx: Ctx, k: PyValue): Ctx
  {
    if k.PStr? then UseMultilineStrategy(ctx, Parens) else NestedCall(ctx)
  }

  /** Prints a pair and takes any comment off the key and value docs. */
  function PrintPair(e: Entry, ctx: Ctx, pp: (PyValue, Ctx) -> Doc): (r: PairDocs)
    ensures r.kcomment.Some? <==> IsCommented(pp(e.0, KeyCtx(ctx, e.0)))
    ensures r.vcomment.Some? <==> IsCommented(pp(e.1, ValueCtx(ctx)))
    ensures var kdoc := pp(e.0, KeyCtx(ctx, e.0));
            if IsCommented(kdoc) then r.kdoc == kdoc.doc && r.kcomment == Some(kdoc.annotation.text) else r.kdoc == kdoc
    ensures var vdoc := pp(e.1, ValueCtx(ctx));
            if IsCommented(vdoc) then r.vdoc == vdoc.doc && r.vcomment == Some(vdoc.annotation.text) else r.vdoc == vdoc
  {
    var kdoc := pp(e.0, KeyCtx(ctx, e.0));
    var vdoc := pp(e.1, ValueCtx(ctx));
    PairDocs(
      if IsCommented(kdoc) then kdoc.doc else kdoc,
      if IsCommented(vdoc) then vdoc.doc else vdoc,
      if IsCommented(kdoc) then Some(kdoc.annotation.text) else None,
      if IsCommented(vdoc) then Some(vdoc.annotation.text) else None)
  }

  predicate PairCommented(e: Entry, ctx: Ctx, pp: (PyValue, Ctx) -> Doc)
  {
    var p := PrintPair(e, ctx, pp);
    p.kcomment.Some? || p.vcomment.Some?
  }

  const COLON_SPACE: Doc := Concat([COLON, Text(" ")])

  /** The doc of one pair. A pair whose comments are all empty is laid out
      like an uncommented one; a value comment goes at the end of the line
      when flat, or on its own line above a re-rendered value when broken. */
  function PairPart(e: Entry, p: PairDocs, last: bool, ctx: Ctx, pp: (PyValue, Ctx) -> Doc, cb: CommentBody): Doc
  {
    if !(Truthy(p.kcomment) || Truthy(p.vcomment)) then
      Concat([p.kdoc, COLON_SPACE, p.vdoc, if last then Nil else COMMA, if last then Nil else LINE])
    else
      var kcommented := if Truthy(p.kcomment) then Concat([CommentLines(cb, p.kcomment.value), HardLine, p.kdoc]) else p.kdoc;
      var vcommented :=
        if Truthy(p.vcomment) then
          var c := CommentLines(cb, p.vcomment.value);
          var rerendered := pp(e.1, UseMultilineStrategy(NestedCall(ctx), Plain));
          Group(FlatChoice(
            Concat([Nest(ctx.indent, Concat([HardLine, c, HardLine, rerendered, if last then Nil else COMMA, if last then Nil else HardLine]))]),
            Concat([p.vdoc, if last then Nil else COMMA, Text("  "), c, if last then Nil else HardLine])))
        else Concat([p.vdoc, if last then Nil else COMMA, if last then Nil else LINE]);
      Concat([kcommented, COLON_SPACE, vcommented])
  }

  /** The parts of the pairs, in the order given: each pair is printed on
      its own, and only the last one goes without a trailing comma. */
  function PairParts(es: seq<Entry>, ctx: Ctx, pp: (PyValue, Ctx) -> Doc, cb: CommentBody): (r: seq<Doc>)
    ensures |r| == |es|
    ensures forall k :: 0 <= k < |es| ==> r[k] == PairPart(es[k], PrintPair(es[k], ctx, pp), k == |es| - 1, ctx, pp, cb)
  {
    if es == [] then []
    else
      var rest := PairParts(es[1..], ctx, pp, cb);
      var r := [PairPart(es[0], PrintPair(es[0], ctx, pp), |es| == 1, ctx, pp, cb)] + rest;
      assert forall k :: 1 <= k < |es| ==> r[k] == rest[k - 1] && es[k] == es[1..][k - 1];
      r
  }

  predicate AnyPairCommented(es: seq<Entry>, ctx: Ctx, pp: (PyValue, Ctx) -> Doc)
  {
    exists i :: 0 <= i < |es| && PairCommented(es[i], ctx, pp)
  }

  /** The part a truthy trailing comment adds after the pairs. */
  function TrailingPart(trailing: Option<string>, cb: CommentBody): (r: seq<Doc>)
    ensures |r| == if Truthy(trailing) then 1 else 0
  {
    if Truthy(trailing) then [Concat([HardLine, CommentLines(cb, trailing.value)])] else []
  }

  /** The body of `pretty_dict` once no truncation is needed, for the
      entries in the order they are printed: a break when there are more
      than two pairs or any comment. */
  function DictBody(shown: seq<Entry>, ctx: Ctx, trailing: Option<string>,
                    pp: (PyValue, Ctx) -> Doc, cb: CommentBody): Doc
  {
    var hasComment := Truthy(trailing) || AnyPairCommented(shown, ctx, pp);
    var d := Bracket(ctx.indent, LBRACE, Concat(PairParts(shown, ctx, pp, cb) + TrailingPart(trailing, cb)), RBRACE);
    if |shown| > 2 || hasComment then AlwaysBreak(d) else Group(d)
  }

  /** `pretty_dict(d, ctx, trailing_comment)`: the depth limit is checked
      first, then the dict is cut to its first `max_seq_len` entries, and
      only then are the kept keys sorted. */
  function PrettyDict(es: seq<Entry>, ctx: Ctx, trailing: Option<string>, rank: PyValue -> int,
                      pp: (PyValue, Ctx) -> Doc, cb: CommentBody): (r: Result<Doc, ContainerError>)
    ensures ctx.depthLeft == 0 ==> r == Success(Concat([LBRACE, ELLIPSIS, RBRACE]))
    ensures r.Failure? <==> ctx.depthLeft != 0 && ctx.maxSeqLen < 0
    decreases |es|
  {
    if ctx.depthLeft == 0 then Success(Concat([LBRACE, ELLIPSIS, RBRACE]))
    else if |es| > ctx.maxSeqLen then
      if ctx.maxSeqLen < 0 then Failure(NegativeMaxSeqLen)
      else
        var k := |es| - ctx.maxSeqLen;
        PrettyDict(es[..ctx.maxSeqLen], ctx, Some(TruncationComment(k, trailing)), rank, pp, cb)
    else Success(DictBody(if ctx.sortDictKeys then SortByRank(es, rank) else es, ctx, trailing, pp, cb))
  }

  /** The entries a dict shows, in the order it shows them: the first
      `max_seq_len` entries in insertion order, sorted by key if asked. */
  function ShownEntries(es: seq<Entry>, maxSeqLen: nat, sortKeys: bool, rank: PyValue -> int): (r: seq<Entry>)
    ensures |r| == if |es| > maxSeqLen then maxSeqLen else |es|
    ensures multiset(r) == multiset(Utils.Take(maxSeqLen, es))
    ensures sortKeys ==> SortedByRank(r, rank)
    ensures !sortKeys ==> r == Utils.Take(maxSeqLen, es)
  {
    var kept := Utils.Take(maxSeqLen, es);
    if sortKeys then SortByRank(kept, rank) else kept
  }

  /** A dict below the depth limit prints exactly its shown entries, in the
      order `ShownEntries` gives (cut first, then sorted), one part each,
      followed by the comment it carries. */
  lemma DictShowsEntries(es: seq<Entry>, ctx: Ctx, trailing: Option<string>, rank: PyValue -> int,
                         pp: (PyValue, Ctx) -> Doc, cb: CommentBody)
    requires ctx.depthLeft != 0 && ctx.maxSeqLen >= 0
    ensures PrettyDict(es, ctx, trailing, rank, pp, cb) ==
              Success(DictBody(ShownEntries(es, ctx.maxSeqLen, ctx.sortDictKeys, rank), ctx,
                               CutComment(|es|, ctx.maxSeqLen, trailing), pp, cb))
  {
    var kept := Utils.Take(ctx.maxSeqLen, es);
    var tc := CutComment(|es|, ctx.maxSeqLen, trailing);
    if |es| > ctx.maxSeqLen {
      assert kept == es[..ctx.maxSeqLen];
      assert PrettyDict(es, ctx, trailing, rank, pp, cb) == PrettyDict(kept, ctx, tc, rank, pp, cb);
    } else {
      assert kept == es;
    }
  }

  /** The printed pairs of a dict: part `k` is the `k`-th shown entry,
      printed on its own, and after the last pair comes the comment part. */
  lemma DictPairsInOrder(es: seq<Entry>, ctx: Ctx, trailing: Option<string>, rank: PyValue -> int,
                         pp: (PyValue, Ctx) -> Doc, cb: CommentBody)
    requires ctx.depthLeft != 0 && ctx.maxSeqLen >= 0
    ensures var shown := ShownEntries(es, ctx.maxSeqLen, ctx.sortDictKeys, rank);
            var r := PrettyDict(es, ctx, trailing, rank, pp, cb);
            var tc := CutComment(|es|, ctx.maxSeqLen, trailing);
            r.Success? && (r.value.AlwaysBreak? || r.value.Group?) &&
            r.value.doc == Bracket(ctx.indent, LBRACE,
                                   Concat(PairParts(shown, ctx, pp, cb) + TrailingPart(tc, cb)), RBRACE) &&
            forall k :: 0 <= k < |shown| ==>
              PairParts(shown, ctx, pp, cb)[k] == PairPart(shown[k], PrintPair(shown[k], ctx, pp), k == |shown| - 1, ctx, pp, cb)
  {
    DictShowsEntries(es, ctx, trailing, rank, pp, cb);
  }

  lemma AnyPairCommentedAppend(a: seq<Doc>, b: seq<Doc>)
    requires !AnyCommented(b)
    ensures AnyCommented(a + b) <==> AnyCommented(a)
  {
    AnyCommentedAppend(a, [], b);
    assert a + [] + b == a + b;
  }

  /** What a dict below the depth limit lays out: the shown entries, one
      part each, and a break iff more than two are shown, it was truncated,
      it has a trailing comment, or a shown key or value is commented. */
  lemma DictBreakRule(es: seq<Entry>, ctx: Ctx, trailing: Option<string>, rank: PyValue -> int,
                      pp: (PyValue, Ctx) -> Doc, cb: CommentBody)
    requires ctx.depthLeft != 0 && ctx.maxSeqLen >= 0
    ensures var shown := ShownEntries(es, ctx.maxSeqLen, ctx.sortDictKeys, rank);
            var r := PrettyDict(es, ctx, trailing, rank, pp, cb);
            r.Success? && (r.value.AlwaysBreak? || r.value.Group?) &&
            (r.value.AlwaysBreak? <==>
               |shown| > 2 || |es| > ctx.maxSeqLen || Truthy(trailing) || AnyPairCommented(shown, ctx, pp))
  {
    DictShowsEntries(es, ctx, trailing, rank, pp, cb);
    var tc := CutComment(|es|, ctx.maxSeqLen, trailing);
    assert Truthy(tc) <==> |es| > ctx.maxSeqLen || Truthy(trailing);
  }

  /** Truncation happens before sorting: with room for one entry, a dict
      whose first key ranks higher than its second prints the first pair,
      not the lowest-ranked one, which sorting first would have kept. */
  lemma TruncateBeforeSort(a: Entry, b: Entry, ctx: Ctx, trailing: Option<string>, rank: PyValue -> int,
                           pp: (PyValue, Ctx) -> Doc, cb: CommentBody)
    requires rank(b.0) < rank(a.0)
    requires ctx.depthLeft != 0 && ctx.maxSeqLen == 1 && ctx.sortDictKeys
    ensures PrettyDict([a, b], ctx, trailing, rank, pp, cb) ==
              Success(DictBody([a], ctx, Some(TruncationComment(1, trailing)), pp, cb))
    ensures SortByRank([a, b], rank)[..1] == [b]
  {
    assert SortByRank([b], rank) == [b];
    assert [a, b][1..] == [b];
    assert [a, b][..1] == [a];
    assert SortByRank([a], rank) == [a];
    DictShowsEntries([a, b], ctx, trailing, rank, pp, cb);
  }
}
