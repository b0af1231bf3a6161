/** `normalize_doc` exactly as the source runs it: every Nest, Group and
    AlwaysBreak it builds goes through the constructor's Doc-instance
    assertion, and a FlatChoice is returned untouched (its branches are only
    normalised when the layout reads them). */
module NormalizeChecked {
  import opened Wrappers
  import opened DocTypes
  import opened DocBuild
  import opened LayoutStack
  import opened Fitting

  function NormalizeAsWritten(d: Doc): Result<Doc, BuildError>
    decreases d, 2
  {
    match d
    case Text(s) => Success(if s == "" then Nil else d)
    case Nil => Success(Nil)
    case HardLine => Success(HardLine)
    case Contextual(_) => Success(d)
    case FlatChoice(_, _) => Success(d)
    case Concat(ds) =>
      var pb :- PartsAsWritten(ds);
      var parts := pb.0;
      if parts == [] then Success(Nil)
      else
        var res := if |parts| == 1 then parts[0] else Concat(parts);
        if pb.1 then MkAlwaysBreak(res) else Success(res)
    case Nest(i, b) =>
      var n :- NormalizeAsWritten(b);
      if n.AlwaysBreak? then
        var inner :- MkNest(i, n.doc);
        MkAlwaysBreak(inner)
      else MkNest(i, n)
    case Group(b) =>
      var n :- NormalizeAsWritten(b);
      if n.AlwaysBreak? then Success(n) else if n == Nil then Success(Nil) else MkGroup(n)
    case AlwaysBreak(b) =>
      var n :- NormalizeAsWritten(b);
      if n.AlwaysBreak? then Success(n) else MkAlwaysBreak(n)
    case Fill(ds) => Success(NormalizeFill(ds))
    case Annotated(b, a) =>
      var n :- NormalizeAsWritten(b);
      Success(Annotated(n, a))
  }

  /** The spliced children and the `propagate_broken` flag of
      `Concat.normalize`, failing with the first child that fails. */
  function PartsAsWritten(ds: seq<Doc>): Result<(seq<Doc>, bool), BuildError>
    decreases ds, 0
  {
    if ds == [] then Success(([], false))
    else
      var n :- NormalizeAsWritten(ds[0]);
      var rest :- PartsAsWritten(ds[1..]);
      Success((Contribution(n) + rest.0, n.AlwaysBreak? || rest.1))
  }

  /** No FlatChoice anywhere: the lazy and the eager normalisation coincide. */
  predicate ChoiceFree(d: Doc)
  {
    match d
    case FlatChoice(_, _) => false
    case Concat(ds) => forall i :: 0 <= i < |ds| ==> ChoiceFree(ds[i])
    case Fill(ds) => forall i :: 0 <= i < |ds| ==> ChoiceFree(ds[i])
    case Nest(_, b) => ChoiceFree(b)
    case Group(b) => ChoiceFree(b)
    case AlwaysBreak(b) => ChoiceFree(b)
    case Annotated(b, _) => ChoiceFree(b)
    case Contextual(fn) => ChoiceFree(fn.body)
    case _ => true
  }

  /** Whenever the source's normalisation succeeds on a FlatChoice-free
      document, it computes the corrected `Normalize`. */
  lemma {:induction false} AsWrittenAgrees(d: Doc)
    requires ChoiceFree(d)
    ensures NormalizeAsWritten(d).Success? ==> NormalizeAsWritten(d).value == Normalize(d)
    decreases d, 1
  {
    match d
    case Text(_) =>
    case Nil =>
    case HardLine =>
    case Contextual(_) =>
    case FlatChoice(_, _) =>
    case Concat(ds) =>
      PartsAgree(ds);
    case Nest(i, b) =>
      AsWrittenAgrees(b);
    case Group(b) =>
      AsWrittenAgrees(b);
    case AlwaysBreak(b) =>
      AsWrittenAgrees(b);
    case Fill(_) =>
    case Annotated(b, _) =>
      AsWrittenAgrees(b);
  }

  lemma {:induction false} PartsAgree(ds: seq<Doc>)
    requires forall i :: 0 <= i < |ds| ==> ChoiceFree(ds[i])
    ensures PartsAsWritten(ds).Success? ==>
              PartsAsWritten(ds).value == (ConcatParts(ds), ConcatBreaks(ds))
    decreases ds, 0
  {
    if ds != [] {
      AsWrittenAgrees(ds[0]);
      PartsAgree(ds[1..]);
    }
  }

  /** A successful as-written normalisation of a constructible document is
      itself constructible. */
  lemma {:induction false} AsWrittenKeepsConstructible(d: Doc)
    requires Constructible(d)
    ensures NormalizeAsWritten(d).Success? ==> Constructible(NormalizeAsWritten(d).value)
    decreases d, 1
  {
    match d
    case Text(_) =>
    case Nil =>
    case HardLine =>
    case Contextual(_) =>
    case FlatChoice(_, _) =>
    case Concat(ds) =>
      PartsKeepConstructible(ds);
    case Nest(i, b) =>
      AsWrittenKeepsConstructible(b);
    case Group(b) =>
      AsWrittenKeepsConstructible(b);
    case AlwaysBreak(b) =>
      AsWrittenKeepsConstructible(b);
    case Fill(ds) =>
      FillPartsConstructible(ds);
    case Annotated(b, _) =>
      AsWrittenKeepsConstructible(b);
  }

  lemma {:induction false} PartsKeepConstructible(ds: seq<Doc>)
    requires forall i :: 0 <= i < |ds| ==> Constructible(ds[i])
    ensures PartsAsWritten(ds).Success? ==>
              forall k :: 0 <= k < |PartsAsWritten(ds).value.0| ==> Constructible(PartsAsWritten(ds).value.0[k])
    decreases ds, 0
  {
    if ds != [] && PartsAsWritten(ds).Success? {
      AsWrittenKeepsConstructible(ds[0]);
      PartsKeepConstructible(ds[1..]);
      var n := NormalizeAsWritten(ds[0]).value;
      var rest := PartsAsWritten(ds[1..]).value.0;
      var p := PartsAsWritten(ds).value.0;
      assert p == Contribution(n) + rest;
      forall k | 0 <= k < |p| ensures Constructible(p[k]) {
        if k < |Contribution(n)| {
          assert p[k] == Contribution(n)[k];
        } else {
          assert p[k] == rest[k - |Contribution(n)|];
        }
      }
    }
  }

  lemma {:induction false} FillPartsConstructible(ds: seq<Doc>)
    requires forall i :: 0 <= i < |ds| ==> Constructible(ds[i])
    ensures forall k :: 0 <= k < |FillParts(ds)| ==> Constructible(FillParts(ds)[k])
  {
    if ds != [] {
      FillPartsConstructible(ds[1..]);
      var head := if Unbroken(ds[0]) == Nil then [] else [Unbroken(ds[0])];
      var p := FillParts(ds);
      assert p == head + FillParts(ds[1..]);
      forall k | 0 <= k < |p| ensures Constructible(p[k]) {
        if k < |head| {
          assert p[k] == Unbroken(ds[0]);
        } else {
          assert p[k] == FillParts(ds[1..])[k - |head|];
        }
      }
    }
  }

  /** `nest(4, concat(['x']))` is built without error, but normalising it
      unwraps the sole string child and then re-nests it, tripping the Nest
      constructor's assertion. The corrected normalisation returns the nested
      string. */
  lemma NestOfSoleStringFails()
    ensures Constructible(Nest(4, Concat([Text("x")])))
    ensures NormalizeAsWritten(Nest(4, Concat([Text("x")]))) == Failure(NotADocInstance)
    ensures Normalize(Nest(4, Concat([Text("x")]))) == Nest(4, Text("x"))
  {
    assert [Text("x")][1..] == [];
    assert NormalizeAsWritten(Text("x")) == Success(Text("x"));
    assert PartsAsWritten([]) == Success(([], false));
    assert Contribution(Text("x")) == [Text("x")];
    assert PartsAsWritten([Text("x")]) == Success(([Text("x")] + [], false));
    assert [Text("x")] + [] == [Text("x")];
    assert ConcatParts([Text("x")]) == [Text("x")];
  }

  // ---------------------------------------------------------------------
  // FlatChoice: branches normalised when the layout reads them
  // ---------------------------------------------------------------------

  /** A FlatChoice with its access state: the two stored branches, whether
      it came out of `normalize` (`normalize_on_access`), and which branch
      has already been normalised in place. */
  datatype LazyChoice = LazyChoice(whenBroken: Doc, whenFlat: Doc, onAccess: bool,
                                   brokenNormalized: bool, flatNormalized: bool)

  /** `FlatChoice.normalize`: a choice already marked is returned as it is;
      otherwise a new one holds the same raw branches, marked, with neither
      branch normalised yet. */
  function NormalizeChoice(c: LazyChoice): (r: LazyChoice)
    ensures r.onAccess && r.whenBroken == c.whenBroken && r.whenFlat == c.whenFlat
    ensures !c.onAccess ==> !r.brokenNormalized && !r.flatNormalized
    ensures c.onAccess ==> r == c
  {
    if c.onAccess then c else LazyChoice(c.whenBroken, c.whenFlat, true, false, false)
  }

  /** The `when_broken` property: a marked choice normalises the broken
      branch the first time it is read. Returns the branch and the choice
      after the read. */
  function ReadBroken(c: LazyChoice): (r: (Doc, LazyChoice))
    ensures c.onAccess ==> r.0 == (if c.brokenNormalized then c.whenBroken else Normalize(c.whenBroken))
    ensures !c.onAccess ==> r == (c.whenBroken, c)
    ensures r.1.whenFlat == c.whenFlat && r.1.flatNormalized == c.flatNormalized && r.1.onAccess == c.onAccess
  {
    if c.onAccess && !c.brokenNormalized then
      var n := Normalize(c.whenBroken);
      (n, c.(whenBroken := n, brokenNormalized := true))
    else (c.whenBroken, c)
  }

  /** The `when_flat` property as written: it normalises the flat branch
      only once the broken branch has been normalised. */
  function ReadFlatAsWritten(c: LazyChoice): (r: (Doc, LazyChoice))
    ensures !c.brokenNormalized ==> r == (c.whenFlat, c)
    ensures c.brokenNormalized ==> r.0 == (if c.flatNormalized then c.whenFlat else Normalize(c.whenFlat))
  {
    if c.brokenNormalized && !c.flatNormalized then
      var n := Normalize(c.whenFlat);
      (n, c.(whenFlat := n, flatNormalized := true))
    else (c.whenFlat, c)
  }

  /** The `when_flat` property as evidently intended: like `when_broken`,
      it normalises the flat branch the first time a marked choice is read. */
  function ReadFlat(c: LazyChoice): (r: (Doc, LazyChoice))
    ensures c.onAccess ==> r.0 == (if c.flatNormalized then c.whenFlat else Normalize(c.whenFlat))
    ensures !c.onAccess ==> r == (c.whenFlat, c)
    ensures r.1.whenBroken == c.whenBroken && r.1.brokenNormalized == c.brokenNormalized && r.1.onAccess == c.onAccess
  {
    if c.onAccess && !c.flatNormalized then
      var n := Normalize(c.whenFlat);
      (n, c.(whenFlat := n, flatNormalized := true))
    else (c.whenFlat, c)
  }

  /** A freshly normalised choice. */
  function Fresh(b: Doc, f: Doc): LazyChoice
  {
    NormalizeChoice(LazyChoice(b, f, false, false, false))
  }

  /** As written, a normalised choice whose flat branch is read first (as
      the fitting check of a Group in flat mode does) hands out the flat
      branch un-normalised, and stays un-normalised on every later flat
      read until the broken branch has been read. */
  lemma FlatReadFirstStaysRaw(b: Doc, f: Doc)
    ensures ReadFlatAsWritten(Fresh(b, f)) == (f, Fresh(b, f))
  {
  }

  /** The difference is visible to the fitting check: a flat branch whose
      forced break comes after a hard line fits when read raw, and does not
      fit once normalised. */
  lemma RawFlatBranchFitsDifferently()
    ensures var f := Concat([Text("a"), HardLine, AlwaysBreak(Text("b"))]);
            ReadFlatAsWritten(Fresh(Nil, f)).0 == f &&
            LineFits(1, DocTokens(Flat, f)) &&
            Normalize(f) == AlwaysBreak(Concat([Text("a"), HardLine, Text("b")])) &&
            !LineFits(1, DocTokens(Flat, Normalize(f)))
  {
    var f := Concat([Text("a"), HardLine, AlwaysBreak(Text("b"))]);
    var ts := DocTokens(Flat, f);
    assert TokensSeq(Flat, [AlwaysBreak(Text("b"))]) == [TForced];
    assert TokensSeq(Flat, [HardLine, AlwaysBreak(Text("b"))]) == [TNewline, TForced];
    assert ts == [TText(1), TNewline, TForced];
    assert FirstNonText(ts) == 1 by {
      assert FirstNonText(ts[1..]) == 0;
    }
    assert ts[..1] == [TText(1)];
    assert TextWidth([TText(1)]) == 1;
    NormalizeExample();
    var tn := DocTokens(Flat, Normalize(f));
    assert tn == [TForced];
    assert FirstNonText(tn) == 0;
  }

  lemma NormalizeExample()
    ensures Normalize(Concat([Text("a"), HardLine, AlwaysBreak(Text("b"))])) ==
              AlwaysBreak(Concat([Text("a"), HardLine, Text("b")]))
  {
    var ds := [Text("a"), HardLine, AlwaysBreak(Text("b"))];
    assert ds[1..] == [HardLine, AlwaysBreak(Text("b"))];
    assert ds[1..][1..] == [AlwaysBreak(Text("b"))];
    assert ds[1..][1..][1..] == [];
    assert Normalize(AlwaysBreak(Text("b"))) == AlwaysBreak(Text("b"));
    assert ConcatParts([AlwaysBreak(Text("b"))]) == [Text("b")];
    assert ConcatParts(ds) == [Text("a"), HardLine, Text("b")];
    assert ConcatBreaks(ds);
  }

  /** Corrected, a normalised choice hands out exactly the branches of the
      eager `Normalize(FlatChoice(b, f))`, whichever branch is read first,
      and reading a branch again gives the same doc. */
  lemma CorrectedChoiceIsEager(b: Doc, f: Doc)
    ensures var c := Fresh(b, f);
            var n := Normalize(FlatChoice(b, f));
            ReadFlat(c).0 == n.whenFlat && ReadBroken(c).0 == n.whenBroken &&
            ReadBroken(ReadFlat(c).1).0 == n.whenBroken && ReadFlat(ReadBroken(c).1).0 == n.whenFlat &&
            ReadFlat(ReadFlat(c).1).0 == n.whenFlat && ReadBroken(ReadBroken(c).1).0 == n.whenBroken
  {
  }
}
