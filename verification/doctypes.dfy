/** The document algebra of `prettyprinter/doctypes.py`: the immutable Doc
    tree, its size measure, and the `normalize_doc` rewrite system that drops
    NIL, splices nested concatenations and hoists `AlwaysBreak` upward. */
module DocTypes {
  import Utils

  /** The syntax token kinds of `prettyprinter/syntax.py`, plus the
      NAME_VARIABLE kind that `keyword_arg` annotates with. */
  datatype Token =
    | KeywordConstant | NameBuiltin | NameEntity | NameFunction | NameVariable
    | LiteralString | StringAffix | StringEscape | NumberBinary | NumberFloat
    | NumberInt | Operator | Punctuation | CommentSingle

  /** An annotation value: a syntax token, a `CommentAnnotation` carrying the
      comment text, or any other value a caller chose (an opaque tag). */
  datatype Annotation = Syntax(token: Token) | Comment(text: string) | UserTag(tag: nat)

  /** A Doc. Python's unboxed `str` documents are `Text`. */
  datatype Doc =
    | Text(s: string)
    | Nil
    | Concat(docs: seq<Doc>)
    | Nest(indent: int, doc: Doc)
    | FlatChoice(whenBroken: Doc, whenFlat: Doc)
    | Group(doc: Doc)
    | AlwaysBreak(doc: Doc)
    | Fill(docs: seq<Doc>)
    | Annotated(doc: Doc, annotation: Annotation)
    | HardLine
    | Contextual(fn: ContextFn)

  /** The evaluators a `Contextual` node may hold. Only the evaluator built by
      `align` is modelled; `hang` is `align` of a `Nest`. */
  datatype ContextFn = AlignFn(body: Doc)

  /** Calls a contextual evaluator with the layout position. */
  function Evaluate(fn: ContextFn, indent: int, column: int, pageWidth: int, ribbonWidth: int): Doc
  {
    match fn
    case AlignFn(d) => Nest(column - indent, d)
  }

  const LINE: Doc := FlatChoice(HardLine, Text(" "))
  const SOFTLINE: Doc := FlatChoice(HardLine, Nil)

  // ---------------------------------------------------------------------
  // Size: the termination measure of normalisation and of the layout loop.
  // ---------------------------------------------------------------------

  function Size(d: Doc): nat
  {
    match d
    case Text(_) => 1
    case Nil => 1
    case HardLine => 1
    case Concat(ds) => 1 + SizeSum(ds)
    case Fill(ds) => 1 + SizeSum(ds) + |ds|
    case Nest(_, b) => 1 + Size(b)
    case FlatChoice(b, f) => 1 + Size(b) + Size(f)
    case Group(b) => 1 + Size(b)
    case AlwaysBreak(b) => 1 + Size(b)
    case Annotated(b, _) => 2 + Size(b)
    case Contextual(fn) => 2 + Size(fn.body)
  }

  function SizeSum(ds: seq<Doc>): nat
  {
    if ds == [] then 0 else Size(ds[0]) + SizeSum(ds[1..])
  }

  lemma SizePositive(d: Doc)
    ensures Size(d) >= 1
  {
  }

  lemma {:induction false} SizeSumAppend(a: seq<Doc>, b: seq<Doc>)
    ensures SizeSum(a + b) == SizeSum(a) + SizeSum(b)
  {
    if a == [] {
      assert a + b == b;
    } else {
      assert (a + b)[1..] == a[1..] + b;
      SizeSumAppend(a[1..], b);
    }
  }

  lemma {:induction false} SizeSumElement(ds: seq<Doc>, i: nat)
    requires i < |ds|
    ensures Size(ds[i]) <= SizeSum(ds)
  {
    if i > 0 {
      SizeSumElement(ds[1..], i - 1);
    }
  }

  // ---------------------------------------------------------------------
  // normalize_doc
  // ---------------------------------------------------------------------

  /** What one normalised child adds to the enclosing Concat's list:
      a Concat is spliced, an AlwaysBreak is unwrapped, NIL is dropped. */
  function Contribution(n: Doc): seq<Doc>
  {
    match n
    case Concat(xs) => xs
    case AlwaysBreak(b) => [b]
    case Nil => []
    case _ => [n]
  }

  function Normalize(d: Doc): Doc
    decreases d, 2
  {
    match d
    case Text(s) => if s == "" then Nil else d
    case Nil => Nil
    case HardLine => HardLine
    case Contextual(_) => d
    case Concat(ds) => NormalizeConcat(ds)
    case Nest(i, b) =>
      var n := Normalize(b);
      if n.AlwaysBreak? then AlwaysBreak(Nest(i, n.doc)) else Nest(i, n)
    case FlatChoice(b, f) => FlatChoice(Normalize(b), Normalize(f))
    case Group(b) =>
      var n := Normalize(b);
      if n.AlwaysBreak? then n else if n == Nil then Nil else Group(n)
    case AlwaysBreak(b) =>
      var n := Normalize(b);
      if n.AlwaysBreak? then n else AlwaysBreak(n)
    case Fill(ds) => NormalizeFill(ds)
    case Annotated(b, a) => Annotated(Normalize(b), a)
  }

  /** The list `Concat.normalize` accumulates, child by child, in order. */
  function ConcatParts(ds: seq<Doc>): seq<Doc>
    decreases ds, 0
  {
    if ds == [] then [] else Contribution(Normalize(ds[0])) + ConcatParts(ds[1..])
  }

  /** Whether some child normalised to an AlwaysBreak (`propagate_broken`). */
  predicate ConcatBreaks(ds: seq<Doc>)
    decreases ds, 0
  {
    ds != [] && (Normalize(ds[0]).AlwaysBreak? || ConcatBreaks(ds[1..]))
  }

  function NormalizeConcat(ds: seq<Doc>): Doc
    decreases ds, 1
  {
    var parts := ConcatParts(ds);
    if parts == [] then Nil
    else
      var res := if |parts| == 1 then parts[0] else Concat(parts);
      if ConcatBreaks(ds) then AlwaysBreak(res) else res
  }

  /** A Fill child with one level of AlwaysBreak removed. */
  function Unbroken(x: Doc): Doc
  {
    if x.AlwaysBreak? then x.doc else x
  }

  /** The children `Fill.normalize` keeps: unwrapped, NIL dropped, and NOT
      normalised themselves. */
  function FillParts(ds: seq<Doc>): seq<Doc>
  {
    if ds == [] then []
    else (if Unbroken(ds[0]) == Nil then [] else [Unbroken(ds[0])]) + FillParts(ds[1..])
  }

  predicate FillBreaks(ds: seq<Doc>)
  {
    exists i :: 0 <= i < |ds| && ds[i].AlwaysBreak?
  }

  function NormalizeFill(ds: seq<Doc>): Doc
  {
    var parts := FillParts(ds);
    if parts == [] then Nil
    else if FillBreaks(ds) then AlwaysBreak(Fill(parts))
    else Fill(parts)
  }

  // ---------------------------------------------------------------------
  // The shape of normalised documents.
  // ---------------------------------------------------------------------

  /** The invariant every output of `Normalize` satisfies. */
  predicate NormalForm(d: Doc)
  {
    match d
    case Text(s) => s != ""
    case Nil => true
    case HardLine => true
    case Contextual(_) => true
    case Concat(ds) =>
      |ds| >= 2 && forall i :: 0 <= i < |ds| ==> NormalForm(ds[i]) && !ds[i].AlwaysBreak?
    case Nest(_, b) => NormalForm(b) && !b.AlwaysBreak?
    case FlatChoice(b, f) => NormalForm(b) && NormalForm(f)
    case Group(b) => NormalForm(b) && !b.AlwaysBreak? && b != Nil
    case AlwaysBreak(b) => NormalForm(b) && !b.AlwaysBreak?
    case Fill(ds) => |ds| >= 1 && forall i :: 0 <= i < |ds| ==> ds[i] != Nil
    case Annotated(b, _) => NormalForm(b)
  }

  predicate AllNormalUnbroken(ds: seq<Doc>)
  {
    forall i :: 0 <= i < |ds| ==> NormalForm(ds[i]) && !ds[i].AlwaysBreak?
  }

  lemma {:induction false} NormalizeNormalForm(d: Doc)
    ensures NormalForm(Normalize(d))
    decreases d, 1
  {
    match d
    case Text(_) =>
    case Nil =>
    case HardLine =>
    case Contextual(_) =>
    case Concat(ds) =>
      ConcatPartsNormal(ds);
      ConcatPartsLength(ds);
    case Nest(i, b) =>
      NormalizeNormalForm(b);
    case FlatChoice(b, f) =>
      NormalizeNormalForm(b);
      NormalizeNormalForm(f);
    case Group(b) =>
      NormalizeNormalForm(b);
    case AlwaysBreak(b) =>
      NormalizeNormalForm(b);
    case Fill(ds) =>
      FillPartsNonNil(ds);
    case Annotated(b, _) =>
      NormalizeNormalForm(b);
  }

  lemma {:induction false} ConcatPartsNormal(ds: seq<Doc>)
    ensures AllNormalUnbroken(ConcatParts(ds))
    decreases ds, 0
  {
    if ds != [] {
      var n := Normalize(ds[0]);
      NormalizeNormalForm(ds[0]);
      ConcatPartsNormal(ds[1..]);
      assert AllNormalUnbroken(Contribution(n));
      var p := ConcatParts(ds);
      assert p == Contribution(n) + ConcatParts(ds[1..]);
      forall i | 0 <= i < |p|
        ensures NormalForm(p[i]) && !p[i].AlwaysBreak?
      {
        if i < |Contribution(n)| {
          assert p[i] == Contribution(n)[i];
        } else {
          assert p[i] == ConcatParts(ds[1..])[i - |Contribution(n)|];
        }
      }
    }
  }

  lemma ContributionOfNormal(n: Doc)
    requires NormalForm(n)
    ensures AllNormalUnbroken(Contribution(n))
    ensures n.AlwaysBreak? ==> |Contribution(n)| == 1
    ensures n.Concat? ==> |Contribution(n)| >= 2
    ensures !n.Concat? && !n.AlwaysBreak? && n != Nil ==> Contribution(n) == [n]
  {
  }

  /** A single remaining part never comes from an unconditional splice alone:
      a single part from a non-breaking child is not a Concat. */
  lemma {:induction false} ConcatPartsLength(ds: seq<Doc>)
    ensures |ConcatParts(ds)| == 1 && !ConcatBreaks(ds) ==> !ConcatParts(ds)[0].Concat?
    ensures ConcatBreaks(ds) ==> |ConcatParts(ds)| >= 1
    decreases ds
  {
    if ds != [] {
      var n := Normalize(ds[0]);
      NormalizeNormalForm(ds[0]);
      ContributionOfNormal(n);
      ConcatPartsLength(ds[1..]);
      if |ConcatParts(ds)| == 1 && !ConcatBreaks(ds) {
        if |Contribution(n)| == 1 {
          assert ConcatParts(ds)[0] == n;
        } else {
          assert Contribution(n) == [];
          assert ConcatParts(ds) == ConcatParts(ds[1..]);
        }
      }
    }
  }

  lemma {:induction false} FillPartsNonNil(ds: seq<Doc>)
    ensures forall i :: 0 <= i < |FillParts(ds)| ==> FillParts(ds)[i] != Nil
  {
    if ds != [] {
      FillPartsNonNil(ds[1..]);
    }
  }

  // ---------------------------------------------------------------------
  // Normalisation does not grow a document (used for termination).
  // ---------------------------------------------------------------------

  lemma {:induction false} NormalizeSize(d: Doc)
    ensures Size(Normalize(d)) <= Size(d)
    decreases d, 1
  {
    match d
    case Text(_) =>
    case Nil =>
    case HardLine =>
    case Contextual(_) =>
    case Concat(ds) =>
      ConcatPartsSize(ds);
      var p := ConcatParts(ds);
      if |p| == 1 {
        assert SizeSum(p) == Size(p[0]);
      }
    case Nest(i, b) =>
      NormalizeSize(b);
    case FlatChoice(b, f) =>
      NormalizeSize(b);
      NormalizeSize(f);
    case Group(b) =>
      NormalizeSize(b);
    case AlwaysBreak(b) =>
      NormalizeSize(b);
    case Fill(ds) =>
      FillPartsSize(ds);
    case Annotated(b, _) =>
      NormalizeSize(b);
  }

  lemma {:induction false} ConcatPartsSize(ds: seq<Doc>)
    ensures SizeSum(ConcatParts(ds)) + (if ConcatBreaks(ds) then 1 else 0) <= SizeSum(ds)
    decreases ds, 0
  {
    if ds != [] {
      var n := Normalize(ds[0]);
      NormalizeSize(ds[0]);
      ConcatPartsSize(ds[1..]);
      SizeSumAppend(Contribution(n), ConcatParts(ds[1..]));
      match n
      case Concat(xs) =>
      case AlwaysBreak(b) =>
        assert SizeSum([b]) == Size(b);
      case Nil =>
      case _ =>
        assert SizeSum([n]) == Size(n);
    }
  }

  lemma {:induction false} FillPartsSize(ds: seq<Doc>)
    ensures SizeSum(FillParts(ds)) + |FillParts(ds)| + (if FillBreaks(ds) then 1 else 0) <= SizeSum(ds) + |ds|
  {
    if ds != [] {
      FillPartsSize(ds[1..]);
      var head := if Unbroken(ds[0]) == Nil then [] else [Unbroken(ds[0])];
      SizeSumAppend(head, FillParts(ds[1..]));
      if FillBreaks(ds) && !ds[0].AlwaysBreak? {
        var i :| 0 <= i < |ds| && ds[i].AlwaysBreak?;
        assert ds[1..][i - 1].AlwaysBreak?;
      }
      if head != [] {
        assert SizeSum(head) == Size(Unbroken(ds[0]));
      }
    }
  }

  // ---------------------------------------------------------------------
  // Normalisation keeps the visible content and hoists forced breaks.
  // ---------------------------------------------------------------------

  /** The visible content of a document, in order: non-empty strings and
      hard line breaks. Both branches of a FlatChoice contribute. */
  datatype Atom = AText(s: string) | ALine

  function Atoms(d: Doc): seq<Atom>
    decreases d, 1
  {
    match d
    case Text(s) => if s == "" then [] else [AText(s)]
    case Nil => []
    case HardLine => [ALine]
    case Contextual(fn) => Atoms(fn.body)
    case Concat(ds) => AtomsSeq(ds)
    case Fill(ds) => AtomsSeq(ds)
    case Nest(_, b) => Atoms(b)
    case FlatChoice(b, f) => Atoms(b) + Atoms(f)
    case Group(b) => Atoms(b)
    case AlwaysBreak(b) => Atoms(b)
    case Annotated(b, _) => Atoms(b)
  }

  function AtomsSeq(ds: seq<Doc>): seq<Atom>
    decreases ds, 0
  {
    if ds == [] then [] else Atoms(ds[0]) + AtomsSeq(ds[1..])
  }

  lemma {:induction false} AtomsSeqAppend(a: seq<Doc>, b: seq<Doc>)
    ensures AtomsSeq(a + b) == AtomsSeq(a) + AtomsSeq(b)
  {
    if a == [] {
      assert a + b == b;
    } else {
      assert (a + b)[1..] == a[1..] + b;
      AtomsSeqAppend(a[1..], b);
    }
  }

  /** Normalisation neither loses, adds nor reorders visible content. */
  lemma {:induction false} NormalizePreservesAtoms(d: Doc)
    ensures Atoms(Normalize(d)) == Atoms(d)
    decreases d, 1
  {
    match d
    case Text(_) =>
    case Nil =>
    case HardLine =>
    case Contextual(_) =>
    case Concat(ds) =>
      ConcatPartsAtoms(ds);
      var p := ConcatParts(ds);
      if |p| == 1 {
        assert AtomsSeq(p) == Atoms(p[0]) + AtomsSeq([]);
      }
    case Nest(i, b) =>
      NormalizePreservesAtoms(b);
    case FlatChoice(b, f) =>
      NormalizePreservesAtoms(b);
      NormalizePreservesAtoms(f);
    case Group(b) =>
      NormalizePreservesAtoms(b);
    case AlwaysBreak(b) =>
      NormalizePreservesAtoms(b);
    case Fill(ds) =>
      FillPartsAtoms(ds);
      var p := FillParts(ds);
    case Annotated(b, _) =>
      NormalizePreservesAtoms(b);
  }

  lemma {:induction false} ConcatPartsAtoms(ds: seq<Doc>)
    ensures AtomsSeq(ConcatParts(ds)) == AtomsSeq(ds)
    decreases ds, 0
  {
    if ds != [] {
      var n := Normalize(ds[0]);
      NormalizePreservesAtoms(ds[0]);
      ConcatPartsAtoms(ds[1..]);
      AtomsSeqAppend(Contribution(n), ConcatParts(ds[1..]));
      match n
      case Concat(xs) =>
      case AlwaysBreak(b) =>
        assert AtomsSeq([b]) == Atoms(b) + AtomsSeq([]);
      case Nil =>
      case _ =>
        assert AtomsSeq([n]) == Atoms(n) + AtomsSeq([]);
    }
  }

  lemma {:induction false} FillPartsAtoms(ds: seq<Doc>)
    ensures AtomsSeq(FillParts(ds)) == AtomsSeq(ds)
  {
    if ds != [] {
      FillPartsAtoms(ds[1..]);
      var head := if Unbroken(ds[0]) == Nil then [] else [Unbroken(ds[0])];
      AtomsSeqAppend(head, FillParts(ds[1..]));
      if head != [] {
        assert AtomsSeq(head) == Atoms(Unbroken(ds[0])) + AtomsSeq([]);
      }
    }
  }

  /** An independent account of when normalisation produces an AlwaysBreak:
      a forced break anywhere along Concat, Nest and Group spines, or an
      AlwaysBreak child of a Fill that keeps at least one child. */
  predicate Forced(d: Doc)
  {
    match d
    case AlwaysBreak(_) => true
    case Concat(ds) => exists i :: 0 <= i < |ds| && Forced(ds[i])
    case Nest(_, b) => Forced(b)
    case Group(b) => Forced(b)
    case Fill(ds) => FillBreaks(ds) && exists j :: 0 <= j < |ds| && Unbroken(ds[j]) != Nil
    case _ => false
  }

  lemma {:induction false} NormalizeBreaksIffForced(d: Doc)
    ensures Normalize(d).AlwaysBreak? <==> Forced(d)
    decreases d, 1
  {
    match d
    case Text(_) =>
    case Nil =>
    case HardLine =>
    case Contextual(_) =>
    case Concat(ds) =>
      ConcatBreaksIffForced(ds);
      ConcatPartsLength(ds);
      ConcatPartsNormal(ds);
      var p := ConcatParts(ds);
      if |p| == 1 {
        assert !p[0].AlwaysBreak?;
      }
    case Nest(i, b) =>
      NormalizeBreaksIffForced(b);
    case FlatChoice(b, f) =>
    case Group(b) =>
      NormalizeBreaksIffForced(b);
    case AlwaysBreak(b) =>
    case Fill(ds) =>
      FillPartsEmpty(ds);
    case Annotated(b, _) =>
  }

  lemma {:induction false} ConcatBreaksIffForced(ds: seq<Doc>)
    ensures ConcatBreaks(ds) <==> exists i :: 0 <= i < |ds| && Forced(ds[i])
    decreases ds, 0
  {
    if ds != [] {
      NormalizeBreaksIffForced(ds[0]);
      ConcatBreaksIffForced(ds[1..]);
      if exists i :: 0 <= i < |ds| && Forced(ds[i]) {
        var i :| 0 <= i < |ds| && Forced(ds[i]);
        if i > 0 {
          assert Forced(ds[1..][i - 1]);
        }
      }
      if exists i :: 0 <= i < |ds[1..]| && Forced(ds[1..][i]) {
        var i :| 0 <= i < |ds[1..]| && Forced(ds[1..][i]);
        assert Forced(ds[i + 1]);
      }
    }
  }

  lemma {:induction false} FillPartsEmpty(ds: seq<Doc>)
    ensures FillParts(ds) == [] <==> forall j :: 0 <= j < |ds| ==> Unbroken(ds[j]) == Nil
  {
    if ds != [] {
      FillPartsEmpty(ds[1..]);
      if forall j :: 0 <= j < |ds[1..]| ==> Unbroken(ds[1..][j]) == Nil {
        assert forall j :: 1 <= j < |ds| ==> Unbroken(ds[j]) == Unbroken(ds[1..][j - 1]);
      }
    }
  }

  // ---------------------------------------------------------------------
  // Individual rewrite rules of the `normalize` methods.
  // ---------------------------------------------------------------------

  /** `normalize_doc` maps '' to NIL and leaves every other string alone. */
  lemma NormalizeString(s: string)
    ensures Normalize(Text(s)) == Nil <==> s == ""
    ensures s != "" ==> Normalize(Text(s)) == Text(s)
  {
  }

  /** Concat: NIL when every child vanishes, the sole child when one part
      remains, wrapped once in AlwaysBreak when some child forces a break. */
  lemma {:induction false} ConcatNormalizeShape(ds: seq<Doc>)
    ensures (forall i :: 0 <= i < |ds| ==> Normalize(ds[i]) == Nil) ==> Normalize(Concat(ds)) == Nil
    ensures Normalize(Concat(ds)).AlwaysBreak? <==> exists i :: 0 <= i < |ds| && Normalize(ds[i]).AlwaysBreak?
    ensures Normalize(Concat(ds)).AlwaysBreak? ==> !Normalize(Concat(ds)).doc.AlwaysBreak?
    ensures Normalize(Concat(ds)).Concat? ==>
              forall k :: 0 <= k < |Normalize(Concat(ds)).docs| ==> !Normalize(Concat(ds)).docs[k].AlwaysBreak?
  {
    ConcatAllNil(ds);
    NormalizeBreaksIffForced(Concat(ds));
    ConcatBreaksIffForced(ds);
    forall i | 0 <= i < |ds|
      ensures Normalize(ds[i]).AlwaysBreak? <==> Forced(ds[i])
    {
      NormalizeBreaksIffForced(ds[i]);
    }
    NormalizeNormalForm(Concat(ds));
  }

  lemma {:induction false} ConcatAllNil(ds: seq<Doc>)
    ensures (forall i :: 0 <= i < |ds| ==> Normalize(ds[i]) == Nil) ==> ConcatParts(ds) == []
  {
    if ds != [] && forall i :: 0 <= i < |ds| ==> Normalize(ds[i]) == Nil {
      assert forall i :: 0 <= i < |ds[1..]| ==> Normalize(ds[1..][i]) == Nil by {
        forall i | 0 <= i < |ds[1..]| ensures Normalize(ds[1..][i]) == Nil {
          assert ds[1..][i] == ds[i + 1];
        }
      }
      ConcatAllNil(ds[1..]);
    }
  }

  /** The body of an AlwaysBreak(NIL) child is spliced as a NIL part: a
      normalised Concat is not always free of NIL. */
  lemma BrokenNilSurvivesInConcat()
    ensures Normalize(Concat([AlwaysBreak(Nil), Text("a")])) == AlwaysBreak(Concat([Nil, Text("a")]))
  {
    var ds := [AlwaysBreak(Nil), Text("a")];
    assert Normalize(ds[0]) == AlwaysBreak(Nil);
    assert ds[1..] == [Text("a")];
    assert [Text("a")][1..] == [];
    assert ConcatParts([Text("a")]) == [Text("a")];
    assert ConcatParts(ds) == [Nil] + [Text("a")];
    assert ConcatParts(ds) == [Nil, Text("a")];
    assert ConcatBreaks(ds);
    assert NormalizeConcat(ds) == AlwaysBreak(Concat([Nil, Text("a")]));
  }

  /** Nest moves a forced break outside itself, keeping its indent. */
  lemma NestHoistsBreak(i: int, b: Doc)
    ensures Normalize(b).AlwaysBreak? ==> Normalize(Nest(i, b)) == AlwaysBreak(Nest(i, Normalize(b).doc))
    ensures !Normalize(b).AlwaysBreak? ==> Normalize(Nest(i, b)) == Nest(i, Normalize(b))
  {
  }

  /** A Group disappears around a forced break and around NIL. */
  lemma GroupDropsWhenForced(b: Doc)
    ensures Normalize(b).AlwaysBreak? ==> Normalize(Group(b)) == Normalize(b)
    ensures Normalize(b) == Nil ==> Normalize(Group(b)) == Nil
    ensures !Normalize(b).AlwaysBreak? && Normalize(b) != Nil ==> Normalize(Group(b)) == Group(Normalize(b))
  {
  }

  /** Directly nested AlwaysBreaks collapse into one. */
  lemma AlwaysBreakCollapses(b: Doc)
    ensures Normalize(AlwaysBreak(AlwaysBreak(b))) == Normalize(AlwaysBreak(b))
    ensures Normalize(AlwaysBreak(b)).AlwaysBreak?
    ensures !Normalize(AlwaysBreak(b)).doc.AlwaysBreak?
  {
    NormalizeNormalForm(b);
  }

  /** A Fill child `Fill.normalize` keeps: not NIL once unwrapped. */
  predicate Kept(d: Doc)
  {
    Unbroken(d) != Nil
  }

  /** For every Fill: it normalises to NIL exactly when it keeps no child;
      otherwise it is forced exactly when some child is an AlwaysBreak, and
      its children are, in order, the kept children of the input with one
      AlwaysBreak removed and NOT normalised themselves. */
  lemma FillKeepsRawChildren(ds: seq<Doc>)
    ensures Normalize(Fill(ds)) == Nil <==> forall j :: 0 <= j < |ds| ==> !Kept(ds[j])
    ensures Normalize(Fill(ds)) != Nil ==>
              var n := Normalize(Fill(ds));
              var f := if n.AlwaysBreak? then n.doc else n;
              var idx := Utils.Positions(Kept, ds);
              (n.AlwaysBreak? <==> exists j :: 0 <= j < |ds| && ds[j].AlwaysBreak?) &&
              f.Fill? && |f.docs| == |idx| &&
              forall i :: 0 <= i < |idx| ==> f.docs[i] == Unbroken(ds[idx[i]])
  {
    assert Normalize(Fill(ds)) == NormalizeFill(ds);
    FillShape(ds, FillParts(ds), NormalizeFill(ds));
  }

  lemma FillShape(ds: seq<Doc>, parts: seq<Doc>, n: Doc)
    requires parts == FillParts(ds) && n == NormalizeFill(ds)
    ensures n == Nil <==> forall j :: 0 <= j < |ds| ==> !Kept(ds[j])
    ensures n != Nil ==>
              var f := if n.AlwaysBreak? then n.doc else n;
              var idx := Utils.Positions(Kept, ds);
              (n.AlwaysBreak? <==> exists j :: 0 <= j < |ds| && ds[j].AlwaysBreak?) &&
              f.Fill? && |f.docs| == |idx| &&
              forall i :: 0 <= i < |idx| ==> f.docs[i] == Unbroken(ds[idx[i]])
  {
    FillPartsEmpty(ds);
    FillPartsInOrder(ds);
  }

  /** `FillParts` is the unwrapped kept children, in order. */
  lemma {:induction false} FillPartsInOrder(ds: seq<Doc>)
    ensures var idx := Utils.Positions(Kept, ds);
            |FillParts(ds)| == |idx| &&
            forall i :: 0 <= i < |idx| ==> FillParts(ds)[i] == Unbroken(ds[idx[i]])
  {
    if ds != [] {
      FillPartsInOrder(ds[1..]);
      FillOrderStep(ds, Utils.Positions(Kept, ds[1..]), FillParts(ds[1..]));
    }
  }

  lemma FillOrderStep(ds: seq<Doc>, rest: seq<nat>, r: seq<Doc>)
    requires ds != []
    requires |r| == |rest| && forall i :: 0 <= i < |r| ==> rest[i] < |ds| - 1 && r[i] == Unbroken(ds[1..][rest[i]])
    ensures var idx := (if Kept(ds[0]) then [0] else []) + Utils.Shift(rest);
            var r' := (if Unbroken(ds[0]) == Nil then [] else [Unbroken(ds[0])]) + r;
            |r'| == |idx| && forall i :: 0 <= i < |r'| ==> idx[i] < |ds| && r'[i] == Unbroken(ds[idx[i]])
  {
  }

  /** Fill keeps its children un-normalised: an empty string child survives,
      while a forced break is still hoisted out of it. */
  lemma FillDoesNotNormalizeChildren()
    ensures Normalize(Fill([Text("")])) == Fill([Text("")])
    ensures Normalize(Fill([AlwaysBreak(Text("a")), Nil])) == AlwaysBreak(Fill([Text("a")]))
  {
    assert FillParts([Text("")]) == [Text("")];
    assert FillParts([Nil]) == [];
    var ds := [AlwaysBreak(Text("a")), Nil];
    assert ds[1..] == [Nil];
    assert [Nil][1..] == [];
    assert Unbroken(ds[0]) == Text("a");
    assert FillParts(ds) == [Text("a")] + FillParts([Nil]);
    assert FillParts(ds) == [Text("a")];
    assert ds[0].AlwaysBreak?;
    assert FillBreaks(ds);
  }
}
