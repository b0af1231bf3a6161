/** The public document builders of `prettyprinter/doc.py`. The Nest, Group
    and AlwaysBreak constructors assert that their body is a Doc instance, so
    a bare string body is an error there; that error is a `Result` here. */
module DocBuild {
  import opened Wrappers
  import opened DocTypes

  /** The failed `assert isinstance(doc, Doc)` of a Doc constructor. */
  datatype BuildError = NotADocInstance

  /** Whether a value passes `isinstance(doc, Doc)`: every Doc but an unboxed
      string does. */
  predicate IsDocInstance(d: Doc)
  {
    !d.Text?
  }

  /** The documents the constructors can produce, and whose layout never
      builds a Nest around a bare string: no Nest, Group or AlwaysBreak
      directly holds a bare string, and no `align` either, since its
      evaluator nests its body. */
  predicate Constructible(d: Doc)
  {
    match d
    case Text(_) => true
    case Nil => true
    case HardLine => true
    case Concat(ds) => forall i :: 0 <= i < |ds| ==> Constructible(ds[i])
    case Fill(ds) => forall i :: 0 <= i < |ds| ==> Constructible(ds[i])
    case Nest(_, b) => IsDocInstance(b) && Constructible(b)
    case Group(b) => IsDocInstance(b) && Constructible(b)
    case AlwaysBreak(b) => IsDocInstance(b) && Constructible(b)
    case FlatChoice(b, f) => Constructible(b) && Constructible(f)
    case Annotated(b, _) => Constructible(b)
    case Contextual(fn) => IsDocInstance(fn.body) && Constructible(fn.body)
  }

  function MkGroup(d: Doc): (r: Result<Doc, BuildError>)
    ensures r.Failure? <==> !IsDocInstance(d)
    ensures r.Success? ==> r.value.Group? && r.value.doc == d
    ensures r.Success? ==> (Constructible(r.value) <==> Constructible(d))
  {
    if IsDocInstance(d) then Success(Group(d)) else Failure(NotADocInstance)
  }

  function MkNest(i: int, d: Doc): (r: Result<Doc, BuildError>)
    ensures r.Failure? <==> !IsDocInstance(d)
    ensures r.Success? ==> r.value.Nest? && r.value.indent == i && r.value.doc == d
    ensures r.Success? ==> (Constructible(r.value) <==> Constructible(d))
  {
    if IsDocInstance(d) then Success(Nest(i, d)) else Failure(NotADocInstance)
  }

  function MkAlwaysBreak(d: Doc): (r: Result<Doc, BuildError>)
    ensures r.Failure? <==> !IsDocInstance(d)
    ensures r.Success? ==> r.value.AlwaysBreak? && r.value.doc == d
    ensures r.Success? ==> (Constructible(r.value) <==> Constructible(d))
  {
    if IsDocInstance(d) then Success(AlwaysBreak(d)) else Failure(NotADocInstance)
  }

  /** `concat`: the children in their given order. */
  function MkConcat(ds: seq<Doc>): (r: Doc)
    ensures r.Concat? && |r.docs| == |ds| && forall i :: 0 <= i < |ds| ==> r.docs[i] == ds[i]
    ensures Atoms(r) == AtomsSeq(ds)
  {
    Concat(ds)
  }

  /** `fill`: the children in their given order. */
  function MkFill(ds: seq<Doc>): (r: Doc)
    ensures r.Fill? && |r.docs| == |ds| && forall i :: 0 <= i < |ds| ==> r.docs[i] == ds[i]
    ensures Atoms(r) == AtomsSeq(ds)
  {
    Fill(ds)
  }

  /** `annotate(annotation, doc)`: note the argument order. */
  function MkAnnotate(a: Annotation, d: Doc): (r: Doc)
    ensures r.Annotated? && r.doc == d && r.annotation == a
    ensures Atoms(r) == Atoms(d)
  {
    Annotated(d, a)
  }

  /** `flat_choice(when_broken, when_flat)`. */
  function MkFlatChoice(whenBroken: Doc, whenFlat: Doc): (r: Doc)
    ensures r.FlatChoice? && r.whenBroken == whenBroken && r.whenFlat == whenFlat
  {
    FlatChoice(whenBroken, whenFlat)
  }

  /** `align(d)`: evaluated at any position, the body is nested by the
      distance between the current column and the current indent. `align`
      itself accepts a bare string, but the Nest its evaluator builds then
      rejects it, so the result is constructible exactly when the body is a
      Doc instance. */
  function MkAlign(d: Doc): (r: Doc)
    ensures r.Contextual?
    ensures Constructible(r) <==> IsDocInstance(d) && Constructible(d)
    ensures forall indent: int, column: int, pw: int, rw: int ::
              Evaluate(r.fn, indent, column, pw, rw) == Nest(column - indent, d)
  {
    Contextual(AlignFn(d))
  }

  /** `hang(i, d)` is `align(nest(i, d))`; the inner Nest rejects a bare string. */
  function MkHang(i: int, d: Doc): (r: Result<Doc, BuildError>)
    ensures r.Failure? <==> !IsDocInstance(d)
    ensures r.Success? ==> r.value == MkAlign(Nest(i, d))
  {
    var n :- MkNest(i, d);
    Success(MkAlign(n))
  }

  /** The builders only ever produce constructible documents from
      constructible arguments. */
  lemma BuildersKeepConstructible(d: Doc, e: Doc, ds: seq<Doc>, i: int, a: Annotation)
    requires Constructible(d) && Constructible(e)
    requires forall k :: 0 <= k < |ds| ==> Constructible(ds[k])
    ensures Constructible(MkConcat(ds)) && Constructible(MkFill(ds))
    ensures Constructible(MkAnnotate(a, d)) && Constructible(MkFlatChoice(d, e))
    ensures IsDocInstance(d) ==> Constructible(MkAlign(d))
    ensures !Constructible(MkAlign(Text("x")))
    ensures MkHang(i, d).Success? ==> Constructible(MkHang(i, d).value)
    ensures MkGroup(d).Success? ==> Constructible(MkGroup(d).value)
  {
  }

  /** The shared constants are built from constructible parts. */
  lemma LineConstants()
    ensures LINE == MkFlatChoice(HardLine, Text(" ")) && Constructible(LINE)
    ensures SOFTLINE == MkFlatChoice(HardLine, Nil) && Constructible(SOFTLINE)
    ensures Atoms(LINE) == [ALine, AText(" ")] && Atoms(SOFTLINE) == [ALine]
  {
  }
}
