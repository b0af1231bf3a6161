/** The composition helpers of `prettyprinter/prettyprinter.py` that build
    bracketed sequences and call-like documents, and decide when a Group has
    to become an AlwaysBreak. `commentdoc`, which splits a comment into
    words with a regular expression, is a parameter returning the comment's
    body; the helpers only rely on its outer `COMMENT_SINGLE` annotation. */
module Compose {
  import opened Wrappers
  import opened DocTypes
  import opened Values
  import opened Context
  import Utils
  import opened LayoutStack
  import opened Fitting

  function Punct(s: string): Doc
  {
    Annotated(Text(s), Syntax(Punctuation))
  }

  const COMMA: Doc := Punct(",")
  const COLON: Doc := Punct(":")
  const ELLIPSIS: Doc := Punct("...")
  const LPAREN: Doc := Punct("(")
  const RPAREN: Doc := Punct(")")
  const LBRACKET: Doc := Punct("[")
  const RBRACKET: Doc := Punct("]")
  const LBRACE: Doc := Punct("{")
  const RBRACE: Doc := Punct("}")
  const ASSIGN_OP: Doc := Annotated(Text("="), Syntax(Operator))

  /** `keyword_arg(s)`. */
  function KeywordArg(s: string): Doc
  {
    Annotated(Text(s), Syntax(NameVariable))
  }

  /** `is_commented(doc)`: an Annotated node carrying a comment. */
  predicate IsCommented(d: Doc)
  {
    d.Annotated? && d.annotation.Comment?
  }

  /** `comment_doc(doc, text)`. */
  function CommentDoc(d: Doc, text: string): (r: Doc)
    ensures IsCommented(r) && r.doc == d && r.annotation.text == text
  {
    Annotated(d, Comment(text))
  }

  /** The words-and-line-breaks body `commentdoc` builds for a comment text. */
  type CommentBody = string -> Doc

  /** `commentdoc(text)`: the body annotated as a `COMMENT_SINGLE` token,
      which is a syntax annotation and not a comment annotation. */
  function CommentLines(cb: CommentBody, text: string): (r: Doc)
    ensures r.Annotated? && r.annotation == Syntax(CommentSingle) && !IsCommented(r)
  {
    Annotated(cb(text), Syntax(CommentSingle))
  }

  /** `bracket(ctx, left, child, right)`. */
  function Bracket(indent: int, left: Doc, child: Doc, right: Doc): Doc
  {
    Concat([left, Nest(indent, Concat([SOFTLINE, child])), SOFTLINE, right])
  }

  /** What the lookahead sees of a bracket: flat, the left bracket, the
      child and the right bracket with nothing between them; broken, the
      child on lines of its own between the brackets. */
  lemma BracketTokens(indent: int, left: Doc, child: Doc, right: Doc)
    ensures DocTokens(Flat, Bracket(indent, left, child, right)) ==
              DocTokens(Flat, left) + DocTokens(Flat, child) + DocTokens(Flat, right)
    ensures DocTokens(Break, Bracket(indent, left, child, right)) ==
              DocTokens(Break, left) + [TNewline] + DocTokens(Break, child) + [TNewline] + DocTokens(Break, right)
  {
    FlatBracketTokens(indent, left, child, right);
    BrokenBracketTokens(indent, left, child, right);
  }

  lemma FlatBracketTokens(indent: int, left: Doc, child: Doc, right: Doc)
    ensures DocTokens(Flat, Bracket(indent, left, child, right)) ==
              DocTokens(Flat, left) + DocTokens(Flat, child) + DocTokens(Flat, right)
  {
    SoftLineTokens();
    BracketTokensIn(Flat, indent, left, child, right);
  }

  lemma BrokenBracketTokens(indent: int, left: Doc, child: Doc, right: Doc)
    ensures DocTokens(Break, Bracket(indent, left, child, right)) ==
              DocTokens(Break, left) + [TNewline] + DocTokens(Break, child) + [TNewline] + DocTokens(Break, right)
  {
    SoftLineTokens();
    BracketTokensIn(Break, indent, left, child, right);
  }

  lemma SoftLineTokens()
    ensures DocTokens(Flat, SOFTLINE) == [] && DocTokens(Break, SOFTLINE) == [TNewline]
  {
  }

  lemma BracketTokensIn(m: Mode, indent: int, left: Doc, child: Doc, right: Doc)
    ensures DocTokens(m, Bracket(indent, left, child, right)) ==
              DocTokens(m, left) + DocTokens(m, SOFTLINE) + DocTokens(m, child) + DocTokens(m, SOFTLINE) + DocTokens(m, right)
  {
    var nested := Nest(indent, Concat([SOFTLINE, child]));
    TokensSeqFour(m, left, nested, SOFTLINE, right);
    NestedLineTokens(m, indent, child);
  }

  lemma NestedLineTokens(m: Mode, indent: int, child: Doc)
    ensures DocTokens(m, Nest(indent, Concat([SOFTLINE, child]))) == DocTokens(m, SOFTLINE) + DocTokens(m, child)
  {
    TokensSeqTwo(m, SOFTLINE, child);
  }

  lemma TokensSeqTwo(m: Mode, a: Doc, b: Doc)
    ensures TokensSeq(m, [a, b]) == DocTokens(m, a) + DocTokens(m, b)
  {
    assert [a, b][1..] == [b];
    assert [b][1..] == [];
    assert TokensSeq(m, [b]) == DocTokens(m, b) + TokensSeq(m, []);
    assert TokensSeq(m, [a, b]) == DocTokens(m, a) + TokensSeq(m, [b]);
  }

  lemma TokensSeqFour(m: Mode, a: Doc, b: Doc, c: Doc, d: Doc)
    ensures TokensSeq(m, [a, b, c, d]) == DocTokens(m, a) + DocTokens(m, b) + DocTokens(m, c) + DocTokens(m, d)
  {
    var ds := [a, b, c, d];
    assert ds[1..] == [b, c, d];
    TokensSeqTwo(m, c, d);
    assert [b, c, d][1..] == [c, d];
  }

  // ---------------------------------------------------------------------
  // sequence_of_docs
  // ---------------------------------------------------------------------

  const MAX_PRACTICAL_RIBBON_WIDTH: int := 150

  /** The separator between two uncommented elements. */
  const SEPARATOR: Doc := Concat([COMMA, LINE])

  /** The parts one element contributes: a commented element becomes a Group
      choosing between the comment at the end of the line (flat) and the
      comment on the line above (broken); any other element is followed by a
      separator unless it is the last. */
  function SeqPart(d: Doc, last: bool, cb: CommentBody): seq<Doc>
  {
    if IsCommented(d) then
      var c := d.annotation.text;
      var flat := Concat([d, if last then Nil else COMMA, Text("  "), CommentLines(cb, c), if last then Nil else HardLine]);
      var broken := Concat([CommentLines(cb, c), HardLine, d, if last then Nil else COMMA, if last then Nil else HardLine]);
      [Group(FlatChoice(broken, flat))]
    else
      [d] + (if last then [] else [SEPARATOR])
  }

  function SeqParts(docs: seq<Doc>, cb: CommentBody): seq<Doc>
  {
    if docs == [] then [] else SeqPart(docs[0], |docs| == 1, cb) + SeqParts(docs[1..], cb)
  }

  predicate AnyCommented(docs: seq<Doc>)
  {
    exists i :: 0 <= i < |docs| && IsCommented(docs[i])
  }

  /** `sequence_of_docs(ctx, left, docs, right, dangle, force_break)`. It
      breaks when asked to, when an element carries a comment, or when even
      one-character elements could not fit in 150 columns. */
  function SequenceOfDocs(indent: int, left: Doc, docs: seq<Doc>, right: Doc, dangle: bool, forceBreak: bool, cb: CommentBody)
    : (r: Doc)
    ensures r.AlwaysBreak? || r.Group?
    ensures r.AlwaysBreak? <==> forceBreak || 3 * |docs| > MAX_PRACTICAL_RIBBON_WIDTH || AnyCommented(docs)
    ensures r.doc == Bracket(indent, left, Concat(SeqParts(docs, cb) + (if dangle then [COMMA] else [])), right)
  {
    var minimumOutputLen := 2 + 2 * (|docs| - 1) + |docs|;
    var willBreak := forceBreak || minimumOutputLen > MAX_PRACTICAL_RIBBON_WIDTH;
    var hasComment := AnyCommented(docs);
    var parts := SeqParts(docs, cb) + (if dangle then [COMMA] else []);
    var body := Bracket(indent, left, Concat(parts), right);
    if willBreak || hasComment then AlwaysBreak(body) else Group(body)
  }

  /** Without comments the elements are interspersed with `, ` separators
      that may break. */
  lemma {:induction false} SeqPartsUncommented(docs: seq<Doc>, cb: CommentBody)
    requires !AnyCommented(docs)
    ensures SeqParts(docs, cb) == Utils.Intersperse(SEPARATOR, docs)
    decreases docs
  {
    if |docs| > 1 {
      assert !AnyCommented(docs[1..]) by {
        forall i | 0 <= i < |docs[1..]| ensures !IsCommented(docs[1..][i]) {
          assert docs[1..][i] == docs[i + 1];
        }
      }
      SeqPartsUncommented(docs[1..], cb);
      assert !IsCommented(docs[0]);
    } else if |docs| == 1 {
      assert !IsCommented(docs[0]);
      assert docs[1..] == [];
    }
  }

  /** Without comments the brackets hold exactly the elements, in order,
      with a `, ` separator that may break between each neighbouring pair,
      and the dangling comma when asked for. */
  lemma UncommentedSequence(indent: int, left: Doc, docs: seq<Doc>, right: Doc, dangle: bool, forceBreak: bool,
                            cb: CommentBody)
    ensures !AnyCommented(docs) ==>
              SequenceOfDocs(indent, left, docs, right, dangle, forceBreak, cb).doc ==
                Bracket(indent, left, Concat(Utils.Intersperse(SEPARATOR, docs) + (if dangle then [COMMA] else [])), right)
  {
    if !AnyCommented(docs) {
      SeqPartsUncommented(docs, cb);
    }
  }

  /** A sequence of more than 50 elements is always broken. */
  lemma LongSequencesBreak(indent: int, left: Doc, docs: seq<Doc>, right: Doc, dangle: bool, cb: CommentBody)
    requires |docs| > 50
    ensures SequenceOfDocs(indent, left, docs, right, dangle, false, cb).AlwaysBreak?
  {
  }

  // ---------------------------------------------------------------------
  // build_fncall and pretty_call
  // ---------------------------------------------------------------------

  /** A keyword argument `binding=doc`; a comment on the value moves to the
      whole `binding=value` pair. */
  function KwargDoc(binding: string, d: Doc): (r: Doc)
    ensures IsCommented(r) <==> IsCommented(d)
    ensures IsCommented(d) ==>
              r.annotation.text == d.annotation.text && r.doc == Concat([KeywordArg(binding), ASSIGN_OP, d.doc])
  {
    if IsCommented(d) then CommentDoc(Concat([KeywordArg(binding), ASSIGN_OP, d.doc]), d.annotation.text)
    else Concat([KeywordArg(binding), ASSIGN_OP, d])
  }

  /** One argument of a call: its doc with any comment annotation removed,
      then a comma unless it is the last. A non-empty comment goes two spaces
      after the argument when the line fits flat, and on a line of its own
      above the argument otherwise. */
  function ArgPart(d: Doc, last: bool, cb: CommentBody): (p: Doc)
    ensures !IsCommented(d) ==> p == Concat([d, if last then Nil else COMMA])
    ensures IsCommented(d) && d.annotation.text == "" ==> p == Concat([d.doc, if last then Nil else COMMA])
    ensures IsCommented(d) && d.annotation.text != "" ==>
              var core := Concat([d.doc, if last then Nil else COMMA]);
              var c := CommentLines(cb, d.annotation.text);
              p.Group? && p.doc.FlatChoice? &&
              p.doc.whenFlat == Concat([core, Text("  "), c]) &&
              p.doc.whenBroken == Concat([c, HardLine, core])
  {
    var inner := if IsCommented(d) then d.doc else d;
    var core := Concat([inner, if last then Nil else COMMA]);
    if IsCommented(d) && d.annotation.text != "" then
      var c := d.annotation.text;
      Group(FlatChoice(Concat([CommentLines(cb, c), HardLine, core]), Concat([core, Text("  "), CommentLines(cb, c)])))
    else core
  }

  /** Whether a comment has been seen by argument `i` of the loop: the
      flag the loop starts with, or a commented argument at or before `i`. */
  predicate CommentSeen(docs: seq<Doc>, i: int, hasComment: bool)
    requires 0 <= i < |docs|
  {
    hasComment || exists j :: 0 <= j <= i && IsCommented(docs[j])
  }

  /** The loop of `build_fncall` over all argument docs. `hasComment` is the
      running flag: once a commented argument has been seen, every later
      separator is a HARDLINE instead of a LINE. Returns the parts and the
      final flag: part i is argument i, followed by its separator unless it
      is the last. */
  function FncallParts(docs: seq<Doc>, hasComment: bool, cb: CommentBody): (r: (seq<Doc>, bool))
    ensures |r.0| == |docs|
    ensures r.1 <==> hasComment || AnyCommented(docs)
    ensures docs != [] ==> r.0[|docs| - 1] == ArgPart(docs[|docs| - 1], true, cb)
    ensures forall i :: 0 <= i < |docs| - 1 ==>
              r.0[i] == Concat([ArgPart(docs[i], false, cb), if CommentSeen(docs, i, hasComment) then HardLine else LINE])
  {
    if docs == [] then ([], hasComment)
    else
      var d := docs[0];
      var last := |docs| == 1;
      var has := hasComment || IsCommented(d);
      var part1 := ArgPart(d, last, cb);
      var part := if last then part1 else Concat([part1, if has then HardLine else LINE]);
      var rest := FncallParts(docs[1..], has, cb);
      AnyCommentedCons(docs);
      PartsCons(docs, hasComment, cb, part, rest.0);
      ([part] + rest.0, rest.1)
  }

  lemma AnyCommentedCons(docs: seq<Doc>)
    requires docs != []
    ensures AnyCommented(docs) <==> IsCommented(docs[0]) || AnyCommented(docs[1..])
  {
    if AnyCommented(docs) {
      var i :| 0 <= i < |docs| && IsCommented(docs[i]);
      if i > 0 {
        assert docs[1..][i - 1] == docs[i];
      }
    }
    if AnyCommented(docs[1..]) {
      var i :| 0 <= i < |docs[1..]| && IsCommented(docs[1..][i]);
      assert docs[i + 1] == docs[1..][i];
    }
  }

  lemma CommentSeenShift(docs: seq<Doc>, i: int, hasComment: bool)
    requires 1 <= i < |docs|
    ensures CommentSeen(docs[1..], i - 1, hasComment || IsCommented(docs[0])) <==> CommentSeen(docs, i, hasComment)
  {
    if exists j :: 0 <= j <= i && IsCommented(docs[j]) {
      var j :| 0 <= j <= i && IsCommented(docs[j]);
      if j > 0 {
        assert docs[1..][j - 1] == docs[j];
      }
    }
    if exists j :: 0 <= j <= i - 1 && IsCommented(docs[1..][j]) {
      var j :| 0 <= j <= i - 1 && IsCommented(docs[1..][j]);
      assert docs[j + 1] == docs[1..][j];
    }
  }

  /** One iteration of the loop, on the parts alone. */
  lemma PartsCons(docs: seq<Doc>, hasComment: bool, cb: CommentBody, part: Doc, rest: seq<Doc>)
    requires docs != [] && |rest| == |docs| - 1
    requires part == if |docs| == 1 then ArgPart(docs[0], true, cb)
                     else Concat([ArgPart(docs[0], false, cb), if hasComment || IsCommented(docs[0]) then HardLine else LINE])
    requires rest != [] ==> rest[|rest| - 1] == ArgPart(docs[1..][|rest| - 1], true, cb)
    requires forall i :: 0 <= i < |rest| - 1 ==>
               rest[i] == Concat([ArgPart(docs[1..][i], false, cb),
                                  if CommentSeen(docs[1..], i, hasComment || IsCommented(docs[0])) then HardLine else LINE])
    ensures ([part] + rest)[|docs| - 1] == ArgPart(docs[|docs| - 1], true, cb)
    ensures forall i :: 0 <= i < |docs| - 1 ==>
              ([part] + rest)[i] == Concat([ArgPart(docs[i], false, cb), if CommentSeen(docs, i, hasComment) then HardLine else LINE])
  {
    var r := [part] + rest;
    if |docs| > 1 {
      assert docs[1..][|rest| - 1] == docs[|docs| - 1];
    }
    forall i | 0 <= i < |docs| - 1
      ensures r[i] == Concat([ArgPart(docs[i], false, cb), if CommentSeen(docs, i, hasComment) then HardLine else LINE])
    {
      if i == 0 {
        assert CommentSeen(docs, 0, hasComment) <==> hasComment || IsCommented(docs[0]);
      } else {
        assert r[i] == rest[i - 1];
        assert docs[1..][i - 1] == docs[i];
        CommentSeenShift(docs, i, hasComment);
      }
    }
  }

  /** Every argument of a call, in the order `build_fncall` lays them out:
      the positional ones, then the keyword ones as `name=value`, then the
      trailing comment's lines when that comment is non-empty. */
  function CallArgDocs(argdocs: seq<Doc>, kwargdocs: seq<(string, Doc)>, trailing: Option<string>, cb: CommentBody)
    : (r: seq<Doc>)
    ensures var extra := if trailing.Some? && trailing.value != "" then 1 else 0;
            |r| == |argdocs| + |kwargdocs| + extra &&
            (forall i :: 0 <= i < |argdocs| ==> r[i] == argdocs[i]) &&
            (forall i :: 0 <= i < |kwargdocs| ==> r[|argdocs| + i] == KwargDoc(kwargdocs[i].0, kwargdocs[i].1)) &&
            (extra == 1 ==> r[|r| - 1] == CommentLines(cb, trailing.value))
  {
    var kws := seq(|kwargdocs|, i requires 0 <= i < |kwargdocs| => KwargDoc(kwargdocs[i].0, kwargdocs[i].1));
    var extra := if trailing.Some? && trailing.value != "" then [CommentLines(cb, trailing.value)] else [];
    argdocs + kws + extra
  }

  /** The call breaks on a comment: some argument of the call is commented
      exactly when a positional argument or a keyword argument's value is. */
  lemma CallArgsCommented(argdocs: seq<Doc>, kwargdocs: seq<(string, Doc)>, trailing: Option<string>, cb: CommentBody)
    ensures AnyCommented(CallArgDocs(argdocs, kwargdocs, trailing, cb)) <==>
              AnyCommented(argdocs) || exists i :: 0 <= i < |kwargdocs| && IsCommented(kwargdocs[i].1)
  {
    var all := CallArgDocs(argdocs, kwargdocs, trailing, cb);
    if AnyCommented(all) {
      var k :| 0 <= k < |all| && IsCommented(all[k]);
      if k < |argdocs| {
        assert IsCommented(argdocs[k]);
      } else if k < |argdocs| + |kwargdocs| {
        assert all[|argdocs| + (k - |argdocs|)] == KwargDoc(kwargdocs[k - |argdocs|].0, kwargdocs[k - |argdocs|].1);
        assert IsCommented(kwargdocs[k - |argdocs|].1);
      }
    }
    if AnyCommented(argdocs) {
      var k :| 0 <= k < |argdocs| && IsCommented(argdocs[k]);
      assert IsCommented(all[k]);
    }
    if exists i :: 0 <= i < |kwargdocs| && IsCommented(kwargdocs[i].1) {
      var i :| 0 <= i < |kwargdocs| && IsCommented(kwargdocs[i].1);
      assert all[|argdocs| + i] == KwargDoc(kwargdocs[i].0, kwargdocs[i].1);
      assert IsCommented(all[|argdocs| + i]);
    }
  }

  /** `build_fncall(ctx, fndoc, argdocs, kwargdocs, hug_sole_arg,
      trailing_comment)`. A call without arguments drops the trailing
      comment; a sole uncommented positional argument may hug the
      parentheses; otherwise the call is `fn(`, the argument parts nested
      one level, and `)`, and it breaks iff there is a trailing comment or a
      commented argument. */
  function BuildFncall(indent: int, fndoc: Doc, argdocs: seq<Doc>, kwargdocs: seq<(string, Doc)>,
                       hug: bool, trailing: Option<string>, cb: CommentBody): (r: Doc)
    ensures argdocs == [] && kwargdocs == [] ==> r == Concat([fndoc, LPAREN, RPAREN])
    ensures (argdocs != [] || kwargdocs != []) && hug && kwargdocs == [] && |argdocs| == 1 && !IsCommented(argdocs[0]) ==>
              r == Group(Concat([fndoc, LPAREN, argdocs[0], RPAREN]))
    ensures (argdocs != [] || kwargdocs != []) && !(hug && kwargdocs == [] && |argdocs| == 1 && !IsCommented(argdocs[0])) ==>
              (r.AlwaysBreak? || r.Group?) &&
              (r.AlwaysBreak? <==>
                 (trailing.Some? && trailing.value != "") || AnyCommented(argdocs) ||
                 exists i :: 0 <= i < |kwargdocs| && IsCommented(kwargdocs[i].1)) &&
              r.doc == Concat([fndoc, LPAREN,
                               Nest(indent, Concat([SOFTLINE, Concat(FncallParts(CallArgDocs(argdocs, kwargdocs, trailing, cb),
                                                                                trailing.Some? && trailing.value != "", cb).0)])),
                               SOFTLINE, RPAREN])
  {
    if argdocs == [] && kwargdocs == [] then Concat([fndoc, LPAREN, RPAREN])
    else if hug && kwargdocs == [] && |argdocs| == 1 && !IsCommented(argdocs[0]) then
      Group(Concat([fndoc, LPAREN, argdocs[0], RPAREN]))
    else
      var trailingOn := trailing.Some? && trailing.value != "";
      var fp := FncallParts(CallArgDocs(argdocs, kwargdocs, trailing, cb), trailingOn, cb);
      CallArgsCommented(argdocs, kwargdocs, trailing, cb);
      var body := Concat([fndoc, LPAREN, Nest(indent, Concat([SOFTLINE, Concat(fp.0)])), SOFTLINE, RPAREN]);
      if fp.1 then AlwaysBreak(body) else Group(body)
  }

  /** The parts of a call without comments, defined independently of the
      loop: each argument followed by `,` and a LINE, the last one alone. */
  function PlainArgParts(docs: seq<Doc>): (r: seq<Doc>)
    ensures |r| == |docs|
  {
    seq(|docs|, i requires 0 <= i < |docs| =>
      if i == |docs| - 1 then Concat([docs[i], Nil]) else Concat([Concat([docs[i], COMMA]), LINE]))
  }

  lemma UncommentedCallParts(docs: seq<Doc>, cb: CommentBody)
    ensures !AnyCommented(docs) ==> FncallParts(docs, false, cb).0 == PlainArgParts(docs)
  {
    if !AnyCommented(docs) {
      var r := FncallParts(docs, false, cb).0;
      forall i | 0 <= i < |docs|
        ensures r[i] == PlainArgParts(docs)[i]
      {
        assert !IsCommented(docs[i]);
        if i < |docs| - 1 {
          assert !CommentSeen(docs, i, false);
        }
      }
    }
  }

  /** The arguments of a call without comments: the positional ones, then
      `name=value` for each keyword one. */
  function PlainCallArgs(argdocs: seq<Doc>, kwargdocs: seq<(string, Doc)>): (r: seq<Doc>)
    ensures |r| == |argdocs| + |kwargdocs|
  {
    argdocs + seq(|kwargdocs|, i requires 0 <= i < |kwargdocs| => Concat([KeywordArg(kwargdocs[i].0), ASSIGN_OP, kwargdocs[i].1]))
  }

  /** A call without any comment, positional and keyword arguments alike,
      is a Group of `fn(`, the arguments in order (positional first, then
      `name=value`), separated by `,` and a LINE, nested one level, and `)`. */
  lemma UncommentedCall(indent: int, fndoc: Doc, argdocs: seq<Doc>, kwargdocs: seq<(string, Doc)>, cb: CommentBody)
    ensures (argdocs != [] || kwargdocs != []) && !AnyCommented(argdocs) &&
            (forall i :: 0 <= i < |kwargdocs| ==> !IsCommented(kwargdocs[i].1)) ==>
              BuildFncall(indent, fndoc, argdocs, kwargdocs, false, None, cb) ==
                Group(Concat([fndoc, LPAREN, Nest(indent, Concat([SOFTLINE, Concat(PlainArgParts(PlainCallArgs(argdocs, kwargdocs)))])),
                              SOFTLINE, RPAREN]))
  {
    if (argdocs != [] || kwargdocs != []) && !AnyCommented(argdocs) &&
       (forall i :: 0 <= i < |kwargdocs| ==> !IsCommented(kwargdocs[i].1)) {
      UncommentedArgs(argdocs, kwargdocs, cb);
      var all := CallArgDocs(argdocs, kwargdocs, None, cb);
      CallArgsCommented(argdocs, kwargdocs, None, cb);
      UncommentedCallParts(all, cb);
    }
  }

  lemma UncommentedArgs(argdocs: seq<Doc>, kwargdocs: seq<(string, Doc)>, cb: CommentBody)
    requires forall i :: 0 <= i < |kwargdocs| ==> !IsCommented(kwargdocs[i].1)
    ensures CallArgDocs(argdocs, kwargdocs, None, cb) == PlainCallArgs(argdocs, kwargdocs)
  {
    var all := CallArgDocs(argdocs, kwargdocs, None, cb);
    var plain := PlainCallArgs(argdocs, kwargdocs);
    forall i | 0 <= i < |all|
      ensures all[i] == plain[i]
    {
      if i >= |argdocs| {
        var k := i - |argdocs|;
        assert all[|argdocs| + k] == KwargDoc(kwargdocs[k].0, kwargdocs[k].1);
      }
    }
  }

  lemma AnyCommentedAppend(a: seq<Doc>, b: seq<Doc>, c: seq<Doc>)
    requires !AnyCommented(c)
    ensures AnyCommented(a + b + c) <==> AnyCommented(a) || AnyCommented(b)
  {
    var s := a + b + c;
    assert forall k :: |a| + |b| <= k < |s| ==> s[k] == c[k - |a| - |b|];
    if AnyCommented(s) {
      var i :| 0 <= i < |s| && IsCommented(s[i]);
      if i < |a| {
        assert s[i] == a[i];
      } else if i < |a| + |b| {
        assert s[i] == b[i - |a|];
      }
    }
    if AnyCommented(a) {
      var i :| 0 <= i < |a| && IsCommented(a[i]);
      assert s[i] == a[i];
    }
    if AnyCommented(b) {
      var i :| 0 <= i < |b| && IsCommented(b[i]);
      assert s[|a| + i] == b[i];
    }
  }

  /** The exact types whose sole argument hugs the call's parentheses. */
  predicate HugsParens(v: PyValue)
  {
    v.PList? || v.PDict? || v.PTuple?
  }

  /** `pretty_call(ctx, fn, *args, **kwargs)` with `fndoc` the identifier of
      `fn` and `pp` the value printer. A call past the depth limit prints
      `fn(...)`; a sole list, dict or tuple argument is printed with the
      same context and hugs the parentheses; otherwise every argument is
      printed one level deeper with the hanging string strategy. */
  function PrettyCall(ctx: Ctx, fndoc: Doc, args: seq<PyValue>, kwargs: seq<(string, PyValue)>,
                      pp: (PyValue, Ctx) -> Doc, cb: CommentBody): (r: Doc)
    ensures ctx.depthLeft <= 0 ==> r == Concat([fndoc, LPAREN, ELLIPSIS, RPAREN])
    ensures ctx.depthLeft > 0 && args == [] && kwargs == [] ==> r == Concat([fndoc, LPAREN, RPAREN])
  {
    if ctx.depthLeft <= 0 then Concat([fndoc, LPAREN, ELLIPSIS, RPAREN])
    else if kwargs == [] && |args| == 1 && HugsParens(UnwrapComments(args[0]).value) then
      BuildFncall(ctx.indent, fndoc, [pp(args[0], ctx)], [], true, None, cb)
    else
      var nested := UseMultilineStrategy(NestedCall(ctx), Hang);
      BuildFncall(ctx.indent, fndoc, PrintAll(args, pp, nested), PrintKwargs(kwargs, pp, nested), false, None, cb)
  }

  /** Any call that is not a hugged sole container prints every argument,
      positional and keyword, in order, one level deeper with the hanging
      strategy, and never hugs. */
  lemma PrettyCallNestsArgs(ctx: Ctx, fndoc: Doc, args: seq<PyValue>, kwargs: seq<(string, PyValue)>,
                            pp: (PyValue, Ctx) -> Doc, cb: CommentBody)
    requires ctx.depthLeft > 0
    requires !(kwargs == [] && |args| == 1 && HugsParens(UnwrapComments(args[0]).value))
    ensures var nested := UseMultilineStrategy(NestedCall(ctx), Hang);
            nested.depthLeft == ctx.depthLeft - 1 && nested.strategy == Hang &&
            PrettyCall(ctx, fndoc, args, kwargs, pp, cb) ==
              BuildFncall(ctx.indent, fndoc, PrintAll(args, pp, nested), PrintKwargs(kwargs, pp, nested), false, None, cb)
  {
  }

  /** Every argument printed with the same context, in order. */
  function PrintAll(args: seq<PyValue>, pp: (PyValue, Ctx) -> Doc, ctx: Ctx): (r: seq<Doc>)
    ensures |r| == |args| && forall i :: 0 <= i < |args| ==> r[i] == pp(args[i], ctx)
  {
    if args == [] then [] else [pp(args[0], ctx)] + PrintAll(args[1..], pp, ctx)
  }

  /** Every keyword argument's value printed with the same context, names
      and order kept. */
  function PrintKwargs(kwargs: seq<(string, PyValue)>, pp: (PyValue, Ctx) -> Doc, ctx: Ctx): (r: seq<(string, Doc)>)
    ensures |r| == |kwargs| && forall i :: 0 <= i < |kwargs| ==> r[i] == (kwargs[i].0, pp(kwargs[i].1, ctx))
  {
    if kwargs == [] then [] else [(kwargs[0].0, pp(kwargs[0].1, ctx))] + PrintKwargs(kwargs[1..], pp, ctx)
  }

  /** A sole list, dict or tuple argument (possibly behind comment wrappers)
      whose printed doc carries no comment is laid out as `fn(` + doc + `)`
      in a Group, printed with the caller's own context. */
  lemma PrettyCallHugsSoleContainer(ctx: Ctx, fndoc: Doc, arg: PyValue, pp: (PyValue, Ctx) -> Doc, cb: CommentBody)
    requires ctx.depthLeft > 0
    requires HugsParens(UnwrapComments(arg).value)
    requires !IsCommented(pp(arg, ctx))
    ensures PrettyCall(ctx, fndoc, [arg], [], pp, cb) == Group(Concat([fndoc, LPAREN, pp(arg, ctx), RPAREN]))
  {
  }

  /** Any other call is printed one level deeper: a sole scalar argument
      sees the nested, hanging context and is never hugged. */
  lemma PrettyCallNestsScalars(ctx: Ctx, fndoc: Doc, arg: PyValue, pp: (PyValue, Ctx) -> Doc, cb: CommentBody)
    requires ctx.depthLeft > 0
    requires !HugsParens(UnwrapComments(arg).value)
    ensures var d := pp(arg, UseMultilineStrategy(NestedCall(ctx), Hang));
            var r := PrettyCall(ctx, fndoc, [arg], [], pp, cb);
            (r.AlwaysBreak? || r.Group?) && (r.AlwaysBreak? <==> IsCommented(d))
  {
    var nested := UseMultilineStrategy(NestedCall(ctx), Hang);
    var argdocs := PrintAll([arg], pp, nested);
    assert argdocs[0] == pp(arg, nested);
    assert AnyCommented(argdocs) <==> IsCommented(pp(arg, nested));
  }
}
