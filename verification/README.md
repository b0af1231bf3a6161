# prettyprinter core in Dafny

This project models the core of the Python library `prettyprinter`, a
Wadler/Lindig-style pretty printer, and proves properties of the model:

- **Document algebra** (`DocTypes`, `DocBuild`, `NormalizeChecked`). Docs are an immutable tree:
  - the leaves are strings, NIL, HARDLINE and the contextual `align` evaluator;
  - the nodes are Concat, Nest, FlatChoice, Group, AlwaysBreak, Fill and Annotated.

  The module also holds the `normalize` rewrite system and the checked builder functions of `doc.py`.
- **Layout engine** (`LayoutStack`, `Fitting`, `Layout`, `SDocs`).
  - `best_layout` is modelled as a loop over an explicit stack of (indent, mode, doc) frames. It emits a stream of strings, `SLine(indent)` and annotation push and pop markers.
  - The fast and smart fitting predicates do the lookahead for each Group.
  - Fill does word-wrapping.
  - Termination uses the total size of the docs on the stack.
- **Plain renderer** (`Render`): `as_lines`, `default_render_to_stream` and `default_render_to_str`. The output stream is modelled as the string it ends up holding.
- **Printing context, cycle guard and registry** (`Context`, `Values`, `Registry`):
  - `PrettyContext`, with its shared visited set;
  - `_run_pretty`, `unwrap_comments`, `register_pretty` and `is_registered`.

  Types are ids that carry their MRO. Printers and predicates are opaque tags.
- **Composition helpers** (`Compose`, `Containers`, `Strs`):
  - `bracket`, `sequence_of_docs`, `build_fncall` and `pretty_call`;
  - the list, tuple, set and dict printers, including truncation, key sorting and the forced-break rules;
  - `determine_quote_strategy` and `str_to_lines`.
- **Stdlib field arithmetic** (`Stdlib`): the integer decomposition and field selection of the `datetime`, `time` and `timedelta` printers. The result is an argument list.
- **Utilities** (`Utils`): `intersperse`, `find`, `rfind_idx`, `identity` and `take`.

Each module is in its own file. `Wrappers` supplies `Option` and `Result`.

Some of the source's inputs become parameters of the model:

- `pretty_python_value` is a parameter `pp`, a function from a value and a context to a Doc.
- The comment body built by `commentdoc` is a parameter `cb`.
- `escaped_len` is a parameter `esc`.
- The regex word-character class is a parameter `isWord`.
- The key order of `_AlwaysSortable` is a parameter `rank`.
- The page position a contextual evaluator receives comes from the layout loop.

## Model

| member | source | states |
|---|---|---|
| DocTypes.NormalizeString | prettyprinter/doctypes.py:1-6 | `normalize_doc` turns a string into NIL exactly when it is empty, and leaves every other string unchanged |
| DocTypes.ConcatNormalizeShape | prettyprinter/doctypes.py:53-78 | a Concat becomes NIL when every child vanishes; it becomes an AlwaysBreak exactly when some child normalises to one, with a single AlwaysBreak wrapper; a resulting Concat has no AlwaysBreak child |
| DocTypes.NestHoistsBreak | prettyprinter/doctypes.py:96-102 | Nest moves a forced break of its body outside itself and keeps its indent; otherwise it nests the normalised body |
| DocTypes.GroupDropsWhenForced | prettyprinter/doctypes.py:192-201 | a Group disappears when its body normalises to an AlwaysBreak or to NIL, and otherwise wraps the normalised body |
| DocTypes.AlwaysBreakCollapses | prettyprinter/doctypes.py:214-218 | directly nested AlwaysBreaks collapse into one, and the result never has an AlwaysBreak directly inside it |
| DocTypes.FillDoesNotNormalizeChildren | prettyprinter/doctypes.py:230-249 | Fill keeps its children un-normalised (an empty-string child survives), yet still hoists a forced break out of a child |
| DocTypes.FillKeepsRawChildren | prettyprinter/doctypes.py:230-249 | for every Fill: it normalises to NIL exactly when no child survives unwrapping; otherwise it is an AlwaysBreak exactly when some child is one, and its children are, in order, the input children that are not NIL once one AlwaysBreak is unwrapped, each with that AlwaysBreak removed and not normalised itself |
| DocTypes.FillPartsEmpty | prettyprinter/doctypes.py:230-249 | Fill keeps no child exactly when every child, with one AlwaysBreak removed, is NIL |
| DocTypes.BrokenNilSurvivesInConcat | prettyprinter/doctypes.py:60-72 | an AlwaysBreak(NIL) child leaves a NIL part inside the normalised Concat |
| DocTypes.NormalizeNormalForm | prettyprinter/doctypes.py:1-249 | every result of normalisation satisfies one normal-form invariant: no empty string, a Concat has at least two parts and none is an AlwaysBreak, no Nest, Group or AlwaysBreak directly holds an AlwaysBreak, no Group holds NIL, and no Fill keeps a NIL child |
| DocTypes.NormalizePreservesAtoms | prettyprinter/doctypes.py:1-249 | normalisation neither loses, adds nor reorders any non-empty string or hard line |
| DocTypes.NormalizeBreaksIffForced | prettyprinter/doctypes.py:60-62 | normalisation yields an AlwaysBreak exactly when an independent predicate holds: a forced break along the Concat, Nest and Group spines, or inside a Fill that keeps a child |
| DocTypes.NormalizeSize | prettyprinter/doctypes.py:1-249 | normalisation never grows a document, which the layout loop's termination measure relies on |
| DocTypes.Normalize | prettyprinter/doctypes.py:1-249 | the total normalisation; its contract is carried by DocTypes.NormalizeNormalForm (normal form), DocTypes.NormalizePreservesAtoms (no atom lost, added or moved), DocTypes.NormalizeBreaksIffForced (forced breaks) and DocTypes.NormalizeSize (no growth) |
| DocBuild.MkGroup | prettyprinter/doc.py:26-31 | `group` fails exactly when its argument is a bare string, and otherwise wraps the argument unchanged |
| DocBuild.MkNest | prettyprinter/doc.py:73-74 | `nest` fails exactly on a bare string, and otherwise wraps the argument with the given indent |
| DocBuild.MkAlwaysBreak | prettyprinter/doc.py:81-86 | `always_break` fails exactly on a bare string, and otherwise wraps the argument unchanged |
| DocBuild.MkConcat | prettyprinter/doc.py:34-36 | `concat` keeps every child, in order; its visible content is the children's content in order |
| DocBuild.MkFill | prettyprinter/doc.py:77-78 | `fill` keeps every child, in order |
| DocBuild.MkAnnotate | prettyprinter/doc.py:39-41 | `annotate(a, d)` wraps `d` with annotation `a` and adds no visible content |
| DocBuild.MkFlatChoice | prettyprinter/doc.py:89-96 | `flat_choice` stores `when_broken` and `when_flat` in the positions named |
| DocBuild.MkAlign | prettyprinter/doc.py:57-64 | `align(d)` evaluates at every position to Nest(column - indent, d); the result can be built and evaluated exactly when `d` is an accepted Doc instance, since a bare string passes `validate_doc` but the Nest built at layout time rejects it |
| DocBuild.MkHang | prettyprinter/doc.py:67-70 | `hang(i, d)` is `align(nest(i, d))`, and fails exactly when the inner `nest` rejects a bare string |
| DocBuild.BuildersKeepConstructible | prettyprinter/doc.py:19-96 | from arguments the constructors accept, every builder produces a document the constructors accept; `align` does so for every accepted Doc instance, while `align('x')` is not accepted |
| DocBuild.LineConstants | prettyprinter/doctypes.py:180-182 | LINE is FlatChoice(HARDLINE, ' ') and SOFTLINE is FlatChoice(HARDLINE, NIL), both built from accepted parts |
| NormalizeChecked.AsWrittenAgrees | prettyprinter/doctypes.py:53-249 | whenever the source's constructor-checked normalisation succeeds on a FlatChoice-free document, it equals the total `Normalize` |
| NormalizeChecked.AsWrittenKeepsConstructible | prettyprinter/doctypes.py:53-249 | a successful checked normalisation of an accepted document is again accepted |
| NormalizeChecked.NestOfSoleStringFails | prettyprinter/doctypes.py:71-72 | `nest(4, concat(['x']))` is built without error, but normalising it trips the Nest assertion; the corrected normalisation gives Nest(4, 'x') |
| NormalizeChecked.NormalizeChoice | prettyprinter/doctypes.py:134-142 | `FlatChoice.normalize` keeps both branches raw and marks the choice for normalisation on access; a choice already marked is returned as it is |
| NormalizeChecked.ReadBroken | prettyprinter/doctypes.py:144-149 | reading `when_broken` of a marked choice gives the normalised branch, normalising it at most once; an unmarked choice gives the raw branch; the flat branch is untouched |
| NormalizeChecked.ReadFlatAsWritten | prettyprinter/doctypes.py:151-156 | as written, `when_flat` is normalised only once the broken branch has been, and is handed out raw before that |
| NormalizeChecked.ReadFlat | prettyprinter/doctypes.py:144-156 | corrected, reading `when_flat` of a marked choice gives the normalised branch, like `when_broken`; the broken branch is untouched |
| NormalizeChecked.FlatReadFirstStaysRaw | prettyprinter/doctypes.py:134-156 | as written, a normalised choice whose flat branch is read first hands out that branch raw and stays unchanged |
| NormalizeChecked.RawFlatBranchFitsDifferently | prettyprinter/layout.py:56-121 | for the flat branch `concat(['a', HARDLINE, always_break('b')])` the fitting check accepts the raw branch and rejects the normalised one, so the as-written laziness changes the layout decision |
| NormalizeChecked.CorrectedChoiceIsEager | prettyprinter/doctypes.py:111-156 | corrected, a normalised choice hands out exactly the branches of the eager normalisation, in either reading order and on repeated reads |
| LayoutStack.FramesOf | prettyprinter/layout.py:240-247 | a Concat's children become one frame each, with the parent's indent and mode, the first child on top |
| LayoutStack.ChildrenShrink | prettyprinter/layout.py:240-247 | replacing a Concat or Fill by its children shrinks the stack measure |
| LayoutStack.PendingPopsAppend | prettyprinter/layout.py:257-266 | the pending annotation pops of a stack are those of its parts, in order |
| Fitting.Step | prettyprinter/layout.py:45-208 | one lookahead step shrinks the stack or answers; only a string or a smart-predicate hard line changes the columns left; an AlwaysBreak answers False; a fast-predicate hard line, or one not deeper than the minimum nesting level, answers True; any other answer comes from one of those two |
| Fitting.SmartImpliesFast | prettyprinter/layout.py:45-208 | the smart predicate never accepts a stack that the fast predicate rejects |
| Fitting.FastFitsIffLineFits | prettyprinter/layout.py:45-121 | the fast predicate holds exactly when the flattened rest of the line fits in the columns left and no forced break comes before the next line break |
| Fitting.StepKeepsLineFits | prettyprinter/layout.py:56-121 | each fast step either answers the "rest of the line fits" question correctly or leaves it unchanged |
| Fitting.AlignTokens | prettyprinter/layout.py:103-113 | the lookahead sees an evaluated `align` exactly as its body |
| Fitting.LineFitsCons | prettyprinter/layout.py:56-92 | text consumes its width, a line break ends the look with success when no columns are overdrawn, and a forced break never fits |
| Fitting.Fits | prettyprinter/layout.py:45-208 | both fitting predicates; the contract is carried by Fitting.FastFitsIffLineFits (the fast predicate against an independent line-fits definition) and Fitting.SmartImpliesFast |
| Layout.RibbonWidth | prettyprinter/layout.py:211-221 | the ribbon width is the rounded product clamped to 0..width |
| Layout.AvailableWidth | prettyprinter/layout.py:277-300 | the width available to a Group is the smaller of what is left of the page line and what is left of the ribbon |
| Layout.FillFrames | prettyprinter/layout.py:301-372 | Fill lays out its first child flat exactly when it fits alone; with exactly two children the separator takes the first child's mode; with more, the separator goes flat exactly when the first two children fit together (which implies that the first is flat) and the rest stays as a smaller Fill in the parent's mode |
| Layout.PairFitImpliesFirstFits | prettyprinter/layout.py:301-372 | if the first two children of a Fill fit flat together, the first fits alone |
| Layout.FillFramesShrink | prettyprinter/layout.py:301-372 | splitting a Fill shrinks the stack measure |
| Layout.Advance | prettyprinter/layout.py:229-376 | one loop iteration shrinks the stack and emits at most one SDoc, and the column tracks the emitted output; a HARDLINE emits SLine(indent) and resets the column to the indent; a string emits itself and advances the column by its length |
| Layout.AdvanceModeRules | prettyprinter/layout.py:267-300 | FlatChoice picks its branch by mode; Nest indents only its body; AlwaysBreak forces BREAK for its body; a Group puts its body flat exactly when the fitting predicate accepts it; the frames below are unchanged |
| Layout.AlignIndentsToColumn | prettyprinter/layout.py:248-256 | an `align` node lays out its body with the indent set to the current column |
| Layout.ConcatLaysOutInOrder | prettyprinter/layout.py:240-247 | Concat children are laid out left to right, with the parent's indent and mode, each starting where the previous one ended |
| Layout.LookaheadFreeIgnoresConfig | prettyprinter/layout.py:211-378 | a document without Group or Fill lays out the same for every width, ribbon and predicate |
| Layout.LoopStep | prettyprinter/layout.py:229-378 | the loop invariant is kept: the output so far plus the rest of the run is the whole layout, and the open annotations are exactly the pending pops |
| Layout.BestLayout | prettyprinter/layout.py:211-378 | the stack-and-loop method computes the recursive layout, and its output has balanced annotation markers |
| Layout.Layout | prettyprinter/layout.py:211-378 | `best_layout` as a recursive run of the loop; the method Layout.BestLayout computes exactly it, and Layout.LayoutBalanced states its annotation markers are balanced |
| Layout.LayoutSmart | prettyprinter/layout.py:381-387 | `layout_smart` emits balanced annotation markers, and on a document without Group or Fill gives the same output as `layout_fast` |
| Layout.LayoutFast | prettyprinter/layout.py:390-396 | `layout_fast` emits balanced annotation markers |
| Layout.DocLookaheadFreeIgnoresConfig | prettyprinter/layout.py:211-378 | a document without Group or Fill lays out the same for every width, ribbon and fitting predicate |
| Layout.LayoutBalanced | prettyprinter/layout.py:257-266 | every annotation push of a layout is closed by its own pop, properly nested |
| Layout.RunMatchesMarkers | prettyprinter/layout.py:257-266 | the markers a run emits close exactly the annotations still pending on its stack |
| Layout.FlatRunHasNoLines | prettyprinter/layout.py:267-300 | a stack of flat frames without hard lines, Groups, Fills or AlwaysBreaks emits no line break |
| SDocs.ColumnAfterAppend | prettyprinter/layout.py:234-239 | the column after two outputs is the column after the second, started where the first ended |
| SDocs.ColumnIgnoresMarkers | prettyprinter/sdoctypes.py:17-34 | annotation markers never move the column |
| Render.AsLines | prettyprinter/render.py:7-18 | `as_lines` loses and reorders nothing; there is one line per SLine plus the first; each later line starts with its SLine and has no other; the first line has none |
| Render.AsLinesFromCount | prettyprinter/render.py:7-18 | the generator yields one line per SLine, plus a final line when anything remains |
| Render.AsLinesFrom | prettyprinter/render.py:7-18 | the generator's lines concatenate to the open line plus the rest; the first line extends the open line with no SLine; every later line is non-empty and starts with its only SLine |
| Render.RStrip | prettyprinter/render.py:39 | right-stripping removes only trailing whitespace and leaves none |
| Render.Repeat | prettyprinter/render.py:45 | `separator * n` has n copies' length, and is empty for n <= 0 |
| Render.RepeatChar | prettyprinter/render.py:45 | a one-character separator repeated gives only that character |
| Render.RenderToStream | prettyprinter/render.py:21-45 | an empty stream writes nothing; the written text matches an element-wise definition in which only the last string of each line is right-stripped and an SLine writes the newline and its indentation |
| Render.WriteLine | prettyprinter/render.py:28-45 | the loop body for one line writes exactly that line's element-wise rendering |
| Render.RenderedAppend | prettyprinter/render.py:27-45 | rendering splits at a line break |
| Render.RenderToStr | prettyprinter/render.py:48-51 | `default_render_to_str` returns exactly what the stream renderer wrote |
| Render.RenderedIgnoresMarkers | prettyprinter/render.py:41-45 | annotation push and pop SDocs contribute no characters |
| Render.TwoLinesRender | prettyprinter/render.py:28-45 | on two lines of two strings each, only the last string of each line loses its trailing whitespace, and the line break writes the newline and indent |
| Utils.Intersperse | prettyprinter/utils.py:2-20 | an empty input gives nothing; n >= 1 inputs give 2n-1 items, with the inputs in order at even positions and the separator at every odd position |
| Utils.Find | prettyprinter/utils.py:23-25 | the result is the first element satisfying the predicate, or `default` when none does |
| Utils.RFindIdx | prettyprinter/utils.py:28-33 | the result is the largest index whose element satisfies the predicate, or -1 when none does |
| Utils.Identity | prettyprinter/utils.py:36-37 | the result is the argument |
| Utils.NatToString | prettyprinter/prettyprinter.py:996-1007 | the decimal numeral of n: digits only, no leading zero, and its decimal value is n |
| Utils.FirstIndex | prettyprinter/utils.py:23-25 | the result is the index of the first element satisfying the predicate, or the length |
| Values.UnwrapComments | prettyprinter/prettyprinter.py:178-190 | the result is never a comment wrapper, and a bare value comes back with no comments |
| Values.UnwrapInnermostWins | prettyprinter/prettyprinter.py:178-190 | seen from the inside out, a wrapper's comment counts only when no wrapper inside it carries a comment of the same kind |
| Values.UnwrapLoop | prettyprinter/prettyprinter.py:178-190 | the loop stops at a value that is not a wrapper, returns a bare value with the comments given, and never loses a comment it was given |
| Context.NewContext | prettyprinter/prettyprinter.py:250-270 | a fresh context has the plain strategy, at most 1000 elements per container, unsorted keys, no user context and an empty visited set |
| Context.UseMultilineStrategy | prettyprinter/prettyprinter.py:287-288 | only the strategy changes |
| Context.Assoc | prettyprinter/prettyprinter.py:290-297 | only the user context changes, gaining the key |
| Context.GetAfterAssoc | prettyprinter/prettyprinter.py:290-309 | `get` reads back what `assoc` stored, and every other key is undisturbed |
| Context.Get | prettyprinter/prettyprinter.py:308-309 | `get` returns the stored value for a present key and the default for a missing one |
| Context.NestedCall | prettyprinter/prettyprinter.py:311-312 | depth left drops by exactly one and every other field is unchanged |
| Context.StartVisit | prettyprinter/prettyprinter.py:314-315 | the id is added and nothing else changes |
| Context.EndVisit | prettyprinter/prettyprinter.py:317-318 | removal succeeds exactly when the id is present, and removes only it |
| Context.PassedComment | prettyprinter/prettyprinter.py:330-360 | the printer receives the trailing comment exactly when it is truthy, and then unchanged |
| Context.RunPretty | prettyprinter/prettyprinter.py:324-378 | an id already being visited yields the recursion placeholder without calling the printer; otherwise the id is visited during the call and removed afterwards, the printer gets the trailing comment only when it is truthy, and a non-Doc result raises |
| Context.RunPrettyRestoresVisited | prettyprinter/prettyprinter.py:324-378 | through the guard, a well-behaved printer leaves the caller's visited set as it was |
| Context.EmptyCommentIsNoComment | prettyprinter/prettyprinter.py:324-360 | an empty trailing comment gives the same result as none |
| Context.ReentryGetsPlaceholder | prettyprinter/prettyprinter.py:1644-1648 | inside the printer's call, printing the same value again gives `<Recursion on T with id=N>` |
| Context.RecursionPlaceholder | prettyprinter/prettyprinter.py:1644-1648 | the placeholder is `<Recursion on T with id=`, then digits whose decimal value is the id, then `>` |
| Registry.RegisterPretty | prettyprinter/prettyprinter.py:466-516 | neither or both of type and predicate are rejected; a name goes only to the deferred table; a class goes only to the dispatch registry; a predicate is appended after all earlier ones |
| Registry.Dispatch | prettyprinter/prettyprinter.py:561 | dispatch picks the printer of the first MRO entry that has one |
| Registry.Promote | prettyprinter/prettyprinter.py:541-544 | popping a deferred printer moves it into the registry under the class, and leaves every other entry alone |
| Registry.IsRegistered | prettyprinter/prettyprinter.py:521-561 | it raises exactly when `register_deferred` is set without `check_deferred`; it checks the exact registry entry, then the exact deferred name, then the deferred names of supertypes in MRO order; a deferred supertype answers True and, with `register_deferred`, is promoted; with none, the answer is whether dispatch over the MRO finds a registered printer; it changes the registry only by promoting the first deferred match |
| Registry.SuperclassAnswer | prettyprinter/prettyprinter.py:549-561 | the superclass path: the first supertype with a deferred printer answers true, promoting it when asked; without one, the answer is whether dispatch finds a printer other than the fallback; the registry changes only by that promotion |
| Registry.PromotedAnswersFromRegistry | prettyprinter/prettyprinter.py:533-545 | once a deferred printer is promoted, asking again answers from the registry and changes nothing |
| Registry.PredicateDispatch | prettyprinter/prettyprinter.py:391-395 | the printer used is that of the first registered predicate that holds, or none |
| Registry.LaterPredicateDoesNotOverride | prettyprinter/prettyprinter.py:391-395 | registering a predicate later never overrides an earlier one that already holds |
| Compose.CommentDoc | prettyprinter/prettyprinter.py:135-146 | the doc is annotated with its comment text, so it counts as commented |
| Compose.CommentLines | prettyprinter/prettyprinter.py:573-628 | a comment body is annotated as a single-line comment token and is not itself a commented doc |
| Compose.Bracket | prettyprinter/prettyprinter.py:564-570 | `bracket`; its contract is carried by Compose.BracketTokens |
| Compose.BracketTokens | prettyprinter/prettyprinter.py:564-570 | flat, a bracket reads as the left bracket, the child and the right bracket with nothing between them; broken, the child is on lines of its own between the brackets |
| Compose.SequenceOfDocs | prettyprinter/prettyprinter.py:631-699 | the result is forced to break exactly when `force_break` is set, when 2 + 2(n-1) + n > 150, or when any element is commented; otherwise it is a Group; either way the brackets hold exactly the sequence parts of the elements (each with its separator or comment lines) and then the dangling comma when asked for |
| Compose.SeqPartsUncommented | prettyprinter/prettyprinter.py:650-688 | without comments the parts are the elements interspersed with `, LINE` |
| Compose.UncommentedSequence | prettyprinter/prettyprinter.py:631-699 | without commented elements the brackets hold exactly the elements, in order, separated by `, LINE`, then the dangling comma when asked for |
| Compose.LongSequencesBreak | prettyprinter/prettyprinter.py:640-648 | more than 50 elements always force a break |
| Compose.KwargDoc | prettyprinter/prettyprinter.py:820-838 | a keyword-argument doc is commented exactly when its value doc is; a commented value's comment moves to the keyword doc, whose doc is `name=` followed by the value's own doc |
| Compose.ArgPart | prettyprinter/prettyprinter.py:869-895 | one argument's part is its doc with the comment annotation removed, then `,` unless it is the last; a non-empty comment sits two spaces after it when flat and on its own line above it when broken |
| Compose.FncallParts | prettyprinter/prettyprinter.py:867-900 | one part per argument, in order: part i is argument i's part, and each non-last part ends in HARDLINE exactly when some argument so far is commented (or there is a trailing comment), and in LINE otherwise |
| Compose.CallArgDocs | prettyprinter/prettyprinter.py:820-865 | the call's arguments are the positional docs, then each keyword argument as `name=value` with its comment moved onto it, then the trailing comment's lines when that comment is non-empty |
| Compose.CallArgsCommented | prettyprinter/prettyprinter.py:862-873 | some argument of the call is commented exactly when a positional argument or a keyword argument's value is |
| Compose.BuildFncall | prettyprinter/prettyprinter.py:768-922 | no arguments give `fn()`; a hugged sole argument gives the grouped `fn(arg)`; otherwise the call is `fn(`, the parts of all arguments in order nested one level between soft lines, and `)`, and it is forced to break exactly when there is a truthy trailing comment or a commented argument or keyword argument |
| Compose.UncommentedCallParts | prettyprinter/prettyprinter.py:867-900 | without comments the loop's parts equal an independent definition: each argument followed by `,` and a LINE, the last alone |
| Compose.UncommentedCall | prettyprinter/prettyprinter.py:820-922 | a call without any comment is a Group of `fn(`, the positional arguments then `name=value` for each keyword argument, separated by `,` and a LINE and nested one level, and `)` |
| Compose.PrettyCall | prettyprinter/prettyprinter.py:732-765 | at depth 0 or less the result is `fn(...)`; without arguments it is `fn()` |
| Compose.PrettyCallHugsSoleContainer | prettyprinter/prettyprinter.py:737-746 | a sole uncommented list, dict or tuple argument is printed at the caller's context and hugged by the parentheses |
| Compose.PrettyCallNestsScalars | prettyprinter/prettyprinter.py:748-765 | any other sole argument is printed one level deeper with the hang strategy, and the call breaks exactly when that doc is commented |
| Compose.PrettyCallNestsArgs | prettyprinter/prettyprinter.py:748-765 | every call other than a hugged sole container prints all positional and keyword arguments in order one level deeper with the hang strategy, and builds the call from them without hugging |
| Compose.PrintAll | prettyprinter/prettyprinter.py:757-760 | each argument is printed in order with the same context |
| Containers.TruncationComment | prettyprinter/prettyprinter.py:996-1007 | the truncation comment is truthy and begins `...and K more elements` with K written in decimal; without a truthy trailing comment it is exactly that, and with one it is exactly that, then `. `, then the trailing comment |
| Containers.CutComment | prettyprinter/prettyprinter.py:996-1007 | a container that was not cut passes the caller's comment on unchanged; one that was cut passes a truthy truncation comment |
| Containers.ElementCtx | prettyprinter/prettyprinter.py:1031-1054 | elements are printed one level deeper, plain for a sole element and hanging otherwise, with every other field unchanged |
| Containers.PrettyIterable | prettyprinter/prettyprinter.py:983-1067 | a negative limit is an error; more than `max_seq_len` elements recurse on the first `max_seq_len` elements with the truncation comment; otherwise the body is printed |
| Containers.IterableBody | prettyprinter/prettyprinter.py:1009-1067 | the body of the list, tuple and set printer; its contract is carried by Containers.IterableShowsElements and Containers.IterableBreakRule |
| Containers.IterableShowsElements | prettyprinter/prettyprinter.py:983-1067 | below the depth limit a non-empty container prints, through `sequence_of_docs`, its first `max_seq_len` elements in order, each in the element context, then the comment lines of the comment it carries; a sole tuple element dangles a comma unless a comment follows |
| Containers.IterableBreakRule | prettyprinter/prettyprinter.py:983-1067 | a non-empty list, tuple or set below the depth limit is forced to break exactly when it was truncated, has a truthy trailing comment, has too many elements for the ribbon, or has a commented element |
| Containers.TruncatedToNothing | prettyprinter/prettyprinter.py:984-1023 | with `max_seq_len` 0 a non-empty list or tuple prints as empty brackets, losing the truncation comment |
| Containers.Insert | prettyprinter/prettyprinter.py:1115-1116 | inserting into a sorted entry list keeps it sorted and is a permutation of the list plus the entry |
| Containers.SortByRank | prettyprinter/prettyprinter.py:1115-1116 | the result is sorted by key rank and is a permutation of the input |
| Containers.PrintPair | prettyprinter/prettyprinter.py:1122-1158 | a pair's key and value comments are found exactly when their printed docs are commented; a commented doc gives its annotation's text as the comment and its inner doc as the doc, an uncommented doc is used as printed |
| Containers.PairParts | prettyprinter/prettyprinter.py:1121-1245 | one part per shown pair, in order: the k-th part is the k-th pair printed with its own comments, marked last exactly for the final pair |
| Containers.PrettyDict | prettyprinter/prettyprinter.py:1094-1258 | at depth 0 the result is `{...}`, checked before truncation; a negative limit is an error |
| Containers.DictShowsEntries | prettyprinter/prettyprinter.py:1094-1258 | below the depth limit a dict prints the body of exactly the entries selected by truncate-then-sort, with the truncation comment when entries were dropped |
| Containers.DictBody | prettyprinter/prettyprinter.py:1121-1258 | the body of the dict printer over the selected entries; its contract is carried by Containers.DictPairsInOrder and Containers.DictBreakRule |
| Containers.DictPairsInOrder | prettyprinter/prettyprinter.py:1113-1258 | the dict's bracket holds one part per selected entry, in the selected order, followed by the comment part, and is forced to break or grouped |
| Containers.ShownEntries | prettyprinter/prettyprinter.py:1098-1119 | the printed entries are the first `max_seq_len` entries, sorted by key rank when sorting is on, in insertion order otherwise |
| Containers.DictBreakRule | prettyprinter/prettyprinter.py:1113-1258 | a dict below the depth limit is forced to break exactly when it shows more than 2 pairs, was truncated, has a truthy trailing comment, or has a commented pair |
| Containers.TruncateBeforeSort | prettyprinter/prettyprinter.py:1098-1119 | truncation happens before sorting: with limit 1 and sorting on, the printed dict holds the first inserted entry, not the smallest, plus the comment for one dropped entry |
| Strs.Count | prettyprinter/prettyprinter.py:1324-1325 | a character's count is zero exactly when it does not occur |
| Strs.DetermineQuoteStrategy | prettyprinter/prettyprinter.py:1305-1330 | single quote exactly when there is no `'`, or there is a `"` and count(`'`) <= count(`"`); double quote otherwise |
| Strs.QuoteNeedsFewestEscapes | prettyprinter/prettyprinter.py:1305-1330 | the chosen quote occurs no more often than the other, and ties go to single quote |
| Strs.Runs | prettyprinter/prettyprinter.py:1454-1471 | splitting at a capture group gives non-empty parts that concatenate back to the input and alternate between separator and non-separator runs |
| Strs.SplitWords | prettyprinter/prettyprinter.py:1454-1461 | the word split loses nothing and yields only non-empty parts |
| Strs.StrToLinesStuck | prettyprinter/prettyprinter.py:1508-1531 | as written, with `max_len <= 0` a part that does not fit is split at 0, and the loop state is unchanged |
| Strs.StrToLinesCorrectedMoves | prettyprinter/prettyprinter.py:1517-1531 | with the split point at least 1, the same state emits the part's first character |
| Strs.FloorUnreachedForPositiveMax | prettyprinter/prettyprinter.py:1493-1535 | for a positive `max_len` the corrected step equals the step as written |
| Strs.StepKeepsText | prettyprinter/prettyprinter.py:1479-1535 | each loop step keeps "lines so far plus what remains" equal to the input and emits only non-empty lines |
| Strs.LineStep | prettyprinter/prettyprinter.py:1508-1531 | one iteration of `str_to_lines`' loop; its contract is carried by Strs.StepKeepsText, Strs.StrToLinesStuck and Strs.StrToLinesCorrectedMoves |
| Strs.RunLines | prettyprinter/prettyprinter.py:1473-1538 | the lines still to be yielded concatenate to what remains, and none is empty |
| Strs.StrToLines | prettyprinter/prettyprinter.py:1438-1538 | `str_to_lines` yields only non-empty lines whose concatenation is the input |
| Strs.StrToLinesLoop | prettyprinter/prettyprinter.py:1438-1538 | the imperative loop yields exactly the recursive definition's lines |
| Stdlib.KeepToLastNonZero | prettyprinter/pretty_stdlib.py:64-69 | the kept fields are a prefix ending in a non-zero value; every dropped field is zero |
| Stdlib.KeptArgs | prettyprinter/pretty_stdlib.py:63-76 | kept fields as keywords, then extras: each kept field keeps its name and value in order, the last kept one is non-zero, every dropped one is zero, and the extras follow unchanged |
| Stdlib.PrettyDateTime | prettyprinter/pretty_stdlib.py:50-89 | a positional call carries exactly year, month and day; a keyword call never has exactly three arguments, and its keywords are the fields from year down to the smallest non-zero unit, each with its own value, in that order, then `tzinfo` when set and `fold=1` when set |
| Stdlib.DateTimeKeepsDate | prettyprinter/pretty_stdlib.py:50-89 | year, month and day are always kept, plus every smaller unit down to the smallest non-zero one; the positional form is used exactly at midnight with no tzinfo and no fold |
| Stdlib.DateTimeLeadsWithDate | prettyprinter/pretty_stdlib.py:50-89 | a keyword call starts with `year`, `month` and `day` carrying the date's own values, and leaves room for the tzinfo and fold keywords after them |
| Stdlib.PrettyTime | prettyprinter/pretty_stdlib.py:142-171 | at most six keywords; the keywords are the units from hour down to the smallest non-zero one, each with its own value, in that order, then `tzinfo` when set and `fold` when non-zero; without tzinfo or fold the last keyword is non-zero |
| Stdlib.TimeKeywords | prettyprinter/pretty_stdlib.py:143-150 | an all-zero time gets no keywords; the dropped units are exactly the trailing zero ones; a non-zero microsecond shows hour, minute, second and microsecond in that order before the extras |
| Stdlib.Decompose | prettyprinter/pretty_stdlib.py:191-197 | hours < 24, minutes < 60, seconds < 60, milliseconds < 1000 and microseconds < 1000, and the components recombine to the total |
| Stdlib.NonZero | prettyprinter/pretty_stdlib.py:208-212 | only non-zero components are kept, and every non-zero component is kept |
| Stdlib.NonZeroInOrder | prettyprinter/pretty_stdlib.py:208-212 | the kept components are exactly those at the increasing positions of the non-zero ones: a subsequence in the original order |
| Stdlib.NonZeroValue | prettyprinter/pretty_stdlib.py:208-212 | dropping zero components does not change the value the keywords stand for |
| Stdlib.AttrsValue | prettyprinter/pretty_stdlib.py:199-206 | the six keywords stand for exactly the decomposed total |
| Stdlib.WithYears | prettyprinter/pretty_stdlib.py:214-237 | days may be rewritten as years·365 + days, only in the first keyword, with years >= 1 and the rest < 365; each keyword keeps its value |
| Stdlib.PrettyTimedelta | prettyprinter/pretty_stdlib.py:184-250 | at depth 0 the arguments are elided; otherwise the call is negated exactly for a negative delta, and its keywords are the non-zero components of the absolute delta among days, hours, minutes, seconds, milliseconds and microseconds, in that order, each with its value |
| Stdlib.TimedeltaRoundTrip | prettyprinter/pretty_stdlib.py:184-250 | the keywords, negated when the call is, add up to the original delta in microseconds |

## Left out

- Colour output (`color.py`) is left out: it depends on foreign libraries and terminal escape codes.
- Stream and stdout I/O, display hooks and terminal-size detection (`__init__.py`, `extras/`) are left out, and so are all third-party printers.
- `escape_str_for_quote` and `highlight_escapes` depend on Python's `repr` and on regexes, so `escaped_len` is an uninterpreted parameter.
- The regex `\W` class is a parameter, and `\s` is Python's `str.isspace` on single characters. Bytes values are treated like strings.
- `commentdoc`'s body splits comment text with a regex, so the body is a parameter. Its `ValueError` for empty comment text is not modelled.
- `pretty_float` and the float `ribbon_frac` product are left out. `Layout.RibbonWidth` takes the already rounded product as an integer.
- Contextual nodes hold only the `align` evaluator; `hang` is `align` of a Nest.
  - `pretty_str`'s general evaluator is left out: an arbitrary closure would break the termination argument of the layout loop.
  - `pretty_str` itself is not modelled beyond `str_to_lines` and `determine_quote_strategy`.
- The layout model normalises both branches of a FlatChoice, which is the corrected behaviour of `NormalizeChecked.ReadFlat`. As written, a FlatChoice's flat branch stays un-normalised when it is read before the broken branch (see "## Findings"), so layouts of FlatChoice documents whose flat branch changes under normalisation can differ from the source's. `NormalizeChecked.AsWrittenAgrees` is stated for FlatChoice-free documents for the same reason.
- `_run_pretty`'s `inspect.signature` fallback and its warnings are left out.
- The layout of `align` over a bare string is not an error in the layout model: the layout functions do not re-check constructibility, so such a document is excluded only by `DocBuild.Constructible`.
- `general_identifier`'s module introspection is left out: a function's name is given as a Doc.
- `singledispatch` internals are replaced by an MRO table: a type's MRO is a sequence of type ids. A printer is an opaque tag.
- `pretty_call_alt` is not part of this model, and the Doc the timedelta printer builds below the depth limit (`group(build_fncall(...))`, with `NEG_OP` in front for a negative delta) is not modelled. The datetime, time and timedelta printers return their argument lists, not Docs.
  - A timedelta at depth 0 returns `Elided`.
  - The delta is given in microseconds.
  - `tzinfo` is an opaque id.
- `Containers.PrettyIterable` and `Containers.PrettyDict` report a negative `max_seq_len` as an error. In the source it leads to endless recursion or a failing slice.
- `Containers.SortByRank` models `_AlwaysSortable` as an integer rank per key. Its contract states sortedness and permutation, not the stability of Python's sort.
- The dict printer's str-key printer is reached through the value printer `pp`, called with the parens strategy.
- `utils.take` is not part of this model: it is imported by `prettyprinter.py` but not defined in `utils.py`. `Utils.Take` models it as a prefix.
- `Compose.PrettyCall` states only the depth and no-argument cases in its own contract. The one-argument cases are stated by `Compose.PrettyCallHugsSoleContainer` and `Compose.PrettyCallNestsScalars`, and every other case by `Compose.PrettyCallNestsArgs`.
- `Containers.PrettyDict` states only the depth and error cases in its own contract. The entry selection is stated by `Containers.DictShowsEntries` and `Containers.DictPairsInOrder`, and the break rule by `Containers.DictBreakRule`.
- The fitting predicates receive the lookahead budget as columns left. Only the `SAnnotationPush`/`SAnnotationPop` frames that appear on a copied stack are modelled, as pending pops.
- Other printers (`pretty_frozenset`, `pretty_type`, `pretty_int`, `pretty_str` layout and so on) are left out.

## Findings

| source | as written | input that shows it | evidently intended | confidence | as-written member | corrected member |
|---|---|---|---|---|---|---|
| prettyprinter/doctypes.py:71-72 | `Concat.normalize` returns its sole remaining child, which may be a bare `str`. `Nest.normalize` and `Group.normalize` then rebuild their node around it, and the constructor asserts `isinstance(doc, Doc)` (doctypes.py:89-91, 189, 211) | `nest(4, concat(['x']))`, normalised | normalisation succeeds and gives `Nest(4, 'x')` | not executed | NormalizeChecked.NestOfSoleStringFails | DocTypes.NormalizeNormalForm |
| prettyprinter/prettyprinter.py:1517-1531 | when a part does not fit and the line is empty, `str_to_lines` splits at `max(max_len - line_len, 0)`. For `max_len <= 0` that yields an empty head and the loop state never changes | `str_to_lines(0, "'", 'a')`, with `escaped_len('a') = 1 > 0` | every step consumes at least one character: split at `max(remaining, 1)` | not executed | Strs.StrToLinesStuck | Strs.StrToLines |
| prettyprinter/doctypes.py:151-156 | the `when_flat` property normalises the flat branch only `if self._broken_normalized`, so a normalised FlatChoice whose flat branch is read first (by the fitting check of a Group, or in flat mode) hands it out raw | `flat_choice(NIL, concat(['a', HARDLINE, always_break('b')]))`, normalised, with the flat branch read first: raw it fits a one-column line, normalised it is an AlwaysBreak and does not | the condition tests `normalize_on_access`, as `when_broken` does | not executed | NormalizeChecked.FlatReadFirstStaysRaw | NormalizeChecked.CorrectedChoiceIsEager |
