/** `PrettyContext` and the cycle guard `_run_pretty` of
    `prettyprinter/prettyprinter.py`. A context is an immutable record that
    every change copies; its `visited` set is the one mutable part, shared by
    every context derived from the same root, so it is modelled as state
    threaded through the calls beside the context rather than as a field. */
module Context {
  import opened Wrappers
  import opened DocTypes
  import opened Values
  import Utils

  /** The `MULTILINE_STATEGY_*` constants. */
  datatype Strategy = Parens | Indented | Hang | Plain

  datatype Ctx = Ctx(
    indent: int,
    depthLeft: int,
    strategy: Strategy,
    maxSeqLen: int,
    sortDictKeys: bool,
    userCtx: map<string, PyValue>)

  /** Ids of the values being printed further up the call stack. */
  type Visited = set<nat>

  /** `PrettyContext(indent, depth_left)` with the defaults: plain strategy,
      at most 1000 elements per container, unsorted dict keys, an empty user
      context and a fresh empty visited set. */
  function NewContext(indent: int, depthLeft: int): (r: (Ctx, Visited))
    ensures r.0.indent == indent && r.0.depthLeft == depthLeft
    ensures r.0.strategy == Plain && r.0.maxSeqLen == 1000 && !r.0.sortDictKeys
    ensures r.0.userCtx == map[] && r.1 == {}
  {
    (Ctx(indent, depthLeft, Plain, 1000, false, map[]), {})
  }

  /** `ctx.use_multiline_strategy(strategy)`. */
  function UseMultilineStrategy(ctx: Ctx, s: Strategy): (r: Ctx)
    ensures r.strategy == s
    ensures r.(strategy := ctx.strategy) == ctx
  {
    ctx.(strategy := s)
  }

  /** `ctx.assoc(key, value)`: a copy whose user context maps `key` to
      `value`. */
  function Assoc(ctx: Ctx, key: string, value: PyValue): (r: Ctx)
    ensures r.userCtx.Keys == ctx.userCtx.Keys + {key}
    ensures r.(userCtx := ctx.userCtx) == ctx
  {
    ctx.(userCtx := ctx.userCtx[key := value])
  }

  /** `ctx.get(key, default)`. */
  function Get(ctx: Ctx, key: string, default: PyValue): (r: PyValue)
    ensures key !in ctx.userCtx ==> r == default
    ensures key in ctx.userCtx ==> r == ctx.userCtx[key]
  {
    if key in ctx.userCtx then ctx.userCtx[key] else default
  }

  /** Reading back what `assoc` stored, and nothing else disturbed. */
  lemma GetAfterAssoc(ctx: Ctx, key: string, value: PyValue, other: string, default: PyValue)
    ensures Get(Assoc(ctx, key, value), key, default) == value
    ensures other != key ==> Get(Assoc(ctx, key, value), other, default) == Get(ctx, other, default)
  {
  }

  /** `ctx.nested_call()`: one level less depth, every other field as it was
      (the visited set is not part of the copy: it is shared). */
  function NestedCall(ctx: Ctx): (r: Ctx)
    ensures r.depthLeft == ctx.depthLeft - 1
    ensures r.indent == ctx.indent && r.strategy == ctx.strategy && r.maxSeqLen == ctx.maxSeqLen
    ensures r.sortDictKeys == ctx.sortDictKeys && r.userCtx == ctx.userCtx
  {
    ctx.(depthLeft := ctx.depthLeft - 1)
  }

  /** `ctx.start_visit(value)`. */
  function StartVisit(visited: Visited, id: nat): (r: Visited)
    ensures id in r && r - {id} == visited - {id}
  {
    visited + {id}
  }

  datatype GuardError =
    | KeyNotVisited   // `set.remove` of an id that is no longer there
    | NotStrOrDoc     // the printer returned something other than a str or Doc

  /** `ctx.end_visit(value)`: `set.remove`, which raises for a missing id. */
  function EndVisit(visited: Visited, id: nat): (r: Result<Visited, GuardError>)
    ensures r.Success? <==> id in visited
    ensures r.Success? ==> id !in r.value && r.value + {id} == visited
  {
    if id in visited then Success(visited - {id}) else Failure(KeyNotVisited)
  }

  /** `_pretty_recursion(value)`: `<Recursion on T with id=N>`. */
  function RecursionPlaceholder(typeName: string, id: nat): (r: string)
    ensures var head := "<Recursion on " + typeName + " with id=";
            head < r && r[|r| - 1] == '>' && |head| < |r| - 1 &&
            (forall i :: |head| <= i < |r| - 1 ==> Utils.IsDigit(r[i])) &&
            Utils.DecimalValue(r[|head|..|r| - 1]) == id
  {
    var head := "<Recursion on " + typeName + " with id=";
    var digits := Utils.NatToString(id);
    var r := head + digits + ">";
    assert r[|head|..|r| - 1] == digits;
    r
  }

  /** What a printer function produced: a Doc (a `str` is `Text`) or some
      other Python object. */
  datatype Printed = PrintedDoc(doc: Doc) | PrintedOther

  /** A printer, given the trailing comment and the visited set in force
      during its call, returns what it printed and the visited set after its
      own nested calls. */
  type Printer = (Option<string>, Visited) -> (Printed, Visited)

  /** The trailing comment a printer is called with: `_run_pretty` passes
      it only when it is truthy, so an empty comment reaches the printer as
      no comment at all. */
  function PassedComment(trailing: Option<string>): (c: Option<string>)
    ensures c.Some? <==> trailing.Some? && trailing.value != ""
    ensures c.Some? ==> c == trailing
  {
    if trailing.Some? && trailing.value != "" then trailing else None
  }

  /** `_run_pretty(pretty_fn, value, ctx, trailing_comment)` for a value with
      id `id` and type name `typeName`. An id already being visited yields
      the recursion placeholder without calling the printer; otherwise the
      id is added for the duration of the call and removed afterwards. A
      non-Doc result raises before the id is removed. */
  function RunPretty(printer: Printer, id: nat, typeName: string, trailing: Option<string>, visited: Visited)
    : (r: (Result<Doc, GuardError>, Visited))
    ensures id in visited ==> r == (Success(Text(RecursionPlaceholder(typeName, id))), visited)
    ensures id !in visited ==>
              var (p, after) := printer(PassedComment(trailing), StartVisit(visited, id));
              (p.PrintedOther? ==> r == (Failure(NotStrOrDoc), after)) &&
              (p.PrintedDoc? && id in after ==> r == (Success(p.doc), after - {id})) &&
              (p.PrintedDoc? && id !in after ==> r.0 == Failure(KeyNotVisited))
  {
    if id in visited then
      (Success(Text(RecursionPlaceholder(typeName, id))), visited)
    else
      var (p, after) := printer(PassedComment(trailing), StartVisit(visited, id));
      match p
      case PrintedOther => (Failure(NotStrOrDoc), after)
      case PrintedDoc(doc) =>
        match EndVisit(after, id)
        case Success(v) => (Success(doc), v)
        case Failure(e) => (Failure(e), after)
  }

  /** A printer that leaves the visited set as it found it leaves it so
      through the guard too: the guard restores the caller's set. */
  lemma RunPrettyRestoresVisited(printer: Printer, id: nat, typeName: string, trailing: Option<string>, visited: Visited)
    requires id !in visited
    requires printer(PassedComment(trailing), StartVisit(visited, id)).1 == StartVisit(visited, id)
    requires printer(PassedComment(trailing), StartVisit(visited, id)).0.PrintedDoc?
    ensures RunPretty(printer, id, typeName, trailing, visited) ==
              (Success(printer(PassedComment(trailing), StartVisit(visited, id)).0.doc), visited)
  {
    assert StartVisit(visited, id) - {id} == visited;
  }

  /** Inside the printer's call, any nested attempt to print the same value
      gets the placeholder, whatever printer it would use: this is how a
      self-containing dict prints `<Recursion on dict with id=N>`. */
  lemma ReentryGetsPlaceholder(id: nat, typeName: string, visited: Visited, inner: Printer, trailing: Option<string>)
    ensures RunPretty(inner, id, typeName, trailing, StartVisit(visited, id)).0 ==
              Success(Text(RecursionPlaceholder(typeName, id)))
  {
  }

  /** An empty trailing comment is the same as none: the printer never
      sees it. */
  lemma EmptyCommentIsNoComment(printer: Printer, id: nat, typeName: string, visited: Visited)
    ensures RunPretty(printer, id, typeName, Some(""), visited) ==
              RunPretty(printer, id, typeName, None, visited)
  {
  }
}
