/** The sequence helpers of `prettyprinter/utils.py`, plus the decimal
    formatting the printers use through `str.format`. */
module Utils {

  /** `intersperse(x, ys)`: the elements of `ys` in order, with `x` between
      each neighbouring pair. */
  function Intersperse<T>(x: T, ys: seq<T>): (r: seq<T>)
    ensures |ys| == 0 ==> r == []
    ensures |ys| >= 1 ==> |r| == 2 * |ys| - 1
    ensures forall i :: 0 <= i < |ys| ==> r[2 * i] == ys[i]
    ensures forall j :: 0 <= j < |r| && j % 2 == 1 ==> r[j] == x
  {
    if |ys| == 0 then []
    else if |ys| == 1 then [ys[0]]
    else [ys[0], x] + Intersperse(x, ys[1..])
  }

  /** Index of the first element satisfying `p`, or `|xs|` if there is none. */
  function FirstIndex<T>(p: T -> bool, xs: seq<T>): (k: nat)
    ensures k <= |xs|
    ensures k < |xs| ==> p(xs[k])
    ensures forall j :: 0 <= j < k ==> !p(xs[j])
  {
    if |xs| == 0 then 0
    else if p(xs[0]) then 0
    else 1 + FirstIndex(p, xs[1..])
  }

  /** `find(predicate, iterable, default)`: the first element satisfying the
      predicate, or `default` when none does. */
  function Find<T>(p: T -> bool, xs: seq<T>, default: T): (r: T)
    ensures (forall i :: 0 <= i < |xs| ==> !p(xs[i])) ==> r == default
    ensures (exists i :: 0 <= i < |xs| && p(xs[i])) ==>
              exists k :: 0 <= k < |xs| && p(xs[k]) && r == xs[k] &&
                (forall j :: 0 <= j < k ==> !p(xs[j]))
  {
    var k := FirstIndex(p, xs);
    if k < |xs| then xs[k] else default
  }

  /** `rfind_idx(predicate, seq)`: walks the sequence from its end and returns
      the index of the last element satisfying the predicate, or -1. */
  method RFindIdx<T>(p: T -> bool, xs: seq<T>) returns (r: int)
    ensures -1 <= r < |xs|
    ensures r == -1 <==> forall i :: 0 <= i < |xs| ==> !p(xs[i])
    ensures r >= 0 ==> p(xs[r]) && forall j :: r < j < |xs| ==> !p(xs[j])
  {
    var length := |xs|;
    var i := 0;
    while i < length
      invariant 0 <= i <= length
      invariant forall j :: length - i <= j < length ==> !p(xs[j])
    {
      if p(xs[length - i - 1]) {
        return length - i - 1;
      }
      i := i + 1;
    }
    return -1;
  }

  /** The positions of the elements satisfying `p`, in increasing order. */
  function Positions<T>(p: T -> bool, xs: seq<T>): (idx: seq<nat>)
    ensures PositionsOf(p, xs, idx)
  {
    if xs == [] then []
    else
      var rest := Positions(p, xs[1..]);
      var idx := (if p(xs[0]) then [0] else []) + Shift(rest);
      PositionsStep(p, xs, rest, idx);
      idx
  }

  /** `idx` lists, in increasing order, exactly the positions of the
      elements of `xs` that satisfy `p`. */
  predicate PositionsOf<T>(p: T -> bool, xs: seq<T>, idx: seq<nat>)
  {
    && (forall i :: 0 <= i < |idx| ==> idx[i] < |xs| && p(xs[idx[i]]))
    && (forall i, j :: 0 <= i < j < |idx| ==> idx[i] < idx[j])
    && (forall k :: 0 <= k < |xs| && p(xs[k]) ==> k in idx)
  }

  /** Every position moved one place on. */
  function Shift(xs: seq<nat>): (r: seq<nat>)
    ensures |r| == |xs| && forall i :: 0 <= i < |xs| ==> r[i] == xs[i] + 1
  {
    seq(|xs|, i requires 0 <= i < |xs| => xs[i] + 1)
  }

  lemma PositionsStep<T>(p: T -> bool, xs: seq<T>, rest: seq<nat>, idx: seq<nat>)
    requires xs != [] && PositionsOf(p, xs[1..], rest)
    requires idx == (if p(xs[0]) then [0] else []) + Shift(rest)
    ensures PositionsOf(p, xs, idx)
  {
    var h: seq<nat> := if p(xs[0]) then [0] else [];
    ShiftedTail(h, rest, idx);
    StepInRange(p, xs, rest, h, idx);
    StepIncreasing(rest, h, idx);
    StepCovers(p, xs, rest, h, idx);
  }

  lemma ShiftedTail(h: seq<nat>, rest: seq<nat>, idx: seq<nat>)
    requires idx == h + Shift(rest)
    ensures |idx| == |h| + |rest| && (h != [] ==> idx[0] == h[0])
    ensures forall i :: 0 <= i < |rest| ==> idx[|h| + i] == rest[i] + 1
  {
    var sh := Shift(rest);
    assert forall i :: 0 <= i < |sh| ==> idx[|h| + i] == sh[i];
  }

  lemma StepInRange<T>(p: T -> bool, xs: seq<T>, rest: seq<nat>, h: seq<nat>, idx: seq<nat>)
    requires xs != [] && h == (if p(xs[0]) then [0] else [])
    requires forall i :: 0 <= i < |rest| ==> rest[i] < |xs[1..]| && p(xs[1..][rest[i]])
    requires |idx| == |h| + |rest| && (h != [] ==> idx[0] == 0)
    requires forall i :: 0 <= i < |rest| ==> idx[|h| + i] == rest[i] + 1
    ensures forall i :: 0 <= i < |idx| ==> idx[i] < |xs| && p(xs[idx[i]])
  {
    forall i | 0 <= i < |idx|
      ensures idx[i] < |xs| && p(xs[idx[i]])
    {
      if i >= |h| {
        var j := i - |h|;
        assert idx[|h| + j] == rest[j] + 1;
        assert xs[1..][rest[j]] == xs[rest[j] + 1];
      }
    }
  }

  lemma StepIncreasing(rest: seq<nat>, h: seq<nat>, idx: seq<nat>)
    requires |h| <= 1 && |idx| == |h| + |rest| && (h != [] ==> idx[0] == 0)
    requires forall i, j :: 0 <= i < j < |rest| ==> rest[i] < rest[j]
    requires forall i :: 0 <= i < |rest| ==> idx[|h| + i] == rest[i] + 1
    ensures forall i, j :: 0 <= i < j < |idx| ==> idx[i] < idx[j]
  {
    forall i, j | 0 <= i < j < |idx|
      ensures idx[i] < idx[j]
    {
      assert idx[|h| + (j - |h|)] == rest[j - |h|] + 1;
      if i >= |h| {
        assert idx[|h| + (i - |h|)] == rest[i - |h|] + 1;
      }
    }
  }

  lemma StepCovers<T>(p: T -> bool, xs: seq<T>, rest: seq<nat>, h: seq<nat>, idx: seq<nat>)
    requires xs != [] && h == (if p(xs[0]) then [0] else [])
    requires forall k :: 0 <= k < |xs[1..]| && p(xs[1..][k]) ==> k in rest
    requires |idx| == |h| + |rest| && (h != [] ==> idx[0] == 0)
    requires forall i :: 0 <= i < |rest| ==> idx[|h| + i] == rest[i] + 1
    ensures forall k :: 0 <= k < |xs| && p(xs[k]) ==> k in idx
  {
    forall k | 0 <= k < |xs| && p(xs[k])
      ensures k in idx
    {
      if k == 0 {
        assert idx[0] == 0;
      } else {
        assert xs[1..][k - 1] == xs[k];
        var i :| 0 <= i < |rest| && rest[i] == k - 1;
        assert idx[|h| + i] == k;
      }
    }
  }

  /** Concatenation is associative. */
  lemma Assoc<T>(a: seq<T>, b: seq<T>, c: seq<T>)
    ensures (a + b) + c == a + (b + c)
  {
  }

  /** `identity(x)`. */
  function Identity<T>(x: T): (r: T)
    ensures r == x
  {
    x
  }

  /** `take(n, xs)`: the first `n` elements (all of them when there are fewer). */
  function Take<T>(n: nat, xs: seq<T>): (r: seq<T>)
    ensures |r| == if n <= |xs| then n else |xs|
    ensures forall i :: 0 <= i < |r| ==> r[i] == xs[i]
  {
    if n <= |xs| then xs[..n] else xs
  }

  function DigitChar(d: nat): (c: char)
    requires d < 10
    ensures IsDigit(c) && DigitValue(c) == d
  {
    ('0' as int + d) as char
  }

  predicate IsDigit(c: char)
  {
    '0' <= c <= '9'
  }

  function DigitValue(c: char): nat
    requires IsDigit(c)
  {
    c as int - '0' as int
  }

  /** The number a string of decimal digits denotes, most significant first. */
  function DecimalValue(s: string): nat
    requires forall i :: 0 <= i < |s| ==> IsDigit(s[i])
  {
    if s == [] then 0 else 10 * DecimalValue(s[..|s| - 1]) + DigitValue(s[|s| - 1])
  }

  /** Decimal text of a natural number, as `'{}'.format(n)` writes it: the
      digits denote `n`, and there is no leading zero but in "0" itself. */
  function NatToString(n: nat): (r: string)
    ensures |r| >= 1
    ensures forall i :: 0 <= i < |r| ==> IsDigit(r[i])
    ensures DecimalValue(r) == n
    ensures r[0] == '0' ==> r == "0"
    decreases n
  {
    if n < 10 then [DigitChar(n)]
    else
      var front := NatToString(n / 10);
      var r := front + [DigitChar(n % 10)];
      assert r[..|r| - 1] == front;
      assert r[0] == front[0];
      r
  }

  /** Decimal text of an integer, with a leading '-' when negative. */
  function IntToString(n: int): (r: string)
    ensures |r| >= 1
    ensures n < 0 <==> r[0] == '-'
  {
    if n < 0 then "-" + NatToString(-n) else NatToString(n)
  }
}
