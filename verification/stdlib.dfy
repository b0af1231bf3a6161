/** The field arithmetic of the standard-library printers in
    `prettyprinter/pretty_stdlib.py`: which keyword arguments `timedelta`,
    `datetime` and `time` values are printed with, and what values. The
    call documents themselves are built by `pretty_call_alt`, which is not
    part of this model; each printer here returns the arguments it would
    pass. */
module Stdlib {
  import opened Wrappers
  import Utils

  // ---------------------------------------------------------------------
  // Dropping trailing zero fields
  // ---------------------------------------------------------------------

  /** Fields listed from the largest unit to the smallest, cut after the
      last non-zero one: `reversed(dropwhile(is_zero, smallest_first))`. */
  function KeepToLastNonZero(fs: seq<(string, int)>): (r: seq<(string, int)>)
    ensures r <= fs
    ensures r == [] || r[|r| - 1].1 != 0
    ensures forall k :: |r| <= k < |fs| ==> fs[k].1 == 0
  {
    if fs == [] then []
    else if fs[|fs| - 1].1 == 0 then KeepToLastNonZero(fs[..|fs| - 1])
    else fs
  }

  /** An argument of a printed call: an integer, or a `tzinfo` object. */
  datatype Arg = IntArg(n: int) | TzArg(tz: nat)

  function AsArgs(fs: seq<(string, int)>): (r: seq<(string, Arg)>)
    ensures |r| == |fs|
    ensures forall k :: 0 <= k < |fs| ==> r[k] == (fs[k].0, IntArg(fs[k].1))
  {
    if fs == [] then [] else [(fs[0].0, IntArg(fs[0].1))] + AsArgs(fs[1..])
  }

  /** `kws` prints the fields `fs` down to the last non-zero one, each as
      an integer argument under its own name, followed by `extras`. */
  predicate KeptThenExtras(fs: seq<(string, int)>, extras: seq<(string, Arg)>, kws: seq<(string, Arg)>)
  {
    var n := |kws| - |extras|;
    && 0 <= n <= |fs|
    && (forall k :: 0 <= k < n ==> kws[k] == (fs[k].0, IntArg(fs[k].1)))
    && (forall k :: n <= k < |fs| ==> fs[k].1 == 0)
    && (n == 0 || fs[n - 1].1 != 0)
    && kws[n..] == extras
  }

  lemma KeptArgs(fs: seq<(string, int)>, extras: seq<(string, Arg)>)
    ensures KeptThenExtras(fs, extras, AsArgs(KeepToLastNonZero(fs)) + extras)
  {
    var kept := AsArgs(KeepToLastNonZero(fs));
    var kws := kept + extras;
    assert kws[|kept|..] == extras;
    assert forall k :: 0 <= k < |kept| ==> kws[k] == kept[k];
  }

  // ---------------------------------------------------------------------
  // datetime and time
  // ---------------------------------------------------------------------

  datatype DateTime = DateTime(year: int, month: int, day: int, hour: int, minute: int, second: int,
                               microsecond: int, tzinfo: Option<nat>, fold: int)

  /** How a value is printed: positional arguments or keyword arguments. */
  datatype CallArgs = Positional(args: seq<int>) | Keywords(kwargs: seq<(string, Arg)>)

  function DateTimeFields(dt: DateTime): seq<(string, int)>
  {
    [("year", dt.year), ("month", dt.month), ("day", dt.day), ("hour", dt.hour),
     ("minute", dt.minute), ("second", dt.second), ("microsecond", dt.microsecond)]
  }

  /** Appended after the fields: the time zone when there is one, and
      `fold=1` when the fold is set. */
  function DateTimeExtras(dt: DateTime): seq<(string, Arg)>
  {
    (if dt.tzinfo.Some? then [("tzinfo", TzArg(dt.tzinfo.value))] else []) +
    (if dt.fold != 0 then [("fold", IntArg(1))] else [])
  }

  /** `pretty_datetime(dt, ctx)`: the fields down to the smallest non-zero
      one, then zone and fold; exactly three keywords print positionally. */
  function PrettyDateTime(dt: DateTime): (r: CallArgs)
    ensures r.Positional? ==> r.args == [dt.year, dt.month, dt.day]
    ensures r.Keywords? ==> |r.kwargs| != 3
    ensures r.Keywords? ==> KeptThenExtras(DateTimeFields(dt), DateTimeExtras(dt), r.kwargs)
  {
    KeptArgs(DateTimeFields(dt), DateTimeExtras(dt));
    var kwargs := AsArgs(KeepToLastNonZero(DateTimeFields(dt))) + DateTimeExtras(dt);
    if |kwargs| == 3 then Positional([dt.year, dt.month, dt.day]) else Keywords(kwargs)
  }

  /** A real datetime has a month and a day of at least one, so it always
      keeps year, month and day, and every smaller unit down to the
      smallest non-zero one, largest first; it prints positionally exactly
      when its time is midnight and it has neither zone nor fold. */
  lemma DateTimeKeepsDate(dt: DateTime)
    requires dt.month >= 1 && dt.day >= 1
    ensures var kept := KeepToLastNonZero(DateTimeFields(dt));
            3 <= |kept| && kept <= DateTimeFields(dt) &&
            (forall k :: |kept| <= k < 7 ==> DateTimeFields(dt)[k].1 == 0) &&
            kept[|kept| - 1].1 != 0
    ensures PrettyDateTime(dt).Positional? <==>
              dt.hour == 0 && dt.minute == 0 && dt.second == 0 && dt.microsecond == 0 &&
              dt.tzinfo.None? && dt.fold == 0
  {
    var fs := DateTimeFields(dt);
    var kept := KeepToLastNonZero(fs);
    assert fs[2].1 == dt.day;
    assert fs[3].1 == dt.hour && fs[4].1 == dt.minute && fs[5].1 == dt.second && fs[6].1 == dt.microsecond;
    if |kept| > 3 {
      assert kept[|kept| - 1] == fs[|kept| - 1];
    }
    var midnight := dt.hour == 0 && dt.minute == 0 && dt.second == 0 && dt.microsecond == 0;
    assert |kept| == 3 <==> midnight;
    assert |DateTimeExtras(dt)| == (if dt.tzinfo.Some? then 1 else 0) + (if dt.fold != 0 then 1 else 0);
  }

  /** A keyword-printed datetime starts with year, month and day. */
  lemma DateTimeLeadsWithDate(dt: DateTime)
    requires dt.month >= 1 && dt.day >= 1
    ensures PrettyDateTime(dt).Keywords? ==>
              var kws := PrettyDateTime(dt).kwargs;
              |kws| >= 3 + |DateTimeExtras(dt)| &&
              kws[..3] == [("year", IntArg(dt.year)), ("month", IntArg(dt.month)), ("day", IntArg(dt.day))]
  {
    var r := PrettyDateTime(dt);
    if r.Keywords? {
      var fs := DateTimeFields(dt);
      var n := |r.kwargs| - |DateTimeExtras(dt)|;
      assert fs[2].1 == dt.day;
      assert n >= 3;
      assert r.kwargs[0] == (fs[0].0, IntArg(fs[0].1));
      assert r.kwargs[1] == (fs[1].0, IntArg(fs[1].1));
      assert r.kwargs[2] == (fs[2].0, IntArg(fs[2].1));
    }
  }

  datatype Time = Time(hour: int, minute: int, second: int, microsecond: int, tzinfo: Option<nat>, fold: int)

  function TimeFields(t: Time): seq<(string, int)>
  {
    [("hour", t.hour), ("minute", t.minute), ("second", t.second), ("microsecond", t.microsecond)]
  }

  /** Appended after the fields: the time zone when there is one, and the
      fold value itself when it is not zero. */
  function TimeExtras(t: Time): seq<(string, Arg)>
  {
    (if t.tzinfo.Some? then [("tzinfo", TzArg(t.tzinfo.value))] else []) +
    (if t.fold != 0 then [("fold", IntArg(t.fold))] else [])
  }

  /** `pretty_time(value, ctx)`: the fields down to the smallest non-zero
      one, then the zone and the fold value when set. */
  function PrettyTime(t: Time): (r: seq<(string, Arg)>)
    ensures |r| <= 6
    ensures t.tzinfo.None? && t.fold == 0 ==> r == [] || (r[|r| - 1].1.IntArg? && r[|r| - 1].1.n != 0)
    ensures KeptThenExtras(TimeFields(t), TimeExtras(t), r)
  {
    KeptArgs(TimeFields(t), TimeExtras(t));
    AsArgs(KeepToLastNonZero(TimeFields(t))) + TimeExtras(t)
  }

  /** Midnight without zone or fold is printed with no keywords at all; and
      a time keeps exactly the units down to its smallest non-zero one. */
  lemma TimeKeywords(t: Time)
    ensures t.hour == 0 && t.minute == 0 && t.second == 0 && t.microsecond == 0 && t.tzinfo.None? && t.fold == 0 ==>
              PrettyTime(t) == []
    ensures var kept := KeepToLastNonZero(TimeFields(t));
            (forall k :: |kept| <= k < 4 ==> TimeFields(t)[k].1 == 0) &&
            (kept == [] || kept[|kept| - 1].1 != 0)
    ensures t.microsecond != 0 ==>
              PrettyTime(t) == [("hour", IntArg(t.hour)), ("minute", IntArg(t.minute)), ("second", IntArg(t.second)),
                                ("microsecond", IntArg(t.microsecond))] + TimeExtras(t)
  {
    var fs := TimeFields(t);
    if t.hour == 0 && t.minute == 0 && t.second == 0 && t.microsecond == 0 {
      assert KeepToLastNonZero(fs) == KeepToLastNonZero(fs[..3]);
      assert fs[..3][..2] == fs[..2];
      assert fs[..2][..1] == fs[..1];
      assert fs[..1][..0] == [];
    }
  }

  // ---------------------------------------------------------------------
  // timedelta
  // ---------------------------------------------------------------------

  const MICROS_PER_DAY: int := 86_400_000_000

  /** The six displayed components of a non-negative duration. */
  datatype Components = Components(days: nat, hours: nat, minutes: nat, seconds: nat, milliseconds: nat, microseconds: nat)

  /** A duration of `total` microseconds as `timedelta` normalises it
      (days, seconds below a day, microseconds below a second), then the
      `divmod` chain of `pretty_timedelta`. */
  function Decompose(total: nat): (c: Components)
    ensures c.hours < 24 && c.minutes < 60 && c.seconds < 60 && c.milliseconds < 1000 && c.microseconds < 1000
    ensures Micros(c) == total
  {
    var days, rem := total / MICROS_PER_DAY, total % MICROS_PER_DAY;
    var secs, us := rem / 1_000_000, rem % 1_000_000;
    var minutes, seconds := secs / 60, secs % 60;
    var hours, mins := minutes / 60, minutes % 60;
    var ms, micros := us / 1000, us % 1000;
    assert total == days * MICROS_PER_DAY + rem;
    assert rem == secs * 1_000_000 + us;
    assert secs == minutes * 60 + seconds;
    assert minutes == hours * 60 + mins;
    assert us == ms * 1000 + micros;
    assert secs < 86_400;
    Components(days, hours, mins, seconds, ms, micros)
  }

  /** The microseconds a set of components stands for. */
  function Micros(c: Components): int
  {
    c.days * MICROS_PER_DAY + c.hours * 3_600_000_000 + c.minutes * 60_000_000 + c.seconds * 1_000_000 +
    c.milliseconds * 1000 + c.microseconds
  }

  /** The value of the `days` keyword: a number, or `years * 365 + days`
      with the multiplication left out for a single year and the addition
      for no remaining days. */
  datatype DaysValue = Days(n: int) | YearsAndDays(years: nat, rest: nat)

  function DaysOf(v: DaysValue): int
  {
    match v
    case Days(n) => n
    case YearsAndDays(y, r) => y * 365 + r
  }

  /** A keyword of the printed call with the microseconds one unit stands
      for. */
  function Unit(name: string): int
  {
    if name == "days" then MICROS_PER_DAY
    else if name == "hours" then 3_600_000_000
    else if name == "minutes" then 60_000_000
    else if name == "seconds" then 1_000_000
    else if name == "milliseconds" then 1000
    else 1
  }

  datatype TimedeltaArgs =
    | Elided                                                     // `timedelta(...)` at the depth limit
    | Call(negative: bool, kwargs: seq<(string, DaysValue)>)

  /** The non-zero attributes, in their given order. */
  function NonZero(attrs: seq<(string, int)>): (r: seq<(string, int)>)
    ensures forall k :: 0 <= k < |r| ==> r[k].1 != 0 && r[k] in attrs
    ensures forall k :: 0 <= k < |attrs| && attrs[k].1 != 0 ==> attrs[k] in r
    ensures |r| <= |attrs|
    decreases attrs
  {
    if attrs == [] then []
    else
      var rest := NonZero(attrs[1..]);
      var r := (if attrs[0].1 != 0 then [attrs[0]] else []) + rest;
      assert forall k :: 0 <= k < |rest| ==> rest[k] in r;
      assert forall k :: 1 <= k < |attrs| ==> attrs[k] == attrs[1..][k - 1];
      r
  }

  predicate IsNonZero(a: (string, int))
  {
    a.1 != 0
  }

  /** `NonZero` keeps exactly the attributes at the non-zero positions, in
      order: a subsequence of its input. */
  lemma {:induction false} NonZeroInOrder(attrs: seq<(string, int)>)
    ensures var idx := Utils.Positions(IsNonZero, attrs);
            var r := NonZero(attrs);
            |r| == |idx| && forall i :: 0 <= i < |r| ==> r[i] == attrs[idx[i]]
    decreases attrs
  {
    if attrs != [] {
      NonZeroInOrder(attrs[1..]);
      InOrderStep(attrs, Utils.Positions(IsNonZero, attrs[1..]), NonZero(attrs[1..]));
    }
  }

  lemma InOrderStep(attrs: seq<(string, int)>, rest: seq<nat>, r: seq<(string, int)>)
    requires attrs != []
    requires |r| == |rest| && forall i :: 0 <= i < |r| ==> rest[i] < |attrs| - 1 && r[i] == attrs[1..][rest[i]]
    ensures var idx := (if attrs[0].1 != 0 then [0] else []) + Utils.Shift(rest);
            var r' := (if attrs[0].1 != 0 then [attrs[0]] else []) + r;
            |r'| == |idx| && forall i :: 0 <= i < |r'| ==> idx[i] < |attrs| && r'[i] == attrs[idx[i]]
  {
  }

  /** The keyword names of `timedelta`, largest unit first. */
  const UNIT_NAMES: seq<string> := ["days", "hours", "minutes", "seconds", "milliseconds", "microseconds"]

  /** The attributes in their fixed order. */
  function Attrs(c: Components): (r: seq<(string, int)>)
    ensures |r| == 6 && forall k :: 0 <= k < 6 ==> r[k].0 == UNIT_NAMES[k]
  {
    [("days", c.days), ("hours", c.hours), ("minutes", c.minutes), ("seconds", c.seconds),
     ("milliseconds", c.milliseconds), ("microseconds", c.microseconds)]
  }

  /** Rewrites a leading `days` keyword as whole years of 365 days plus
      the rest when there is at least one year. */
  function WithYears(kws: seq<(string, int)>): (r: seq<(string, DaysValue)>)
    ensures |r| == |kws|
    ensures forall k :: 0 <= k < |kws| ==> r[k].0 == kws[k].0 && DaysOf(r[k].1) == kws[k].1
    ensures forall k :: 0 <= k < |r| && r[k].1.YearsAndDays? ==>
              k == 0 && r[k].1.years >= 1 && r[k].1.rest < 365
  {
    var plain := seq(|kws|, k requires 0 <= k < |kws| => (kws[k].0, Days(kws[k].1)));
    if kws != [] && kws[0].0 == "days" && kws[0].1 / 365 != 0 && kws[0].1 >= 0 then
      plain[0 := ("days", YearsAndDays(kws[0].1 / 365, kws[0].1 % 365))]
    else plain
  }

  /** `pretty_timedelta(delta, ctx)` for a duration of `total`
      microseconds: the absolute value's non-zero components in a fixed
      order, the days possibly as years, and a leading minus sign for a
      negative duration. */
  function PrettyTimedelta(depthLeft: int, total: int): (r: TimedeltaArgs)
    ensures r.Elided? <==> depthLeft == 0
    ensures r.Call? ==> (r.negative <==> total < 0)
    ensures r.Call? ==> forall k :: 0 <= k < |r.kwargs| ==> DaysOf(r.kwargs[k].1) != 0
    ensures r.Call? ==>
              var c := Decompose(if total < 0 then -total else total);
              var idx := Utils.Positions(IsNonZero, Attrs(c));
              |r.kwargs| == |idx| &&
              forall i :: 0 <= i < |idx| ==>
                r.kwargs[i].0 == UNIT_NAMES[idx[i]] && DaysOf(r.kwargs[i].1) == Attrs(c)[idx[i]].1
  {
    if depthLeft == 0 then Elided
    else
      var c := Decompose(if total < 0 then -total else total);
      var a := Attrs(c);
      KwargsInOrder(a);
      Call(total < 0, WithYears(NonZero(a)))
  }

  /** The printed keywords name the non-zero attributes, in their fixed
      order, each with its value. */
  lemma KwargsInOrder(a: seq<(string, int)>)
    requires |a| == 6 && forall k :: 0 <= k < 6 ==> a[k].0 == UNIT_NAMES[k]
    ensures forall k :: 0 <= k < |WithYears(NonZero(a))| ==> DaysOf(WithYears(NonZero(a))[k].1) != 0
    ensures var idx := Utils.Positions(IsNonZero, a);
            var kws := WithYears(NonZero(a));
            |kws| == |idx| &&
            forall i :: 0 <= i < |idx| ==> kws[i].0 == UNIT_NAMES[idx[i]] && DaysOf(kws[i].1) == a[idx[i]].1
  {
    NonZeroInOrder(a);
  }

  /** The microseconds the printed keywords stand for. */
  function Value(kws: seq<(string, DaysValue)>): int
  {
    if kws == [] then 0 else Unit(kws[0].0) * DaysOf(kws[0].1) + Value(kws[1..])
  }

  function PlainValue(kws: seq<(string, int)>): int
  {
    if kws == [] then 0 else Unit(kws[0].0) * kws[0].1 + PlainValue(kws[1..])
  }

  lemma {:induction false} NonZeroValue(attrs: seq<(string, int)>)
    ensures PlainValue(NonZero(attrs)) == PlainValue(attrs)
    decreases attrs
  {
    if attrs != [] {
      NonZeroValue(attrs[1..]);
      if attrs[0].1 != 0 {
        assert NonZero(attrs) == [attrs[0]] + NonZero(attrs[1..]);
        assert ([attrs[0]] + NonZero(attrs[1..]))[1..] == NonZero(attrs[1..]);
      } else {
        assert NonZero(attrs) == NonZero(attrs[1..]);
      }
    }
  }

  lemma {:induction false} WithYearsValue(kws: seq<(string, int)>, r: seq<(string, DaysValue)>)
    requires |r| == |kws|
    requires forall k :: 0 <= k < |kws| ==> r[k].0 == kws[k].0 && DaysOf(r[k].1) == kws[k].1
    ensures Value(r) == PlainValue(kws)
    decreases kws
  {
    if kws != [] {
      WithYearsValue(kws[1..], r[1..]);
    }
  }

  lemma AttrsValue(c: Components)
    ensures PlainValue(Attrs(c)) == Micros(c)
  {
    var a := Attrs(c);
    assert PlainValue(a[5..]) == c.microseconds + PlainValue([]);
    assert PlainValue(a[4..]) == 1000 * c.milliseconds + PlainValue(a[5..]);
    assert PlainValue(a[3..]) == 1_000_000 * c.seconds + PlainValue(a[4..]);
    assert PlainValue(a[2..]) == 60_000_000 * c.minutes + PlainValue(a[3..]);
    assert PlainValue(a[1..]) == 3_600_000_000 * c.hours + PlainValue(a[2..]);
    assert PlainValue(a) == MICROS_PER_DAY * c.days + PlainValue(a[1..]);
  }

  /** The printed keywords, with the sign, give back the duration. */
  lemma TimedeltaRoundTrip(depthLeft: int, total: int)
    requires depthLeft != 0
    ensures var r := PrettyTimedelta(depthLeft, total);
            (if r.negative then -Value(r.kwargs) else Value(r.kwargs)) == total
  {
    var c := Decompose(if total < 0 then -total else total);
    var nz := NonZero(Attrs(c));
    NonZeroValue(Attrs(c));
    AttrsValue(c);
    WithYearsValue(nz, WithYears(nz));
  }
}
