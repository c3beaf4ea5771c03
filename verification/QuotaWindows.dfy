/** Quota windows and the "blocked until" computation (cmd/api/access.go).

  Times are whole nanoseconds since 1 January of year 1, 00:00 UTC, the zero time of Go; it was a Monday.
  The calendar is the proleptic Gregorian one.  What stored limits decode to is taken as given.
 */
module QuotaWindows {
  import opened Wrappers
  import Text

  const SECOND := 1_000_000_000
  const HOUR := 3600 * SECOND
  const DAY := 24 * HOUR
  const UNIX_EPOCH_DAY := 719162

  /** Any other kind, the empty one included, is treated as lifetime. */
  datatype Kind = Hour | Day | Week | Month | Rolling | Custom | Lifetime

  datatype Window = Window(start: int, reset: Option<int>)

  // ---------------------------------------------------------------- calendar

  predicate Leap(year: int) {
    year % 4 == 0 && (year % 100 != 0 || year % 400 == 0)
  }

  /** Months are numbered from January of year 1. */
  function DaysInMonth(n: nat): (d: nat)
    ensures 28 <= d <= 31
  {
    var m := n % 12 + 1;
    if m == 2 then (if Leap(n / 12 + 1) then 29 else 28)
    else if m == 4 || m == 6 || m == 9 || m == 11 then 30
    else 31
  }

  function MonthStart(n: nat): nat {
    if n == 0 then 0 else MonthStart(n - 1) + DaysInMonth(n - 1)
  }

  function MonthFrom(n: nat, day: nat): (m: nat)
    requires MonthStart(n) <= day
    ensures MonthStart(m) <= day < MonthStart(m + 1)
    decreases day - MonthStart(n)
  {
    if day < MonthStart(n + 1) then n else MonthFrom(n + 1, day)
  }

  /** Sunday is 0. */
  function Weekday(day: nat): nat { (day + 1) % 7 }

  lemma MonthLength(y: nat, m: nat)
    requires m < 12
    ensures MonthStart(12 * y + m + 1) == MonthStart(12 * y + m)
      + (if m == 1 then (if Leap(y + 1) then 29 else 28) else if m == 3 || m == 5 || m == 8 || m == 10 then 30 else 31)
  {
    var n := 12 * y + m;
    assert n % 12 == m && n / 12 == y;
    MonthStep(n);
    hide MonthStart, Leap;
  }

  lemma YearHasItsDays(y: nat)
    ensures MonthStart(12 * y + 12) == MonthStart(12 * y) + (if Leap(y + 1) then 366 else 365)
  {
    hide MonthStart, Leap;
    MonthLength(y, 0); MonthLength(y, 1); MonthLength(y, 2); MonthLength(y, 3);
    MonthLength(y, 4); MonthLength(y, 5); MonthLength(y, 6); MonthLength(y, 7);
    MonthLength(y, 8); MonthLength(y, 9); MonthLength(y, 10); MonthLength(y, 11);
  }

  lemma MonthStep(n: nat)
    ensures MonthStart(n + 1) == MonthStart(n) + DaysInMonth(n)
  {
  }

  /** The recursive calendar agrees with the closed formula for days before a year. */
  lemma {:induction false} YearStartFormula(y: nat)
    ensures MonthStart(12 * y) == 365 * y + y / 4 - y / 100 + y / 400
  {
    if y > 0 {
      YearStartFormula(y - 1);
      YearHasItsDays(y - 1);
      assert 12 * (y - 1) + 12 == 12 * y;
      LeapCount(y);
      hide MonthStart;
    }
  }

  lemma LeapCount(y: int)
    requires y > 0
    ensures y / 4 - y / 100 + y / 400 == (y - 1) / 4 - (y - 1) / 100 + (y - 1) / 400 + (if Leap(y) then 1 else 0)
  {
    StepDiv(y, 4);
    StepDiv(y, 100);
    StepDiv(y, 400);
    HundredsAreFours(y);
    LeapSum(y / 4, (y - 1) / 4, y / 100, (y - 1) / 100, y / 400, (y - 1) / 400, y % 4 == 0, y % 100 == 0, y % 400 == 0);
  }

  lemma HundredsAreFours(y: int)
    ensures (y % 100 == 0 ==> y % 4 == 0) && (y % 400 == 0 ==> y % 100 == 0)
  {
    if y % 100 == 0 { assert y == 4 * (25 * (y / 100)); }
    if y % 400 == 0 { assert y == 100 * (4 * (y / 400)); }
  }

  lemma LeapSum(a: int, a': int, b: int, b': int, c: int, c': int, by4: bool, by100: bool, by400: bool)
    requires (by100 ==> by4) && (by400 ==> by100)
    requires a == a' + (if by4 then 1 else 0) && b == b' + (if by100 then 1 else 0) &&
             c == c' + (if by400 then 1 else 0)
    ensures a - b + c == a' - b' + c' + (if by4 && (!by100 || by400) then 1 else 0)
  {
  }

  lemma StepDiv(y: int, k: int)
    requires y > 0 && (k == 4 || k == 100 || k == 400)
    ensures y / k == (y - 1) / k + (if y % k == 0 then 1 else 0)
  {
  }

  lemma UnixEpochDay()
    ensures MonthStart(12 * 1969) == UNIX_EPOCH_DAY
  {
    hide MonthStart;
    YearStartFormula(1969);
  }

  // ----------------------------------------------------------------- windows

  function AtLeastOne(count: int): (c: int)
    ensures c >= 1
  {
    if count <= 0 then 1 else count
  }

  /** A duration is a signed 64-bit count of nanoseconds. */
  function Wrap64(x: int): int {
    (x + 0x8000_0000_0000_0000) % 0x1_0000_0000_0000_0000 - 0x8000_0000_0000_0000
  }

  function RollingSpan(seconds: Option<int>): int {
    Wrap64((if seconds.Some? then seconds.value else 3600) * SECOND)
  }

  function QuotaWindowSpec(kind: Kind, count: int, seconds: Option<int>, now: nat): Window {
    var c := AtLeastOne(count);
    match kind
    case Hour =>
      var span := c * HOUR;
      var start := now - now % span;
      Window(start, Some(start + span))
    case Day =>
      var day := now / DAY;
      Window(day * DAY, Some((day + c) * DAY))
    case Week =>
      var day := now / DAY;
      var base := day - (Weekday(day) + 6) % 7;
      Window(base * DAY, Some((base + 7 * c) * DAY))
    case Month =>
      var n := MonthFrom(0, now / DAY);
      Window(MonthStart(n) * DAY, Some(MonthStart(n + c) * DAY))
    case Rolling =>
      Window(now - RollingSpan(seconds), Some(now + RollingSpan(seconds)))
    case Custom =>
      Window(now - RollingSpan(seconds), Some(now + RollingSpan(seconds)))
    case Lifetime =>
      Window(UNIX_EPOCH_DAY * DAY, None)
  }

  predicate Calendar(kind: Kind) {
    kind == Hour || kind == Day || kind == Week || kind == Month
  }

  predicate Slides(kind: Kind) { kind == Rolling || kind == Custom }

  /** The instants at which windows of a kind begin. */
  function Boundary(kind: Kind, count: int, n: nat): int
    requires Calendar(kind)
  {
    if kind == Hour then n * (AtLeastOne(count) * HOUR)
    else if kind == Day then n * DAY
    else if kind == Week then n * (7 * DAY)
    else MonthStart(n) * DAY
  }

  /** How many boundaries a window spans: the hour kind stretches its boundaries instead. */
  function Stride(kind: Kind, count: int): (k: nat)
    ensures k >= 1
  {
    if kind == Hour then 1 else AtLeastOne(count)
  }

  lemma {:induction false} MonthsIncrease(m: nat, n: nat)
    requires m < n
    ensures MonthStart(m) < MonthStart(n)
    decreases n
  {
    if m < n - 1 { MonthsIncrease(m, n - 1); }
  }

  lemma {:induction false} TimesIncrease(m: int, n: int, s: int)
    requires m < n && s > 0
    ensures m * s + s <= n * s
    decreases n - m
  {
    assert (m + 1) * s == m * s + s;
    if m + 1 < n { TimesIncrease(m + 1, n, s); }
  }

  lemma BoundariesIncrease(kind: Kind, count: int, m: nat, n: nat)
    requires Calendar(kind) && m < n
    ensures Boundary(kind, count, m) < Boundary(kind, count, n)
  {
    hide AtLeastOne, MonthStart;
    match kind
    case Hour =>
      var span := AtLeastOne(count) * HOUR;
      TimesIncrease(m, n, span);
    case Month => MonthsIncrease(m, n);
    case _ =>
  }

  lemma IndexIsUnique(kind: Kind, count: int, m: nat, n: nat, t: int)
    requires Calendar(kind)
    requires Boundary(kind, count, m) <= t < Boundary(kind, count, m + 1)
    requires Boundary(kind, count, n) <= t < Boundary(kind, count, n + 1)
    ensures m == n
  {
    hide Boundary;
    if m + 1 < n { BoundariesIncrease(kind, count, m + 1, n); }
    if n + 1 < m { BoundariesIncrease(kind, count, n + 1, m); }
  }

  lemma HourIndex(span: int, now: nat) returns (n: nat)
    requires span > 0
    ensures n * span <= now < (n + 1) * span && now - now % span == n * span &&
            now - now % span + span == (n + 1) * span
  {
    n := now / span;
    assert now == span * (now / span) + now % span;
    assert (n + 1) * span == n * span + span;
  }

  lemma WeekBase(day: nat)
    ensures day - (Weekday(day) + 6) % 7 == 7 * (day / 7)
  {
    assert (Weekday(day) + 6) % 7 == day % 7;
  }

  /** A calendar window runs from the boundary at or before now to the one Stride boundaries on. */
  predicate IsIndex(kind: Kind, count: int, seconds: Option<int>, now: nat, n: nat)
    requires Calendar(kind)
  {
    && Boundary(kind, count, n) <= now < Boundary(kind, count, n + 1)
    && QuotaWindowSpec(kind, count, seconds, now)
       == Window(Boundary(kind, count, n), Some(Boundary(kind, count, n + Stride(kind, count))))
  }

  lemma HourWindow(count: int, seconds: Option<int>, now: nat) returns (n: nat)
    ensures IsIndex(Hour, count, seconds, now, n)
  {
    n := HourIndex(AtLeastOne(count) * HOUR, now);
  }

  lemma DayWindow(count: int, seconds: Option<int>, now: nat) returns (n: nat)
    ensures IsIndex(Day, count, seconds, now, n)
  {
    n := now / DAY;
  }

  lemma WeekWindow(count: int, seconds: Option<int>, now: nat) returns (n: nat)
    ensures IsIndex(Week, count, seconds, now, n)
  {
    var day := now / DAY;
    n := day / 7;
    WeekBase(day);
    hide Weekday;
  }

  lemma MonthWindow(count: int, seconds: Option<int>, now: nat) returns (n: nat)
    ensures IsIndex(Month, count, seconds, now, n)
  {
    n := MonthFrom(0, now / DAY);
    hide MonthStart;
  }

  lemma WindowIndex(kind: Kind, count: int, seconds: Option<int>, now: nat) returns (n: nat)
    requires Calendar(kind)
    ensures IsIndex(kind, count, seconds, now, n)
  {
    hide IsIndex;
    match kind
    case Hour => n := HourWindow(count, seconds, now);
    case Day => n := DayWindow(count, seconds, now);
    case Week => n := WeekWindow(count, seconds, now);
    case Month => n := MonthWindow(count, seconds, now);
  }

  /** Calendar windows contain now, and the window at the reset starts at the reset. */
  lemma WindowsTile(kind: Kind, count: int, seconds: Option<int>, now: nat)
    requires Calendar(kind)
    ensures var w := QuotaWindowSpec(kind, count, seconds, now);
            && w.reset.Some? && w.start <= now < w.reset.value
            && QuotaWindowSpec(kind, count, seconds, w.reset.value).start == w.reset.value
  {
    var n := WindowIndex(kind, count, seconds, now);
    var k := Stride(kind, count);
    var w := QuotaWindowSpec(kind, count, seconds, now);
    BoundaryAhead(kind, count, n, k, now);
    var m := WindowIndex(kind, count, seconds, w.reset.value);
    BoundariesIncrease(kind, count, n + k, n + k + 1);
    hide Boundary, QuotaWindowSpec;
    IndexIsUnique(kind, count, m, n + k, w.reset.value);
  }

  lemma BoundaryAhead(kind: Kind, count: int, n: nat, k: nat, now: int)
    requires Calendar(kind) && k >= 1 && now < Boundary(kind, count, n + 1)
    ensures now < Boundary(kind, count, n + k)
  {
    if k > 1 { BoundariesIncrease(kind, count, n + 1, n + k); }
  }

  /** Start and reset never move back as time passes. */
  lemma WindowsAreMonotone(kind: Kind, count: int, seconds: Option<int>, now: nat, later: nat)
    requires now <= later
    ensures var w, v := QuotaWindowSpec(kind, count, seconds, now), QuotaWindowSpec(kind, count, seconds, later);
            && w.start <= v.start
            && (w.reset.None? <==> v.reset.None?) && (w.reset.Some? ==> w.reset.value <= v.reset.value)
  {
    if Calendar(kind) {
      var m := WindowIndex(kind, count, seconds, now);
      var n := WindowIndex(kind, count, seconds, later);
      var k := Stride(kind, count);
      hide Boundary, QuotaWindowSpec;
      if n + 1 < m { BoundariesIncrease(kind, count, n + 1, m); }
      if m < n {
        BoundariesIncrease(kind, count, m, n);
        BoundariesIncrease(kind, count, m + k, n + k);
      }
    }
  }

  /** Every instant of a window sees that same window. */
  ghost predicate Partitions(kind: Kind, count: int, seconds: Option<int>) {
    forall now: nat, t: nat ::
      SharesWindow(kind, count, seconds, now, t)
  }

  predicate SharesWindow(kind: Kind, count: int, seconds: Option<int>, now: nat, t: nat) {
    var w := QuotaWindowSpec(kind, count, seconds, now);
    w.reset.Some? && w.start <= t < w.reset.value ==> QuotaWindowSpec(kind, count, seconds, t) == w
  }

  /** Days, weeks and months partition time only one at a time; stored policies always have count 1 there. */
  lemma PartitionsIff(kind: Kind, count: int, seconds: Option<int>)
    requires Calendar(kind)
    ensures Partitions(kind, count, seconds) <==> kind == Hour || count <= 1
  {
    if kind == Hour || AtLeastOne(count) == 1 {
      forall now: nat, t: nat ensures SharesWindow(kind, count, seconds, now, t) {
        SameWindow(kind, count, seconds, now, t);
      }
    } else {
      var b := if kind == Day then DAY else if kind == Week then 7 * DAY else 31 * DAY;
      assert MonthStart(1) == 31;
      assert Boundary(kind, count, 0) == 0 && Boundary(kind, count, 1) == b;
      SlidesForward(kind, count, seconds, b);
    }
  }

  lemma SameWindow(kind: Kind, count: int, seconds: Option<int>, now: nat, t: nat)
    requires Calendar(kind) && (kind == Hour || AtLeastOne(count) == 1)
    ensures SharesWindow(kind, count, seconds, now, t)
  {
    var n := WindowIndex(kind, count, seconds, now);
    var m := WindowIndex(kind, count, seconds, t);
    assert Stride(kind, count) == 1;
    hide Boundary, QuotaWindowSpec;
    var w := QuotaWindowSpec(kind, count, seconds, now);
    if w.start <= t < w.reset.value {
      IndexIsUnique(kind, count, m, n, t);
    }
  }

  /** For every kind that does not slide, an instant since the window's start has that same start. */
  lemma SameStart(kind: Kind, count: int, seconds: Option<int>, now: nat, t: nat)
    requires !Slides(kind) && QuotaWindowSpec(kind, count, seconds, now).start <= t <= now
    ensures QuotaWindowSpec(kind, count, seconds, t).start == QuotaWindowSpec(kind, count, seconds, now).start
  {
    if Calendar(kind) {
      var n := WindowIndex(kind, count, seconds, now);
      var m := WindowIndex(kind, count, seconds, t);
      hide Boundary, QuotaWindowSpec;
      IndexIsUnique(kind, count, m, n, t);
    }
  }

  lemma SlidesForward(kind: Kind, count: int, seconds: Option<int>, b: nat)
    requires Calendar(kind) && kind != Hour && AtLeastOne(count) > 1
    requires Boundary(kind, count, 0) == 0 && Boundary(kind, count, 1) == b
    ensures !SharesWindow(kind, count, seconds, 0, b)
  {
    var n := WindowIndex(kind, count, seconds, 0);
    var m := WindowIndex(kind, count, seconds, b);
    BoundariesIncrease(kind, count, 0, 1);
    BoundariesIncrease(kind, count, 1, 2);
    BoundariesIncrease(kind, count, 1, AtLeastOne(count));
    hide Boundary, QuotaWindowSpec;
    IndexIsUnique(kind, count, n, 0, 0);
    IndexIsUnique(kind, count, m, 1, b);
  }

  /** The policy check accepts any positive number of seconds, but the span survives only up to 292 years. */
  lemma RollingSpanIsExactIff(seconds: int)
    requires 0 < seconds < 0x8000_0000_0000_0000
    ensures RollingSpan(Some(seconds)) == seconds * SECOND <==> seconds <= 9223372036
    ensures RollingSpan(Some(9223372037)) < 0
  {
  }

  /** How long windows are: so many hours, days or weeks, the months by their days; a sliding window is its seconds, an
      hour if it has none, on either side of now. */
  lemma WindowLengths(kind: Kind, count: int, seconds: Option<int>, now: nat)
    ensures var w := QuotaWindowSpec(kind, count, seconds, now);
            var c := if count <= 0 then 1 else count;
            match kind
            case Hour => w.start % 3600_000_000_000 == 0 && w.reset == Some(w.start + c * 3600_000_000_000)
            case Day => w.start % 86400_000_000_000 == 0 && w.reset == Some(w.start + c * 86400_000_000_000)
            case Week =>
              // day 0 is a Monday
              w.start % (7 * 86400_000_000_000) == 0 && w.reset == Some(w.start + 7 * c * 86400_000_000_000)
            case Month =>
              exists n: nat ::
                w.start == MonthStart(n) * 86400_000_000_000 && w.reset == Some(MonthStart(n + c) * 86400_000_000_000)
            case Lifetime => w.start == 719162 * 86400_000_000_000 && w.reset == None
            case _ =>
              var span := (if seconds.Some? then seconds.value else 3600) * 1_000_000_000;
              0 < span < 0x8000_0000_0000_0000 ==> w == Window(now - span, Some(now + span))
  {
    match kind
    case Hour => HourStart(count, seconds, now);
    case Day => DayStart(now / DAY);
    case Week =>
      WeekBase(now / DAY);
      WeekStart(now / DAY / 7);
    case Month => hide MonthStart;
    case Lifetime =>
    case _ =>
  }

  lemma HourStart(count: int, seconds: Option<int>, now: nat)
    ensures var w := QuotaWindowSpec(Hour, count, seconds, now);
            w.start % HOUR == 0 && w.reset == Some(w.start + AtLeastOne(count) * HOUR)
  {
    var n := HourIndex(AtLeastOne(count) * HOUR, now);
    var q := n * AtLeastOne(count);
    assert n * (AtLeastOne(count) * HOUR) == q * HOUR;
    assert (q * HOUR) % HOUR == 0;
  }

  lemma DayStart(day: nat)
    ensures (day * DAY) % DAY == 0
  {
  }

  lemma WeekStart(week: nat)
    ensures (7 * week * DAY) % (7 * DAY) == 0
  {
    assert 7 * week * DAY == week * (7 * DAY);
  }

  // ------------------------------------------------------------------ policies

  datatype ParallelLimit = ParallelLimit(id: string, limit: int, kind: Kind, count: int, seconds: Option<int>)

  /** stored is the parallel limits as they decode from JSON, or None if they do not. */
  datatype Policy = Policy(unlimited: bool, tokenLimit: Option<int>, kind: Kind, count: int, seconds: Option<int>,
                           stored: Option<seq<ParallelLimit>>)

  function Parallel(p: Policy): seq<ParallelLimit> {
    if p.stored.Some? then p.stored.value else []
  }

  predicate Unlimited(p: Policy) { p.unlimited || p.tokenLimit.None? }

  datatype Spec = Spec(id: string, primary: bool, limit: int, kind: Kind, count: int, seconds: Option<int>)

  function Digit(n: nat): char
    requires n < 10
  {
    (n + '0' as int) as char
  }

  function Decimal(n: nat): (s: string)
    ensures s != []
  {
    if n < 10 then [Digit(n)] else Decimal(n / 10) + [Digit(n % 10)]
  }

  function GivenId(i: nat): string { "parallel-" + Decimal(i + 1) }

  function SpecId(p: Policy, i: nat): string
    requires i < |Parallel(p)|
  {
    var id := Text.TrimSpace(Parallel(p)[i].id);
    if id == "" then GivenId(i) else id
  }

  function SpecAt(p: Policy, i: nat): Spec
    requires p.tokenLimit.Some? && i <= |Parallel(p)|
  {
    if i == 0 then Spec("primary", true, p.tokenLimit.value, p.kind, p.count, p.seconds)
    else
      var l := Parallel(p)[i - 1];
      Spec(SpecId(p, i - 1), false, l.limit, l.kind, l.count, l.seconds)
  }

  function Specs(p: Policy): seq<Spec> {
    if Unlimited(p) then []
    else seq(|Parallel(p)| + 1, i requires 0 <= i <= |Parallel(p)| => SpecAt(p, i))
  }

  method PolicyQuotaSpecs(p: Policy) returns (r: Result<seq<Spec>, ()>)
    ensures r == if !Unlimited(p) && p.stored.None? then Err(()) else Ok(Specs(p))
  {
    if p.unlimited || p.tokenLimit.None? { return Ok([]); }
    if p.stored.None? { return Err(()); }
    var parallel := p.stored.value;
    var specs := [Spec("primary", true, p.tokenLimit.value, p.kind, p.count, p.seconds)];
    for i := 0 to |parallel|
      invariant |specs| == i + 1
      invariant forall j | 0 <= j <= i :: specs[j] == SpecAt(p, j)
    {
      var l := parallel[i];
      var id := Text.TrimSpace(l.id);
      if id == "" { id := GivenId(i); }
      specs := specs + [Spec(id, false, l.limit, l.kind, l.count, l.seconds)];
    }
    assert specs == Specs(p);
    return Ok(specs);
  }

  /** The ids normalizePolicy stores. */
  ghost predicate Normalized(p: Policy) {
    p.stored.Some? && forall i | 0 <= i < |p.stored.value| :: p.stored.value[i].id == GivenId(i)
  }

  lemma {:induction false} DecimalIsInjective(m: nat, n: nat)
    requires Decimal(m) == Decimal(n)
    ensures m == n
  {
    if m >= 10 && n >= 10 {
      assert Decimal(m)[..|Decimal(m)| - 1] == Decimal(m / 10);
      assert Decimal(n)[..|Decimal(n)| - 1] == Decimal(n / 10);
      DecimalIsInjective(m / 10, n / 10);
    }
    assert Decimal(m)[|Decimal(m)| - 1] == Digit(m % 10);
    assert Decimal(n)[|Decimal(n)| - 1] == Digit(n % 10);
  }

  lemma GivenIdSurvivesTrimming(i: nat)
    ensures Text.TrimSpace(GivenId(i)) == GivenId(i)
  {
    var core := GivenId(i);
    var d := Decimal(i + 1);
    assert core[0] == 'p' && core[|core| - 1] == d[|d| - 1] == Digit((i + 1) % 10);
    Text.TrimAround("", core, "");
    assert "" + core + "" == core && "" + core == core && core + "" == core;
  }

  /** A stored policy never names two of its limits alike. */
  lemma StoredIdsAreDistinct(p: Policy, i: nat, j: nat)
    requires Normalized(p) && i < j < |Specs(p)|
    ensures Specs(p)[i].id != Specs(p)[j].id
  {
    GivenIdSurvivesTrimming(j - 1);
    assert Specs(p)[j].id == GivenId(j - 1);
    if i > 0 {
      GivenIdSurvivesTrimming(i - 1);
      assert Specs(p)[i].id == GivenId(i - 1);
      if GivenId(i - 1) == GivenId(j - 1) {
        assert GivenId(i - 1)[9..] == Decimal(i) && GivenId(j - 1)[9..] == Decimal(j);
        DecimalIsInjective(i, j);
      }
    } else {
      assert GivenId(j - 1)[1] == 'a' && "primary"[1] == 'r';
    }
  }

  // ---------------------------------------------------------------- evaluation

  /** A completed ledger row of the principal being judged. */
  datatype Row = Row(startedAt: int, tokens: nat)

  function UsageSince(ledger: seq<Row>, since: int): nat {
    if ledger == [] then 0
    else (if ledger[0].startedAt >= since then ledger[0].tokens else 0) + UsageSince(ledger[1..], since)
  }

  function WindowOf(spec: Spec, now: nat): Window {
    QuotaWindowSpec(spec.kind, spec.count, spec.seconds, now)
  }

  /** A user reset inside the window moves its start. */
  function UsageStart(spec: Spec, last: Option<int>, now: nat): int {
    var start := WindowOf(spec, now).start;
    if last.Some? && start < last.value <= now then last.value else start
  }

  datatype LimitDecision = LimitDecision(spec: Spec, used: nat, remaining: nat, resetAt: Option<int>, windowStart: int)

  function Judge(spec: Spec, ledger: seq<Row>, last: Option<int>, now: nat): LimitDecision {
    var start := UsageStart(spec, last, now);
    var used := UsageSince(ledger, start);
    LimitDecision(spec, used, if spec.limit - used < 0 then 0 else spec.limit - used, WindowOf(spec, now).reset, start)
  }

  function Judged(specs: seq<Spec>, ledger: seq<Row>, last: Option<int>, now: nat): seq<LimitDecision> {
    seq(|specs|, i requires 0 <= i < |specs| => Judge(specs[i], ledger, last, now))
  }

  predicate OutAt(limits: seq<LimitDecision>, i: int) {
    0 <= i < |limits| && limits[i].remaining <= 0
  }

  /** w is the limit that decides when a blocked principal may come back: the last exhausted limit that
      never resets, or else the first with the latest reset among the exhausted ones. */
  ghost predicate Blocks(limits: seq<LimitDecision>, w: int) {
    && OutAt(limits, w)
    && forall j | 0 <= j < |limits| && OutAt(limits, j) ::
         if limits[w].resetAt.None? then j > w ==> limits[j].resetAt.Some?
         else limits[j].resetAt.Some? && limits[j].resetAt.value <= limits[w].resetAt.value
              && (j < w ==> limits[j].resetAt.value < limits[w].resetAt.value)
  }

  /** Whose reservations and usage count together. */
  function CounterKey(subject: string, apiKey: string, countAsApiKey: bool): string {
    if countAsApiKey && apiKey != "" then "api_key:" + apiKey else "user:" + subject
  }

  datatype Decision = Decision(unlimited: bool, counter: string, limits: seq<LimitDecision>, used: nat,
                               remaining: Option<nat>, windowStart: Option<int>,
                               resetAt: Option<int>, blocked: bool, blockingLimitId: string)

  ghost predicate DecidesRightly(d: Decision) {
    && (d.blocked <==> exists i :: OutAt(d.limits, i))
    && (d.blocked ==> exists w ::
          Blocks(d.limits, w) && d.resetAt == d.limits[w].resetAt && d.blockingLimitId == d.limits[w].spec.id)
    && (d.limits != [] ==> d.used == d.limits[0].used && d.remaining == Some(d.limits[0].remaining)
                           && d.windowStart == Some(d.limits[0].windowStart))
    && (d.limits == [] ==> d.used == 0 && d.remaining == None && d.windowStart == None)
    && (!d.blocked ==> d.resetAt == (if d.limits == [] then None else d.limits[0].resetAt) && d.blockingLimitId == "")
  }

  /** What evaluateQuota may answer on a ledger and a last reset. */
  ghost predicate Answers(p: Policy, counter: string, ledger: seq<Row>, last: Option<int>, now: nat, d: Decision) {
    && d.unlimited == Unlimited(p) && d.counter == counter
    && d.limits == Judged(Specs(p), ledger, last, now) && DecidesRightly(d)
  }

  /** Whether l takes over as the blocker once it is appended, given the blocker so far (-1 for none). */
  lemma AppendLimit(limits: seq<LimitDecision>, l: LimitDecision, w: int)
    requires w == -1 ==> forall j :: !OutAt(limits, j)
    requires w != -1 ==> Blocks(limits, w)
    ensures l.remaining > 0 && w != -1 ==> Blocks(limits + [l], w)
    ensures l.remaining > 0 && w == -1 ==> forall j :: !OutAt(limits + [l], j)
    ensures l.remaining == 0 && (w == -1 || l.resetAt.None?) ==> Blocks(limits + [l], |limits|)
    ensures l.remaining == 0 && w != -1 && l.resetAt.Some? && limits[w].resetAt.Some? ==>
              Blocks(limits + [l], if l.resetAt.value > limits[w].resetAt.value then |limits| else w)
    ensures l.remaining == 0 && w != -1 && l.resetAt.Some? && limits[w].resetAt.None? ==> Blocks(limits + [l], w)
  {
    var all := limits + [l];
    assert forall j | 0 <= j < |limits| :: OutAt(all, j) == OutAt(limits, j);
  }

  /** The loop's blocking variables against the limits judged so far; w is the blocker, or -1. */
  ghost predicate Folded(limits: seq<LimitDecision>, w: int, blocked: bool, never: bool, reset: Option<int>, id: string)
  {
    if w == -1 then
      !blocked && !never && reset == None && id == "" && (forall j :: !OutAt(limits, j))
    else
      && blocked && Blocks(limits, w) && id == limits[w].spec.id
      && never == limits[w].resetAt.None? && (!never ==> reset == limits[w].resetAt)
  }

  lemma FoldStep(limits: seq<LimitDecision>, l: LimitDecision, w: int, blocked: bool, never: bool, reset: Option<int>,
                 id: string)
    requires Folded(limits, w, blocked, never, reset, id)
    ensures l.remaining > 0 ==> Folded(limits + [l], w, blocked, never, reset, id)
    ensures l.remaining == 0 && l.resetAt.None? ==> Folded(limits + [l], |limits|, true, true, reset, l.spec.id)
    ensures l.remaining == 0 && l.resetAt.Some? ==>
              if !never && (reset.None? || l.resetAt.value > reset.value)
              then Folded(limits + [l], |limits|, true, never, l.resetAt, l.spec.id)
              else Folded(limits + [l], w, true, never, reset, id)
  {
    AppendLimit(limits, l, w);
    assert w != -1 ==> 0 <= w < |limits|;
    hide Blocks, OutAt;
  }

  lemma BlockerIsOut(limits: seq<LimitDecision>, w: int)
    ensures Blocks(limits, w) ==> OutAt(limits, w)
  {
  }

  method JudgeLimit(spec: Spec, ledger: seq<Row>, lastReset: Option<int>, countAsApiKey: bool, now: nat)
    returns (limit: LimitDecision)
    ensures limit == Judge(spec, ledger, if countAsApiKey then None else lastReset, now)
  {
    hide QuotaWindowSpec, UsageSince;
    var window := QuotaWindowSpec(spec.kind, spec.count, spec.seconds, now);
    var start := window.start;
    if !countAsApiKey && lastReset.Some? && lastReset.value > start && lastReset.value <= now {
      start := lastReset.value;
    }
    var used := UsageSince(ledger, start);
    var remaining := spec.limit - used;
    if remaining < 0 { remaining := 0; }
    return LimitDecision(spec, used, remaining, window.reset, start);
  }

  method JudgeLimits(specs: seq<Spec>, ledger: seq<Row>, lastReset: Option<int>, countAsApiKey: bool, now: nat)
    returns (limits: seq<LimitDecision>, primary: Option<LimitDecision>,
             blocked: bool, blockingNever: bool, blockingReset: Option<int>, blockingLimitId: string, ghost w: int)
    requires forall i | 0 <= i < |specs| :: specs[i].primary == (i == 0)
    ensures primary == if limits == [] then None else Some(limits[0])
    ensures limits == Judged(specs, ledger, if countAsApiKey then None else lastReset, now)
    ensures Folded(limits, w, blocked, blockingNever, blockingReset, blockingLimitId)
  {
    hide QuotaWindowSpec, UsageSince, UsageStart, WindowOf, Judge, Blocks;
    ghost var last := if countAsApiKey then None else lastReset;
    limits, primary, blocked, blockingNever, blockingReset, blockingLimitId, w := [], None, false, false, None, "", -1;
    for i := 0 to |specs|
      invariant limits == Judged(specs[..i], ledger, last, now)
      invariant primary == if i == 0 then None else Some(limits[0])
      invariant Folded(limits, w, blocked, blockingNever, blockingReset, blockingLimitId)
    {
      var limit := JudgeLimit(specs[i], ledger, lastReset, countAsApiKey, now);
      FoldStep(limits, limit, w, blocked, blockingNever, blockingReset, blockingLimitId);
      limits := limits + [limit];
      assert limits == Judged(specs[..i + 1], ledger, last, now);
      if specs[i].primary { primary := Some(limit); }
      if limit.remaining <= 0 {
        blocked := true;
        if limit.resetAt.None? {
          blockingNever := true;
          blockingLimitId := limit.spec.id;
          w := i;
        } else if !blockingNever && (blockingReset.None? || limit.resetAt.value > blockingReset.value) {
          blockingReset := limit.resetAt;
          blockingLimitId := limit.spec.id;
          w := i;
        }
      }
    }
    assert specs[..|specs|] == specs;
  }

  method EvaluateQuota(p: Policy, subject: string, apiKey: string, ledger: seq<Row>, lastReset: Option<int>,
                       countAsApiKey: bool, now: nat)
    returns (r: Result<Decision, ()>)
    ensures r.Err? <==> !Unlimited(p) && p.stored.None?
    ensures r.Ok? ==>
              var last := if countAsApiKey then None else lastReset;
              var counter := if countAsApiKey && apiKey != "" then "api_key:" + apiKey else "user:" + subject;
              Answers(p, counter, ledger, last, now, r.value)
  {
    hide Judge, Blocks;
    var counter := CounterKey(subject, apiKey, countAsApiKey);
    if p.unlimited || p.tokenLimit.None? { return Ok(Decision(true, counter, [], 0, None, None, None, false, "")); }
    var parsed := PolicyQuotaSpecs(p);
    if parsed.Err? { return Err(()); }
    ghost var w;
    var limits, primary, blocked, blockingNever, blockingReset, blockingLimitId;
    limits, primary, blocked, blockingNever, blockingReset, blockingLimitId, w :=
      JudgeLimits(parsed.value, ledger, lastReset, countAsApiKey, now);
    BlockerIsOut(limits, w);
    var d := Decision(false, counter, limits, primary.value.used, Some(primary.value.remaining),
                      Some(primary.value.windowStart),
                      primary.value.resetAt, blocked, blockingLimitId);
    if d.blocked {
      if blockingNever {
        d := d.(resetAt := None);
      } else {
        d := d.(resetAt := blockingReset);
      }
    }
    return Ok(d);
  }

  /** What an answer says of a limit: the tokens of the completed rows since its window began, or since a later
      reset that has come, what they leave of it, and when its window resets. */
  lemma AnswerMeans(p: Policy, counter: string, ledger: seq<Row>, last: Option<int>, now: nat, d: Decision, i: nat)
    requires Answers(p, counter, ledger, last, now, d) && i < |d.limits|
    ensures i < |Specs(p)|
    ensures var l, spec := d.limits[i], Specs(p)[i];
            var w := QuotaWindowSpec(spec.kind, spec.count, spec.seconds, now);
            && l.spec == spec && l.resetAt == w.reset
            && l.windowStart == (if last.Some? && w.start < last.value <= now then last.value else w.start)
            && l.used == UsageSince(ledger, l.windowStart)
            && l.remaining == (if l.used < spec.limit then spec.limit - l.used else 0)
    ensures d.used == d.limits[0].used && d.remaining == Some(d.limits[0].remaining)
    ensures d.blocked <==> exists j | 0 <= j < |d.limits| :: d.limits[j].used >= d.limits[j].spec.limit
    ensures !d.blocked ==> d.resetAt == d.limits[0].resetAt && d.blockingLimitId == ""
  {
    hide QuotaWindowSpec, UsageSince, Blocks;
    forall j | 0 <= j < |d.limits| ensures OutAt(d.limits, j) <==> d.limits[j].used >= d.limits[j].spec.limit {
      assert d.limits[j] == Judge(Specs(p)[j], ledger, last, now);
    }
  }

  /** Who comes back when: a blocked answer names the first of the exhausted limits that resets last and its reset,
      or else, if one of them never resets, the last that never does, and no reset. */
  lemma BlockerMeans(p: Policy, counter: string, ledger: seq<Row>, last: Option<int>, now: nat, d: Decision)
    returns (w: nat)
    requires Answers(p, counter, ledger, last, now, d) && d.blocked
    ensures w < |d.limits| && d.limits[w].used >= d.limits[w].spec.limit
    ensures d.resetAt == d.limits[w].resetAt && d.blockingLimitId == d.limits[w].spec.id
    ensures forall j | 0 <= j < |d.limits| && d.limits[j].used >= d.limits[j].spec.limit ::
              match d.resetAt
              case None => j <= w || d.limits[j].resetAt.Some?
              case Some(reset) =>
                && d.limits[j].resetAt.Some?
                && if j < w then d.limits[j].resetAt.value < reset else d.limits[j].resetAt.value <= reset
  {
    hide QuotaWindowSpec, UsageSince;
    forall j | 0 <= j < |d.limits| ensures OutAt(d.limits, j) <==> d.limits[j].used >= d.limits[j].spec.limit {
      assert d.limits[j] == Judge(Specs(p)[j], ledger, last, now);
    }
    w :| Blocks(d.limits, w) && d.resetAt == d.limits[w].resetAt && d.blockingLimitId == d.limits[w].spec.id;
  }

  /** Usage is the sum of the rows that started since. */
  lemma {:induction false} UsageAdds(ledger: seq<Row>, row: Row, since: int)
    ensures UsageSince(ledger + [row], since) ==
            UsageSince(ledger, since) + (if row.startedAt >= since then row.tokens else 0)
    ensures UsageSince([], since) == 0
  {
    if ledger == [] {
      var rows := [row];
      assert ledger + [row] == rows && rows[1..] == [];
    } else {
      assert (ledger + [row])[1..] == ledger[1..] + [row];
      UsageAdds(ledger[1..], row, since);
    }
  }

  // --------------------------------------------------- is "blocked until" right?

  lemma {:induction false} LaterStartUsesLess(ledger: seq<Row>, a: int, b: int)
    requires a <= b
    ensures UsageSince(ledger, b) <= UsageSince(ledger, a)
  {
    if ledger != [] { LaterStartUsesLess(ledger[1..], a, b); }
  }

  /** No row starts after now. */
  ghost predicate Past(ledger: seq<Row>, now: int) {
    forall i | 0 <= i < |ledger| :: ledger[i].startedAt <= now
  }

  lemma {:induction false} NothingSince(ledger: seq<Row>, now: int, start: int)
    requires Past(ledger, now) && now < start
    ensures UsageSince(ledger, start) == 0
  {
    if ledger != [] {
      assert Past(ledger[1..], now) by { assert forall i | 0 <= i < |ledger| - 1 :: ledger[1..][i] == ledger[i + 1]; }
      NothingSince(ledger[1..], now, start);
    }
  }

  /** Limits as the policy checks admit them, with a positive budget and a span that fits a duration. */
  predicate Usable(spec: Spec) {
    spec.limit > 0 && (Slides(spec.kind) ==> spec.seconds.Some? && 0 < spec.seconds.value <= 9223372036)
  }

  predicate Exhausted(spec: Spec, ledger: seq<Row>, last: Option<int>, now: nat) {
    spec.limit <= UsageSince(ledger, UsageStart(spec, last, now))
  }

  lemma StartsAdvance(spec: Spec, last: Option<int>, now: nat, later: nat)
    requires now <= later && (last.Some? ==> last.value <= now)
    ensures UsageStart(spec, last, now) <= UsageStart(spec, last, later)
  {
    WindowsAreMonotone(spec.kind, spec.count, spec.seconds, now, later);
    hide QuotaWindowSpec;
  }

  /** Without new usage a limit never becomes exhausted by waiting. */
  lemma WaitingNeverExhausts(spec: Spec, ledger: seq<Row>, last: Option<int>, now: nat, later: nat)
    requires now <= later && (last.Some? ==> last.value <= now)
    ensures Exhausted(spec, ledger, last, later) ==> Exhausted(spec, ledger, last, now)
  {
    StartsAdvance(spec, last, now, later);
    LaterStartUsesLess(ledger, UsageStart(spec, last, now), UsageStart(spec, last, later));
    hide UsageStart;
  }

  /** A calendar window that has reset is empty, whenever it is looked at again. */
  lemma CalendarReopens(spec: Spec, ledger: seq<Row>, last: Option<int>, now: nat, later: nat)
    requires Usable(spec) && Calendar(spec.kind) && Past(ledger, now)
    requires WindowOf(spec, now).reset.value <= later
    ensures !Exhausted(spec, ledger, last, later)
  {
    var r := WindowOf(spec, now).reset.value;
    WindowsTile(spec.kind, spec.count, spec.seconds, now);
    WindowsAreMonotone(spec.kind, spec.count, spec.seconds, r, later);
    hide QuotaWindowSpec;
    NothingSince(ledger, now, UsageStart(spec, last, later));
  }

  /** A rolling window looked at a span later has lost everything but what started at this very instant. */
  lemma RollingReopens(spec: Spec, ledger: seq<Row>, last: Option<int>, now: nat, later: nat)
    requires Usable(spec) && Slides(spec.kind) && Past(ledger, now) && (last.Some? ==> last.value <= now)
    requires WindowOf(spec, now).reset.value <= later
    ensures Exhausted(spec, ledger, last, later)
       <==> WindowOf(spec, now).reset.value == later && spec.limit <= UsageSince(ledger, now)
  {
    RollingSpanIsExactIff(spec.seconds.value);
    var span := spec.seconds.value * SECOND;
    assert WindowOf(spec, now) == Window(now - span, Some(now + span));
    assert WindowOf(spec, later).start == later - span;
    if later > now + span { NothingSince(ledger, now, UsageStart(spec, last, later)); }
  }

  /** The limits still exhausted at the reported reset, if nothing is used meanwhile. */
  predicate StillFull(spec: Spec, ledger: seq<Row>, now: nat, r: int) {
    Slides(spec.kind) && WindowOf(spec, now).reset.value == r && spec.limit <= UsageSince(ledger, now)
  }

  lemma ReopensOne(spec: Spec, ledger: seq<Row>, last: Option<int>, now: nat, r: nat)
    requires Usable(spec) && Past(ledger, now) && (last.Some? ==> last.value <= now) && now <= r
    requires Exhausted(spec, ledger, last, now) ==>
               WindowOf(spec, now).reset.Some? && WindowOf(spec, now).reset.value <= r
    ensures Exhausted(spec, ledger, last, r) <==> StillFull(spec, ledger, now, r)
  {
    WaitingNeverExhausts(spec, ledger, last, now, r);
    if !Exhausted(spec, ledger, last, now) {
      if Slides(spec.kind) {
        RollingSpanIsExactIff(spec.seconds.value);
        assert UsageStart(spec, last, now) <= now;
        LaterStartUsesLess(ledger, UsageStart(spec, last, now), now);
      }
    } else if Calendar(spec.kind) {
      CalendarReopens(spec, ledger, last, now, r);
    } else if Slides(spec.kind) {
      RollingReopens(spec, ledger, last, now, r);
    }
  }

  lemma OutIsExhausted(specs: seq<Spec>, ledger: seq<Row>, last: Option<int>, now: nat, i: nat)
    requires i < |specs|
    ensures OutAt(Judged(specs, ledger, last, now), i) <==> Exhausted(specs[i], ledger, last, now)
  {
  }

  /** A limit that is exhausted resets by the blocker's reset. */
  lemma BlockerIsLatest(specs: seq<Spec>, ledger: seq<Row>, last: Option<int>, now: nat, w: int, i: nat)
    requires Blocks(Judged(specs, ledger, last, now), w) && i < |specs|
    requires Judged(specs, ledger, last, now)[w].resetAt.Some? && Exhausted(specs[i], ledger, last, now)
    ensures WindowOf(specs[i], now).reset.Some?
    ensures WindowOf(specs[i], now).reset.value <= Judged(specs, ledger, last, now)[w].resetAt.value
  {
    OutIsExhausted(specs, ledger, last, now, i);
    assert Judged(specs, ledger, last, now)[i].resetAt == WindowOf(specs[i], now).reset;
    hide Judge, WindowOf, Exhausted;
  }

  lemma BlockerResetIsAhead(specs: seq<Spec>, ledger: seq<Row>, last: Option<int>, now: nat, w: int)
    requires Blocks(Judged(specs, ledger, last, now), w) && Usable(specs[w])
    requires Judged(specs, ledger, last, now)[w].resetAt.Some?
    ensures Judged(specs, ledger, last, now)[w].resetAt == WindowOf(specs[w], now).reset
    ensures Judged(specs, ledger, last, now)[w].resetAt.value > now
  {
    var spec := specs[w];
    if Calendar(spec.kind) {
      WindowsTile(spec.kind, spec.count, spec.seconds, now);
    } else if Slides(spec.kind) {
      RollingSpanIsExactIff(spec.seconds.value);
    }
  }

  /** Coming back at the reported reset, with nothing used meanwhile, succeeds unless some rolling limit with
      that very reset was filled by requests started at the instant of the first evaluation. */
  lemma ReopensAtResetIff(specs: seq<Spec>, ledger: seq<Row>, last: Option<int>, now: nat, w: int)
    requires forall i | 0 <= i < |specs| :: Usable(specs[i])
    requires Past(ledger, now) && (last.Some? ==> last.value <= now)
    requires Blocks(Judged(specs, ledger, last, now), w) && Judged(specs, ledger, last, now)[w].resetAt.Some?
    ensures var r := Judged(specs, ledger, last, now)[w].resetAt.value;
            && r > now
            && ((forall i | 0 <= i < |specs| :: !OutAt(Judged(specs, ledger, last, r), i))
                <==> (forall i | 0 <= i < |specs| :: !StillFull(specs[i], ledger, now, r)))
  {
    BlockerResetIsAhead(specs, ledger, last, now, w);
    var r := Judged(specs, ledger, last, now)[w].resetAt.value;
    forall i | 0 <= i < |specs|
      ensures OutAt(Judged(specs, ledger, last, r), i) <==> StillFull(specs[i], ledger, now, r)
    {
      if Exhausted(specs[i], ledger, last, now) { BlockerIsLatest(specs, ledger, last, now, w, i); }
      ReopensOne(specs[i], ledger, last, now, r);
      OutIsExhausted(specs, ledger, last, r, i);
    }
  }

  /** In particular it succeeds when every counted request started before the first evaluation. */
  lemma ReopensAtReset(specs: seq<Spec>, ledger: seq<Row>, last: Option<int>, now: nat, w: int)
    requires forall i | 0 <= i < |specs| :: Usable(specs[i])
    requires Past(ledger, now - 1) && (last.Some? ==> last.value <= now)
    requires Blocks(Judged(specs, ledger, last, now), w) && Judged(specs, ledger, last, now)[w].resetAt.Some?
    ensures var r := Judged(specs, ledger, last, now)[w].resetAt.value;
            r > now && forall i | 0 <= i < |specs| :: !OutAt(Judged(specs, ledger, last, r), i)
  {
    ReopensAtResetIff(specs, ledger, last, now, w);
    NothingSince(ledger, now - 1, now);
  }

  /** A rolling limit filled at the instant of evaluation is reported open one instant too early. */
  lemma RollingResetIsInclusive(now: nat)
    ensures var spec := Spec("primary", true, 100, Rolling, 1, Some(3600));
            var ledger := [Row(now, 100)];
            && Exhausted(spec, ledger, None, now)
            && Exhausted(spec, ledger, None, WindowOf(spec, now).reset.value)
            && !Exhausted(spec, ledger, None, WindowOf(spec, now).reset.value + 1)
  {
    var spec := Spec("primary", true, 100, Rolling, 1, Some(3600));
    var ledger := [Row(now, 100)];
    assert ledger[1..] == [];
    RollingReopens(spec, ledger, None, now, WindowOf(spec, now).reset.value);
    RollingReopens(spec, ledger, None, now, WindowOf(spec, now).reset.value + 1);
  }

  /** Limits whose windows stand still: lifetime ones, and calendar ones as stored. */
  predicate Steady(spec: Spec) {
    spec.kind == Lifetime || spec.kind == Hour || (Calendar(spec.kind) && AtLeastOne(spec.count) == 1)
  }

  /** Nothing about a steady limit changes within its window while nothing is used. */
  lemma SteadyUntilReset(spec: Spec, ledger: seq<Row>, last: Option<int>, now: nat, t: nat)
    requires Steady(spec) && now <= t && (last.Some? ==> last.value <= now)
    requires WindowOf(spec, now).reset.Some? ==> t < WindowOf(spec, now).reset.value
    ensures Judge(spec, ledger, last, t) == Judge(spec, ledger, last, now)
  {
    if spec.kind != Lifetime {
      WindowsTile(spec.kind, spec.count, spec.seconds, now);
      SameWindow(spec.kind, spec.count, spec.seconds, now, t);
    }
  }

  /** With steady limits the answer itself stands until the reported reset, forever when there is none:
      the same limit blocks, with the same reset. */
  lemma BlockedUntilTheReset(specs: seq<Spec>, ledger: seq<Row>, last: Option<int>, now: nat, w: int, t: nat)
    requires forall i | 0 <= i < |specs| :: Usable(specs[i]) && Steady(specs[i])
    requires Past(ledger, now) && (last.Some? ==> last.value <= now) && now <= t
    requires Blocks(Judged(specs, ledger, last, now), w)
    requires var r := Judged(specs, ledger, last, now)[w].resetAt; r.Some? ==> t < r.value
    ensures Blocks(Judged(specs, ledger, last, t), w)
    ensures Judged(specs, ledger, last, t)[w].resetAt == Judged(specs, ledger, last, now)[w].resetAt
  {
    var before, after := Judged(specs, ledger, last, now), Judged(specs, ledger, last, t);
    SteadyUntilReset(specs[w], ledger, last, now, t);
    forall i | 0 <= i < |specs| && OutAt(after, i) ensures after[i] == before[i] {
      OutIsExhausted(specs, ledger, last, t, i);
      OutIsExhausted(specs, ledger, last, now, i);
      WaitingNeverExhausts(specs[i], ledger, last, now, t);
      if WindowOf(specs[i], now).reset.Some? && WindowOf(specs[i], now).reset.value <= t {
        CalendarReopens(specs[i], ledger, last, now, t);
      } else {
        SteadyUntilReset(specs[i], ledger, last, now, t);
      }
    }
    hide Judge, Judged, WindowOf, Exhausted;
  }
}
