/** The guest rate limiter (cmd/api/guest.go): an enforcing script and a read-only peek.

  Times are whole positive seconds; a key is gone at its deadline.  The policy is one that
  validateGuestAccessPolicy accepts, in particular a minimum gap of at most 3600 seconds.

  The theorems are about every sequence of requests on one clock: how far apart admissions are, how many an
  hour can hold and that it can hold that many, and that the peek tells the truth about what enforcement
  would do now and at any later second.
 */
module GuestRate {
  import opened Numbers
  import opened Wrappers

  const HOUR := 3600

  datatype Policy = Policy(perHour: int, minGap: int)

  predicate PolicyOk(p: Policy) {
    0 <= p.perHour <= 10000 && 0 <= p.minGap <= 3600
  }

  datatype Cell = Cell(value: int, until: int)

  /** The hour counter and the time of the last admitted request. */
  datatype Store = Store(hour: Option<Cell>, last: Option<Cell>)

  function Get(c: Option<Cell>, now: int): int {
    if c.Some? && now < c.value.until then c.value.value else 0
  }

  /** TTL: -2 when there is no key. */
  function Ttl(c: Option<Cell>, now: int): int {
    if c.Some? && now < c.value.until then c.value.until - now else -2
  }

  predicate TooSoon(p: Policy, s: Store, now: int) {
    p.minGap > 0 && Get(s.last, now) > 0 && now - Get(s.last, now) < p.minGap
  }

  predicate HourFull(p: Policy, s: Store, now: int) {
    p.perHour > 0 && Get(s.hour, now) >= p.perHour
  }

  function HourWait(s: Store, now: int): int {
    if Ttl(s.hour, now) < 1 then HOUR else Ttl(s.hour, now)
  }

  /** Seconds to wait, or 0 when the request is admitted. */
  function Enforced(p: Policy, s: Store, now: int): (Store, int) {
    if p.perHour == 0 && p.minGap == 0 then (s, 0)
    else if TooSoon(p, s, now) then (s, p.minGap - (now - Get(s.last, now)))
    else if HourFull(p, s, now) then (s, HourWait(s, now))
    else
      var count := Get(s.hour, now);
      var hour := if p.perHour == 0 then s.hour
                  else if count == 0 then Some(Cell(1, now + HOUR))
                  else Some(Cell(count + 1, s.hour.value.until));
      (Store(hour, if p.minGap > 0 then Some(Cell(now, now + HOUR)) else s.last), 0)
  }

  function Peeked(p: Policy, s: Store, now: int): int {
    if p.perHour == 0 && p.minGap == 0 then 0
    else
      Max(if TooSoon(p, s, now) then p.minGap - (now - Get(s.last, now)) else 0,
          if HourFull(p, s, now) then HourWait(s, now) else 0)
  }

  class GuestLimiter {
    var hour: Option<Cell>
    var last: Option<Cell>

    function View(): Store
      reads this
    {
      Store(hour, last)
    }

    constructor ()
      ensures View() == Store(None, None)
    {
      hour, last := None, None;
    }

    method EnforceGuestRate(p: Policy, now: int) returns (wait: int)
      modifies this
      ensures (View(), wait) == Enforced(p, old(View()), now)
    {
      if p.perHour == 0 && p.minGap == 0 { return 0; }
      var previous := Get(last, now);
      if p.minGap > 0 && previous > 0 && now - previous < p.minGap { return p.minGap - (now - previous); }
      var count := Get(hour, now);
      if p.perHour > 0 && count >= p.perHour {
        var ttl := Ttl(hour, now);
        if ttl < 1 { ttl := HOUR; }
        return ttl;
      }
      if p.perHour != 0 {
        count := count + 1;
        if count == 1 {
          hour := Some(Cell(1, now + HOUR));
        } else {
          hour := Some(Cell(count, hour.value.until));
        }
      }
      if p.minGap > 0 { last := Some(Cell(now, now + HOUR)); }
      return 0;
    }

    method GuestRateRetryAfter(p: Policy, now: int) returns (wait: int)
      ensures wait == Peeked(p, View(), now)
    {
      if p.perHour == 0 && p.minGap == 0 { return 0; }
      wait := 0;
      var previous := Get(last, now);
      if p.minGap > 0 && previous > 0 && now - previous < p.minGap { wait := p.minGap - (now - previous); }
      var count := Get(hour, now);
      if p.perHour > 0 && count >= p.perHour {
        var ttl := Ttl(hour, now);
        if ttl < 1 { ttl := HOUR; }
        if ttl > wait { wait := ttl; }
      }
    }
  }

  // ------------------------------------------------------------------- runs

  /** One admitted request: when, and which counter window it was counted in. */
  datatype Admission = Admission(time: int, window: int)

  datatype System = System(store: Store, log: seq<Admission>)

  /** A request at time now; the log records admissions (the window start matters only if perHour > 0). */
  function Ask(p: Policy, sys: System, now: int): System {
    var (s', wait) := Enforced(p, sys.store, now);
    if wait != 0 then sys.(store := s')
    else System(s', sys.log + [Admission(now, if s'.hour.Some? then s'.hour.value.until - HOUR else now)])
  }

  function Run(p: Policy, times: seq<int>): System {
    if times == [] then System(Store(None, None), [])
    else Ask(p, Run(p, times[..|times| - 1]), times[|times| - 1])
  }

  ghost predicate Clocked(times: seq<int>) {
    && (forall i | 0 <= i < |times| :: times[i] > 0)
    && (forall i, j | 0 <= i < j < |times| :: times[i] <= times[j])
  }

  function CountWindow(log: seq<Admission>, w: int): nat {
    if log == [] then 0
    else CountWindow(log[..|log| - 1], w) + (if log[|log| - 1].window == w then 1 else 0)
  }

  /** Admissions in the half-open interval [from, from + 3600). */
  function CountHour(log: seq<Admission>, from: int): nat {
    if log == [] then 0
    else CountHour(log[..|log| - 1], from) + (if from <= log[|log| - 1].time < from + HOUR then 1 else 0)
  }

  ghost predicate InOrder(log: seq<Admission>, now: int) {
    && (forall i | 0 <= i < |log| :: log[i].time <= now)
    && (forall i, j | 0 <= i < j < |log| :: log[i].time <= log[j].time)
  }

  // ----------------------------------------------------------------- the gap

  /** The last-request key remembers the latest admission until the gap can no longer matter. */
  ghost predicate GapInv(p: Policy, sys: System, now: int) {
    && InOrder(sys.log, now)
    && (forall i, j | 0 <= i < j < |sys.log| :: sys.log[j].time - sys.log[i].time >= p.minGap)
    && (p.minGap > 0 && sys.log != [] ==>
          var t := sys.log[|sys.log| - 1].time;
          t > 0 && sys.store.last == Some(Cell(t, t + HOUR)))
  }

  /** An admitted request comes a gap after the last one. */
  lemma AdmittedLater(p: Policy, sys: System, before: int, now: int)
    requires PolicyOk(p) && GapInv(p, sys, before) && before <= now && now > 0 && Enforced(p, sys.store, now).1 == 0
    ensures sys.log != [] ==> now - sys.log[|sys.log| - 1].time >= p.minGap
  {
  }

  lemma AppendKeepsGap(log: seq<Admission>, a: Admission, before: int, gap: int)
    requires InOrder(log, before) && before <= a.time && gap >= 0
    requires forall i, j | 0 <= i < j < |log| :: log[j].time - log[i].time >= gap
    requires log != [] ==> a.time - log[|log| - 1].time >= gap
    ensures InOrder(log + [a], a.time)
    ensures forall i, j | 0 <= i < j < |log + [a]| :: (log + [a])[j].time - (log + [a])[i].time >= gap
  {
    var all := log + [a];
    forall i, j | 0 <= i < j < |all| ensures all[j].time - all[i].time >= gap {
      if j == |log| && i < |log| - 1 { assert log[|log| - 1].time >= log[i].time; }
    }
  }

  lemma AskShape(p: Policy, sys: System, now: int)
    requires PolicyOk(p) && now > 0
    ensures var sys' := Ask(p, sys, now);
            if Enforced(p, sys.store, now).1 != 0 then sys' == sys
            else
              && |sys'.log| == |sys.log| + 1 && sys'.log == sys.log + [sys'.log[|sys.log|]]
              && sys'.log[|sys.log|].time == now
              && (p.minGap > 0 ==> sys'.store.last == Some(Cell(now, now + HOUR)))
  {
  }

  lemma AskKeepsGap(p: Policy, sys: System, before: int, now: int)
    requires PolicyOk(p) && GapInv(p, sys, before) && before <= now && now > 0
    ensures GapInv(p, Ask(p, sys, now), now)
  {
    hide Ask, Enforced;
    AskShape(p, sys, now);
    if Enforced(p, sys.store, now).1 == 0 {
      AdmittedLater(p, sys, before, now);
      AppendKeepsGap(sys.log, Ask(p, sys, now).log[|sys.log|], before, p.minGap);
    }
  }

  lemma {:induction false} RunKeepsGap(p: Policy, times: seq<int>)
    requires PolicyOk(p) && Clocked(times)
    ensures GapInv(p, Run(p, times), if times == [] then 0 else times[|times| - 1])
  {
    if times != [] {
      var n := |times| - 1;
      RunKeepsGap(p, times[..n]);
      AskKeepsGap(p, Run(p, times[..n]), if n == 0 then 0 else times[n - 1], times[n]);
    }
  }

  /** Any two admitted requests are at least the minimum gap apart. */
  lemma AdmissionsKeepTheGap(p: Policy, times: seq<int>, i: nat, j: nat)
    requires PolicyOk(p) && Clocked(times)
    requires i < j < |Run(p, times).log|
    ensures Run(p, times).log[j].time - Run(p, times).log[i].time >= p.minGap
  {
    RunKeepsGap(p, times);
  }

  // ------------------------------------------------------------ the hour limit

  /** Every admission lies in its window, and different windows are at least an hour apart. */
  ghost predicate Spaced(log: seq<Admission>) {
    && (forall i | 0 <= i < |log| :: log[i].window <= log[i].time < log[i].window + HOUR)
    && (forall i, j | 0 <= i < j < |log| :: SameOrLater(log[i].window, log[j].window))
  }

  /** Each window begins with an admission. */
  ghost predicate Opened(log: seq<Admission>) {
    forall i | 0 <= i < |log| :: Admission(log[i].window, log[i].window) in log
  }

  predicate SameOrLater(u: int, v: int) { u == v || u + HOUR <= v }

  ghost predicate Capped(log: seq<Admission>, most: int) {
    forall w :: CountWindow(log, w) <= most
  }

  /** Windows are spaced, each admits at most perHour, and the counter says how many the latest one
      has admitted. */
  ghost predicate HourInv(p: Policy, sys: System, now: int) {
    && InOrder(sys.log, now)
    && Spaced(sys.log)
    && Capped(sys.log, p.perHour)
    && (sys.log == [] ==> sys.store.hour == None)
    && (sys.log != [] ==>
          var w := sys.log[|sys.log| - 1].window;
          sys.store.hour == Some(Cell(CountWindow(sys.log, w), w + HOUR)))
  }

  lemma {:induction false} NoneInLaterWindow(log: seq<Admission>, w: int)
    requires forall i | 0 <= i < |log| :: log[i].window != w
    ensures CountWindow(log, w) == 0
  {
    if log != [] {
      assert forall i | 0 <= i < |log| - 1 :: log[..|log| - 1][i] == log[i];
      NoneInLaterWindow(log[..|log| - 1], w);
    }
  }

  /** What the window of the next admission is, and that its count stays within the limit. */
  lemma NextAdmission(p: Policy, sys: System, before: int, now: int) returns (w: int)
    requires PolicyOk(p) && p.perHour > 0 && HourInv(p, sys, before) && before <= now && now > 0
    requires Enforced(p, sys.store, now).1 == 0
    ensures Ask(p, sys, now).log == sys.log + [Admission(now, w)]
    ensures Ask(p, sys, now).store.hour == Some(Cell(CountWindow(sys.log, w) + 1, w + HOUR))
    ensures w <= now < w + HOUR && CountWindow(sys.log, w) < p.perHour
    ensures sys.log != [] ==> SameOrLater(sys.log[|sys.log| - 1].window, w)
    ensures w == now || (sys.log != [] && w == sys.log[|sys.log| - 1].window)
  {
    var n := |sys.log|;
    if n == 0 || now >= sys.log[n - 1].window + HOUR {
      w := now;
      forall i | 0 <= i < n ensures sys.log[i].window != w {
        assert i == n - 1 || SameOrLater(sys.log[i].window, sys.log[n - 1].window);
      }
      NoneInLaterWindow(sys.log, w);
    } else {
      w := sys.log[n - 1].window;
      assert CountWindow(sys.log, w) >= 1;
    }
  }

  lemma CountWindowAppend(log: seq<Admission>, a: Admission, v: int)
    ensures CountWindow(log + [a], v) == CountWindow(log, v) + (if a.window == v then 1 else 0)
  {
    assert (log + [a])[..|log|] == log;
  }

  lemma AppendKeepsSpacing(log: seq<Admission>, a: Admission)
    requires Spaced(log) && a.window <= a.time < a.window + HOUR
    requires log != [] ==> SameOrLater(log[|log| - 1].window, a.window)
    ensures Spaced(log + [a])
  {
    var all := log + [a];
    forall i, j | 0 <= i < j < |all| ensures SameOrLater(all[i].window, all[j].window) {
      assert j < |log| || i == |log| - 1 || SameOrLater(log[i].window, log[|log| - 1].window);
    }
  }

  lemma AppendKeepsCap(log: seq<Admission>, a: Admission, most: int)
    requires Capped(log, most) && CountWindow(log, a.window) < most
    ensures Capped(log + [a], most)
  {
    forall v ensures CountWindow(log + [a], v) <= most {
      CountWindowAppend(log, a, v);
      assert CountWindow(log, v) <= most;
    }
  }

  lemma AppendKeepsOpened(log: seq<Admission>, a: Admission)
    requires Opened(log) && (a.window == a.time || (log != [] && a.window == log[|log| - 1].window))
    ensures Opened(log + [a])
  {
    var all := log + [a];
    forall i | 0 <= i < |all| ensures Admission(all[i].window, all[i].window) in all {
      if i < |log| { assert all[i] == log[i]; }
    }
  }

  lemma RefusedChangesNothing(p: Policy, sys: System, now: int)
    requires Enforced(p, sys.store, now).1 != 0
    ensures Ask(p, sys, now) == sys
  {
  }

  lemma AskKeepsHour(p: Policy, sys: System, before: int, now: int)
    requires PolicyOk(p) && p.perHour > 0 && HourInv(p, sys, before) && before <= now && now > 0
    ensures HourInv(p, Ask(p, sys, now), now)
  {
    hide Ask, Enforced, CountWindow, Spaced, Capped;
    if Enforced(p, sys.store, now).1 == 0 {
      var w := NextAdmission(p, sys, before, now);
      AppendKeepsSpacing(sys.log, Admission(now, w));
      AppendKeepsCap(sys.log, Admission(now, w), p.perHour);
      CountWindowAppend(sys.log, Admission(now, w), w);
    } else {
      RefusedChangesNothing(p, sys, now);
    }
  }

  lemma {:induction false} RunKeepsHour(p: Policy, times: seq<int>)
    requires PolicyOk(p) && p.perHour > 0 && Clocked(times)
    ensures HourInv(p, Run(p, times), if times == [] then 0 else times[|times| - 1])
  {
    if times != [] {
      var n := |times| - 1;
      RunKeepsHour(p, times[..n]);
      AskKeepsHour(p, Run(p, times[..n]), if n == 0 then 0 else times[n - 1], times[n]);
    }
  }

  lemma NothingOpened()
    ensures Opened([])
  {
  }

  lemma {:induction false} RunKeepsOpened(p: Policy, times: seq<int>)
    requires PolicyOk(p) && p.perHour > 0 && Clocked(times)
    ensures Opened(Run(p, times).log)
  {
    hide HourInv, Opened, Enforced;
    if times == [] {
      NothingOpened();
    } else {
      var n := |times| - 1;
      RunKeepsOpened(p, times[..n]);
      RunKeepsHour(p, times[..n]);
      var sys := Run(p, times[..n]);
      if Enforced(p, sys.store, times[n]).1 == 0 {
        var w := NextAdmission(p, sys, if n == 0 then 0 else times[n - 1], times[n]);
        AppendKeepsOpened(sys.log, Admission(times[n], w));
      } else {
        RefusedChangesNothing(p, sys, times[n]);
      }
    }
  }

  /** If everything in the interval was counted in one of two windows, it is within their counts. */
  lemma {:induction false} TwoWindowsCover(log: seq<Admission>, from: int, u: int, v: int)
    requires u != v
    requires forall i | 0 <= i < |log| :: from <= log[i].time < from + HOUR ==> log[i].window == u || log[i].window == v
    ensures CountHour(log, from) <= CountWindow(log, u) + CountWindow(log, v)
  {
    if log != [] {
      assert forall i | 0 <= i < |log| - 1 :: log[..|log| - 1][i] == log[i];
      TwoWindowsCover(log[..|log| - 1], from, u, v);
    }
  }

  /** And less than that if one of them began before the interval. */
  lemma {:induction false} OneIsMissed(log: seq<Admission>, from: int, u: int, v: int, k: nat)
    requires u != v && k < |log| && log[k].window == u && log[k].time < from
    requires forall i | 0 <= i < |log| :: from <= log[i].time < from + HOUR ==> log[i].window == u || log[i].window == v
    ensures CountHour(log, from) < CountWindow(log, u) + CountWindow(log, v)
  {
    var n := |log| - 1;
    assert forall i | 0 <= i < n :: log[..n][i] == log[i];
    if k < n { OneIsMissed(log[..n], from, u, v, k); } else { TwoWindowsCover(log[..n], from, u, v); }
  }

  /** An hour-long interval with an admission meets one counter window, or two of which the earlier began before it. */
  lemma IntervalMeetsTwo(log: seq<Admission>, from: int, a: nat) returns (u: int, v: int)
    requires Spaced(log) && Opened(log) && a < |log| && from <= log[a].time < from + HOUR
    ensures u != v
    ensures forall i | 0 <= i < |log| :: from <= log[i].time < from + HOUR ==> log[i].window == u || log[i].window == v
    ensures CountWindow(log, v) == 0 || exists k :: 0 <= k < |log| && log[k].window == u && log[k].time < from
  {
    hide Spaced, Opened, CountWindow;
    u := log[a].window;
    if b :| 0 <= b < |log| && from <= log[b].time < from + HOUR && log[b].window != u {
      v := log[b].window;
      forall i | 0 <= i < |log| && from <= log[i].time < from + HOUR
        ensures log[i].window == u || log[i].window == v
      {
        Apart(log, a, b);
        Apart(log, a, i);
        Apart(log, b, i);
      }
      Apart(log, a, b);
      var first := if v < u then b else a;
      if v < u { u, v := v, u; }
      var k := Opening(log, first);
    } else {
      v := u + 1;
      NoneBetween(log, a);
    }
  }

  lemma Opening(log: seq<Admission>, i: nat) returns (k: nat)
    requires Opened(log) && i < |log|
    ensures k < |log| && log[k] == Admission(log[i].window, log[i].window)
  {
    assert Admission(log[i].window, log[i].window) in log;
    k :| k < |log| && log[k] == Admission(log[i].window, log[i].window);
  }

  lemma NoneBetween(log: seq<Admission>, a: nat)
    requires Spaced(log) && a < |log|
    ensures CountWindow(log, log[a].window + 1) == 0
  {
    hide Spaced, CountWindow;
    forall i | 0 <= i < |log| ensures log[i].window != log[a].window + 1 { Apart(log, a, i); }
    NoneInLaterWindow(log, log[a].window + 1);
  }

  lemma {:induction false} NoneInHour(log: seq<Admission>, from: int)
    requires forall i | 0 <= i < |log| :: !(from <= log[i].time < from + HOUR)
    ensures CountHour(log, from) == 0
  {
    if log != [] {
      assert forall i | 0 <= i < |log| - 1 :: log[..|log| - 1][i] == log[i];
      NoneInHour(log[..|log| - 1], from);
    }
  }

  lemma Apart(log: seq<Admission>, a: nat, b: nat)
    requires Spaced(log) && a < |log| && b < |log|
    ensures SameOrLater(log[a].window, log[b].window) || SameOrLater(log[b].window, log[a].window)
    ensures log[a].window <= log[a].time < log[a].window + HOUR && log[b].window <= log[b].time < log[b].window + HOUR
  {
  }

  /** Any half-open hour admits less than twice the hourly limit. */
  lemma AnHourAdmitsLessThanTwice(p: Policy, times: seq<int>, from: int)
    requires PolicyOk(p) && p.perHour > 0 && Clocked(times)
    ensures CountHour(Run(p, times).log, from) <= 2 * p.perHour - 1
  {
    hide Spaced, Opened;
    RunKeepsHour(p, times);
    RunKeepsOpened(p, times);
    var log := Run(p, times).log;
    if a :| 0 <= a < |log| && from <= log[a].time < from + HOUR {
      var u, v := IntervalMeetsTwo(log, from, a);
      assert CountWindow(log, u) <= p.perHour && CountWindow(log, v) <= p.perHour;
      TwoWindowsCover(log, from, u, v);
      if k :| 0 <= k < |log| && log[k].window == u && log[k].time < from { OneIsMissed(log, from, u, v, k); }
    } else {
      NoneInHour(log, from);
    }
  }

  // ---------------------------------------------------- exactly how many an hour holds

  /** So long do n gaps take. */
  function Stretch(n: int, gap: int): int { n * gap }

  lemma Stretches(n: nat, gap: nat)
    ensures Stretch(0, gap) == 0 <= Stretch(n, gap)
    ensures n > 0 ==> 0 <= Stretch(n - 1, gap) && Stretch(n - 1, gap) + gap == Stretch(n, gap)
    ensures gap == 0 ==> Stretch(n, gap) == 0
  {
    Product(n, gap);
    if n > 0 { Product(n - 1, gap); }
  }

  lemma {:induction false} Product(n: nat, gap: nat)
    ensures n * gap >= 0
  {
    if n > 0 {
      Product(n - 1, gap);
      assert (n - 1) * gap + gap == n * gap;
    }
  }

  lemma StretchesAdd(m: nat, n: nat, gap: nat)
    ensures Stretch(m + n, gap) == Stretch(m, gap) + Stretch(n, gap)
  {
  }

  lemma {:induction false} Span(log: seq<Admission>, from: int, gap: nat) returns (i: nat)
    requires CountHour(log, from) > 0
    requires forall i, j | 0 <= i < j < |log| :: log[j].time - log[i].time >= gap
    ensures i < |log| && from + Stretch(CountHour(log, from) - 1, gap) <= log[i].time < from + HOUR
  {
    hide Stretch;
    var n := |log| - 1;
    if from <= log[n].time < from + HOUR {
      i := n;
      Stretches(CountHour(log, from), gap);
      if CountHour(log[..n], from) > 0 {
        var k := Span(log[..n], from, gap);
        assert log[n].time - log[k].time >= gap;
        Stretches(CountHour(log[..n], from), gap);
      }
    } else {
      i := Span(log[..n], from, gap);
    }
  }

  lemma {:induction false} Fits(n: int, gap: int, most: int)
    requires gap > 0 && most >= 0
    ensures Stretch(n, gap) <= most <==> n <= most / gap
  {
    var q := most / gap;
    assert most == q * gap + most % gap && 0 <= most % gap < gap;
    if n <= q { Times(n, q, gap); }
    if n > q { Times(q + 1, n, gap); }
    assert (q + 1) * gap == q * gap + gap;
  }

  lemma {:induction false} Times(m: int, n: int, gap: int)
    requires m <= n && gap > 0
    ensures m * gap <= n * gap
    decreases n - m
  {
    if m < n {
      Times(m + 1, n, gap);
      assert (m + 1) * gap == m * gap + gap;
    }
  }

  /** Less than two counter windows, and no more than fit with a gap between them. */
  function MostInAnHour(p: Policy): int
    requires PolicyOk(p) && (p.perHour > 0 || p.minGap > 0)
  {
    if p.minGap == 0 then 2 * p.perHour - 1
    else
      var apart := (HOUR - 1) / p.minGap + 1;
      if p.perHour == 0 then apart else Min(2 * p.perHour - 1, apart)
  }

  lemma AnHourAdmitsAtMost(p: Policy, times: seq<int>, from: int)
    requires PolicyOk(p) && (p.perHour > 0 || p.minGap > 0) && Clocked(times)
    ensures CountHour(Run(p, times).log, from) <= MostInAnHour(p)
  {
    hide Run, CountHour, Clocked, Stretch;
    var log := Run(p, times).log;
    if p.perHour > 0 { AnHourAdmitsLessThanTwice(p, times, from); }
    if p.minGap > 0 {
      Fits(CountHour(log, from) - 1, p.minGap, HOUR - 1);
      if CountHour(log, from) > 0 {
        forall i, j | 0 <= i < j < |log| ensures log[j].time - log[i].time >= p.minGap {
          AdmissionsKeepTheGap(p, times, i, j);
        }
        var i := Span(log, from, p.minGap);
      } else {
        assert (HOUR - 1) / p.minGap >= 0;
      }
    }
  }

  function Every(t: int, n: nat, gap: int): seq<int> { seq(n, k requires 0 <= k < n => t + Stretch(k, gap)) }

  lemma RunMore(p: Policy, times: seq<int>, t: int)
    ensures Run(p, times + [t]) == Ask(p, Run(p, times), t)
  {
    assert (times + [t])[..|times|] == times;
  }

  lemma EveryMore(times: seq<int>, t: int, n: nat, gap: int)
    ensures times + Every(t, n, gap) ==
            if n == 0 then times else times + Every(t, n - 1, gap) + [t + Stretch(n - 1, gap)]
  {
  }

  lemma Counted(log: seq<Admission>, a: Admission, from: int)
    ensures CountHour(log + [a], from) == CountHour(log, from) + (if from <= a.time < from + HOUR then 1 else 0)
  {
    assert (log + [a])[..|log|] == log;
  }

  /** The hour counter has admitted count, and is good until then; without an hourly limit there is none. */
  predicate Counter(p: Policy, s: Store, count: nat, until: int) {
    if p.perHour == 0 then s.hour == None else s.hour == Some(Cell(count, until))
  }

  lemma AdmitOne(p: Policy, sys: System, t: int, count: nat, until: int)
    requires PolicyOk(p) && (p.perHour > 0 || p.minGap > 0) && t > 0 && !TooSoon(p, sys.store, t)
    requires Counter(p, sys.store, count, until) && (p.perHour > 0 ==> 0 < count < p.perHour && t < until)
    ensures var sys' := Ask(p, sys, t);
            && |sys'.log| == |sys.log| + 1 && sys'.log == sys.log + [sys'.log[|sys.log|]]
            && sys'.log[|sys.log|].time == t
            && Counter(p, sys'.store, count + 1, until) && !TooSoon(p, sys'.store, t + p.minGap)
  {
  }

  lemma AdmitFirst(p: Policy, sys: System, t: int)
    requires PolicyOk(p) && (p.perHour > 0 || p.minGap > 0) && t > 0 && !TooSoon(p, sys.store, t)
    requires if p.perHour == 0 then sys.store.hour == None else Get(sys.store.hour, t) == 0
    ensures var sys' := Ask(p, sys, t);
            && |sys'.log| == |sys.log| + 1 && sys'.log == sys.log + [sys'.log[|sys.log|]]
            && sys'.log[|sys.log|].time == t
            && Counter(p, sys'.store, 1, t + HOUR) && !TooSoon(p, sys'.store, t + p.minGap)
            && (sys'.store.last.Some? ==> sys'.store.last.value.value <= t || sys'.store.last == sys.store.last)
  {
  }

  /** Requests a gap apart are admitted as long as the hour's counter has room. */
  lemma {:induction false} Burst(p: Policy, times: seq<int>, t: int, n: nat, until: int, count: nat, from: int)
    requires PolicyOk(p) && (p.perHour > 0 || p.minGap > 0) && t > 0 && !TooSoon(p, Run(p, times).store, t)
    requires Counter(p, Run(p, times).store, count, until) && (p.perHour > 0 ==> count > 0 && count + n <= p.perHour)
    requires n > 0 ==> from <= t && t + Stretch(n - 1, p.minGap) < Min(until, from + HOUR)
    ensures var sys := Run(p, times + Every(t, n, p.minGap));
            && Counter(p, sys.store, count + n, until) && !TooSoon(p, sys.store, t + Stretch(n, p.minGap))
            && CountHour(sys.log, from) == CountHour(Run(p, times).log, from) + n
  {
    hide Run, CountHour, Ask, Every, TooSoon, Counter, Stretch;
    EveryMore(times, t, n, p.minGap);
    Stretches(n, p.minGap);
    if n > 0 {
      var before := times + Every(t, n - 1, p.minGap);
      var last := t + Stretch(n - 1, p.minGap);
      Stretches(n - 1, p.minGap);
      Burst(p, times, t, n - 1, until, count, from);
      RunMore(p, before, last);
      AdmitOne(p, Run(p, before), last, count + n - 1, until);
      Counted(Run(p, before).log, Run(p, before + [last]).log[|Run(p, before).log|], from);
    }
  }

  lemma AfterOne(p: Policy)
    requires PolicyOk(p) && (p.perHour > 0 || p.minGap > 0)
    ensures var sys := Run(p, [1]);
            && |sys.log| == 1 && sys.log[0].time == 1 && Counter(p, sys.store, 1, HOUR + 1)
            && forall t | t >= 1 + p.minGap :: !TooSoon(p, sys.store, t)
  {
    assert Run(p, []) == System(Store(None, None), []);
    RunMore(p, [], 1);
    assert [] + [1] == [1];
  }

  lemma CountOne(log: seq<Admission>, from: int)
    requires |log| == 1 && log[0].time == 1
    ensures CountHour(log, from) == if from <= 1 < from + HOUR then 1 else 0
  {
    assert log[..0] == [];
  }

  lemma {:induction false} EveryIsClocked(times: seq<int>, t: int, n: nat, gap: nat)
    requires Clocked(times) && t > 0 && (times != [] ==> times[|times| - 1] <= t)
    ensures Clocked(times + Every(t, n, gap)) && |Every(t, n, gap)| == n
    ensures n > 0 ==> (times + Every(t, n, gap))[|times| + n - 1] == t + Stretch(n - 1, gap)
  {
    hide Every, Clocked, Stretch;
    EveryMore(times, t, n, gap);
    EveryLength(t, n, gap);
    if n > 0 {
      EveryLength(t, n - 1, gap);
      EveryIsClocked(times, t, n - 1, gap);
      Stretches(n - 1, gap);
      ClockedMore(times + Every(t, n - 1, gap), t + Stretch(n - 1, gap));
    } else {
      assert times + Every(t, n, gap) == times;
    }
  }

  lemma OneIsClocked()
    ensures Clocked([1])
  {
  }

  lemma ClockedMore(times: seq<int>, t: int)
    requires Clocked(times) && t > 0 && (times != [] ==> times[|times| - 1] <= t)
    ensures Clocked(times + [t])
  {
  }

  /** If one counter window has room for all of them, they all come in it. */
  lemma OneWindow(p: Policy, n: nat) returns (times: seq<int>)
    requires PolicyOk(p) && (p.perHour > 0 || p.minGap > 0) && n > 0
    requires (p.perHour > 0 ==> n <= p.perHour) && Stretch(n - 1, p.minGap) <= HOUR - 1
    ensures Clocked(times) && CountHour(Run(p, times).log, 1) == n
  {
    hide Run, CountHour, Counter, TooSoon, Every, Stretch, Clocked;
    times := [1] + Every(1 + p.minGap, n - 1, p.minGap);
    AfterOne(p);
    OneIsClocked();
    CountOne(Run(p, [1]).log, 1);
    Stretches(n - 1, p.minGap);
    Burst(p, [1], 1 + p.minGap, n - 1, HOUR + 1, 1, 1);
    EveryIsClocked([1], 1 + p.minGap, n - 1, p.minGap);
  }

  /** What comes before the next counter window: a first request, then some more towards the end of its window. */
  lemma FirstWindow(p: Policy, n: nat) returns (times: seq<int>, from: int)
    requires PolicyOk(p) && 0 < n < p.perHour && Stretch(n, p.minGap) <= HOUR - 1
    ensures from == HOUR - Stretch(n - 1, p.minGap) && times == [1] + Every(from, n, p.minGap)
    ensures Counter(p, Run(p, times).store, n + 1, HOUR + 1) && !TooSoon(p, Run(p, times).store, HOUR + p.minGap)
    ensures CountHour(Run(p, times).log, from) == n && Clocked(times) && times[|times| - 1] == HOUR
  {
    hide Run, CountHour, Counter, TooSoon, Every, Stretch, Clocked;
    from := HOUR - Stretch(n - 1, p.minGap);
    times := [1] + Every(from, n, p.minGap);
    Stretches(n, p.minGap);
    AfterOne(p);
    OneIsClocked();
    CountOne(Run(p, [1]).log, from);
    Burst(p, [1], from, n, HOUR + 1, 1, from);
    EveryIsClocked([1], from, n, p.minGap);
  }

  lemma EveryLength(t: int, n: nat, gap: int)
    ensures |Every(t, n, gap)| == n
  {
  }

  /** Otherwise two windows are used in full, but for the first request, which comes before the hour. */
  lemma TwoWindows(p: Policy, n: nat) returns (times: seq<int>, from: int)
    requires PolicyOk(p) && 0 < n < p.perHour && Stretch(n + (p.perHour - 1), p.minGap) <= HOUR - 1
    ensures Clocked(times) && CountHour(Run(p, times).log, from) == n + p.perHour
  {
    hide Run, CountHour, Counter, TooSoon, Every, Ask, Stretch, Clocked;
    var g := p.minGap;
    StretchesAdd(n, p.perHour - 1, g);
    Stretches(n, g);
    Stretches(p.perHour - 1, g);
    var first;
    first, from := FirstWindow(p, n);
    var v := HOUR + Max(g, 1);
    assert !TooSoon(p, Run(p, first).store, v) by { NoGapNoWait(p, Run(p, first).store, v); }
    assert Get(Run(p, first).store.hour, v) == 0 by { WindowOver(p, Run(p, first).store, n + 1, v); }
    AdmitFirst(p, Run(p, first), v);
    RunMore(p, first, v);
    Counted(Run(p, first).log, Run(p, first + [v]).log[|Run(p, first).log|], from);
    ClockedMore(first, v);
    Burst(p, first + [v], v + g, p.perHour - 1, v + HOUR, 1, from);
    EveryIsClocked(first + [v], v + g, p.perHour - 1, g);
    times := first + [v] + Every(v + g, p.perHour - 1, g);
  }

  lemma NoGapNoWait(p: Policy, s: Store, t: int)
    ensures p.minGap <= 0 ==> !TooSoon(p, s, t)
  {
  }

  lemma WindowOver(p: Policy, s: Store, count: nat, t: int)
    requires p.perHour > 0 && Counter(p, s, count, HOUR + 1) && t > HOUR
    ensures Get(s.hour, t) == 0
  {
  }

  /** For every policy, so many are admitted in some hour. */
  lemma TheHourBoundIsReached(p: Policy) returns (times: seq<int>, from: int)
    requires PolicyOk(p) && (p.perHour > 0 || p.minGap > 0)
    ensures Clocked(times) && CountHour(Run(p, times).log, from) == MostInAnHour(p)
  {
    hide Run, CountHour, Clocked;
    var n := MostInAnHour(p);
    assert Stretch(n - 1, p.minGap) <= HOUR - 1 by {
      if p.minGap > 0 { Fits(n - 1, p.minGap, HOUR - 1); }
    }
    assert n > 0;
    if p.perHour == 0 || n <= p.perHour {
      times := OneWindow(p, n);
      from := 1;
    } else {
      times, from := TwoWindows(p, n - p.perHour);
    }
  }

  /** A refusal says how long: for the gap, until it has passed since the last request; for the hour, until its counter
      lapses.  An admission counts the request, in a new hour if the last has lapsed, and remembers it. */
  lemma EnforcementMeans(p: Policy, s: Store, now: int)
    requires PolicyOk(p) && now > 0
    requires s.last.Some? ==> 0 < s.last.value.value <= now && s.last.value.until == s.last.value.value + 3600
    requires s.hour.Some? ==> s.hour.value.value >= 1 && s.hour.value.until <= now + 3600
    ensures var (s', wait) := Enforced(p, s, now);
            var early := s.last.Some? && now < s.last.value.value + p.minGap;
            var count := if s.hour.Some? && now < s.hour.value.until then s.hour.value.value else 0;
            if early && now < s.last.value.until then wait == s.last.value.value + p.minGap - now && s' == s
            else if p.perHour > 0 && count >= p.perHour then wait == s.hour.value.until - now && s' == s
            else
              && wait == 0
              && s'.hour == (if p.perHour == 0 then s.hour
                             else if count == 0 then Some(Cell(1, now + 3600))
                             else Some(Cell(count + 1, s.hour.value.until)))
              && s'.last == (if p.minGap == 0 then s.last else Some(Cell(now, now + 3600)))
  {
  }

  // ------------------------------------------------------------------ the peek

  /** What every reachable store looks like. */
  ghost predicate Reachable(s: Store, now: int) {
    && (s.last.Some? ==> 0 < s.last.value.value <= now && s.last.value.until == s.last.value.value + HOUR)
    && (s.hour.Some? ==> s.hour.value.value >= 1 && s.hour.value.until <= now + HOUR)
  }

  lemma {:induction false} RunIsReachable(p: Policy, times: seq<int>)
    requires PolicyOk(p) && Clocked(times)
    ensures Reachable(Run(p, times).store, if times == [] then 0 else times[|times| - 1])
  {
    if times != [] {
      var n := |times| - 1;
      RunIsReachable(p, times[..n]);
      assert n > 0 ==> times[n - 1] <= times[n];
    }
  }

  /** The peek answers 0 exactly when enforcement would admit; otherwise waiting what it says, with
      nobody else asking, makes enforcement admit, and no shorter wait does. */
  lemma {:induction false} PeekAgreesWithEnforcement(p: Policy, times: seq<int>, now: int)
    requires PolicyOk(p) && Clocked(times) && now > 0 && (times != [] ==> times[|times| - 1] <= now)
    ensures var s := Run(p, times).store;
            var wait := Peeked(p, s, now);
            && wait >= 0
            && (wait == 0 <==> Enforced(p, s, now).1 == 0)
            && Enforced(p, s, now + wait).1 == 0
            && (forall t | now <= t < now + wait :: Enforced(p, s, t).1 > 0)
  {
    RunIsReachable(p, times);
    var s := Run(p, times).store;
    var wait := Peeked(p, s, now);
    forall t | now <= t < now + wait ensures Enforced(p, s, t).1 > 0 { }
  }
}
