/** Where the ledger escapes a limit, and so exactly which limits hold (cmd/api/access.go). */
module QuotaLimits {
  import opened Numbers
  import opened Wrappers
  import opened QuotaReservations
  import opened QuotaWindows
  import opened QuotaLedger
  import opened QuotaSafety

  // ------------------------------------------------------------ runs, piece by piece

  lemma RunMore(acc: Account, rules: Rules, start: System, steps: seq<Step>, step: Step)
    ensures Run(acc, start, steps + [step]) == Do(acc, Run(acc, start, steps), step)
    ensures RunObeys(acc, All, rules, start, steps + [step]) <==>
            RunObeys(acc, All, rules, start, steps) && Obeys(acc, All, rules, Run(acc, start, steps), step)
  {
    hide Do, Obeys;
    assert (steps + [step])[..|steps|] == steps;
  }

  lemma {:induction false} RunConcat(acc: Account, rules: Rules, start: System, first: seq<Step>, rest: seq<Step>)
    ensures Run(acc, start, first + rest) == Run(acc, Run(acc, start, first), rest)
    ensures RunObeys(acc, All, rules, start, first + rest) <==>
            RunObeys(acc, All, rules, start, first) && RunObeys(acc, All, rules, Run(acc, start, first), rest)
  {
    hide Do, Obeys;
    if rest == [] {
      assert first + rest == first;
    } else {
      var n := |rest| - 1;
      RunConcat(acc, rules, start, first, rest[..n]);
      assert first + rest == (first + rest[..n]) + [rest[n]];
      RunMore(acc, rules, start, first + rest[..n], rest[n]);
    }
  }

  lemma RunThree(acc: Account, rules: Rules, start: System, a: Step, b: Step, c: Step)
    ensures var s1 := Do(acc, start, a);
            var s2 := Do(acc, s1, b);
            && Run(acc, start, [a, b, c]) == Do(acc, s2, c)
            && (RunObeys(acc, All, rules, start, [a, b, c]) <==>
                Obeys(acc, All, rules, start, a) && Obeys(acc, All, rules, s1, b) && Obeys(acc, All, rules, s2, c))
  {
    hide Do, Obeys;
    assert Run(acc, start, []) == start;
    RunMore(acc, rules, start, [], a);
    RunMore(acc, rules, start, [a], b);
    RunMore(acc, rules, start, [a, b], c);
    assert [] + [a] == [a] && [a] + [b] == [a, b] && [a, b] + [c] == [a, b, c];
  }

  predicate Within(r: Rules, rules: Rules) {
    && (r.starts ==> rules.starts) && (r.bills ==> rules.bills)
    && (r.resets ==> rules.resets) && (r.readings ==> rules.readings)
  }

  /** Rules asked of everybody hold of fewer, and so do fewer rules. */
  lemma {:induction false} Narrowed(acc: Account, scope: Scope, r: Rules, rules: Rules, start: System, steps: seq<Step>)
    requires RunObeys(acc, All, rules, start, steps) && Within(r, rules)
    ensures RunObeys(acc, scope, r, start, steps)
  {
    hide Do, InWindows, StillHeld, BillFits;
    if steps != [] { Narrowed(acc, scope, r, rules, start, steps[..|steps| - 1]); }
  }

  // ----------------------------------------------------------------- one request

  function Opening(now: nat): System { System(Store(map[], map[]), now, None, map[], []) }

  /** The answer before anything is used. */
  function Clean(acc: Account, via: Option<string>, last: Option<int>, now: nat): Decision {
    var limits := Judged(SpecsFor(acc, via), [], LastFor(acc, via, last), now);
    var counter := CounterFor(acc, via);
    if limits == [] then Decision(true, counter, [], 0, None, None, None, false, "")
    else Decision(false, counter, limits, 0, Some(limits[0].remaining), Some(limits[0].windowStart), limits[0].resetAt,
                  false, "")
  }

  lemma CleanAnswers(acc: Account, via: Option<string>, last: Option<int>, now: nat)
    requires CanBill(PolicyFor(acc, via))
    ensures Answers(PolicyFor(acc, via), CounterFor(acc, via), [], LastFor(acc, via, last), now,
                    Clean(acc, via, last, now))
    ensures Fits(acc, via, Clean(acc, via, last, now))
    ensures forall i | 0 <= i < |SpecsFor(acc, via)| ::
              var l := Clean(acc, via, last, now).limits[i];
              && l.spec == SpecsFor(acc, via)[i] && l.used == 0
              && l.windowStart == UsageStart(l.spec, LastFor(acc, via, last), now)
  {
    hide UsageStart, WindowOf;
    var d := Clean(acc, via, last, now);
    forall i ensures !OutAt(d.limits, i) {
      if 0 <= i < |d.limits| { assert SpecsFor(acc, via)[i].limit > 0; }
    }
    ReadFits(acc, via, [], LastFor(acc, via, last), now, d);
  }

  lemma NotBlocked(acc: Account, via: Option<string>, last: Option<int>, now: nat)
    ensures !Clean(acc, via, last, now).blocked
  {
  }

  /** r reserves, starts its row and bills what it asked for. */
  function Use(r: string, amount: nat): seq<Step> { [DoReserve(r, amount), DoStart(r), DoBill(r, amount)] }

  predicate Roomy(sys: System, d: Decision, amount: nat) {
    forall i | 0 <= i < |d.limits| :: amount <= Headroom(sys.store, d, i, sys.now)
  }

  function Used(acc: Account, sys: System, r: string, amount: nat): System
    requires r in sys.readings
  {
    var rd := sys.readings[r];
    sys.(store := Take(sys.store, rd.decision, r, amount, sys.now, |rd.decision.limits|),
         book := sys.book + [Entry(r, rd.via, rd.decision, Some(sys.now), Some(amount))])
  }

  lemma FindLast(book: seq<Entry>, e: Entry)
    ensures FindEntry(book + [e], e.request) == Some(|book|)
  {
  }

  lemma UseRuns(acc: Account, rules: Rules, sys: System, r: string, amount: nat)
    requires AccountOk(acc) && r in sys.readings && FindEntry(sys.book, r).None? && amount > 0
    requires sys.last.Some? ==> sys.last.value <= sys.now
    requires var rd := sys.readings[r];
             !rd.decision.blocked && Fits(acc, rd.via, rd.decision) && RoomEverywhere(sys.store, rd.decision, sys.now)
    ensures Run(acc, sys, Use(r, amount)) == Used(acc, sys, r, amount)
    ensures var rd := sys.readings[r];
            RunObeys(acc, All, rules, sys, Use(r, amount)) <==>
            && (rules.readings ==> StillHeld(sys, rd))
            && (rules.starts ==> InWindows(acc, sys, Entry(r, rd.via, rd.decision, None, None)))
            && (rules.bills ==> Roomy(sys, rd.decision, amount))
  {
    hide AccountOk, Fits, Take, Roomy, RoomEverywhere, DistinctIds, BillFits, StillHeld;
    var rd := sys.readings[r];
    var d := rd.decision;
    FitsIsDistinct(acc, rd.via, d);
    var e := Entry(r, rd.via, d, None, None);
    var s1 := sys.(store := Take(sys.store, d, r, amount, sys.now, |d.limits|), book := sys.book + [e]);
    NothingToTake(sys.store, d, r, amount, sys.now);
    assert Do(acc, sys, DoReserve(r, amount)) == s1;
    FindLast(sys.book, e);
    var e2 := e.(startedAt := Some(sys.now));
    var s2 := s1.(book := sys.book + [e2]);
    assert s1.book[|sys.book| := e2] == s2.book;
    assert Do(acc, s1, DoStart(r)) == s2;
    FindLast(sys.book, e2);
    var e3 := e2.(tokens := Some(amount));
    assert s2.book[|sys.book| := e3] == sys.book + [e3];
    assert Do(acc, s2, DoBill(r, amount)) == Used(acc, sys, r, amount);
    RunThree(acc, rules, sys, DoReserve(r, amount), DoStart(r), DoBill(r, amount));
    BillFitsIff(acc, sys, s2, e2, amount);
  }

  lemma NothingToTake(s: Store, d: Decision, r: string, amount: int, now: int)
    ensures d.limits == [] ==> Take(s, d, r, amount, now, |d.limits|) == s
  {
  }

  /** What a request has taken covers the amount it asked for exactly if every window had room for that. */
  lemma BillFitsIff(acc: Account, sys: System, after: System, e: Entry, amount: nat)
    requires DistinctIds(e.decision) && after.now == sys.now && e.startedAt == Some(sys.now)
    requires after.last.Some? ==> after.last.value <= sys.now
    requires after.store == Take(sys.store, e.decision, e.request, amount, sys.now, |e.decision.limits|)
    ensures BillFits(acc, after, e, amount) <==> Roomy(sys, e.decision, amount)
  {
    hide Take, Headroom, DistinctIds;
    var d := e.decision;
    forall i | 0 <= i < |d.limits|
      ensures Reserved(after.store, SlotAt(d, i, e.request), sys.now) == Min(amount, Headroom(sys.store, d, i, sys.now))
    {
      TakeReservations(sys.store, d, e.request, amount, sys.now, |d.limits|, SlotAt(d, i, e.request));
      FindSlotAt(d, e.request, i, |d.limits|);
    }
  }

  // ----------------------------------------------------------------- two requests

  /** What happens between two readings. */
  datatype Gap = Wait(seconds: nat) | Resets

  function Between(g: Gap): Step { if g.Wait? then Tick(g.seconds) else DoReset }

  function Later(now: nat, g: Gap): nat { if g.Wait? then now + g.seconds * SECOND else now }

  function LastAfter(now: nat, g: Gap): Option<int> { if g.Wait? then None else Some(now) }

  /** Both read before either has used anything. */
  function Reads(acc: Account, now: nat, g: Gap, va: Option<string>, vb: Option<string>): seq<Step> {
    [DoRead("a", va, Clean(acc, va, None, now)), Between(g),
     DoRead("b", vb, Clean(acc, vb, LastAfter(now, g), Later(now, g)))]
  }

  function HaveRead(acc: Account, now: nat, g: Gap, va: Option<string>, vb: Option<string>): System {
    System(Store(map[], map[]), Later(now, g), LastAfter(now, g),
           map["a" := Reading(va, Clean(acc, va, None, now), {}),
               "b" := Reading(vb, Clean(acc, vb, LastAfter(now, g), Later(now, g)), {})], [])
  }

  lemma ReadsRun(acc: Account, rules: Rules, now: nat, g: Gap, va: Option<string>, vb: Option<string>)
    requires CanBill(PolicyFor(acc, va)) && CanBill(PolicyFor(acc, vb))
    ensures var steps := Reads(acc, now, g, va, vb);
            && Run(acc, Opening(now), steps) == HaveRead(acc, now, g, va, vb)
            && RunObeys(acc, All, rules, Opening(now), steps)
  {
    hide Answers, Clean, CanBill;
    CleanAnswers(acc, va, None, now);
    CleanAnswers(acc, vb, LastAfter(now, g), Later(now, g));
    assert Completed([]) == {};
    var readA := DoRead("a", va, Clean(acc, va, None, now));
    assert Do(acc, Opening(now), readA) ==
           Opening(now).(readings := map["a" := Reading(va, Clean(acc, va, None, now), {})]);
    RunThree(acc, rules, Opening(now), readA, Between(g),
             DoRead("b", vb, Clean(acc, vb, LastAfter(now, g), Later(now, g))));
  }

  predicate AtMostEach(acc: Account, via: Option<string>, amount: nat) {
    forall i | 0 <= i < |SpecsFor(acc, via)| :: amount <= SpecsFor(acc, via)[i].limit
  }

  lemma AtMostCanBill(acc: Account, via: Option<string>, amount: nat)
    requires AtMostEach(acc, via, amount) && amount > 0
    ensures CanBill(PolicyFor(acc, via))
  {
    forall i | 0 <= i < |Specs(PolicyFor(acc, via))| ensures Specs(PolicyFor(acc, via))[i].limit > 0 {
      assert amount <= SpecsFor(acc, via)[i].limit;
    }
  }

  predicate Apart(d: Decision, d': Decision) {
    forall i, j | 0 <= i < |d.limits| && 0 <= j < |d'.limits| :: KeyAt(d, i) != KeyAt(d', j)
  }

  /** Where nothing is pending there is room for what no limit is below. */
  lemma CleanIsRoomy(acc: Account, sys: System, via: Option<string>, last: Option<int>, now: nat, amount: nat)
    requires CanBill(PolicyFor(acc, via))
    requires var d := Clean(acc, via, last, now);
             forall i | 0 <= i < |d.limits| :: Pending(sys.store, KeyAt(d, i), sys.now) == 0
    ensures Roomy(sys, Clean(acc, via, last, now), amount) <==> AtMostEach(acc, via, amount)
    ensures RoomEverywhere(sys.store, Clean(acc, via, last, now), sys.now)
  {
    CleanAnswers(acc, via, last, now);
    hide Clean, Pending;
    var d := Clean(acc, via, last, now);
    assert |d.limits| == |SpecsFor(acc, via)|;
    forall i | 0 <= i < |d.limits| ensures 0 < Headroom(sys.store, d, i, sys.now) == SpecsFor(acc, via)[i].limit {
      assert Specs(PolicyFor(acc, via))[i].limit > 0;
    }
  }

  /** What one request has taken does not show in other windows, nor anywhere once it is released. */
  lemma LeavesNothing(d: Decision, via: Option<string>, r: string, amount: nat, now: int, k: PendingKey)
    requires DistinctIds(d) && amount > 0 && RoomEverywhere(Store(map[], map[]), d, now)
    ensures var n := |d.limits|;
            var taken := Take(Store(map[], map[]), d, r, amount, now, n);
            && Pending(Give(taken, d, r, now, n), k, now) == 0
            && (FindKey(d, k, n).None? ==> Pending(taken, k, now) == 0)
  {
    hide Take, Give, Share, DistinctIds, RoomEverywhere;
    var e := Entry(r, via, d, None, None);
    var nothing := Store(map[], map[]);
    NewShare(nothing, e, amount, now, k);
    GivePendingShare(Take(nothing, d, r, amount, now, |d.limits|), e, now, k);
  }

  function AfterFirst(acc: Account, now: nat, g: Gap, va: Option<string>, vb: Option<string>, x: nat,
                      release: bool): System
  {
    var used := Used(acc, HaveRead(acc, now, g, va, vb), "a", x);
    if release then used.(store := Release(used.store, Clean(acc, va, None, now), "a", used.now)) else used
  }

  function Released(r: string, release: bool): seq<Step> { if release then [DoRelease(r)] else [] }

  function FirstSteps(acc: Account, now: nat, g: Gap, va: Option<string>, vb: Option<string>, x: nat, release: bool)
    : seq<Step>
  {
    Reads(acc, now, g, va, vb) + (Use("a", x) + Released("a", release))
  }

  function EntryA(acc: Account, now: nat, va: Option<string>): Entry {
    Entry("a", va, Clean(acc, va, None, now), None, None)
  }

  lemma FirstRuns(acc: Account, rules: Rules, now: nat, g: Gap, va: Option<string>, vb: Option<string>, x: nat,
                  release: bool)
    requires AccountOk(acc) && AtMostEach(acc, va, x) && x > 0 && CanBill(PolicyFor(acc, vb))
    ensures var steps := FirstSteps(acc, now, g, va, vb, x, release);
            && Run(acc, Opening(now), steps) == AfterFirst(acc, now, g, va, vb, x, release)
            && (RunObeys(acc, All, rules, Opening(now), steps) <==>
                rules.starts ==> InWindows(acc, HaveRead(acc, now, g, va, vb), EntryA(acc, now, va)))
  {
    hide AccountOk, Clean, InWindows, Roomy, RoomEverywhere, Do, CanBill, AtMostEach, Obeys, Give, Take;
    AtMostCanBill(acc, va, x);
    CleanAnswers(acc, va, None, now);
    var sys := HaveRead(acc, now, g, va, vb);
    ReadsRun(acc, rules, now, g, va, vb);
    CleanIsRoomy(acc, sys, va, None, now, x);
    NotBlocked(acc, va, None, now);
    UseRuns(acc, rules, sys, "a", x);
    ReleaseRuns(acc, rules, sys, "a", x, release);
    RunConcat(acc, rules, sys, Use("a", x), Released("a", release));
    RunConcat(acc, rules, Opening(now), Reads(acc, now, g, va, vb), Use("a", x) + Released("a", release));
  }

  lemma ReleaseRuns(acc: Account, rules: Rules, sys: System, r: string, amount: nat, release: bool)
    requires r in sys.readings
    ensures var used := Used(acc, sys, r, amount);
            && RunObeys(acc, All, rules, used, Released(r, release))
            && Run(acc, used, Released(r, release)) ==
               if release then used.(store := Release(used.store, sys.readings[r].decision, r, used.now)) else used
  {
    var used := Used(acc, sys, r, amount);
    FindLast(sys.book, used.book[|sys.book|]);
    assert Run(acc, used, []) == used;
    RunMore(acc, rules, used, [], DoRelease(r));
    assert [] + [DoRelease(r)] == [DoRelease(r)];
  }

  function Pair(acc: Account, now: nat, g: Gap, va: Option<string>, vb: Option<string>, x: nat, y: nat, release: bool)
    : seq<Step>
  {
    FirstSteps(acc, now, g, va, vb, x, release) + Use("b", y)
  }

  /** The ledger after both, whose rows start at the same instant. */
  function PairBook(acc: Account, now: nat, g: Gap, va: Option<string>, vb: Option<string>, x: nat, y: nat): seq<Entry>
  {
    var t := Later(now, g);
    [EntryA(acc, now, va).(startedAt := Some(t), tokens := Some(x)),
     Entry("b", vb, Clean(acc, vb, LastAfter(now, g), t), Some(t), Some(y))]
  }

  /** Two requests that cannot see each other's reservation both bill in full. */
  lemma PairRuns(acc: Account, rules: Rules, now: nat, g: Gap, va: Option<string>, vb: Option<string>, x: nat, y: nat,
                 release: bool)
    requires AccountOk(acc) && AtMostEach(acc, va, x) && AtMostEach(acc, vb, y) && x > 0 && y > 0
    requires release || Apart(Clean(acc, va, None, now), Clean(acc, vb, LastAfter(now, g), Later(now, g)))
    requires rules.starts ==> InWindows(acc, HaveRead(acc, now, g, va, vb), EntryA(acc, now, va))
    requires rules.readings ==> !release
    ensures var steps := Pair(acc, now, g, va, vb, x, y, release);
            var end := Run(acc, Opening(now), steps);
            && RunObeys(acc, All, rules, Opening(now), steps)
            && end.book == PairBook(acc, now, g, va, vb, x, y) && end.now == Later(now, g)
            && end.last == LastAfter(now, g)
  {
    hide AccountOk, Clean, InWindows, AtMostEach, CanBill, Run, RunObeys, AfterFirst, Apart;
    AtMostCanBill(acc, vb, y);
    FirstRuns(acc, rules, now, g, va, vb, x, release);
    SecondRuns(acc, rules, now, g, va, vb, x, y, release);
    RunConcat(acc, rules, Opening(now), FirstSteps(acc, now, g, va, vb, x, release), Use("b", y));
  }

  lemma SecondRuns(acc: Account, rules: Rules, now: nat, g: Gap, va: Option<string>, vb: Option<string>,
                   x: nat, y: nat, release: bool)
    requires AccountOk(acc) && AtMostEach(acc, va, x) && AtMostEach(acc, vb, y) && x > 0 && y > 0
    requires release || Apart(Clean(acc, va, None, now), Clean(acc, vb, LastAfter(now, g), Later(now, g)))
    requires rules.readings ==> !release
    ensures var sys := AfterFirst(acc, now, g, va, vb, x, release);
            var end := Run(acc, sys, Use("b", y));
            && RunObeys(acc, All, rules, sys, Use("b", y))
            && end.book == PairBook(acc, now, g, va, vb, x, y) && end.now == Later(now, g)
            && end.last == LastAfter(now, g)
  {
    hide AccountOk, Clean, InWindows, Roomy, RoomEverywhere, AtMostEach, CanBill, Run, RunObeys, Give, Take;
    hide StillHeld, Apart, Fits, Answers;
    var sys := AfterFirst(acc, now, g, va, vb, x, release);
    AtMostCanBill(acc, vb, y);
    SecondHasRoom(acc, now, g, va, vb, x, y, release);
    CleanAnswers(acc, vb, LastAfter(now, g), Later(now, g));
    NotBlocked(acc, vb, LastAfter(now, g), Later(now, g));
    UseRuns(acc, rules, sys, "b", y);
    NowInWindows(acc, sys, "b", vb);
    if !release { ApartIsHeld(acc, now, g, va, vb, x); }
  }

  /** A row that starts at the instant of its reading, with no reset since, is in its windows. */
  lemma NowInWindows(acc: Account, sys: System, r: string, via: Option<string>)
    requires CanBill(PolicyFor(acc, via))
    ensures InWindows(acc, sys, Entry(r, via, Clean(acc, via, sys.last, sys.now), None, None))
  {
    CleanAnswers(acc, via, sys.last, sys.now);
    hide UsageStart, Clean;
  }

  lemma SecondHasRoom(acc: Account, now: nat, g: Gap, va: Option<string>, vb: Option<string>, x: nat, y: nat,
                      release: bool)
    requires AccountOk(acc) && AtMostEach(acc, va, x) && AtMostEach(acc, vb, y) && x > 0 && y > 0
    requires release || Apart(Clean(acc, va, None, now), Clean(acc, vb, LastAfter(now, g), Later(now, g)))
    ensures var sys, d := AfterFirst(acc, now, g, va, vb, x, release), Clean(acc, vb, LastAfter(now, g), Later(now, g));
            Roomy(sys, d, y) && RoomEverywhere(sys.store, d, sys.now)
  {
    hide AccountOk, Clean, AtMostEach, Give, Take, DistinctIds, Fits, Answers, CanBill, Roomy, RoomEverywhere;
    var later := Later(now, g);
    var da, db := Clean(acc, va, None, now), Clean(acc, vb, LastAfter(now, g), later);
    var sys := AfterFirst(acc, now, g, va, vb, x, release);
    AtMostCanBill(acc, va, x);
    AtMostCanBill(acc, vb, y);
    CleanAnswers(acc, va, None, now);
    FitsIsDistinct(acc, va, da);
    NothingToTake(Store(map[], map[]), da, "a", x, later);
    CleanIsRoomy(acc, HaveRead(acc, now, g, va, vb), va, None, now, x);
    forall i | 0 <= i < |db.limits| ensures Pending(sys.store, KeyAt(db, i), sys.now) == 0 {
      LeavesNothing(da, va, "a", x, later, KeyAt(db, i));
    }
    CleanIsRoomy(acc, sys, vb, LastAfter(now, g), later, y);
  }

  lemma ApartIsHeld(acc: Account, now: nat, g: Gap, va: Option<string>, vb: Option<string>, x: nat)
    requires Apart(Clean(acc, va, None, now), Clean(acc, vb, LastAfter(now, g), Later(now, g)))
    ensures var sys := AfterFirst(acc, now, g, va, vb, x, false); StillHeld(sys, sys.readings["b"])
  {
    hide Clean, Take;
  }

  lemma PairUsage(acc: Account, sys: System, a: Entry, b: Entry, via: Option<string>, i: nat)
    requires sys.book == [a, b] && a.startedAt == b.startedAt == Some(sys.now) && a.tokens.Some? && b.tokens.Some?
    requires i < |SpecsFor(acc, via)| &&
             UsageStart(SpecsFor(acc, via)[i], LastFor(acc, via, sys.last), sys.now) <= sys.now
    requires !Own(acc, via) || (a.via == via && b.via == via)
    ensures UsageNow(acc, sys, via, i) == a.tokens.value + b.tokens.value
  {
    hide UsageStart;
    var key := if Own(acc, via) then via else None;
    var start := UsageStart(SpecsFor(acc, via)[i], LastFor(acc, via, sys.last), sys.now);
    LedgerStep(sys.book, key, start);
    assert sys.book[..1] == [sys.book[0]] && sys.book[..1][..0] == [];
    LedgerStep(sys.book[..1], key, start);
  }

  /** The span of a window that slides is not negative. */
  predicate Spans(spec: Spec) { Slides(spec.kind) ==> RollingSpan(spec.seconds) >= 0 }

  lemma SpansStart(spec: Spec, last: Option<int>, now: nat)
    requires Spans(spec) && now >= EPOCH
    ensures UsageStart(spec, last, now) <= now
  {
    if !Slides(spec.kind) { StartIsPast(spec, last, now); }
    hide RollingSpan;
  }

  lemma LimitIsNonNegative(acc: Account, via: Option<string>, i: nat)
    requires AccountOk(acc) && i < |SpecsFor(acc, via)|
    ensures SpecsFor(acc, via)[i].limit >= 0
  {
  }

  // --------------------------------------------------- what honesty cannot do without

  /** The pair of equals a principal can be, with the usage it leads to. */
  lemma TwiceOver(acc: Account, rules: Rules, now: nat, g: Gap, via: Option<string>, i: nat, x: nat, release: bool)
    requires AccountOk(acc) && AtMostEach(acc, via, x) && x > 0 && now >= EPOCH
    requires i < |SpecsFor(acc, via)| && Spans(SpecsFor(acc, via)[i])
    requires release || Apart(Clean(acc, via, None, now), Clean(acc, via, LastAfter(now, g), Later(now, g)))
    requires rules.starts ==> InWindows(acc, HaveRead(acc, now, g, via, via), EntryA(acc, now, via))
    requires rules.readings ==> !release
    ensures var steps := Pair(acc, now, g, via, via, x, x, release);
            && RunObeys(acc, All, rules, Opening(now), steps)
            && UsageNow(acc, Run(acc, Opening(now), steps), via, i) == 2 * x
  {
    hide AccountOk, Clean, InWindows, AtMostEach, Run, RunObeys, Apart, Spans, UsageNow, SpecsFor;
    PairRuns(acc, rules, now, g, via, via, x, x, release);
    var end := Run(acc, Opening(now), Pair(acc, now, g, via, via, x, x, release));
    SpansStart(SpecsFor(acc, via)[i], LastFor(acc, via, end.last), end.now);
    PairUsage(acc, end, end.book[0], end.book[1], via, i);
  }

  lemma {:induction false} LeastLimit(specs: seq<Spec>) returns (i: nat)
    requires specs != []
    ensures i < |specs| && forall j | 0 <= j < |specs| :: specs[i].limit <= specs[j].limit
  {
    var n := |specs| - 1;
    if n == 0 {
      i := 0;
    } else {
      i := LeastLimit(specs[..n]);
      assert forall j | 0 <= j < n :: specs[..n][j] == specs[j];
      if specs[n].limit < specs[i].limit { i := n; }
    }
  }

  lemma LeastIsPositive(acc: Account, via: Option<string>, i: nat)
    requires CanBill(PolicyFor(acc, via)) && i < |SpecsFor(acc, via)|
    ensures SpecsFor(acc, via)[i].limit > 0
  {
    assert Specs(PolicyFor(acc, via))[i].limit > 0;
  }

  lemma SameInstant(acc: Account, now: nat, va: Option<string>, vb: Option<string>)
    requires CanBill(PolicyFor(acc, va))
    ensures InWindows(acc, HaveRead(acc, now, Wait(0), va, vb), EntryA(acc, now, va))
  {
    NowInWindows(acc, HaveRead(acc, now, Wait(0), va, vb), "a", va);
    assert now + 0 * SECOND == now;
  }

  /** Readings outlived by a request that both bills and releases in between let a limit be used twice over,
      though every row starts in its window and every bill is covered. */
  lemma StaleReadingOverruns(acc: Account, via: Option<string>) returns (steps: seq<Step>, i: nat)
    requires AccountOk(acc) && CanBill(PolicyFor(acc, via)) && SpecsFor(acc, via) != []
    requires forall j | 0 <= j < |SpecsFor(acc, via)| :: Spans(SpecsFor(acc, via)[j])
    ensures RunObeys(acc, All, HONEST.(readings := false), Opening(EPOCH), steps) && i < |SpecsFor(acc, via)|
    ensures UsageNow(acc, Run(acc, Opening(EPOCH), steps), via, i) == 2 * SpecsFor(acc, via)[i].limit
            > SpecsFor(acc, via)[i].limit
  {
    hide AccountOk, CanBill, RunObeys, Run, InWindows, Apart, Spans;
    i := LeastLimit(SpecsFor(acc, via));
    var m := SpecsFor(acc, via)[i].limit;
    LeastIsPositive(acc, via, i);
    assert AtMostEach(acc, via, m);
    SameInstant(acc, EPOCH, via, via);
    steps := Pair(acc, EPOCH, Wait(0), via, via, m, m, true);
    TwiceOver(acc, HONEST.(readings := false), EPOCH, Wait(0), via, i, m, true);
  }

  lemma NoStarts(acc: Account, start: System, steps: seq<Step>)
    requires RunObeys(acc, All, HONEST.(starts := false), start, steps)
    requires forall k | 0 <= k < |steps| :: !steps[k].DoStart?
    ensures RunObeys(acc, All, HONEST, start, steps)
  {
    hide Do, InWindows, StillHeld, BillFits;
    if steps != [] { NoStarts(acc, start, steps[..|steps| - 1]); }
  }

  /** The one late step of a pair: what comes before it is honest, and so is what follows. */
  lemma LateStep(acc: Account, now: nat, g: Gap, via: Option<string>, x: nat)
    requires AccountOk(acc) && AtMostEach(acc, via, x) && x > 0
    requires Apart(Clean(acc, via, None, now), Clean(acc, via, LastAfter(now, g), Later(now, g)))
    requires !InWindows(acc, HaveRead(acc, now, g, via, via), EntryA(acc, now, via))
    ensures var steps := Pair(acc, now, g, via, via, x, x, false);
            && |steps| == 9 && steps[4] == DoStart("a")
            && RunObeys(acc, All, HONEST, Opening(now), steps[..4])
            && !Obeys(acc, All, HONEST, Run(acc, Opening(now), steps[..4]), steps[4])
            && RunObeys(acc, All, HONEST, Run(acc, Opening(now), steps[..5]), steps[5..])
  {
    hide AccountOk, Clean, InWindows, AtMostEach, CanBill, Run, RunObeys, Apart, Obeys, Do;
    var free := HONEST.(starts := false);
    var steps := Pair(acc, now, g, via, via, x, x, false);
    var first, last := FirstSteps(acc, now, g, via, via, x, false), Use("b", x);
    AtMostCanBill(acc, via, x);
    FirstRuns(acc, free, now, g, via, via, x, false);
    FirstRuns(acc, HONEST, now, g, via, via, x, false);
    SecondRuns(acc, HONEST, now, g, via, via, x, x, false);
    assert first == steps[..4] + (steps[4..5] + steps[5..6]) && steps[..5] == steps[..4] + steps[4..5];
    assert steps[5..] == steps[5..6] + last && first == steps[..5] + steps[5..6] && [steps[4]] == steps[4..5];
    RunConcat(acc, free, Opening(now), steps[..5], steps[5..6]);
    RunConcat(acc, free, Opening(now), steps[..4], steps[4..5]);
    assert steps[..4] == Reads(acc, now, g, via, via) + [DoReserve("a", x)];
    NoStarts(acc, Opening(now), steps[..4]);
    NoStarts(acc, Run(acc, Opening(now), steps[..5]), steps[5..6]);
    RunConcat(acc, HONEST, Opening(now), steps[..5], steps[5..6]);
    RunMore(acc, HONEST, Opening(now), steps[..4], steps[4]);
    RunConcat(acc, HONEST, Run(acc, Opening(now), steps[..5]), steps[5..6], last);
  }

  /** Where a window that stands still can be left between a reading and a start: at its reset, or by a quota reset. */
  lemma LateGap(acc: Account, via: Option<string>) returns (now: nat, g: Gap)
    requires |SpecsFor(acc, via)| == 1 && SpecsFor(acc, via)[0].limit > 0 && !Slides(SpecsFor(acc, via)[0].kind)
    requires !(Own(acc, via) && SpecsFor(acc, via)[0].kind == Lifetime)
    ensures now >= EPOCH && Later(now, g) >= EPOCH
    ensures Apart(Clean(acc, via, None, now), Clean(acc, via, LastAfter(now, g), Later(now, g)))
    ensures !InWindows(acc, HaveRead(acc, now, g, via, via), EntryA(acc, now, via))
  {
    hide QuotaWindowSpec;
    var spec := SpecsFor(acc, via)[0];
    assert AtMostEach(acc, via, spec.limit);
    AtMostCanBill(acc, via, spec.limit);
    if spec.kind == Lifetime {
      now, g := EPOCH + SECOND, Resets;
      LifetimeStart(spec, now);
    } else {
      WindowsTile(spec.kind, spec.count, spec.seconds, EPOCH + DAY);
      now, g := WindowOf(spec, EPOCH + DAY).reset.value - SECOND, Wait(1);
      WindowsTile(spec.kind, spec.count, spec.seconds, now);
    }
    CleanAnswers(acc, via, None, now);
    CleanAnswers(acc, via, LastAfter(now, g), Later(now, g));
  }

  lemma LifetimeStart(spec: Spec, now: nat)
    requires spec.kind == Lifetime
    ensures WindowOf(spec, now).start == EPOCH
  {
  }

  /** So does a row that starts after the reset of the window its request reserved in, or after a quota reset. The
      run is honest but for that one step, k. */
  lemma LateStartOverruns(acc: Account, via: Option<string>) returns (now: nat, steps: seq<Step>, k: nat)
    requires AccountOk(acc) && |SpecsFor(acc, via)| == 1 && SpecsFor(acc, via)[0].limit > 0
    requires !Slides(SpecsFor(acc, via)[0].kind) && !(Own(acc, via) && SpecsFor(acc, via)[0].kind == Lifetime)
    ensures now >= EPOCH && RunObeys(acc, All, HONEST.(starts := false), Opening(now), steps)
    ensures k < |steps| && steps[k].DoStart?
    ensures RunObeys(acc, All, HONEST, Opening(now), steps[..k])
    ensures !Obeys(acc, All, HONEST, Run(acc, Opening(now), steps[..k]), steps[k])
    ensures RunObeys(acc, All, HONEST, Run(acc, Opening(now), steps[..k + 1]), steps[k + 1..])
    ensures UsageNow(acc, Run(acc, Opening(now), steps), via, 0) == 2 * SpecsFor(acc, via)[0].limit
  {
    hide AccountOk, RunObeys, Obeys, Run, InWindows, Apart;
    var m := SpecsFor(acc, via)[0].limit;
    assert AtMostEach(acc, via, m);
    var g;
    now, g := LateGap(acc, via);
    steps, k := Pair(acc, now, g, via, via, m, m, false), 4;
    TwiceOver(acc, HONEST.(starts := false), now, g, via, 0, m, false);
    LateStep(acc, now, g, via, m);
  }

  /** So does a bill of more than the request holds.  One that reports no usage is billed its whole estimate, though
      windows with less headroom have capped its reservation: whatever the estimate is, it is all billed, and the run
      is otherwise honest. */
  lemma CappedBillOverruns(acc: Account, via: Option<string>, estimate: nat)
    requires AccountOk(acc) && CanBill(PolicyFor(acc, via)) && estimate > 0
    requires forall j | 0 <= j < |SpecsFor(acc, via)| :: Spans(SpecsFor(acc, via)[j])
    ensures var steps := Reads(acc, EPOCH, Wait(0), via, via) + Use("a", estimate);
            && RunObeys(acc, All, HONEST.(bills := false), Opening(EPOCH), steps)
            && (RunObeys(acc, All, HONEST, Opening(EPOCH), steps) <==> AtMostEach(acc, via, estimate))
            && forall i: nat | i < |SpecsFor(acc, via)| ::
                 UsageNow(acc, Run(acc, Opening(EPOCH), steps), via, i) == estimate
  {
    hide AccountOk, CanBill, RunObeys, Run, InWindows, Spans, Clean, Roomy, RoomEverywhere, AtMostEach;
    OneUse(acc, HONEST, via, estimate);
    OneUse(acc, HONEST.(bills := false), via, estimate);
    var end := Run(acc, Opening(EPOCH), Reads(acc, EPOCH, Wait(0), via, via) + Use("a", estimate));
    forall i: nat | i < |SpecsFor(acc, via)| ensures UsageNow(acc, end, via, i) == estimate {
      SpansStart(SpecsFor(acc, via)[i], None, EPOCH);
      LedgerStep(end.book, if Own(acc, via) then via else None, UsageStart(SpecsFor(acc, via)[i], None, EPOCH));
    }
  }

  lemma OneUse(acc: Account, rules: Rules, via: Option<string>, amount: nat)
    requires AccountOk(acc) && CanBill(PolicyFor(acc, via)) && amount > 0
    ensures var steps := Reads(acc, EPOCH, Wait(0), via, via) + Use("a", amount);
            var end := Run(acc, Opening(EPOCH), steps);
            && (RunObeys(acc, All, rules, Opening(EPOCH), steps) <==> rules.bills ==> AtMostEach(acc, via, amount))
            && end.book == [EntryA(acc, EPOCH, via).(startedAt := Some(EPOCH), tokens := Some(amount))]
            && end.now == EPOCH && end.last == None
  {
    hide AccountOk, CanBill, RunObeys, Run, InWindows, Clean, Roomy, RoomEverywhere, AtMostEach;
    CleanAnswers(acc, via, None, EPOCH);
    NotBlocked(acc, via, None, EPOCH);
    var sys := HaveRead(acc, EPOCH, Wait(0), via, via);
    ReadsRun(acc, rules, EPOCH, Wait(0), via, via);
    CleanIsRoomy(acc, sys, via, None, EPOCH, amount);
    UseRuns(acc, rules, sys, "a", amount);
    SameInstant(acc, EPOCH, via, via);
    RunConcat(acc, rules, Opening(EPOCH), Reads(acc, EPOCH, Wait(0), via, via), Use("a", amount));
  }

  /** Opening readings in mid-window: a reset there moves the start of every window that stands still. */
  lemma StartsEarlier(spec: Spec)
    requires !Slides(spec.kind)
    ensures WindowOf(spec, EPOCH + SECOND).start < EPOCH + SECOND
  {
    var now := EPOCH + SECOND;
    if Calendar(spec.kind) {
      var n := WindowIndex(spec.kind, spec.count, spec.seconds, now);
      hide QuotaWindowSpec;
      HourMultiple(n, AtLeastOne(spec.count));
      var q := n * AtLeastOne(spec.count);
      assert q * HOUR != now;
    }
  }

  lemma HourMultiple(n: nat, c: int)
    ensures n * (c * HOUR) == (n * c) * HOUR
  {
  }

  function MidNow(): nat { EPOCH + SECOND }

  /** The first request reserves and starts its row; then comes the reset, and only then the second reads. */
  function ResetSteps(acc: Account, via: Option<string>, x: nat): seq<Step> {
    [DoRead("a", via, Clean(acc, via, None, MidNow())), DoReserve("a", x), DoStart("a")]
    + ([DoReset, DoRead("b", via, Clean(acc, via, Some(MidNow()), MidNow()))] + (Use("b", x) + [DoBill("a", x)]))
  }

  function MidStarted(acc: Account, via: Option<string>, x: nat): System {
    var d := Clean(acc, via, None, MidNow());
    System(Take(Store(map[], map[]), d, "a", x, MidNow(), |d.limits|), MidNow(), None, map["a" := Reading(via, d, {})],
           [EntryA(acc, MidNow(), via).(startedAt := Some(MidNow()))])
  }

  function MidReset(acc: Account, via: Option<string>, x: nat): System {
    var sys := MidStarted(acc, via, x);
    var rd := Reading(via, Clean(acc, via, Some(MidNow()), MidNow()), {});
    sys.(last := Some(MidNow()), readings := sys.readings["b" := rd])
  }

  lemma MidStartedRun(acc: Account, rules: Rules, via: Option<string>, x: nat)
    requires AccountOk(acc) && AtMostEach(acc, via, x) && x > 0
    ensures var steps := [DoRead("a", via, Clean(acc, via, None, MidNow())), DoReserve("a", x), DoStart("a")];
            Run(acc, Opening(MidNow()), steps) == MidStarted(acc, via, x) &&
              RunObeys(acc, All, rules, Opening(MidNow()), steps)
  {
    hide AccountOk, Clean, Answers, Fits, Take, AtMostEach, RoomEverywhere, InWindows, CanBill, DistinctIds;
    var now := MidNow();
    var d := Clean(acc, via, None, now);
    AtMostCanBill(acc, via, x);
    CleanAnswers(acc, via, None, now);
    NotBlocked(acc, via, None, now);
    FitsIsDistinct(acc, via, d);
    assert Completed([]) == {};
    var s1 := Opening(now).(readings := map["a" := Reading(via, d, {})]);
    assert Do(acc, Opening(now), DoRead("a", via, d)) == s1;
    CleanIsRoomy(acc, s1, via, None, now, x);
    NothingToTake(s1.store, d, "a", x, now);
    var e := EntryA(acc, now, via);
    var s2 := s1.(store := Take(s1.store, d, "a", x, now, |d.limits|), book := [e]);
    assert [] + [e] == [e];
    assert Do(acc, s1, DoReserve("a", x)) == s2;
    FindLast([], e);
    assert Do(acc, s2, DoStart("a")) == MidStarted(acc, via, x);
    NowInWindows(acc, s2, "a", via);
    RunThree(acc, rules, Opening(now), DoRead("a", via, d), DoReserve("a", x), DoStart("a"));
  }

  lemma MidResetRun(acc: Account, via: Option<string>, x: nat)
    requires AccountOk(acc) && !Own(acc, via) && CanBill(PolicyFor(acc, via))
    ensures var sys := MidStarted(acc, via, x);
            var steps := [DoReset, DoRead("b", via, Clean(acc, via, Some(MidNow()), MidNow()))];
            Run(acc, sys, steps) == MidReset(acc, via, x) && RunObeys(acc, All, HONEST.(resets := false), sys, steps)
  {
    hide AccountOk, Clean, Answers, CanBill, Take;
    var free := HONEST.(resets := false);
    var sys := MidStarted(acc, via, x);
    var read := DoRead("b", via, Clean(acc, via, Some(MidNow()), MidNow()));
    CleanAnswers(acc, via, Some(MidNow()), MidNow());
    assert Completed(sys.book) == {};
    assert sys.book[..0] == [];
    assert Ledger(sys.book, None) == [];
    assert Do(acc, sys.(last := Some(MidNow())), read) == MidReset(acc, via, x);
    assert Run(acc, sys, []) == sys;
    RunMore(acc, free, sys, [], DoReset);
    RunMore(acc, free, sys, [DoReset], read);
    assert [] + [DoReset] == [DoReset] && [DoReset] + [read] == [DoReset, read];
  }

  lemma MidApart(acc: Account, via: Option<string>)
    requires CanBill(PolicyFor(acc, via)) && !Own(acc, via)
    requires |SpecsFor(acc, via)| == 1 && !Slides(SpecsFor(acc, via)[0].kind)
    ensures Apart(Clean(acc, via, None, MidNow()), Clean(acc, via, Some(MidNow()), MidNow()))
    ensures UsageStart(SpecsFor(acc, via)[0], Some(MidNow()), MidNow()) == MidNow()
  {
    CleanAnswers(acc, via, None, MidNow());
    CleanAnswers(acc, via, Some(MidNow()), MidNow());
    StartsEarlier(SpecsFor(acc, via)[0]);
    hide QuotaWindowSpec, Clean;
  }

  lemma MidHasRoom(acc: Account, via: Option<string>, x: nat)
    requires AccountOk(acc) && AtMostEach(acc, via, x) && x > 0
    requires Apart(Clean(acc, via, None, MidNow()), Clean(acc, via, Some(MidNow()), MidNow()))
    ensures var sys, d := MidReset(acc, via, x), Clean(acc, via, Some(MidNow()), MidNow());
            Roomy(sys, d, x) && RoomEverywhere(sys.store, d, sys.now)
  {
    hide AccountOk, Clean, AtMostEach, Take, Give, DistinctIds, Fits, Answers, CanBill, Roomy, RoomEverywhere;
    var now := MidNow();
    var da, db := Clean(acc, via, None, now), Clean(acc, via, Some(now), now);
    AtMostCanBill(acc, via, x);
    CleanAnswers(acc, via, None, now);
    FitsIsDistinct(acc, via, da);
    NothingToTake(Store(map[], map[]), da, "a", x, now);
    CleanIsRoomy(acc, Opening(now), via, None, now, x);
    forall i | 0 <= i < |db.limits| ensures Pending(MidReset(acc, via, x).store, KeyAt(db, i), now) == 0 {
      LeavesNothing(da, via, "a", x, now, KeyAt(db, i));
    }
    CleanIsRoomy(acc, MidReset(acc, via, x), via, Some(now), now, x);
  }

  lemma FindBefore(book: seq<Entry>, e: Entry, r: string)
    requires e.request != r
    ensures FindEntry(book + [e], r) == FindEntry(book, r)
  {
    assert (book + [e])[..|book|] == book;
  }

  /** The first request's reservation outlives the second's, so its bill is still covered. */
  lemma FirstStillFits(acc: Account, via: Option<string>, x: nat)
    requires AccountOk(acc) && AtMostEach(acc, via, x) && x > 0
    ensures var sys := Used(acc, MidReset(acc, via, x), "b", x);
            BillFits(acc, sys, EntryA(acc, MidNow(), via).(startedAt := Some(MidNow())), x)
  {
    hide AccountOk, Clean, AtMostEach, Take, DistinctIds, Fits, Answers, CanBill;
    var now := MidNow();
    var d, d' := Clean(acc, via, None, now), Clean(acc, via, Some(now), now);
    AtMostCanBill(acc, via, x);
    CleanAnswers(acc, via, None, now);
    CleanAnswers(acc, via, Some(now), now);
    FitsIsDistinct(acc, via, d);
    FitsIsDistinct(acc, via, d');
    CleanIsRoomy(acc, Opening(now), via, None, now, x);
    var taken := Take(Store(map[], map[]), d, "a", x, now, |d.limits|);
    forall i | 0 <= i < |d.limits|
      ensures x <= Reserved(Take(taken, d', "b", x, now, |d'.limits|), SlotAt(d, i, "a"), now)
    {
      TakeReservations(Store(map[], map[]), d, "a", x, now, |d.limits|, SlotAt(d, i, "a"));
      FindSlotAt(d, "a", i, |d.limits|);
      TakeReservations(taken, d', "b", x, now, |d'.limits|, SlotAt(d, i, "a"));
      FindSlotOther(d', "b", SlotAt(d, i, "a"), |d'.limits|);
    }
  }

  /** A reset at the very instant a row starts also lets a user's limit be used twice over: the row counts from the
      reset on, but its request reserved before. */
  lemma ResetAtStartOverruns(acc: Account, via: Option<string>)
    requires AccountOk(acc) && !Own(acc, via) && |SpecsFor(acc, via)| == 1
    requires SpecsFor(acc, via)[0].limit > 0 && !Slides(SpecsFor(acc, via)[0].kind)
    ensures var m := SpecsFor(acc, via)[0].limit;
            var steps := ResetSteps(acc, via, m);
            && RunObeys(acc, All, HONEST.(resets := false), Opening(MidNow()), steps)
            && UsageNow(acc, Run(acc, Opening(MidNow()), steps), via, 0) == 2 * m
  {
    hide AccountOk, Clean, Apart, InWindows, Roomy, RoomEverywhere, RunObeys, Run, Fits, Answers, CanBill, BillFits;
    hide Take, UsageNow, UsageStart, AtMostEach;
    var free, now, m := HONEST.(resets := false), MidNow(), SpecsFor(acc, via)[0].limit;
    AtMostOnly(acc, via);
    AtMostCanBill(acc, via, m);
    MidApart(acc, via);
    MidStartedRun(acc, free, via, m);
    MidResetRun(acc, via, m);
    var sys := MidReset(acc, via, m);
    var used := Used(acc, sys, "b", m);
    MidHasRoom(acc, via, m);
    CleanAnswers(acc, via, Some(now), now);
    NotBlocked(acc, via, Some(now), now);
    UseRuns(acc, free, sys, "b", m);
    NowInWindows(acc, sys, "b", via);
    NothingBilledIsHeld(sys);
    LastBill(acc, via, m);
    RunConcat(acc, free, sys, Use("b", m), [DoBill("a", m)]);
    var resume := [DoReset, DoRead("b", via, Clean(acc, via, Some(now), now))];
    var first := [DoRead("a", via, Clean(acc, via, None, now)), DoReserve("a", m), DoStart("a")];
    RunConcat(acc, free, MidStarted(acc, via, m), resume, Use("b", m) + [DoBill("a", m)]);
    RunConcat(acc, free, Opening(now), first, resume + (Use("b", m) + [DoBill("a", m)]));
    var end := Run(acc, Opening(now), ResetSteps(acc, via, m));
    PairUsage(acc, end, end.book[0], end.book[1], via, 0);
  }

  lemma AtMostOnly(acc: Account, via: Option<string>)
    requires |SpecsFor(acc, via)| == 1 && SpecsFor(acc, via)[0].limit >= 0
    ensures AtMostEach(acc, via, SpecsFor(acc, via)[0].limit)
  {
  }

  lemma NothingBilledIsHeld(sys: System)
    requires "b" in sys.readings && forall j | 0 <= j < |sys.book| :: sys.book[j].tokens.None?
    ensures StillHeld(sys, sys.readings["b"])
  {
  }

  lemma LastBill(acc: Account, via: Option<string>, x: nat)
    requires AccountOk(acc) && AtMostEach(acc, via, x) && x > 0
    ensures var used := Used(acc, MidReset(acc, via, x), "b", x);
            var a := EntryA(acc, MidNow(), via).(startedAt := Some(MidNow()));
            && RunObeys(acc, All, HONEST.(resets := false), used, [DoBill("a", x)])
            && Run(acc, used, [DoBill("a", x)]) == used.(book := [a.(tokens := Some(x)), used.book[1]])
  {
    hide AccountOk, Clean, AtMostEach, Take, BillFits;
    var used := Used(acc, MidReset(acc, via, x), "b", x);
    var a := EntryA(acc, MidNow(), via).(startedAt := Some(MidNow()));
    FirstStillFits(acc, via, x);
    FindBefore([a], used.book[1], "a");
    FindLast([], a);
    assert [] + [a] == [a];
    assert used.book == [a] + [used.book[1]];
    assert used.book[0 := a.(tokens := Some(x))] == [a.(tokens := Some(x)), used.book[1]];
    assert Run(acc, used, []) == used;
    RunMore(acc, HONEST.(resets := false), used, [], DoBill("a", x));
    assert [] + [DoBill("a", x)] == [DoBill("a", x)];
  }

  // -------------------------------------------------------- exactly which limits hold

  /** The ledger stays within a limit in every run that obeys the rules. */
  ghost predicate Holds(acc: Account, scope: Scope, rules: Rules, via: Option<string>, i: nat)
    requires i < |SpecsFor(acc, via)|
  {
    forall start, steps | Starts(start) && RunObeys(acc, scope, rules, start, steps) ::
      UsageNow(acc, Run(acc, start, steps), via, i) <= SpecsFor(acc, via)[i].limit
  }

  lemma {:induction false} NoRows(book: seq<Entry>, key: Option<string>, since: int)
    requires forall j | 0 <= j < |book| :: RowOf(book[j], key, since) == 0
    ensures UsageSince(Ledger(book, key), since) == 0
  {
    hide RowOf;
    if book != [] {
      var rest := book[..|book| - 1];
      assert forall j | 0 <= j < |rest| :: rest[j] == book[j];
      NoRows(rest, key, since);
      LedgerStep(book, key, since);
    }
  }

  lemma EmptyWindow(acc: Account, start: System, steps: seq<Step>, via: Option<string>, i: nat)
    requires AccountOk(acc) && Starts(start) && CountsAlone(acc, via)
    requires i < |SpecsFor(acc, via)| && (SpecsFor(acc, via)[i].limit == 0 || !Spans(SpecsFor(acc, via)[i]))
    ensures UsageNow(acc, Run(acc, start, steps), via, i) == 0
  {
    hide Run, AccountOk, RollingSpan;
    var sys := Run(acc, start, steps);
    var spec, last := SpecsFor(acc, via)[i], LastFor(acc, via, sys.last);
    RunsKeepBasics(acc, start, steps);
    assert !Spans(spec) ==> UsageStart(spec, last, sys.now) > sys.now;
    var key := if Own(acc, via) then via else None;
    forall j | 0 <= j < |sys.book| ensures RowOf(sys.book[j], key, UsageStart(spec, last, sys.now)) == 0 {
      assert EntryOk(acc, sys.now, sys.book[j]);
    }
    NoRows(sys.book, key, UsageStart(spec, last, sys.now));
  }

  /** The windows of a key's own lifetime limits never move, so its rows need no care. */
  predicate NeverMoves(acc: Account, via: Option<string>) {
    Own(acc, via) && forall i | 0 <= i < |SpecsFor(acc, via)| :: SpecsFor(acc, via)[i].kind == Lifetime
  }

  /** Whether the rules say enough about the principal's own requests. */
  predicate Enough(acc: Account, rules: Rules, via: Option<string>) {
    && rules.bills && rules.readings
    && (rules.starts || NeverMoves(acc, via)) && (rules.resets || Own(acc, via))
  }

  lemma NeverLate(acc: Account, sys: System, j: nat, via: Option<string>)
    requires AccountOk(acc) && RunInv(acc, sys) && j < |sys.book| && NeverMoves(acc, via)
    requires CounterFor(acc, sys.book[j].via) == CounterFor(acc, via)
    ensures InWindows(acc, sys, sys.book[j])
  {
    var e := sys.book[j];
    SamePrincipal(acc, e.via, via);
    forall i | 0 <= i < |e.decision.limits|
      ensures e.decision.limits[i].windowStart ==
              UsageStart(e.decision.limits[i].spec, LastFor(acc, e.via, sys.last), sys.now)
    {
      assert e.decision.limits[i].spec == SpecsFor(acc, via)[i];
      LifetimeStart(e.decision.limits[i].spec, sys.now);
    }
  }

  lemma ResetsAreOthers(acc: Account, via: Option<string>, sys: System)
    requires AccountOk(acc) && Own(acc, via)
    ensures ResetFits(acc, Just(via), sys)
  {
    forall j | 0 <= j < |sys.book| && Covers(acc, Just(via), sys.book[j].via) ensures Own(acc, sys.book[j].via) {
      SamePrincipal(acc, sys.book[j].via, via);
    }
  }

  lemma EnoughIsHonest(acc: Account, scope: Scope, rules: Rules, via: Option<string>, sys: System, step: Step)
    requires AccountOk(acc) && RunInv(acc, sys) && Enough(acc, rules, via) && (scope.All? || scope == Just(via))
    requires Obeys(acc, scope, rules, sys, step)
    ensures Obeys(acc, Just(via), HONEST, sys, step)
  {
    hide AccountOk, RunInv, InWindows, BillFits, StillHeld, NeverMoves;
    if step.DoStart? && !rules.starts {
      var j := FindEntry(sys.book, step.r);
      if j.Some? && Covers(acc, Just(via), sys.book[j.value].via) { NeverLate(acc, sys, j.value, via); }
    }
    if step.DoReset? && !rules.resets { ResetsAreOthers(acc, via, sys); }
  }

  lemma {:induction false} EnoughRuns(acc: Account, scope: Scope, rules: Rules, via: Option<string>, start: System,
                                      steps: seq<Step>)
    requires AccountOk(acc) && Starts(start) && Enough(acc, rules, via) && (scope.All? || scope == Just(via))
    requires RunObeys(acc, scope, rules, start, steps)
    ensures RunObeys(acc, Just(via), HONEST, start, steps)
  {
    hide AccountOk, Enough, Obeys, Do, Starts;
    if steps != [] {
      var n := |steps| - 1;
      EnoughRuns(acc, scope, rules, via, start, steps[..n]);
      EveryRunIsAccounted(acc, start, steps[..n]);
      hide RunInv;
      EnoughIsHonest(acc, scope, rules, via, Run(acc, start, steps[..n]), steps[n]);
    }
  }

  /** With enough rules every limit that stands still holds. */
  lemma EnoughHolds(acc: Account, scope: Scope, rules: Rules, via: Option<string>, i: nat)
    requires AccountOk(acc) && CountsAlone(acc, via) && Enough(acc, rules, via) && (scope.All? || scope == Just(via))
    requires i < |SpecsFor(acc, via)| && !Slides(SpecsFor(acc, via)[i].kind)
    ensures Holds(acc, scope, rules, via, i)
  {
    hide AccountOk, CountsAlone, Enough, RunObeys, Run, Starts;
    forall start, steps | Starts(start) && RunObeys(acc, scope, rules, start, steps)
      ensures UsageNow(acc, Run(acc, start, steps), via, i) <= SpecsFor(acc, via)[i].limit
    {
      EnoughRuns(acc, scope, rules, via, start, steps);
      LedgerStaysWithinLimits(acc, Just(via), start, steps, via, i);
    }
  }

  lemma EmptyHolds(acc: Account, scope: Scope, rules: Rules, via: Option<string>, i: nat)
    requires AccountOk(acc) && CountsAlone(acc, via)
    requires i < |SpecsFor(acc, via)| && (SpecsFor(acc, via)[i].limit == 0 || !Spans(SpecsFor(acc, via)[i]))
    ensures Holds(acc, scope, rules, via, i)
  {
    hide AccountOk, CountsAlone, RunObeys, Run, Starts, Spans;
    LimitIsNonNegative(acc, via, i);
    forall start, steps | Starts(start) && RunObeys(acc, scope, rules, start, steps)
      ensures UsageNow(acc, Run(acc, start, steps), via, i) <= SpecsFor(acc, via)[i].limit
    {
      EmptyWindow(acc, start, steps, via, i);
    }
  }

  /** One run is enough to show that a limit does not hold. */
  lemma Escapes(acc: Account, scope: Scope, rules: Rules, r: Rules, via: Option<string>, i: nat, now: nat,
                steps: seq<Step>)
    requires i < |SpecsFor(acc, via)| && now >= EPOCH && RunObeys(acc, All, r, Opening(now), steps) && Within(rules, r)
    requires UsageNow(acc, Run(acc, Opening(now), steps), via, i) > SpecsFor(acc, via)[i].limit
    ensures !Holds(acc, scope, rules, via, i)
  {
    hide RunObeys, Run, UsageNow;
    Narrowed(acc, scope, rules, r, Opening(now), steps);
    assert Starts(Opening(now));
  }

  /** A second later a sliding window has another key. */
  lemma SlidingApart(acc: Account, via: Option<string>)
    requires |SpecsFor(acc, via)| == 1 && SpecsFor(acc, via)[0].limit > 0 && Slides(SpecsFor(acc, via)[0].kind)
    ensures Apart(Clean(acc, via, None, EPOCH), Clean(acc, via, None, EPOCH + 1 * SECOND))
    ensures InWindows(acc, HaveRead(acc, EPOCH, Wait(1), via, via), EntryA(acc, EPOCH, via))
  {
    hide RollingSpan;
    assert CanBill(PolicyFor(acc, via));
    CleanAnswers(acc, via, None, EPOCH);
    CleanAnswers(acc, via, None, EPOCH + 1 * SECOND);
  }

  lemma SlidingEscapes(acc: Account, scope: Scope, rules: Rules, via: Option<string>)
    requires AccountOk(acc) && |SpecsFor(acc, via)| == 1 && SpecsFor(acc, via)[0].limit > 0
    requires Slides(SpecsFor(acc, via)[0].kind) && Spans(SpecsFor(acc, via)[0])
    ensures !Holds(acc, scope, rules, via, 0)
  {
    hide AccountOk, RunObeys, Run, UsageNow, Apart, InWindows, AtMostEach, Spans, Clean;
    var m := SpecsFor(acc, via)[0].limit;
    AtMostOnly(acc, via);
    SlidingApart(acc, via);
    TwiceOver(acc, HONEST, EPOCH, Wait(1), via, 0, m, false);
    Escapes(acc, scope, rules, HONEST, via, 0, EPOCH, Pair(acc, EPOCH, Wait(1), via, via, m, m, false));
  }

  lemma StandingEscapes(acc: Account, scope: Scope, rules: Rules, via: Option<string>)
    requires AccountOk(acc) && |SpecsFor(acc, via)| == 1 && SpecsFor(acc, via)[0].limit > 0
    requires !Slides(SpecsFor(acc, via)[0].kind) && !Enough(acc, rules, via)
    ensures !Holds(acc, scope, rules, via, 0)
  {
    hide AccountOk, RunObeys, Run, UsageNow, Apart, InWindows, AtMostEach, CanBill, Clean, Obeys, Holds;
    var m := SpecsFor(acc, via)[0].limit;
    AtMostOnly(acc, via);
    AtMostCanBill(acc, via, m);
    if !rules.bills {
      CappedBillOverruns(acc, via, m + 1);
      var steps := Reads(acc, EPOCH, Wait(0), via, via) + Use("a", m + 1);
      Escapes(acc, scope, rules, HONEST.(bills := false), via, 0, EPOCH, steps);
    } else if !rules.readings {
      var steps, i := StaleReadingOverruns(acc, via);
      Escapes(acc, scope, rules, HONEST.(readings := false), via, 0, EPOCH, steps);
    } else if !(rules.resets || Own(acc, via)) {
      ResetAtStartOverruns(acc, via);
      Escapes(acc, scope, rules, HONEST.(resets := false), via, 0, MidNow(), ResetSteps(acc, via, m));
    } else {
      var now, steps, k := LateStartOverruns(acc, via);
      Escapes(acc, scope, rules, HONEST.(starts := false), via, 0, now, steps);
    }
  }

  /** Whatever of honesty is asked, of everybody or of this principal alone, its only limit holds exactly when it is
      zero, or has a span that wrapped to a negative one, or its window stands still and the rules say enough: bills
      are covered and readings still stand; rows start in their windows, unless this is a key's own lifetime limit;
      and resets fall between rows, unless this is a key's own limit. */
  lemma SoleLimitHoldsIff(acc: Account, scope: Scope, rules: Rules, via: Option<string>)
    requires AccountOk(acc) && |SpecsFor(acc, via)| == 1 && CountsAlone(acc, via) && (scope.All? || scope == Just(via))
    ensures var spec := SpecsFor(acc, via)[0];
            Holds(acc, scope, rules, via, 0) <==>
            spec.limit == 0 || !Spans(spec) || (!Slides(spec.kind) && Enough(acc, rules, via))
  {
    hide AccountOk, CountsAlone, Enough, Holds, Spans;
    var spec := SpecsFor(acc, via)[0];
    LimitIsNonNegative(acc, via, 0);
    if spec.limit == 0 || !Spans(spec) {
      EmptyHolds(acc, scope, rules, via, 0);
    } else if Slides(spec.kind) {
      SlidingEscapes(acc, scope, rules, via);
    } else if Enough(acc, rules, via) {
      EnoughHolds(acc, scope, rules, via, 0);
    } else {
      StandingEscapes(acc, scope, rules, via);
    }
  }

  // ------------------------------------------------------------- keys of one's own

  /** A key with its own policy has its own counter. */
  lemma KeysApart(acc: Account, key: string, now: nat)
    requires AccountOk(acc) && CanBill(acc.user) && key in acc.keys && CanBill(acc.keys[key])
    ensures Apart(Clean(acc, None, None, now), Clean(acc, Some(key), None, now))
  {
    hide AccountOk, CanBill;
    CleanAnswers(acc, None, None, now);
    CleanAnswers(acc, Some(key), None, now);
    assert CounterFor(acc, None) != CounterFor(acc, Some(key)) by {
      if CounterFor(acc, None) == CounterFor(acc, Some(key)) { SamePrincipal(acc, None, Some(key)); }
    }
    hide Clean;
  }

  lemma OneEach(acc: Account, via: Option<string>)
    requires CanBill(PolicyFor(acc, via))
    ensures AtMostEach(acc, via, 1)
  {
    forall i | 0 <= i < |SpecsFor(acc, via)| ensures 1 <= SpecsFor(acc, via)[i].limit {
      assert Specs(PolicyFor(acc, via))[i].limit > 0;
    }
  }

  /** The user fills the least limit while a key of theirs bills one token more. */
  lemma KeyEscapes(acc: Account, scope: Scope, key: string) returns (i: nat)
    requires AccountOk(acc) && !Unlimited(acc.user) && CanBill(acc.user) && key in acc.keys && CanBill(acc.keys[key])
    requires forall j | 0 <= j < |SpecsFor(acc, None)| :: Spans(SpecsFor(acc, None)[j])
    ensures i < |SpecsFor(acc, None)| && !Holds(acc, scope, HONEST, None, i)
  {
    hide AccountOk, CanBill, RunObeys, Run, InWindows, Apart, Spans, UsageNow, Clean;
    i := LeastLimit(SpecsFor(acc, None));
    LimitIsNonNegative(acc, None, i);
    var m := SpecsFor(acc, None)[i].limit;
    assert AtMostEach(acc, None, m);
    LeastIsPositive(acc, None, i);
    OneEach(acc, Some(key));
    KeysApart(acc, key, EPOCH);
    SameInstant(acc, EPOCH, None, Some(key));
    PairRuns(acc, HONEST, EPOCH, Wait(0), None, Some(key), m, 1, false);
    SpansStart(SpecsFor(acc, None)[i], None, EPOCH);
    var steps := Pair(acc, EPOCH, Wait(0), None, Some(key), m, 1, false);
    var end := Run(acc, Opening(EPOCH), steps);
    PairUsage(acc, end, end.book[0], end.book[1], None, i);
    Escapes(acc, scope, HONEST, HONEST, None, i, EPOCH, steps);
  }

  /** If the user's own policy lets nobody in, a key's bill still counts against it. */
  lemma KeyAlone(acc: Account, scope: Scope, key: string, i: nat)
    requires AccountOk(acc) && key in acc.keys && CanBill(acc.keys[key])
    requires i < |SpecsFor(acc, None)| && SpecsFor(acc, None)[i].limit == 0 && Spans(SpecsFor(acc, None)[i])
    ensures !Holds(acc, scope, HONEST, None, i)
  {
    hide AccountOk, CanBill, RunObeys, Run, Spans, Clean, AtMostEach;
    var via := Some(key);
    OneEach(acc, via);
    OneUse(acc, HONEST, via, 1);
    var steps := Reads(acc, EPOCH, Wait(0), via, via) + Use("a", 1);
    var end := Run(acc, Opening(EPOCH), steps);
    SpansStart(SpecsFor(acc, None)[i], None, EPOCH);
    LedgerStep(end.book, None, UsageStart(SpecsFor(acc, None)[i], None, EPOCH));
    Escapes(acc, scope, HONEST, HONEST, None, i, EPOCH, steps);
  }

  /** A user's limits that stand still hold in every honest run exactly when every API key with a policy of its
      own is shut: a key's requests count against the user but reserve on the key's counter. */
  lemma UserLimitsHoldIff(acc: Account, scope: Scope)
    requires AccountOk(acc) && !Unlimited(acc.user) && (scope.All? || scope == Just(None))
    requires forall i | 0 <= i < |SpecsFor(acc, None)| :: !Slides(SpecsFor(acc, None)[i].kind)
    ensures (forall i: nat | i < |SpecsFor(acc, None)| :: Holds(acc, scope, HONEST, None, i)) <==>
            CountsAlone(acc, None)
  {
    hide AccountOk, CanBill, Holds;
    if CountsAlone(acc, None) {
      forall i: nat | i < |SpecsFor(acc, None)| ensures Holds(acc, scope, HONEST, None, i) {
        EnoughHolds(acc, scope, HONEST, None, i);
      }
    } else {
      var key :| key in acc.keys && CanBill(acc.keys[key]);
      if CanBill(acc.user) {
        var i := KeyEscapes(acc, scope, key);
      } else {
        var i := ShutLimit(acc);
        KeyAlone(acc, scope, key, i);
      }
    }
  }

  lemma ShutLimit(acc: Account) returns (i: nat)
    requires AccountOk(acc) && !CanBill(acc.user)
    ensures i < |SpecsFor(acc, None)| && SpecsFor(acc, None)[i].limit == 0
  {
    i :| i < |Specs(acc.user)| && Specs(acc.user)[i].limit <= 0;
    LimitIsNonNegative(acc, None, i);
  }
}
