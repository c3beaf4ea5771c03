/** Quota safety over whole request lifecycles (cmd/api/main.go, cmd/api/access.go): read the usage, reserve,
  start a ledger row, complete it, release.

  The account is one user's: its own policy, and those API keys that have a policy of their own.  A ledger
  row counts from when it started, in the usage of the user and, if it came through a key, of that key.
 */
module QuotaLedger {
  import opened Numbers
  import opened Wrappers
  import opened QuotaReservations
  import opened QuotaWindows

  /** keys are the API keys with a policy of their own; requests through other keys count as the user's. */
  datatype Account = Account(subject: string, user: Policy, keys: map<string, Policy>)

  ghost predicate PolicyOk(p: Policy) {
    Normalized(p) && forall i | 0 <= i < |Specs(p)| :: Specs(p)[i].limit >= 0
  }

  ghost predicate AccountOk(acc: Account) {
    PolicyOk(acc.user) && forall key | key in acc.keys :: key != "" && PolicyOk(acc.keys[key])
  }

  predicate Own(acc: Account, via: Option<string>) { via.Some? && via.value in acc.keys }

  function PolicyFor(acc: Account, via: Option<string>): Policy {
    if Own(acc, via) then acc.keys[via.value] else acc.user
  }

  function SpecsFor(acc: Account, via: Option<string>): seq<Spec> { Specs(PolicyFor(acc, via)) }

  function CounterFor(acc: Account, via: Option<string>): string {
    CounterKey(acc.subject, if via.Some? then via.value else "", Own(acc, via))
  }

  /** User resets do not apply to a key's own policy. */
  function LastFor(acc: Account, via: Option<string>, last: Option<int>): Option<int> {
    if Own(acc, via) then None else last
  }

  // ---------------------------------------------------------------- the ledger

  /** The completed rows of one API key, or of the user, whichever keys they came through. */
  function Ledger(book: seq<Entry>, key: Option<string>): seq<Row> {
    if book == [] then []
    else
      var e := book[|book| - 1];
      Ledger(book[..|book| - 1], key)
      + (if e.startedAt.Some? && e.tokens.Some? && (key.None? || e.via == key)
         then [Row(e.startedAt.value, e.tokens.value)] else [])
  }

  function LedgerFor(acc: Account, via: Option<string>, book: seq<Entry>): seq<Row> {
    Ledger(book, if Own(acc, via) then via else None)
  }

  function Completed(book: seq<Entry>): set<string> {
    set j | 0 <= j < |book| && book[j].tokens.Some? :: book[j].request
  }

  /** What a request read before it reserved; seen are the requests whose rows were then complete. */
  datatype Reading = Reading(via: Option<string>, decision: Decision, seen: set<string>)

  /** now is the common clock, last the user's last quota reset. */
  datatype System = System(store: Store, now: nat, last: Option<int>, readings: map<string, Reading>, book: seq<Entry>)

  datatype Step =
    | Tick(elapsed: nat)
    | DoRead(r: string, via: Option<string>, d: Decision)
    | DoReserve(r: string, amount: int)
    | DoStart(r: string)
    | DoBill(r: string, actual: nat)
    | DoRelease(r: string)
    | DoReset
    | DoClear

  /** clearUserQuotaRuntimeState, which follows a reset: the user's counters and reservations go, in one step. */
  function Cleared(s: Store, counter: string): Store {
    Store(map k | k in s.pending && k.counter != counter :: s.pending[k],
          map k | k in s.reservations && k.counter != counter :: s.reservations[k])
  }

  /** A step that does not apply changes nothing. */
  ghost function Do(acc: Account, sys: System, step: Step): System {
    match step
    case Tick(elapsed) => sys.(now := sys.now + elapsed * SECOND)
    case DoReset => sys.(last := Some(sys.now))
    case DoClear => sys.(store := Cleared(sys.store, CounterFor(acc, None)))
    case DoRead(r, via, d) =>
      if r in sys.readings
         || !Answers(PolicyFor(acc, via), CounterFor(acc, via), LedgerFor(acc, via, sys.book),
                     LastFor(acc, via, sys.last), sys.now, d)
      then sys
      else sys.(readings := sys.readings[r := Reading(via, d, Completed(sys.book))])
    case DoReserve(r, amount) =>
      if r !in sys.readings || FindEntry(sys.book, r).Some? || amount <= 0 then sys
      else
        var rd := sys.readings[r];
        (match Reserve(sys.store, rd.decision, r, amount, sys.now)
         case None => sys
         case Some(s') => sys.(store := s', book := sys.book + [Entry(r, rd.via, rd.decision, None, None)]))
    case DoStart(r) =>
      (match FindEntry(sys.book, r)
       case None => sys
       case Some(j) =>
         if sys.book[j].startedAt.Some? then sys
         else sys.(book := sys.book[j := sys.book[j].(startedAt := Some(sys.now))]))
    case DoBill(r, actual) =>
      (match FindEntry(sys.book, r)
       case None => sys
       case Some(j) =>
         if sys.book[j].startedAt.None? || sys.book[j].tokens.Some? then sys
         else sys.(book := sys.book[j := sys.book[j].(tokens := Some(actual))]))
    case DoRelease(r) =>
      (match FindEntry(sys.book, r)
       case None => sys
       case Some(j) => sys.(store := Release(sys.store, sys.book[j].decision, r, sys.now)))
  }

  ghost function Run(acc: Account, start: System, steps: seq<Step>): System {
    if steps == [] then start else Do(acc, Run(acc, start, steps[..|steps| - 1]), steps[|steps| - 1])
  }

  const EPOCH := UNIX_EPOCH_DAY * DAY

  ghost predicate Starts(sys: System) {
    sys.store == Store(map[], map[]) && sys.readings == map[] && sys.book == []
    && sys.now >= EPOCH && (sys.last.Some? ==> sys.last.value <= sys.now)
  }

  // --------------------------------------------------- every run is accounted for

  /** A decision that evaluateQuota may have given this account. */
  ghost predicate Fits(acc: Account, via: Option<string>, d: Decision) {
    && d.counter == CounterFor(acc, via) && d.unlimited == Unlimited(PolicyFor(acc, via))
    && |d.limits| == |SpecsFor(acc, via)|
    && (forall i | 0 <= i < |d.limits| :: d.limits[i].spec == SpecsFor(acc, via)[i])
    && (forall i | 0 <= i < |d.limits| ::
          Own(acc, via) && d.limits[i].spec.kind == Lifetime ==> d.limits[i].windowStart == EPOCH)
  }

  lemma FitsIsDistinct(acc: Account, via: Option<string>, d: Decision)
    requires AccountOk(acc) && Fits(acc, via, d)
    ensures DistinctIds(d) && (d.unlimited ==> d.limits == [])
  {
    forall i, j | 0 <= i < j < |d.limits| ensures d.limits[i].spec.id != d.limits[j].spec.id {
      StoredIdsAreDistinct(PolicyFor(acc, via), i, j);
    }
  }

  ghost predicate RunInv(acc: Account, sys: System) {
    && Inv(sys.store, sys.book, sys.now)
    && (forall r | r in sys.readings :: Fits(acc, sys.readings[r].via, sys.readings[r].decision))
    && (forall j | 0 <= j < |sys.book| :: Fits(acc, sys.book[j].via, sys.book[j].decision))
  }

  lemma StepKeeps(acc: Account, sys: System, step: Step)
    requires AccountOk(acc) && RunInv(acc, sys)
    ensures RunInv(acc, Do(acc, sys, step))
  {
    hide Inv, Fits, Give, Take, Share, AccountOk, DistinctIds, RoomEverywhere;
    match step
    case Tick(elapsed) => TimeKeeps(sys.store, sys.book, sys.now, sys.now + elapsed * SECOND);
    case DoReset =>
    case DoClear => ClearKeeps(sys.store, sys.book, CounterFor(acc, None), sys.now);
    case DoRead(r, via, d) =>
      if Do(acc, sys, step) != sys {
        ReadFits(acc, via, LedgerFor(acc, via, sys.book), LastFor(acc, via, sys.last), sys.now, d);
      }
    case DoReserve(r, amount) => ReserveKeeps(acc, sys, r, amount);
    case DoStart(r) =>
      var j := FindEntry(sys.book, r);
      if j.Some? { UpdateKeeps(sys.store, sys.book, j.value, sys.book[j.value].(startedAt := Some(sys.now)), sys.now); }
    case DoBill(r, actual) =>
      var j := FindEntry(sys.book, r);
      if j.Some? { UpdateKeeps(sys.store, sys.book, j.value, sys.book[j.value].(tokens := Some(actual)), sys.now); }
    case DoRelease(r) =>
      var j := FindEntry(sys.book, r);
      if j.Some? {
        GiveKeeps(sys.store, sys.book, j.value, sys.now);
        FitsIsDistinct(acc, sys.book[j.value].via, sys.book[j.value].decision);
      }
  }

  lemma ReadFits(acc: Account, via: Option<string>, ledger: seq<Row>, last: Option<int>, now: nat, d: Decision)
    requires Answers(PolicyFor(acc, via), CounterFor(acc, via), ledger, last, now, d)
    requires Own(acc, via) ==> last == None
    ensures Fits(acc, via, d)
  {
    hide DecidesRightly, UsageSince;
  }

  lemma ClearedShare(s: Store, book: seq<Entry>, j: nat, counter: string, k: PendingKey, now: int)
    requires j < |book| && Backed(s, book, now)
    ensures Share(Cleared(s, counter), book[j], k, now) == if k.counter == counter then 0 else Share(s, book[j], k, now)
    ensures Share(Cleared(s, counter), book[j], k, now) <= Share(s, book[j], k, now)
  {
    ShareNonNegative(s, book, j, k, now);
  }

  lemma ClearedBacked(s: Store, book: seq<Entry>, counter: string, now: int)
    requires Backed(s, book, now)
    ensures Backed(Cleared(s, counter), book, now)
  {
    forall j, i | 0 <= j < |book| && 0 <= i < |book[j].decision.limits|
      ensures SlotBacked(Cleared(s, counter), book[j].decision, i, book[j].request, now)
    {
      assert SlotBacked(s, book[j].decision, i, book[j].request, now);
    }
  }

  lemma ClearKeeps(s: Store, book: seq<Entry>, counter: string, now: int)
    requires Inv(s, book, now)
    ensures Inv(Cleared(s, counter), book, now)
  {
    hide Share, Held, Backed;
    ClearedBacked(s, book, counter, now);
    forall k ensures Held(Cleared(s, counter), book, k, now, false) <= Pending(Cleared(s, counter), k, now) {
      forall j | 0 <= j < |book|
        ensures Share(Cleared(s, counter), book[j], k, now) == if k.counter == counter then 0
                                                               else Share(s, book[j], k, now)
      {
        ClearedShare(s, book, j, counter, k, now);
      }
      assert Held(s, book, k, now, false) <= Pending(s, k, now);
      if k.counter == counter {
        HeldNothing(Cleared(s, counter), book, k, now, false);
      } else {
        HeldSame(s, Cleared(s, counter), book, k, now, now, false);
      }
    }
  }

  lemma ReserveKeeps(acc: Account, sys: System, r: string, amount: int)
    requires AccountOk(acc) && RunInv(acc, sys)
    ensures RunInv(acc, Do(acc, sys, DoReserve(r, amount)))
  {
    hide Inv, Fits, Take, AccountOk, DistinctIds;
    var sys' := Do(acc, sys, DoReserve(r, amount));
    if sys' != sys {
      var rd := sys.readings[r];
      var e := Entry(r, rd.via, rd.decision, None, None);
      FitsIsDistinct(acc, rd.via, rd.decision);
      ReserveIsTake(sys.store, rd.decision, r, amount, sys.now);
      TakeKeeps(sys.store, sys.book, e, amount, sys.now);
    }
  }

  lemma ReserveIsTake(s: Store, d: Decision, r: string, amount: int, now: int)
    requires d.unlimited ==> d.limits == []
    ensures Reserve(s, d, r, amount, now).Some? ==>
              RoomEverywhere(s, d, now) && Reserve(s, d, r, amount, now).value == Take(s, d, r, amount, now, |d.limits|)
  {
  }

  /** In every reachable state each pending counter is at least the sum of the unexpired
      reservations against it, and outlives each of them. */
  lemma {:induction false} EveryRunIsAccounted(acc: Account, start: System, steps: seq<Step>)
    requires AccountOk(acc) && Starts(start)
    ensures RunInv(acc, Run(acc, start, steps))
  {
    hide Do, AccountOk;
    if steps != [] {
      EveryRunIsAccounted(acc, start, steps[..|steps| - 1]);
      StepKeeps(acc, Run(acc, start, steps[..|steps| - 1]), steps[|steps| - 1]);
    }
  }
}
