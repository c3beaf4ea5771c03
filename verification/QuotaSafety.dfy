/** What an account's ledger can reach over whole runs (cmd/api/access.go, cmd/api/main.go). */
module QuotaSafety {
  import opened Numbers
  import opened Wrappers
  import opened QuotaReservations
  import opened QuotaWindows
  import opened QuotaLedger

  predicate HasKey(e: Entry, k: PendingKey) { FindKey(e.decision, k, |e.decision.limits|).Some? }

  function BilledBy(e: Entry, k: PendingKey, seen: Option<set<string>>): nat {
    if e.tokens.Some? && HasKey(e, k) && (seen.Some? ==> e.request in seen.value) then e.tokens.value else 0
  }

  /** What requests that reserved against k have billed; optionally only the requests of a set. */
  function Billed(book: seq<Entry>, k: PendingKey, seen: Option<set<string>>): nat {
    if book == [] then 0 else Billed(book[..|book| - 1], k, seen) + BilledBy(book[|book| - 1], k, seen)
  }

  /** Billed, or reserved and still to be billed. */
  function Committed(sys: System, k: PendingKey): int {
    Billed(sys.book, k, None) + Held(sys.store, sys.book, k, sys.now, true)
  }

  function KeyFor(acc: Account, via: Option<string>, i: nat, w: int): PendingKey
    requires i < |SpecsFor(acc, via)|
  {
    PendingKey(CounterFor(acc, via), SpecsFor(acc, via)[i].id, w)
  }

  /** Whom a statement is about: everybody, or the requests that share a principal's counter. */
  datatype Scope = All | Just(via: Option<string>)

  predicate Covers(acc: Account, scope: Scope, v: Option<string>) {
    scope.All? || CounterFor(acc, v) == CounterFor(acc, scope.via)
  }

  /** A window that began before the last reset is over for good. */
  predicate Live(acc: Account, via: Option<string>, last: Option<int>, t: int) {
    var mine := LastFor(acc, via, last);
    mine.Some? ==> mine.value <= t
  }

  /** No live window that stands still is over-committed. */
  ghost predicate WithinQuota(acc: Account, scope: Scope, sys: System) {
    forall via, i: nat, w |
      Covers(acc, scope, via) && i < |SpecsFor(acc, via)| && !Slides(SpecsFor(acc, via)[i].kind) &&
        Live(acc, via, sys.last, w) ::
      Committed(sys, KeyFor(acc, via, i, w)) <= SpecsFor(acc, via)[i].limit
  }

  // -------------------------------------------------------------- honest runs

  predicate HeldIfMissed(s: Store, e: Entry, rd: Reading, i: nat, now: int)
    requires i < |rd.decision.limits|
  {
    var k := KeyAt(rd.decision, i);
    e.tokens.Some? && e.request !in rd.seen && HasKey(e, k) ==> e.tokens.value <= Share(s, e, k, now)
  }

  /** What other requests of the same windows have billed since the reading, they still hold reserved. */
  predicate StillHeld(sys: System, rd: Reading) {
    forall j, i | 0 <= j < |sys.book| && 0 <= i < |rd.decision.limits| ::
      HeldIfMissed(sys.store, sys.book[j], rd, i, sys.now)
  }

  /** A ledger row starts in the windows the request has reserved in. */
  predicate InWindows(acc: Account, sys: System, e: Entry) {
    forall i | 0 <= i < |e.decision.limits| && !Slides(e.decision.limits[i].spec.kind) ::
      e.decision.limits[i].windowStart == UsageStart(e.decision.limits[i].spec, LastFor(acc, e.via, sys.last), sys.now)
  }

  /** A bill is within what the request holds in every window, unless a reset has left its row behind. */
  predicate BillFits(acc: Account, sys: System, e: Entry, actual: nat) {
    e.startedAt.Some? && Live(acc, e.via, sys.last, e.startedAt.value) ==>
      forall i | 0 <= i < |e.decision.limits| ::
        actual <= Reserved(sys.store, SlotAt(e.decision, i, e.request), sys.now)
  }

  /** A reset does not fall on an instant at which a row that it could leave behind started. */
  predicate ResetFits(acc: Account, scope: Scope, sys: System) {
    forall j | 0 <= j < |sys.book| && Covers(acc, scope, sys.book[j].via) && !Own(acc, sys.book[j].via) ::
      sys.book[j].startedAt.Some? ==> sys.book[j].startedAt.value < sys.now
  }

  /** What is asked of a run: that rows start in their own windows, that bills are covered, that resets fall between
      the instants at which rows start, and that the readings reservations go by still stand. */
  datatype Rules = Rules(starts: bool, bills: bool, resets: bool, readings: bool)

  const HONEST := Rules(true, true, true, true)

  predicate Obeys(acc: Account, scope: Scope, rules: Rules, sys: System, step: Step) {
    match step
    case DoReserve(r, _) =>
      rules.readings && r in sys.readings && Covers(acc, scope, sys.readings[r].via) ==> StillHeld(sys, sys.readings[r])
    case DoStart(r) =>
      var j := FindEntry(sys.book, r);
      rules.starts && j.Some? && Covers(acc, scope, sys.book[j.value].via) ==> InWindows(acc, sys, sys.book[j.value])
    case DoBill(r, actual) =>
      var j := FindEntry(sys.book, r);
      rules.bills && j.Some? && Covers(acc, scope, sys.book[j.value].via) ==>
        BillFits(acc, sys, sys.book[j.value], actual)
    case DoReset => rules.resets ==> ResetFits(acc, scope, sys)
    case _ => true
  }

  ghost predicate RunObeys(acc: Account, scope: Scope, rules: Rules, start: System, steps: seq<Step>) {
    steps == [] ||
    (var n := |steps| - 1;
     RunObeys(acc, scope, rules, start, steps[..n]) && Obeys(acc, scope, rules, Run(acc, start, steps[..n]), steps[n]))
  }

  // ------------------------------------------------------------ sums over a book

  lemma {:induction false} BilledExcept(book: seq<Entry>, j: nat, e: Entry, k: PendingKey, seen: Option<set<string>>)
    requires j < |book|
    ensures Billed(book[j := e], k, seen) - BilledBy(e, k, seen) == Billed(book, k, seen) - BilledBy(book[j], k, seen)
  {
    hide BilledBy;
    var n := |book| - 1;
    if j == n {
      assert book[j := e][..n] == book[..n];
    } else {
      assert book[j := e][..n] == book[..n][j := e];
      BilledExcept(book[..n], j, e, k, seen);
    }
  }

  lemma BilledMore(book: seq<Entry>, e: Entry, k: PendingKey, seen: Option<set<string>>)
    ensures Billed(book + [e], k, seen) == Billed(book, k, seen) + BilledBy(e, k, seen)
  {
    assert (book + [e])[..|book|] == book;
  }

  /** Everyone who has completed is everyone who has billed. */
  lemma {:induction false} BilledCompleted(book: seq<Entry>, k: PendingKey, seen: set<string>)
    requires forall j | 0 <= j < |book| && book[j].tokens.Some? :: book[j].request in seen
    ensures Billed(book, k, Some(seen)) == Billed(book, k, None)
  {
    if book != [] {
      var rest := book[..|book| - 1];
      assert forall j | 0 <= j < |rest| :: rest[j] == book[j];
      BilledCompleted(rest, k, seen);
    }
  }

  ghost predicate MissedAreHeld(s: Store, book: seq<Entry>, k: PendingKey, seen: set<string>, now: int) {
    forall j | 0 <= j < |book| ::
      book[j].tokens.Some? && book[j].request !in seen && HasKey(book[j], k) ==>
        book[j].tokens.value <= Share(s, book[j], k, now)
  }

  /** Bills that a reading missed are paid for by the reservations still held. */
  lemma {:induction false} MissedBillsAreHeld(s: Store, book: seq<Entry>, k: PendingKey, seen: set<string>, now: int)
    requires Backed(s, book, now) && MissedAreHeld(s, book, k, seen, now)
    ensures Billed(book, k, None) + Held(s, book, k, now, true) <=
            Billed(book, k, Some(seen)) + Held(s, book, k, now, false)
  {
    hide Backed, Share, HasKey;
    if book != [] {
      var n := |book| - 1;
      BackedPrefix(s, book, now);
      ShareNonNegative(s, book, n, k, now);
      assert forall j | 0 <= j < n :: book[..n][j] == book[j];
      MissedBillsAreHeld(s, book[..n], k, seen, now);
    }
  }

  // ---------------------------------------------- when a reservation keeps a window

  /** The window's ledger figure and pending counter cover everything committed to it. */
  predicate Covered(sys: System, d: Decision, i: nat)
    requires i < |d.limits|
  {
    Committed(sys, KeyAt(d, i)) <= d.limits[i].used + Pending(sys.store, KeyAt(d, i), sys.now)
  }

  /** A reading of any age is good enough while the bills it missed are still held. */
  lemma StillHeldCovers(acc: Account, sys: System, rd: Reading, i: nat)
    requires RunInv(acc, sys) && StillHeld(sys, rd) && i < |rd.decision.limits|
    requires Billed(sys.book, KeyAt(rd.decision, i), Some(rd.seen)) <= rd.decision.limits[i].used
    ensures Covered(sys, rd.decision, i)
  {
    hide Held, Billed, Backed, Pending, Share, HasKey;
    var k := KeyAt(rd.decision, i);
    assert MissedAreHeld(sys.store, sys.book, k, rd.seen, sys.now) by {
      forall j | 0 <= j < |sys.book|
        ensures var e := sys.book[j];
                e.tokens.Some? && e.request !in rd.seen && HasKey(e, k) ==>
                  e.tokens.value <= Share(sys.store, e, k, sys.now)
      {
        assert HeldIfMissed(sys.store, sys.book[j], rd, i, sys.now);
      }
    }
    MissedBillsAreHeld(sys.store, sys.book, k, rd.seen, sys.now);
    assert Held(sys.store, sys.book, k, sys.now, false) <= Pending(sys.store, k, sys.now);
  }

  /** What a successful reservation commits in one of its windows. */
  lemma ReserveCommits(acc: Account, sys: System, r: string, amount: int, k: PendingKey)
    requires AccountOk(acc) && RunInv(acc, sys) && r in sys.readings && amount > 0 && FindEntry(sys.book, r).None?
    requires Reserve(sys.store, sys.readings[r].decision, r, amount, sys.now).Some?
    ensures var d := sys.readings[r].decision;
            Committed(Do(acc, sys, DoReserve(r, amount)), k) == Committed(sys, k)
              + (match FindKey(d, k, |d.limits|)
                 case None => 0
                 case Some(i) => Min(amount, Headroom(sys.store, d, i, sys.now)))
  {
    hide Take, Held, Billed, Share, Inv, Fits, AccountOk, RoomEverywhere, Headroom;
    var rd := sys.readings[r];
    var e := Entry(r, rd.via, rd.decision, None, None);
    FitsIsDistinct(acc, rd.via, rd.decision);
    ReserveIsTake(sys.store, rd.decision, r, amount, sys.now);
    TakeHeld(sys.store, sys.book, e, amount, sys.now, k, true);
    NewShare(sys.store, e, amount, sys.now, k);
    BilledMore(sys.book, e, k, None);
  }

  /** A successful reservation that asks for at least a window's headroom keeps that window's limit exactly
      when the figure it goes by, however old, covers what is committed there. */
  lemma ReserveKeepsLimitIff(acc: Account, sys: System, r: string, amount: int, i: nat)
    requires AccountOk(acc) && RunInv(acc, sys) && r in sys.readings && amount > 0 && FindEntry(sys.book, r).None?
    requires i < |sys.readings[r].decision.limits|
    requires Reserve(sys.store, sys.readings[r].decision, r, amount, sys.now).Some?
    ensures var d := sys.readings[r].decision;
            var after := Committed(Do(acc, sys, DoReserve(r, amount)), KeyAt(d, i));
            && (Covered(sys, d, i) ==> after <= d.limits[i].spec.limit)
            && (amount >= Headroom(sys.store, d, i, sys.now) ==>
                  (after <= d.limits[i].spec.limit <==> Covered(sys, d, i)))
  {
    hide Take, Committed, RunInv, AccountOk, Reserve, Do, Fits;
    var d := sys.readings[r].decision;
    assert DistinctIds(d) by { ReadingIsDistinct(acc, sys, r); }
    ReserveCommits(acc, sys, r, amount, KeyAt(d, i));
    FindKeyAt(d, i, |d.limits|);
  }

  lemma ReadingIsDistinct(acc: Account, sys: System, r: string)
    requires AccountOk(acc) && RunInv(acc, sys) && r in sys.readings
    ensures DistinctIds(sys.readings[r].decision)
  {
    FitsIsDistinct(acc, sys.readings[r].via, sys.readings[r].decision);
  }

  // ------------------------------------------------------ what honest runs keep

  /** No limit of the policy is zero, so it may let a request in. */
  predicate CanBill(p: Policy) {
    forall i | 0 <= i < |Specs(p)| :: Specs(p)[i].limit > 0
  }

  /** A row lies in the window its request reserved in, until a reset leaves it behind. */
  predicate StartFits(e: Entry, i: nat, last: Option<int>)
    requires i < |e.decision.limits| && e.startedAt.Some?
  {
    var l := e.decision.limits[i];
    !Slides(l.spec.kind) ==>
      && l.windowStart <= e.startedAt.value
      && ((last.Some? && e.startedAt.value < last.value) ||
          l.windowStart == UsageStart(l.spec, last, e.startedAt.value))
  }

  ghost predicate EntryOk(acc: Account, now: nat, e: Entry) {
    && CanBill(PolicyFor(acc, e.via))
    && (e.tokens.Some? ==> e.startedAt.Some?)
    && (e.startedAt.Some? ==> e.startedAt.value <= now)
  }

  ghost predicate ReadingOk(acc: Account, book: seq<Entry>, rd: Reading) {
    && rd.seen <= Completed(book)
    && (!rd.decision.blocked ==> CanBill(PolicyFor(acc, rd.via)))
  }

  /** What holds in every run, honest or not. */
  ghost predicate Basics(acc: Account, sys: System) {
    && sys.now >= EPOCH && (sys.last.Some? ==> sys.last.value <= sys.now)
    && (forall j | 0 <= j < |sys.book| :: EntryOk(acc, sys.now, sys.book[j]))
    && (forall r | r in sys.readings :: ReadingOk(acc, sys.book, sys.readings[r]))
  }

  ghost predicate RowFits(acc: Account, last: Option<int>, e: Entry) {
    e.startedAt.Some? ==> forall i | 0 <= i < |e.decision.limits| :: StartFits(e, i, LastFor(acc, e.via, last))
  }

  predicate ReadRight(book: seq<Entry>, rd: Reading, i: nat)
    requires i < |rd.decision.limits|
  {
    !Slides(rd.decision.limits[i].spec.kind) ==>
      Billed(book, KeyAt(rd.decision, i), Some(rd.seen)) <= rd.decision.limits[i].used
  }

  ghost predicate AllRight(book: seq<Entry>, rd: Reading) {
    forall i | 0 <= i < |rd.decision.limits| :: ReadRight(book, rd, i)
  }

  /** What honesty adds. */
  ghost predicate Facts(acc: Account, scope: Scope, sys: System) {
    && Basics(acc, sys)
    && (forall j | 0 <= j < |sys.book| && Covers(acc, scope, sys.book[j].via) :: RowFits(acc, sys.last, sys.book[j]))
    && (forall r | r in sys.readings && Covers(acc, scope, sys.readings[r].via) :: AllRight(sys.book, sys.readings[r]))
  }

  lemma StartIsPast(spec: Spec, last: Option<int>, now: nat)
    requires !Slides(spec.kind) && now >= EPOCH
    ensures UsageStart(spec, last, now) <= now
  {
    if Calendar(spec.kind) { WindowsTile(spec.kind, spec.count, spec.seconds, now); }
    hide QuotaWindowSpec;
  }

  /** Counter keys tell principals apart. */
  lemma SamePrincipal(acc: Account, v: Option<string>, via: Option<string>)
    requires AccountOk(acc) && CounterFor(acc, v) == CounterFor(acc, via)
    ensures Own(acc, v) == Own(acc, via) && (Own(acc, via) ==> v == via)
  {
    if Own(acc, v) { assert CounterFor(acc, v)[0] == 'a' && CounterFor(acc, v)[8..] == v.value; }
    if Own(acc, via) { assert CounterFor(acc, via)[0] == 'a' && CounterFor(acc, via)[8..] == via.value; }
    if !Own(acc, v) { assert CounterFor(acc, v)[0] == 'u'; }
    if !Own(acc, via) { assert CounterFor(acc, via)[0] == 'u'; }
  }

  // --------------------------------------------------- a reading counts every bill

  lemma {:induction false} UsageOfRows(ledger: seq<Row>, rows: seq<Row>, since: int)
    ensures UsageSince(ledger + rows, since) == UsageSince(ledger, since) + UsageSince(rows, since)
  {
    if ledger == [] {
      assert ledger + rows == rows;
    } else {
      assert (ledger + rows)[1..] == ledger[1..] + rows;
      UsageOfRows(ledger[1..], rows, since);
    }
  }

  function RowOf(e: Entry, key: Option<string>, since: int): nat {
    if e.startedAt.Some? && e.tokens.Some? && (key.None? || e.via == key) && e.startedAt.value >= since
    then e.tokens.value else 0
  }

  lemma LedgerStep(book: seq<Entry>, key: Option<string>, since: int)
    requires book != []
    ensures var n := |book| - 1;
            UsageSince(Ledger(book, key), since) ==
              UsageSince(Ledger(book[..n], key), since) + RowOf(book[n], key, since)
  {
    var n := |book| - 1;
    var e := book[n];
    var rows := if e.startedAt.Some? && e.tokens.Some? && (key.None? || e.via == key)
                then [Row(e.startedAt.value, e.tokens.value)] else [];
    UsageOfRows(Ledger(book[..n], key), rows, since);
  }

  /** If each bill on k is a row since then, the ledger counts at least what k has billed; and at most that, if each
      row since then is a bill on k. */
  lemma {:induction false} LedgerAgainstBilled(book: seq<Entry>, key: Option<string>, since: int, k: PendingKey)
    ensures (forall j | 0 <= j < |book| :: BilledBy(book[j], k, None) <= RowOf(book[j], key, since)) ==>
              Billed(book, k, None) <= UsageSince(Ledger(book, key), since)
    ensures (forall j | 0 <= j < |book| :: RowOf(book[j], key, since) <= BilledBy(book[j], k, None)) ==>
              UsageSince(Ledger(book, key), since) <= Billed(book, k, None)
  {
    hide BilledBy, RowOf;
    if book != [] {
      var rest := book[..|book| - 1];
      assert forall j | 0 <= j < |rest| :: rest[j] == book[j];
      LedgerAgainstBilled(rest, key, since, k);
      LedgerStep(book, key, since);
    }
  }

  /** Whatever a request billed on a window that stands still is in the usage of that window. */
  lemma BillIsARow(acc: Account, scope: Scope, sys: System, j: nat, via: Option<string>, i: nat, w: int)
    requires AccountOk(acc) && RunInv(acc, sys) && Facts(acc, scope, sys) && j < |sys.book| && Covers(acc, scope, via)
    requires i < |SpecsFor(acc, via)| && !Slides(SpecsFor(acc, via)[i].kind)
    ensures BilledBy(sys.book[j], KeyFor(acc, via, i, w), None) <=
            RowOf(sys.book[j], if Own(acc, via) then via else None, w)
  {
    var e, k := sys.book[j], KeyFor(acc, via, i, w);
    if e.tokens.Some? && HasKey(e, k) {
      var m := FindKey(e.decision, k, |e.decision.limits|).value;
      KeyOfLimit(acc, e.via, e.decision, via, i, w, m);
      assert EntryOk(acc, sys.now, e) && RowFits(acc, sys.last, e);
      assert StartFits(e, m, LastFor(acc, e.via, sys.last));
    }
  }

  /** A decision's key for some limit of a principal is of that principal and that limit. */
  lemma KeyOfLimit(acc: Account, v: Option<string>, d: Decision, via: Option<string>, i: nat, w: int, m: nat)
    requires AccountOk(acc) && Fits(acc, v, d) && m < |d.limits| && i < |SpecsFor(acc, via)|
    requires KeyAt(d, m) == KeyFor(acc, via, i, w)
    ensures Own(acc, v) == Own(acc, via) && (Own(acc, via) ==> v == via) && CounterFor(acc, v) == CounterFor(acc, via)
    ensures m == i && d.limits[m].spec == SpecsFor(acc, via)[i] && d.limits[m].windowStart == w
  {
    SamePrincipal(acc, v, via);
    FitsIsDistinct(acc, v, d);
    assert d.limits[i].spec == SpecsFor(acc, via)[i];
  }

  /** A row since the current window's start reserved in that window, if it is the principal's own. */
  lemma RowIsABill(acc: Account, scope: Scope, sys: System, j: nat, via: Option<string>, i: nat)
    requires AccountOk(acc) && RunInv(acc, sys) && Facts(acc, scope, sys) && j < |sys.book| && Covers(acc, scope, via)
    requires i < |SpecsFor(acc, via)| && !Slides(SpecsFor(acc, via)[i].kind)
    requires Own(acc, sys.book[j].via) ==> Own(acc, via)
    ensures var w := UsageStart(SpecsFor(acc, via)[i], LastFor(acc, via, sys.last), sys.now);
            RowOf(sys.book[j], if Own(acc, via) then via else None, w) <=
              BilledBy(sys.book[j], KeyFor(acc, via, i, w), None)
  {
    var spec, last := SpecsFor(acc, via)[i], LastFor(acc, via, sys.last);
    var w := UsageStart(spec, last, sys.now);
    var e := sys.book[j];
    if e.startedAt.Some? && e.tokens.Some? && (!Own(acc, via) || e.via == via) && e.startedAt.value >= w {
      assert EntryOk(acc, sys.now, e) && RowFits(acc, sys.last, e);
      assert Fits(acc, e.via, e.decision);
      assert PolicyFor(acc, e.via) == PolicyFor(acc, via) && LastFor(acc, e.via, sys.last) == last;
      assert e.decision.limits[i].spec == spec;
      assert StartFits(e, i, LastFor(acc, e.via, sys.last));
      StartStands(spec, last, e.startedAt.value, sys.now);
      FitsIsDistinct(acc, e.via, e.decision);
      FindKeyAt(e.decision, i, |e.decision.limits|);
    }
  }

  /** A window that stands still starts at the same instant for every row in it, and after the last reset. */
  lemma StartStands(spec: Spec, last: Option<int>, t: nat, now: nat)
    requires !Slides(spec.kind) && UsageStart(spec, last, now) <= t <= now && (last.Some? ==> last.value <= now)
    ensures last.Some? ==> last.value <= t
    ensures UsageStart(spec, last, t) == UsageStart(spec, last, now)
  {
    SameStart(spec.kind, spec.count, spec.seconds, now, t);
    hide QuotaWindowSpec;
  }

  // -------------------------------------------------------- what every step keeps

  lemma ReadCanBill(p: Policy, counter: string, ledger: seq<Row>, last: Option<int>, now: nat, d: Decision)
    requires Answers(p, counter, ledger, last, now, d) && !d.blocked
    ensures CanBill(p)
  {
    forall i | 0 <= i < |Specs(p)| ensures Specs(p)[i].limit > 0 { assert !OutAt(d.limits, i); }
  }

  /** Changing an entry that has not billed, or adding one, leaves what earlier readings saw. */
  lemma CompletedGrows(sys: System, j: nat, e: Entry)
    requires j < |sys.book| && sys.book[j].tokens.None?
    ensures Completed(sys.book) <= Completed(sys.book[j := e])
  {
    var book' := sys.book[j := e];
    forall m | 0 <= m < |sys.book| && sys.book[m].tokens.Some? ensures book'[m].request in Completed(book') {
      assert book'[m] == sys.book[m];
    }
  }

  lemma CompletedMore(book: seq<Entry>, e: Entry)
    ensures Completed(book) <= Completed(book + [e])
  {
    var book' := book + [e];
    forall m | 0 <= m < |book| && book[m].tokens.Some? ensures book'[m].request in Completed(book') {
      assert book'[m] == book[m];
    }
  }

  lemma ReserverCanBill(acc: Account, book: seq<Entry>, rd: Reading, s: Store, r: string, amount: int, now: int)
    requires ReadingOk(acc, book, rd) && Fits(acc, rd.via, rd.decision) && Reserve(s, rd.decision, r, amount, now).Some?
    ensures CanBill(PolicyFor(acc, rd.via))
  {
  }

  lemma BasicsReserve(acc: Account, sys: System, r: string, amount: int)
    requires RunInv(acc, sys) && Basics(acc, sys)
    ensures Basics(acc, Do(acc, sys, DoReserve(r, amount)))
  {
    hide Inv, Take, RoomEverywhere, CanBill, Completed;
    var sys' := Do(acc, sys, DoReserve(r, amount));
    if sys' != sys {
      var rd := sys.readings[r];
      CompletedMore(sys.book, Entry(r, rd.via, rd.decision, None, None));
      ReserverCanBill(acc, sys.book, rd, sys.store, r, amount, sys.now);
    }
  }

  lemma BasicsUpdate(acc: Account, sys: System, j: nat, e: Entry)
    requires Basics(acc, sys) && j < |sys.book| && sys.book[j].tokens.None? && EntryOk(acc, sys.now, e)
    ensures Basics(acc, sys.(book := sys.book[j := e]))
  {
    hide CanBill, Completed;
    CompletedGrows(sys, j, e);
  }

  lemma BasicsKeep(acc: Account, sys: System, step: Step)
    requires RunInv(acc, sys) && Basics(acc, sys)
    ensures Basics(acc, Do(acc, sys, step))
  {
    hide RunInv, CanBill, Reserve, Release, Cleared, Completed, Answers;
    match step
    case Tick(elapsed) =>
    case DoRead(r, via, d) =>
      if Do(acc, sys, step) != sys && !d.blocked {
        ReadCanBill(PolicyFor(acc, via), CounterFor(acc, via), LedgerFor(acc, via, sys.book),
                    LastFor(acc, via, sys.last), sys.now, d);
      }
    case DoReserve(r, amount) => BasicsReserve(acc, sys, r, amount);
    case DoStart(r) =>
      var j := FindEntry(sys.book, r);
      if j.Some? && sys.book[j.value].startedAt.None? {
        BasicsUpdate(acc, sys, j.value, sys.book[j.value].(startedAt := Some(sys.now)));
      }
    case DoBill(r, actual) =>
      var j := FindEntry(sys.book, r);
      if j.Some? && sys.book[j.value].startedAt.Some? && sys.book[j.value].tokens.None? {
        BasicsUpdate(acc, sys, j.value, sys.book[j.value].(tokens := Some(actual)));
      }
    case DoRelease(r) =>
    case DoReset =>
    case DoClear =>
  }

  // ------------------------------------------------------- what honest steps keep

  lemma ReadGives(acc: Account, scope: Scope, sys: System, via: Option<string>, d: Decision)
    requires AccountOk(acc) && RunInv(acc, sys) && Facts(acc, scope, sys) && Covers(acc, scope, via)
    requires Answers(PolicyFor(acc, via), CounterFor(acc, via), LedgerFor(acc, via, sys.book),
                     LastFor(acc, via, sys.last), sys.now, d)
    ensures AllRight(sys.book, Reading(via, d, Completed(sys.book)))
  {
    hide RunInv, Facts, AccountOk, Covers;
    var rd := Reading(via, d, Completed(sys.book));
    var key := if Own(acc, via) then via else None;
    forall i | 0 <= i < |d.limits| && !Slides(d.limits[i].spec.kind)
      ensures ReadRight(sys.book, rd, i)
    {
      var k := KeyFor(acc, via, i, d.limits[i].windowStart);
      assert k == KeyAt(d, i);
      forall j | 0 <= j < |sys.book| ensures BilledBy(sys.book[j], k, None) <= RowOf(sys.book[j], key, k.windowStart) {
        BillIsARow(acc, scope, sys, j, via, i, k.windowStart);
      }
      LedgerAgainstBilled(sys.book, key, k.windowStart, k);
      BilledCompleted(sys.book, k, rd.seen);
    }
  }

  lemma ReadingStays(sys: System, j: nat, e: Entry, rd: Reading)
    requires Inv(sys.store, sys.book, sys.now) && rd.seen <= Completed(sys.book) && AllRight(sys.book, rd)
    requires j < |sys.book| && sys.book[j].tokens.None? && e.request == sys.book[j].request
    ensures AllRight(sys.book[j := e], rd)
  {
    hide Inv, Completed;
    OnlyOneEntry(sys, j);
    var book' := sys.book[j := e];
    forall i | 0 <= i < |rd.decision.limits| ensures ReadRight(book', rd, i) {
      assert ReadRight(sys.book, rd, i);
      BilledExcept(sys.book, j, e, KeyAt(rd.decision, i), Some(rd.seen));
    }
  }

  lemma OnlyOneEntry(sys: System, j: nat)
    requires Inv(sys.store, sys.book, sys.now) && j < |sys.book| && sys.book[j].tokens.None?
    ensures sys.book[j].request !in Completed(sys.book)
  {
  }

  lemma ReadingStaysMore(book: seq<Entry>, e: Entry, rd: Reading)
    requires AllRight(book, rd) && e.tokens.None?
    ensures AllRight(book + [e], rd)
  {
    forall i | 0 <= i < |rd.decision.limits| ensures ReadRight(book + [e], rd, i) {
      assert ReadRight(book, rd, i);
      BilledMore(book, e, KeyAt(rd.decision, i), Some(rd.seen));
    }
  }

  lemma FactsRead(acc: Account, scope: Scope, sys: System, r: string, via: Option<string>, d: Decision)
    requires AccountOk(acc) && RunInv(acc, sys) && Facts(acc, scope, sys)
    ensures Facts(acc, scope, Do(acc, sys, DoRead(r, via, d)))
  {
    BasicsKeep(acc, sys, DoRead(r, via, d));
    hide AccountOk, RunInv, RowFits, AllRight, Basics, Covers, Answers;
    if Do(acc, sys, DoRead(r, via, d)) != sys && Covers(acc, scope, via) { ReadGives(acc, scope, sys, via, d); }
  }

  lemma FactsReserve(acc: Account, scope: Scope, sys: System, r: string, amount: int)
    requires RunInv(acc, sys) && Facts(acc, scope, sys)
    ensures Facts(acc, scope, Do(acc, sys, DoReserve(r, amount)))
  {
    BasicsKeep(acc, sys, DoReserve(r, amount));
    hide Inv, Take, RoomEverywhere, AllRight, StartFits, Covers, Basics;
    var sys' := Do(acc, sys, DoReserve(r, amount));
    if sys' != sys {
      var rd := sys.readings[r];
      var e := Entry(r, rd.via, rd.decision, None, None);
      forall q | q in sys.readings && Covers(acc, scope, sys.readings[q].via)
        ensures AllRight(sys'.book, sys.readings[q])
      {
        ReadingStaysMore(sys.book, e, sys.readings[q]);
      }
    }
  }

  /** Starting or billing a row. */
  lemma FactsUpdate(acc: Account, scope: Scope, sys: System, j: nat, e: Entry)
    requires RunInv(acc, sys) && Facts(acc, scope, sys) && j < |sys.book| && sys.book[j].tokens.None?
    requires e.request == sys.book[j].request && e.via == sys.book[j].via
    requires EntryOk(acc, sys.now, e) && (Covers(acc, scope, e.via) ==> RowFits(acc, sys.last, e))
    ensures Facts(acc, scope, sys.(book := sys.book[j := e]))
  {
    BasicsUpdate(acc, sys, j, e);
    hide EntryOk, Inv, Fits, AllRight, Covers, RowFits, CanBill;
    forall q | q in sys.readings && Covers(acc, scope, sys.readings[q].via)
      ensures AllRight(sys.book[j := e], sys.readings[q])
    {
      ReadingStays(sys, j, e, sys.readings[q]);
    }
  }

  lemma FactsStart(acc: Account, scope: Scope, sys: System, r: string)
    requires RunInv(acc, sys) && Facts(acc, scope, sys) && Obeys(acc, scope, HONEST, sys, DoStart(r))
    ensures Facts(acc, scope, Do(acc, sys, DoStart(r)))
  {
    hide UsageStart, Inv, Fits, ReadingOk, AllRight, Covers;
    var j := FindEntry(sys.book, r);
    if j.Some? && sys.book[j.value].startedAt.None? {
      var e := sys.book[j.value].(startedAt := Some(sys.now));
      assert EntryOk(acc, sys.now, sys.book[j.value]);
      if Covers(acc, scope, e.via) {
        forall i | 0 <= i < |e.decision.limits| ensures StartFits(e, i, LastFor(acc, e.via, sys.last)) {
          var l := e.decision.limits[i];
          if !Slides(l.spec.kind) { StartIsPast(l.spec, LastFor(acc, e.via, sys.last), sys.now); }
        }
      }
      FactsUpdate(acc, scope, sys, j.value, e);
    }
  }

  lemma FactsBill(acc: Account, scope: Scope, sys: System, r: string, actual: nat)
    requires RunInv(acc, sys) && Facts(acc, scope, sys)
    ensures Facts(acc, scope, Do(acc, sys, DoBill(r, actual)))
  {
    hide UsageStart, Inv, Fits, ReadingOk, AllRight, Covers;
    var j := FindEntry(sys.book, r);
    if j.Some? && sys.book[j.value].startedAt.Some? && sys.book[j.value].tokens.None? {
      var e := sys.book[j.value].(tokens := Some(actual));
      assert EntryOk(acc, sys.now, sys.book[j.value]);
      if Covers(acc, scope, e.via) {
        assert RowFits(acc, sys.last, sys.book[j.value]);
        forall i | 0 <= i < |e.decision.limits| ensures StartFits(e, i, LastFor(acc, e.via, sys.last)) {
          assert StartFits(sys.book[j.value], i, LastFor(acc, e.via, sys.last));
        }
      }
      FactsUpdate(acc, scope, sys, j.value, e);
    }
  }

  lemma FactsReset(acc: Account, scope: Scope, sys: System)
    requires Facts(acc, scope, sys) && Obeys(acc, scope, HONEST, sys, DoReset)
    ensures Facts(acc, scope, Do(acc, sys, DoReset))
  {
    hide UsageStart, ReadingOk, AllRight, Covers, CanBill;
    forall j | 0 <= j < |sys.book| && Covers(acc, scope, sys.book[j].via)
      ensures RowFits(acc, Some(sys.now), sys.book[j])
    {
      var e := sys.book[j];
      assert RowFits(acc, sys.last, e);
      if e.startedAt.Some? {
        forall i | 0 <= i < |e.decision.limits| ensures StartFits(e, i, LastFor(acc, e.via, Some(sys.now))) {
          assert StartFits(e, i, LastFor(acc, e.via, sys.last));
        }
      }
    }
  }

  lemma FactsKeep(acc: Account, scope: Scope, sys: System, step: Step)
    requires AccountOk(acc) && RunInv(acc, sys) && Facts(acc, scope, sys) && Obeys(acc, scope, HONEST, sys, step)
    ensures Facts(acc, scope, Do(acc, sys, step))
  {
    BasicsKeep(acc, sys, step);
    hide AccountOk, RunInv, RowFits, AllRight, Reserve, Release, Cleared, Basics, Covers, Obeys, Answers;
    match step
    case Tick(elapsed) =>
    case DoRead(r, via, d) => FactsRead(acc, scope, sys, r, via, d);
    case DoReserve(r, amount) => FactsReserve(acc, scope, sys, r, amount);
    case DoStart(r) => FactsStart(acc, scope, sys, r);
    case DoBill(r, actual) => FactsBill(acc, scope, sys, r, actual);
    case DoRelease(r) =>
    case DoReset => FactsReset(acc, scope, sys);
    case DoClear =>
  }

  // ------------------------------------------------------ what a step may commit

  lemma CommittedLater(acc: Account, sys: System, elapsed: nat, k: PendingKey)
    requires RunInv(acc, sys)
    ensures Committed(sys.(now := sys.now + elapsed * SECOND), k) <= Committed(sys, k)
  {
    hide Share, Held, Backed, Pending;
    var later := sys.now + elapsed * SECOND;
    forall j | 0 <= j < |sys.book|
      ensures Share(sys.store, sys.book[j], k, later) <= Share(sys.store, sys.book[j], k, sys.now)
    {
      ShareLater(sys.store, sys.book, j, k, sys.now, later);
    }
    HeldDrops(sys.store, sys.store, sys.book, k, sys.now, later, true);
  }

  lemma CommittedClear(acc: Account, sys: System, counter: string, k: PendingKey)
    requires RunInv(acc, sys)
    ensures Committed(sys.(store := Cleared(sys.store, counter)), k) <= Committed(sys, k)
  {
    hide Share, Held, Backed, Cleared;
    var s' := Cleared(sys.store, counter);
    forall j | 0 <= j < |sys.book|
      ensures Share(s', sys.book[j], k, sys.now) <= Share(sys.store, sys.book[j], k, sys.now)
    {
      ClearedShare(sys.store, sys.book, j, counter, k, sys.now);
    }
    HeldDrops(sys.store, s', sys.book, k, sys.now, sys.now, true);
  }

  lemma SameCommitted(sys: System, j: nat, e: Entry, k: PendingKey)
    requires j < |sys.book| && sys.book[j].tokens.None?
    requires e.request == sys.book[j].request && e.decision == sys.book[j].decision
    ensures Committed(sys.(book := sys.book[j := e]), k) == Committed(sys, k) +
            (if e.tokens.None? then 0 else BilledBy(e, k, None) - Share(sys.store, sys.book[j], k, sys.now))
  {
    hide Held, Billed, Share, HasKey;
    BilledExcept(sys.book, j, e, k, None);
    SameShare(sys.store, sys.book[j], e, k, sys.now);
    HeldExcept(sys.store, sys.store, sys.book, sys.book[j := e], j, k, sys.now, true);
  }

  /** A bill that is covered commits no more than was held for it. */
  lemma CommittedBill(acc: Account, sys: System, j: nat, actual: nat, k: PendingKey)
    requires RunInv(acc, sys) && j < |sys.book| && sys.book[j].tokens.None?
    requires var e := sys.book[j];
             HasKey(e, k) ==>
               e.startedAt.Some? && Live(acc, e.via, sys.last, e.startedAt.value) && BillFits(acc, sys, e, actual)
    ensures Committed(sys.(book := sys.book[j := sys.book[j].(tokens := Some(actual))]), k) <= Committed(sys, k)
  {
    hide Committed, Backed, Accounted, BookOk, Fits, Live;
    var e := sys.book[j];
    SameCommitted(sys, j, e.(tokens := Some(actual)), k);
    ShareNonNegative(sys.store, sys.book, j, k, sys.now);
    if HasKey(e, k) {
      var i := FindKey(e.decision, k, |e.decision.limits|).value;
      assert Share(sys.store, e, k, sys.now) == Reserved(sys.store, SlotAt(e.decision, i, e.request), sys.now);
    }
  }

  lemma CommittedRelease(acc: Account, sys: System, j: nat, k: PendingKey)
    requires RunInv(acc, sys) && j < |sys.book|
    ensures var s' := Release(sys.store, sys.book[j].decision, sys.book[j].request, sys.now);
            Committed(sys.(store := s'), k) <= Committed(sys, k)
  {
    hide Held, Billed, Share, Give, Backed, Accounted, BookOk;
    GiveHeld(sys.store, sys.book, j, sys.now, k, true);
    ShareNonNegative(sys.store, sys.book, j, k, sys.now);
  }

  lemma CommittedRead(sys: System, readings: map<string, Reading>, last: Option<int>, k: PendingKey)
    ensures Committed(sys.(readings := readings), k) == Committed(sys, k)
    ensures Committed(sys.(last := last), k) == Committed(sys, k)
  {
  }

  /** The rows billed on a live window are live themselves. */
  lemma LiveRows(acc: Account, scope: Scope, sys: System, j: nat, via: Option<string>, i: nat, w: int)
    requires AccountOk(acc) && RunInv(acc, sys) && Facts(acc, scope, sys) && Covers(acc, scope, via) && j < |sys.book|
    requires i < |SpecsFor(acc, via)| && !Slides(SpecsFor(acc, via)[i].kind) && Live(acc, via, sys.last, w)
    requires HasKey(sys.book[j], KeyFor(acc, via, i, w)) && sys.book[j].startedAt.Some?
    ensures Live(acc, sys.book[j].via, sys.last, sys.book[j].startedAt.value) && Covers(acc, scope, sys.book[j].via)
  {
    var e := sys.book[j];
    var m := FindKey(e.decision, KeyFor(acc, via, i, w), |e.decision.limits|).value;
    KeyOfLimit(acc, e.via, e.decision, via, i, w, m);
    assert RowFits(acc, sys.last, e);
    assert StartFits(e, m, LastFor(acc, e.via, sys.last));
  }

  lemma WithinBill(acc: Account, scope: Scope, sys: System, r: string, actual: nat, via: Option<string>, i: nat, w: int)
    requires AccountOk(acc) && RunInv(acc, sys) && Facts(acc, scope, sys) &&
             Obeys(acc, scope, HONEST, sys, DoBill(r, actual))
    requires i < |SpecsFor(acc, via)| && !Slides(SpecsFor(acc, via)[i].kind)
    requires Covers(acc, scope, via) && Live(acc, via, sys.last, w)
    ensures Committed(Do(acc, sys, DoBill(r, actual)), KeyFor(acc, via, i, w)) <= Committed(sys, KeyFor(acc, via, i, w))
  {
    hide AccountOk, Inv, Fits, Committed, Facts, HasKey, BillFits, Covers, Live;
    var j := FindEntry(sys.book, r);
    if j.Some? && sys.book[j.value].startedAt.Some? && sys.book[j.value].tokens.None? {
      if HasKey(sys.book[j.value], KeyFor(acc, via, i, w)) { LiveRows(acc, scope, sys, j.value, via, i, w); }
      CommittedBill(acc, sys, j.value, actual, KeyFor(acc, via, i, w));
    }
  }

  lemma WithinStart(acc: Account, sys: System, r: string, k: PendingKey)
    requires Basics(acc, sys)
    ensures Committed(Do(acc, sys, DoStart(r)), k) == Committed(sys, k)
  {
    hide Committed;
    var j := FindEntry(sys.book, r);
    if j.Some? && sys.book[j.value].startedAt.None? {
      assert EntryOk(acc, sys.now, sys.book[j.value]);
      SameCommitted(sys, j.value, sys.book[j.value].(startedAt := Some(sys.now)), k);
    }
  }

  lemma WithinReserve(acc: Account, scope: Scope, sys: System, r: string, amount: int, via: Option<string>, i: nat,
                      w: int)
    requires AccountOk(acc) && RunInv(acc, sys) && Facts(acc, scope, sys)
    requires Obeys(acc, scope, HONEST, sys, DoReserve(r, amount)) && Covers(acc, scope, via)
    requires i < |SpecsFor(acc, via)| && !Slides(SpecsFor(acc, via)[i].kind)
    requires Committed(sys, KeyFor(acc, via, i, w)) <= SpecsFor(acc, via)[i].limit
    ensures Committed(Do(acc, sys, DoReserve(r, amount)), KeyFor(acc, via, i, w)) <= SpecsFor(acc, via)[i].limit
  {
    hide AccountOk, Inv, Fits, Committed, Reserve, StillHeld, Facts, KeyFor;
    var k := KeyFor(acc, via, i, w);
    if Do(acc, sys, DoReserve(r, amount)) != sys {
      var rd := sys.readings[r];
      var m := FindKey(rd.decision, k, |rd.decision.limits|);
      ReserveCommits(acc, sys, r, amount, k);
      if m.Some? {
        KeyOfLimit(acc, rd.via, rd.decision, via, i, w, m.value);
        ReadRightHere(acc, scope, sys, r, m.value);
        StillHeldCovers(acc, sys, rd, m.value);
      }
    }
  }

  lemma ReadRightHere(acc: Account, scope: Scope, sys: System, r: string, i: nat)
    requires Facts(acc, scope, sys) && r in sys.readings && i < |sys.readings[r].decision.limits|
    requires !Slides(sys.readings[r].decision.limits[i].spec.kind) && Covers(acc, scope, sys.readings[r].via)
    ensures var rd := sys.readings[r];
            Billed(sys.book, KeyAt(rd.decision, i), Some(rd.seen)) <= rd.decision.limits[i].used
  {
    assert AllRight(sys.book, sys.readings[r]);
    assert ReadRight(sys.book, sys.readings[r], i);
  }

  lemma ResetEndsWindows(acc: Account, via: Option<string>, last: Option<int>, now: nat, w: int)
    requires last.Some? ==> last.value <= now
    ensures Live(acc, via, Some(now), w) ==> Live(acc, via, last, w)
  {
  }

  lemma WithinKeeps(acc: Account, scope: Scope, sys: System, step: Step)
    requires AccountOk(acc) && RunInv(acc, sys) && Facts(acc, scope, sys) && WithinQuota(acc, scope, sys)
    requires Obeys(acc, scope, HONEST, sys, step)
    ensures WithinQuota(acc, scope, Do(acc, sys, step))
  {
    hide AccountOk, RunInv, Committed, Reserve, Release, Cleared, Live, Covers, EntryOk, RowFits, AllRight, ReadingOk,
         Obeys, KeyFor;
    var sys' := Do(acc, sys, step);
    forall via, i: nat, w |
        Covers(acc, scope, via) && i < |SpecsFor(acc, via)| && !Slides(SpecsFor(acc, via)[i].kind) &&
          Live(acc, via, sys'.last, w)
      ensures Committed(sys', KeyFor(acc, via, i, w)) <= SpecsFor(acc, via)[i].limit
    {
      var k := KeyFor(acc, via, i, w);
      if step.DoReset? { ResetEndsWindows(acc, via, sys.last, sys.now, w); }
      assert Committed(sys, k) <= SpecsFor(acc, via)[i].limit;
      match step
      case Tick(elapsed) => CommittedLater(acc, sys, elapsed, k);
      case DoRead(r, v, d) => CommittedRead(sys, sys.readings[r := Reading(v, d, Completed(sys.book))], sys.last, k);
      case DoReset => CommittedRead(sys, sys.readings, Some(sys.now), k);
      case DoClear => CommittedClear(acc, sys, CounterFor(acc, None), k);
      case DoReserve(r, amount) => WithinReserve(acc, scope, sys, r, amount, via, i, w);
      case DoStart(r) => WithinStart(acc, sys, r, k);
      case DoBill(r, actual) => WithinBill(acc, scope, sys, r, actual, via, i, w);
      case DoRelease(r) =>
        var j := FindEntry(sys.book, r);
        if j.Some? { CommittedRelease(acc, sys, j.value, k); }
    }
  }

  // ------------------------------------------------------------- whole runs

  lemma {:induction false} RunsKeepBasics(acc: Account, start: System, steps: seq<Step>)
    requires AccountOk(acc) && Starts(start)
    ensures Basics(acc, Run(acc, start, steps))
  {
    hide Do, AccountOk;
    if steps != [] {
      var n := |steps| - 1;
      RunsKeepBasics(acc, start, steps[..n]);
      EveryRunIsAccounted(acc, start, steps[..n]);
      hide Basics, RunInv;
      BasicsKeep(acc, Run(acc, start, steps[..n]), steps[n]);
    }
  }

  lemma {:induction false} HonestRunsKeepFacts(acc: Account, scope: Scope, start: System, steps: seq<Step>)
    requires AccountOk(acc) && Starts(start) && RunObeys(acc, scope, HONEST, start, steps)
    ensures Facts(acc, scope, Run(acc, start, steps))
  {
    hide Do, AccountOk, Obeys, Covers;
    if steps != [] {
      var n := |steps| - 1;
      HonestRunsKeepFacts(acc, scope, start, steps[..n]);
      EveryRunIsAccounted(acc, start, steps[..n]);
      hide Facts, RunInv;
      FactsKeep(acc, scope, Run(acc, start, steps[..n]), steps[n]);
    }
  }

  /** No live window that stands still is ever over-committed. */
  lemma {:induction false} RunsStayWithinQuota(acc: Account, scope: Scope, start: System, steps: seq<Step>)
    requires AccountOk(acc) && Starts(start) && RunObeys(acc, scope, HONEST, start, steps)
    ensures WithinQuota(acc, scope, Run(acc, start, steps))
  {
    hide Do, Obeys, Covers, Live;
    if steps != [] {
      var n := |steps| - 1;
      RunsStayWithinQuota(acc, scope, start, steps[..n]);
      EveryRunIsAccounted(acc, start, steps[..n]);
      HonestRunsKeepFacts(acc, scope, start, steps[..n]);
      hide Facts, RunInv, WithinQuota, AccountOk;
      WithinKeeps(acc, scope, Run(acc, start, steps[..n]), steps[n]);
    }
  }

  /** What the ledger counts against a limit now. */
  function UsageNow(acc: Account, sys: System, via: Option<string>, i: nat): nat
    requires i < |SpecsFor(acc, via)|
  {
    UsageSince(LedgerFor(acc, via, sys.book), UsageStart(SpecsFor(acc, via)[i], LastFor(acc, via, sys.last), sys.now))
  }

  /** Only requests through keys whose own policies let nobody in can escape the user's counter. */
  ghost predicate CountsAlone(acc: Account, via: Option<string>) {
    Own(acc, via) || forall key | key in acc.keys :: !CanBill(acc.keys[key])
  }

  /** While a principal's own requests are honest, whatever others do, the ledger stays within each of the
      principal's limits whose window stands still. */
  lemma LedgerStaysWithinLimits(acc: Account, scope: Scope, start: System, steps: seq<Step>, via: Option<string>,
                                i: nat)
    requires AccountOk(acc) && Starts(start) && RunObeys(acc, scope, HONEST, start, steps) && Covers(acc, scope, via)
    requires i < |SpecsFor(acc, via)| && !Slides(SpecsFor(acc, via)[i].kind) && CountsAlone(acc, via)
    ensures UsageNow(acc, Run(acc, start, steps), via, i) <= SpecsFor(acc, via)[i].limit
  {
    hide RunObeys, Covers, Live;
    var sys := Run(acc, start, steps);
    EveryRunIsAccounted(acc, start, steps);
    HonestRunsKeepFacts(acc, scope, start, steps);
    RunsStayWithinQuota(acc, scope, start, steps);
    hide AccountOk, RunInv, Run, Facts, WithinQuota;
    UsageWithinCommitted(acc, scope, sys, via, i);
  }

  lemma UsageWithinCommitted(acc: Account, scope: Scope, sys: System, via: Option<string>, i: nat)
    requires AccountOk(acc) && RunInv(acc, sys) && Facts(acc, scope, sys) && WithinQuota(acc, scope, sys)
    requires Covers(acc, scope, via)
    requires i < |SpecsFor(acc, via)| && !Slides(SpecsFor(acc, via)[i].kind) && CountsAlone(acc, via)
    ensures UsageNow(acc, sys, via, i) <= SpecsFor(acc, via)[i].limit
  {
    hide AccountOk, Inv, Fits, RowOf, BilledBy, Held, Backed, Covers, RowFits, AllRight;
    var spec := SpecsFor(acc, via)[i];
    var key := if Own(acc, via) then via else None;
    var w := UsageStart(spec, LastFor(acc, via, sys.last), sys.now);
    var k := KeyFor(acc, via, i, w);
    forall j | 0 <= j < |sys.book| ensures RowOf(sys.book[j], key, w) <= BilledBy(sys.book[j], k, None) {
      assert EntryOk(acc, sys.now, sys.book[j]);
      RowIsABill(acc, scope, sys, j, via, i);
    }
    LedgerAgainstBilled(sys.book, key, w, k);
    HeldNonNegative(sys, acc, k);
    assert Live(acc, via, sys.last, w);
    assert Committed(sys, k) <= spec.limit;
  }

  lemma HeldNonNegative(sys: System, acc: Account, k: PendingKey)
    requires RunInv(acc, sys)
    ensures Held(sys.store, sys.book, k, sys.now, true) >= 0
  {
    HeldCovers(sys.store, sys.book, k, sys.now);
  }
}
