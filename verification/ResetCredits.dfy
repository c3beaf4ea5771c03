/** Quota reset credits (internal/store/quota_resets.go); a grant's id is its position.

  The main result is an exchange argument: spending the earliest-expiring grant serves at least as many
  redemptions as any other choice, even when grants arrive during the run.
 */
module ResetCredits {
  import opened Wrappers

  datatype Grant = Grant(subject: string, total: int, remaining: int, expiresAt: int)

  datatype Event =
    | Credit(subject: string, grantId: nat, resetAt: int)
    | Admin(subject: string, actor: string, resetAt: int)

  datatype Ledger = Ledger(users: set<string>, grants: seq<Grant>, events: seq<Event>)

  datatype Refusal = BadCount | ExpiryNotInFuture | NoRows

  // ---------------------------------------------------------------- queries

  /** The WHERE clause both queries share. */
  predicate Spendable(grants: seq<Grant>, subject: string, now: int, i: int) {
    0 <= i < |grants| && grants[i].subject == subject && grants[i].remaining > 0 && grants[i].expiresAt > now
  }

  /** ORDER BY expires_at ASC, id ASC. */
  predicate Before(grants: seq<Grant>, i: int, j: int) {
    && 0 <= i < |grants| && 0 <= j < |grants|
    && (grants[i].expiresAt < grants[j].expiresAt || (grants[i].expiresAt == grants[j].expiresAt && i < j))
  }

  function InsertRow(grants: seq<Grant>, row: int, rows: seq<int>): (sorted: seq<int>)
    ensures |sorted| == |rows| + 1
    ensures forall x :: x in sorted <==> x == row || x in rows
  {
    if rows == [] || Before(grants, row, rows[0]) then [row] + rows
    else
      assert rows == [rows[0]] + rows[1..];
      [rows[0]] + InsertRow(grants, row, rows[1..])
  }

  /** The rows of the status query: spendable ids below n, in ORDER BY order. */
  function Listing(grants: seq<Grant>, subject: string, now: int, n: nat): (rows: seq<int>)
    ensures forall i :: i in rows <==> i < n && Spendable(grants, subject, now, i)
  {
    if n == 0 then []
    else
      var rest := Listing(grants, subject, now, n - 1);
      if Spendable(grants, subject, now, n - 1) then InsertRow(grants, n - 1, rest) else rest
  }

  ghost predicate SortedRows(grants: seq<Grant>, rows: seq<int>) {
    && (forall k | 0 <= k < |rows| :: 0 <= rows[k] < |grants|)
    && (forall a, b | 0 <= a < b < |rows| :: Before(grants, rows[a], rows[b]))
  }

  lemma {:induction false} InsertRowSorted(grants: seq<Grant>, row: nat, rows: seq<int>)
    requires row < |grants| && SortedRows(grants, rows) && row !in rows
    ensures SortedRows(grants, InsertRow(grants, row, rows))
  {
    if rows != [] && !Before(grants, row, rows[0]) {
      InsertRowSorted(grants, row, rows[1..]);
      var tail := InsertRow(grants, row, rows[1..]);
      forall k | 0 <= k < |tail| ensures Before(grants, rows[0], tail[k]) {
        assert tail[k] in tail;
        if tail[k] in rows[1..] {
          var j :| 0 <= j < |rows[1..]| && rows[1..][j] == tail[k];
          assert Before(grants, rows[0], rows[j + 1]);
        }
      }
    }
  }

  /** The status listing is ordered by (expiry, id); strict order makes each id occur once. */
  lemma {:induction false} ListingIsOrdered(grants: seq<Grant>, subject: string, now: int, n: nat)
    ensures SortedRows(grants, Listing(grants, subject, now, n))
    ensures var rows := Listing(grants, subject, now, n);
            forall a, b | 0 <= a < b < |rows| ::
              && 0 <= rows[a] < |grants| && 0 <= rows[b] < |grants|
              && grants[rows[a]].expiresAt <= grants[rows[b]].expiresAt
              && (grants[rows[a]].expiresAt == grants[rows[b]].expiresAt ==> rows[a] < rows[b])
  {
    if n > 0 {
      ListingIsOrdered(grants, subject, now, n - 1);
      if Spendable(grants, subject, now, n - 1) {
        InsertRowSorted(grants, n - 1, Listing(grants, subject, now, n - 1));
      }
    }
  }

  /** The row the redemption locks: LIMIT 1 of the ordered query. */
  function Earliest(grants: seq<Grant>, subject: string, now: int, n: nat): (best: Option<nat>)
    requires n <= |grants|
    ensures best.None? ==> forall i | 0 <= i < n :: !Spendable(grants, subject, now, i)
    ensures best.Some? ==> best.value < n && Spendable(grants, subject, now, best.value)
    ensures best.Some? ==> forall i | 0 <= i < n && i != best.value && Spendable(grants, subject, now, i) ::
                             Before(grants, best.value, i)
  {
    if n == 0 then None
    else
      var rest := Earliest(grants, subject, now, n - 1);
      if Spendable(grants, subject, now, n - 1) && (rest.None? || Before(grants, n - 1, rest.value))
      then Some(n - 1) else rest
  }

  /** Credits of a subject that are still good after time d. */
  function Pool(grants: seq<Grant>, subject: string, d: int): int {
    if grants == [] then 0
    else
      var last := grants[|grants| - 1];
      Pool(grants[..|grants| - 1], subject, d)
      + (if last.subject == subject && last.expiresAt > d then last.remaining else 0)
  }

  function Redeemed(events: seq<Event>, grantId: nat): nat {
    if events == [] then 0
    else
      var last := events[|events| - 1];
      Redeemed(events[..|events| - 1], grantId) + (if last.Credit? && last.grantId == grantId then 1 else 0)
  }

  /** Redemptions a subject has been served. */
  function Served(events: seq<Event>, subject: string): nat {
    if events == [] then 0
    else
      var last := events[|events| - 1];
      Served(events[..|events| - 1], subject) + (if last.Credit? && last.subject == subject then 1 else 0)
  }

  // ----------------------------------------------------------- transactions

  function GrantResets(l: Ledger, subject: string, count: int, expiresAt: int, now: int): Result<Ledger, Refusal> {
    if count <= 0 || count > 1000 then Err(BadCount)
    else if expiresAt <= now then Err(ExpiryNotInFuture)
    else if subject !in l.users then Err(NoRows)
    else Ok(l.(grants := l.grants + [Grant(subject, count, count, expiresAt)]))
  }

  function Spend(l: Ledger, subject: string, i: nat, now: int): Ledger
    requires i < |l.grants|
  {
    l.(grants := l.grants[i := l.grants[i].(remaining := l.grants[i].remaining - 1)],
       events := l.events + [Credit(subject, i, now)])
  }

  function UseCredit(l: Ledger, subject: string, now: int): Result<Ledger, Refusal> {
    match Earliest(l.grants, subject, now, |l.grants|)
    case None => Err(NoRows)
    case Some(i) => Ok(Spend(l, subject, i, now))
  }

  function AdminReset(l: Ledger, actor: string, subject: string, now: int): Result<Ledger, Refusal> {
    if subject !in l.users then Err(NoRows)
    else Ok(l.(events := l.events + [Admin(subject, actor, now)]))
  }

  /** max(reset_at) over the user's events. */
  function LastReset(events: seq<Event>, subject: string): (last: Option<int>)
    ensures last.None? ==> forall e | e in events :: e.subject != subject
    ensures last.Some? ==> exists e :: e in events && e.subject == subject && e.resetAt == last.value
    ensures last.Some? ==> forall e | e in events && e.subject == subject :: e.resetAt <= last.value
  {
    if events == [] then None
    else
      var n := |events| - 1;
      var before := LastReset(events[..n], subject);
      assert events == events[..n] + [events[n]];
      if events[n].subject != subject then before
      else if before.None? || before.value < events[n].resetAt then Some(events[n].resetAt)
      else before
  }

  /** The tables, updated in place by the four operations. */
  class QuotaResetStore {
    var users: set<string>
    var grants: seq<Grant>
    var events: seq<Event>

    ghost function View(): Ledger
      reads this
    {
      Ledger(users, grants, events)
    }

    constructor (users: set<string>)
      ensures View() == Ledger(users, [], [])
    {
      this.users, grants, events := users, [], [];
    }

    method GrantQuotaResets(subject: string, count: int, expiresAt: int, now: int) returns (r: Result<nat, Refusal>)
      modifies this
      ensures r.Ok? ==> GrantResets(old(View()), subject, count, expiresAt, now) == Ok(View())
      ensures r.Ok? ==> r.value == |old(grants)| && |grants| == r.value + 1
      ensures r.Err? ==>
                GrantResets(old(View()), subject, count, expiresAt, now) == Err(r.error) && View() == old(View())
    {
      if count <= 0 || count > 1000 { return Err(BadCount); }
      if expiresAt <= now { return Err(ExpiryNotInFuture); }
      if subject !in users { return Err(NoRows); }
      grants := grants + [Grant(subject, count, count, expiresAt)];
      return Ok(|grants| - 1);
    }

    method UseQuotaResetCredit(subject: string, now: int) returns (r: Result<nat, Refusal>)
      modifies this
      ensures r.Ok? ==> UseCredit(old(View()), subject, now) == Ok(View())
      ensures r.Ok? ==> Spendable(old(grants), subject, now, r.value)
      ensures r.Err? ==> UseCredit(old(View()), subject, now) == Err(r.error) && View() == old(View())
    {
      var row := Earliest(grants, subject, now, |grants|);
      if row.None? { return Err(NoRows); }
      var before := grants[row.value].remaining;
      grants := grants[row.value := grants[row.value].(remaining := before - 1)];
      events := events + [Credit(subject, row.value, now)];
      return Ok(row.value);
    }

    method AdminResetQuota(actor: string, subject: string, now: int) returns (r: Result<(), Refusal>)
      modifies this
      ensures r.Ok? ==> AdminReset(old(View()), actor, subject, now) == Ok(View())
      ensures r.Err? ==> AdminReset(old(View()), actor, subject, now) == Err(r.error) && View() == old(View())
    {
      if subject !in users { return Err(NoRows); }
      events := events + [Admin(subject, actor, now)];
      return Ok(());
    }

    /** The loop over the status rows; its totals agree with what a redemption would find.  last is the latest
        reset of the user, by credit or by an administrator. */
    method QuotaResetStatus(subject: string, now: int)
      returns (available: int, nextExpiry: Option<int>, rows: seq<int>, last: Option<int>)
      requires NonNegative(grants)
      ensures rows == Listing(grants, subject, now, |grants|)
      ensures available == Pool(grants, subject, now)
      ensures nextExpiry == match Earliest(grants, subject, now, |grants|)
                            case None => None
                            case Some(i) => Some(grants[i].expiresAt)
      ensures last.None? ==> forall e | e in events :: e.subject != subject
      ensures last.Some? ==> exists e :: e in events && e.subject == subject && e.resetAt == last.value
      ensures last.Some? ==> forall e | e in events && e.subject == subject :: e.resetAt <= last.value
    {
      last := LastReset(events, subject);
      rows := Listing(grants, subject, now, |grants|);
      ListingIsOrdered(grants, subject, now, |grants|);
      available, nextExpiry := 0, None;
      for k := 0 to |rows|
        invariant available == Sum(grants, rows[..k])
        invariant nextExpiry == if k == 0 then None else Some(grants[rows[0]].expiresAt)
      {
        var x := grants[rows[k]];
        assert rows[..k + 1][..k] == rows[..k];
        available := available + x.remaining;
        assert k > 0 ==> Before(grants, rows[0], rows[k]);
        if nextExpiry.None? || x.expiresAt < nextExpiry.value {
          nextExpiry := Some(x.expiresAt);
        }
      }
      assert rows[..|rows|] == rows;
      HeadOfListing(grants, subject, now);
      ListingSum(grants, subject, now, |grants|);
      assert grants[..|grants|] == grants;
    }
  }

  /** A grant of 1 to 1000 credits, to a user there is, that expires later, adds so many credits that the user can spend
      until then; any other is refused, and nobody else's credits or events change. */
  lemma GrantGives(l: Ledger, subject: string, count: int, expiresAt: int, now: int, other: string, d: int)
    ensures var r := GrantResets(l, subject, count, expiresAt, now);
            && (r.Ok? <==> 1 <= count <= 1000 && expiresAt > now && subject in l.users)
            && (r.Err? ==> r.error == if !(1 <= count <= 1000) then BadCount
                                      else if expiresAt <= now then ExpiryNotInFuture else NoRows)
            && (r.Ok? ==>
                  && r.value.users == l.users && r.value.events == l.events
                  && Pool(r.value.grants, other, d) ==
                     Pool(l.grants, other, d) + (if other == subject && d < expiresAt then count else 0))
  {
    var g := Grant(subject, count, count, expiresAt);
    assert (l.grants + [g])[..|l.grants|] == l.grants;
  }

  lemma LastResetMore(events: seq<Event>, e: Event, subject: string)
    ensures LastReset(events + [e], subject) ==
            var before := LastReset(events, subject);
            if e.subject != subject then before
            else if before.None? || before.value < e.resetAt then Some(e.resetAt)
            else before
  {
    assert (events + [e])[..|events|] == events;
  }

  /** A reset, by credit or by an administrator, takes effect now, for that user only; a credit is spent for it. */
  lemma ResetTakesEffect(l: Ledger, actor: string, subject: string, now: int, other: string)
    requires forall e | e in l.events :: e.resetAt <= now
    ensures var r := AdminReset(l, actor, subject, now);
            && (r.Ok? <==> subject in l.users) && (r.Err? ==> r.error == NoRows)
            && (r.Ok? ==> r.value.grants == l.grants && r.value.users == l.users
                          && r.value.events == l.events + [Admin(subject, actor, now)]
                          && LastReset(r.value.events, other) == if other == subject then Some(now)
                                                                 else LastReset(l.events, other))
    ensures var r := UseCredit(l, subject, now);
            && (r.Err? ==> r.error == NoRows)
            && (r.Ok? ==> r.value.users == l.users
                          && LastReset(r.value.events, other) == if other == subject then Some(now)
                                                                 else LastReset(l.events, other))
  {
    hide Earliest;
    LastResetMore(l.events, Admin(subject, actor, now), other);
    var i := Earliest(l.grants, subject, now, |l.grants|);
    if i.Some? { LastResetMore(l.events, Credit(subject, i.value, now), other); }
  }

  // ------------------------------------------------- the listing's arithmetic

  function Sum(grants: seq<Grant>, rows: seq<int>): int
    requires forall k | 0 <= k < |rows| :: 0 <= rows[k] < |grants|
  {
    if rows == [] then 0
    else Sum(grants, rows[..|rows| - 1]) + grants[rows[|rows| - 1]].remaining
  }

  lemma {:induction false} SumSplit(grants: seq<Grant>, a: seq<int>, b: seq<int>)
    requires forall k | 0 <= k < |a| :: 0 <= a[k] < |grants|
    requires forall k | 0 <= k < |b| :: 0 <= b[k] < |grants|
    ensures Sum(grants, a + b) == Sum(grants, a) + Sum(grants, b)
  {
    if b == [] {
      assert a + b == a;
    } else {
      assert (a + b)[..|a + b| - 1] == a + b[..|b| - 1];
      SumSplit(grants, a, b[..|b| - 1]);
    }
  }

  lemma {:induction false} InsertRowSum(grants: seq<Grant>, row: nat, rows: seq<int>)
    requires row < |grants| && SortedRows(grants, rows) && row !in rows
    ensures SortedRows(grants, InsertRow(grants, row, rows))
    ensures Sum(grants, InsertRow(grants, row, rows)) == Sum(grants, rows) + grants[row].remaining
  {
    InsertRowSorted(grants, row, rows);
    if rows == [] || Before(grants, row, rows[0]) {
      SumSplit(grants, [row], rows);
      assert [row][..0] == [];
    } else {
      InsertRowSum(grants, row, rows[1..]);
      SumSplit(grants, [rows[0]], InsertRow(grants, row, rows[1..]));
      SumSplit(grants, [rows[0]], rows[1..]);
      assert rows == [rows[0]] + rows[1..];
    }
  }

  lemma {:induction false} ListingSum(grants: seq<Grant>, subject: string, now: int, n: nat)
    requires n <= |grants| && NonNegative(grants)
    ensures SortedRows(grants, Listing(grants, subject, now, n))
    ensures Sum(grants, Listing(grants, subject, now, n)) == Pool(grants[..n], subject, now)
  {
    ListingIsOrdered(grants, subject, now, n);
    if n > 0 {
      ListingSum(grants, subject, now, n - 1);
      assert grants[..n][..n - 1] == grants[..n - 1];
      assert grants[n - 1] in grants;
      if Spendable(grants, subject, now, n - 1) {
        InsertRowSum(grants, n - 1, Listing(grants, subject, now, n - 1));
      }
    }
  }

  /** The first row listed is the row the next redemption spends. */
  lemma HeadOfListing(grants: seq<Grant>, subject: string, now: int)
    ensures var rows := Listing(grants, subject, now, |grants|);
            Earliest(grants, subject, now, |grants|) == if rows == [] then None else Some(rows[0])
  {
    var rows := Listing(grants, subject, now, |grants|);
    ListingIsOrdered(grants, subject, now, |grants|);
    var best := Earliest(grants, subject, now, |grants|);
    if rows != [] {
      assert rows[0] in rows;
      assert best.value in rows;
      var k :| 0 <= k < |rows| && rows[k] == best.value;
      assert k == 0 || Before(grants, rows[0], rows[k]);
    } else {
      assert forall i :: i !in rows;
    }
  }

  // --------------------------------------------------------- conservation

  /** Every credit is either still in its grant or accounted for by one event naming it. */
  ghost predicate Conserved(l: Ledger) {
    && (forall i | 0 <= i < |l.grants| ::
          && 0 <= l.grants[i].remaining <= l.grants[i].total
          && l.grants[i].total - l.grants[i].remaining == Redeemed(l.events, i))
    && (forall e | e in l.events && e.Credit? ::
          e.grantId < |l.grants| && l.grants[e.grantId].subject == e.subject &&
            e.resetAt < l.grants[e.grantId].expiresAt)
  }

  datatype Action =
    | DoGrant(subject: string, count: int, expiresAt: int)
    | DoRedeem(subject: string)
    | DoAdmin(subject: string, actor: string)

  datatype Timed = At(now: int, action: Action)

  /** One transaction; a refused one leaves the tables alone. */
  function Apply(l: Ledger, t: Timed): Ledger {
    var r := match t.action
      case DoGrant(subject, count, expiresAt) => GrantResets(l, subject, count, expiresAt, t.now)
      case DoRedeem(subject) => UseCredit(l, subject, t.now)
      case DoAdmin(subject, actor) => AdminReset(l, actor, subject, t.now);
    if r.Ok? then r.value else l
  }

  function Run(l: Ledger, script: seq<Timed>): Ledger
    decreases |script|
  {
    if script == [] then l else Run(Apply(l, script[0]), script[1..])
  }

  lemma RedeemedAppend(events: seq<Event>, e: Event, i: nat)
    ensures Redeemed(events + [e], i) == Redeemed(events, i) + (if e.Credit? && e.grantId == i then 1 else 0)
  {
    assert (events + [e])[..|events|] == events;
  }

  lemma {:induction false} NeverNamed(events: seq<Event>, i: nat)
    requires forall e | e in events && e.Credit? :: e.grantId < i
    ensures Redeemed(events, i) == 0
  {
    if events != [] {
      assert events[|events| - 1] in events;
      NeverNamed(events[..|events| - 1], i);
    }
  }

  lemma SpendConserves(l: Ledger, subject: string, i: nat, now: int)
    requires Conserved(l) && Spendable(l.grants, subject, now, i)
    ensures Conserved(Spend(l, subject, i, now))
  {
    forall j: nat { RedeemedAppend(l.events, Credit(subject, i, now), j); }
  }

  lemma StepConserves(l: Ledger, t: Timed)
    requires Conserved(l)
    ensures Conserved(Apply(l, t))
  {
    match t.action
    case DoGrant(_, _, _) =>
      NeverNamed(l.events, |l.grants|);
    case DoRedeem(subject) =>
      var row := Earliest(l.grants, subject, t.now, |l.grants|);
      if row.Some? { SpendConserves(l, subject, row.value, t.now); }
    case DoAdmin(subject, actor) =>
      forall j: nat { RedeemedAppend(l.events, Admin(subject, actor, t.now), j); }
  }

  /** In every reachable state each grant keeps 0 <= remaining <= total, and total - remaining
      is the number of credit events naming it; every such event predates the grant's expiry. */
  lemma {:induction false} EveryRunConserves(l: Ledger, script: seq<Timed>)
    requires Conserved(l)
    ensures Conserved(Run(l, script))
    decreases |script|
  {
    if script != [] {
      StepConserves(l, script[0]);
      EveryRunConserves(Apply(l, script[0]), script[1..]);
    }
  }

  // ------------------------------------------------------------ optimality

  /** A rival policy: at each redemption it names any grant it likes, or declines. */
  function ApplyChoice(l: Ledger, t: Timed, choice: Option<nat>): Ledger {
    match t.action
    case DoRedeem(subject) =>
      if choice.Some? && Spendable(l.grants, subject, t.now, choice.value)
      then Spend(l, subject, choice.value, t.now) else l
    case _ => Apply(l, t)
  }

  function RunWithChoices(l: Ledger, script: seq<Timed>, choices: seq<Option<nat>>): Ledger
    requires |choices| == |script|
    decreases |script|
  {
    if script == [] then l
    else RunWithChoices(ApplyChoice(l, script[0], choices[0]), script[1..], choices[1..])
  }

  ghost predicate Chronological(script: seq<Timed>) {
    forall i, j | 0 <= i < j < |script| :: script[i].now <= script[j].now
  }

  ghost predicate NonNegative(grants: seq<Grant>) {
    forall g | g in grants :: g.remaining >= 0
  }

  /** The potential of the exchange argument: whatever the rival still holds beyond the greedy
      pool, at every horizon d, is paid for by redemptions the greedy policy is ahead. */
  ghost predicate Ahead(greedy: Ledger, rival: Ledger, subject: string, now: int) {
    var lead := Served(greedy.events, subject) - Served(rival.events, subject);
    && greedy.users == rival.users
    && NonNegative(greedy.grants) && NonNegative(rival.grants)
    && lead >= 0
    && forall d | d >= now :: Pool(rival.grants, subject, d) <= Pool(greedy.grants, subject, d) + lead
  }

  lemma {:induction false} PoolAfterSpend(grants: seq<Grant>, i: nat, subject: string, d: int)
    requires i < |grants|
    ensures Pool(grants[i := grants[i].(remaining := grants[i].remaining - 1)], subject, d)
            == Pool(grants, subject, d) - (if grants[i].subject == subject && grants[i].expiresAt > d then 1 else 0)
  {
    var n := |grants| - 1;
    var after := grants[i := grants[i].(remaining := grants[i].remaining - 1)];
    if i == n {
      assert after[..n] == grants[..n];
    } else {
      assert after[..n] == grants[..n][i := grants[i].(remaining := grants[i].remaining - 1)];
      PoolAfterSpend(grants[..n], i, subject, d);
    }
  }

  /** A horizon only loses credits, and loses at least one that expires between the two. */
  lemma {:induction false} PoolHorizon(grants: seq<Grant>, subject: string, now: int, d: int, i: nat)
    requires NonNegative(grants) && now <= d
    ensures 0 <= Pool(grants, subject, d) <= Pool(grants, subject, now)
    ensures Spendable(grants, subject, now, i) && grants[i].expiresAt <= d ==>
              Pool(grants, subject, d) <= Pool(grants, subject, now) - 1
    ensures Spendable(grants, subject, d, i) ==> Pool(grants, subject, d) >= 1
  {
    if grants != [] {
      var n := |grants| - 1;
      assert grants[n] in grants;
      PoolHorizon(grants[..n], subject, now, d, i);
    }
  }

  /** If no spendable grant expires by d then the whole pool outlives d. */
  lemma {:induction false} PoolOutlives(grants: seq<Grant>, subject: string, now: int, d: int)
    requires NonNegative(grants) && now <= d
    requires forall i | Spendable(grants, subject, now, i) :: grants[i].expiresAt > d
    ensures Pool(grants, subject, d) == Pool(grants, subject, now)
  {
    if grants != [] {
      var n := |grants| - 1;
      assert grants[n] in grants;
      assert Spendable(grants, subject, now, n) ==> grants[n].expiresAt > d;
      forall i | Spendable(grants[..n], subject, now, i) ensures grants[..n][i].expiresAt > d {
        assert Spendable(grants, subject, now, i);
      }
      PoolOutlives(grants[..n], subject, now, d);
    }
  }

  lemma {:induction false} PoolEmpty(grants: seq<Grant>, subject: string, d: int)
    requires NonNegative(grants)
    requires forall i | 0 <= i < |grants| :: !Spendable(grants, subject, d, i)
    ensures Pool(grants, subject, d) == 0
  {
    if grants != [] {
      var n := |grants| - 1;
      assert grants[n] in grants && !Spendable(grants, subject, d, n);
      forall i | 0 <= i < n ensures !Spendable(grants[..n], subject, d, i) {
        assert !Spendable(grants, subject, d, i);
      }
      PoolEmpty(grants[..n], subject, d);
    }
  }

  lemma ServedAppend(events: seq<Event>, e: Event, subject: string)
    ensures Served(events + [e], subject) ==
            Served(events, subject) + (if e.Credit? && e.subject == subject then 1 else 0)
  {
    assert (events + [e])[..|events|] == events;
  }

  lemma SpendEffect(l: Ledger, redeemer: string, i: nat, now: int, subject: string)
    requires NonNegative(l.grants) && Spendable(l.grants, redeemer, now, i)
    ensures var l' := Spend(l, redeemer, i, now);
            && NonNegative(l'.grants)
            && Served(l'.events, subject) == Served(l.events, subject) + (if redeemer == subject then 1 else 0)
            && forall d :: Pool(l'.grants, subject, d) ==
                 Pool(l.grants, subject, d) - (if redeemer == subject && l.grants[i].expiresAt > d then 1 else 0)
  {
    ServedAppend(l.events, Credit(redeemer, i, now), subject);
    forall d { PoolAfterSpend(l.grants, i, subject, d); }
  }

  /** One horizon of the exchange step.  The greedy policy spends g, its earliest; the rival spends
      r or nothing.  If g outlives d while r does not, then the whole greedy pool outlives d. */
  lemma ExchangeAtHorizon(greedy: seq<Grant>, rival: seq<Grant>, subject: string, now: int, d: int, lead: int,
                          g: Option<nat>, r: Option<nat>)
    requires NonNegative(greedy) && NonNegative(rival) && lead >= 0 && now <= d
    requires g == Earliest(greedy, subject, now, |greedy|)
    requires r.Some? ==> Spendable(rival, subject, now, r.value)
    requires Pool(rival, subject, now) <= Pool(greedy, subject, now) + lead
    requires Pool(rival, subject, d) <= Pool(greedy, subject, d) + lead
    ensures g.None? && r.Some? ==> lead >= 1
    ensures Pool(rival, subject, d) - (if r.Some? && rival[r.value].expiresAt > d then 1 else 0)
            <= Pool(greedy, subject, d) - (if g.Some? && greedy[g.value].expiresAt > d then 1 else 0)
               + lead + (if g.Some? then 1 else 0) - (if r.Some? then 1 else 0)
  {
    PoolHorizon(greedy, subject, now, d, 0);
    if g.None? { PoolEmpty(greedy, subject, now); }
    if r.Some? {
      PoolHorizon(rival, subject, now, d, r.value);
      PoolHorizon(rival, subject, now, now, r.value);
      if g.Some? && greedy[g.value].expiresAt > d {
        PoolOutlives(greedy, subject, now, d);
      }
    }
  }

  /** One redemption keeps the greedy policy ahead. */
  lemma RedeemKeepsAhead(greedy: Ledger, rival: Ledger, redeemer: string, now: int, choice: Option<nat>,
                         subject: string)
    requires Ahead(greedy, rival, subject, now)
    ensures Ahead(Apply(greedy, At(now, DoRedeem(redeemer))),
                  ApplyChoice(rival, At(now, DoRedeem(redeemer)), choice), subject, now)
  {
    var greedy' := Apply(greedy, At(now, DoRedeem(redeemer)));
    var rival' := ApplyChoice(rival, At(now, DoRedeem(redeemer)), choice);
    var g := Earliest(greedy.grants, redeemer, now, |greedy.grants|);
    var r := if choice.Some? && Spendable(rival.grants, redeemer, now, choice.value) then choice else None;
    if g.Some? { SpendEffect(greedy, redeemer, g.value, now, subject); }
    if r.Some? { SpendEffect(rival, redeemer, r.value, now, subject); }
    if redeemer == subject {
      var lead := Served(greedy.events, subject) - Served(rival.events, subject);
      forall d | d >= now
        ensures Pool(rival'.grants, subject, d) <=
                Pool(greedy'.grants, subject, d) + Served(greedy'.events, subject) - Served(rival'.events, subject)
      {
        assert Pool(rival.grants, subject, now) <= Pool(greedy.grants, subject, now) + lead;
        assert Pool(rival.grants, subject, d) <= Pool(greedy.grants, subject, d) + lead;
        ExchangeAtHorizon(greedy.grants, rival.grants, subject, now, d, lead, g, r);
      }
      assert g.None? && r.Some? ==> lead >= 1 by {
        assert Pool(rival.grants, subject, now) <= Pool(greedy.grants, subject, now) + lead;
        ExchangeAtHorizon(greedy.grants, rival.grants, subject, now, now, lead, g, r);
      }
    }
  }

  lemma OtherStepKeepsAhead(greedy: Ledger, rival: Ledger, t: Timed, subject: string)
    requires Ahead(greedy, rival, subject, t.now) && !t.action.DoRedeem?
    ensures Ahead(Apply(greedy, t), Apply(rival, t), subject, t.now)
  {
    match t.action
    case DoGrant(owner, count, expiresAt) =>
      var added := [Grant(owner, count, count, expiresAt)];
      assert (greedy.grants + added)[..|greedy.grants|] == greedy.grants;
      assert (rival.grants + added)[..|rival.grants|] == rival.grants;
      forall d | d >= t.now
        ensures Pool(rival.grants, subject, d) <=
                Pool(greedy.grants, subject, d) + Served(greedy.events, subject) - Served(rival.events, subject)
      { }
    case DoAdmin(owner, actor) =>
      ServedAppend(greedy.events, Admin(owner, actor, t.now), subject);
      ServedAppend(rival.events, Admin(owner, actor, t.now), subject);
  }

  lemma {:induction false} StaysAhead(greedy: Ledger, rival: Ledger, script: seq<Timed>, choices: seq<Option<nat>>,
                                      subject: string)
    requires |choices| == |script| && Chronological(script)
    requires script != [] ==> Ahead(greedy, rival, subject, script[0].now)
    requires script == [] ==> Served(rival.events, subject) <= Served(greedy.events, subject)
    ensures Served(RunWithChoices(rival, script, choices).events, subject) <=
            Served(Run(greedy, script).events, subject)
    decreases |script|
  {
    if script != [] {
      var t := script[0];
      match t.action {
        case DoRedeem(redeemer) => RedeemKeepsAhead(greedy, rival, redeemer, t.now, choices[0], subject);
        case _ => OtherStepKeepsAhead(greedy, rival, t, subject);
      }
      assert script[1..] != [] ==> t.now <= script[1..][0].now;
      StaysAhead(Apply(greedy, t), ApplyChoice(rival, t, choices[0]), script[1..], choices[1..], subject);
    }
  }

  /** Earliest-expiry-first is optimal: over any chronological script of grants, redemptions and
      admin resets, no other choice of grants serves any subject more redemptions. */
  lemma EarliestExpiryIsOptimal(start: Ledger, script: seq<Timed>, choices: seq<Option<nat>>, subject: string)
    requires NonNegative(start.grants) && |choices| == |script| && Chronological(script)
    ensures Served(RunWithChoices(start, script, choices).events, subject) <= Served(Run(start, script).events, subject)
  {
    StaysAhead(start, start, script, choices, subject);
  }
}
