/** The quota reservation protocol (cmd/api/access.go): multi-window reserve and release over
  counters that expire.

  Redis keys are structured values; times are nanoseconds on a clock of whole seconds, so that a key's
  window start is exact, and a key is gone at its deadline.
 */
module QuotaReservations {
  import opened Numbers
  import opened Wrappers
  import opened QuotaWindows

  const TTL := 3600 * SECOND

  datatype Counter = Counter(value: int, until: int)

  datatype PendingKey = PendingKey(counter: string, limitId: string, windowStart: int)

  datatype ReservationKey = ReservationKey(counter: string, limitId: string, request: string)

  datatype Store = Store(pending: map<PendingKey, Counter>, reservations: map<ReservationKey, Counter>)

  function Pending(s: Store, k: PendingKey, now: int): int {
    if k in s.pending && now < s.pending[k].until then s.pending[k].value else 0
  }

  function Reserved(s: Store, k: ReservationKey, now: int): int {
    if k in s.reservations && now < s.reservations[k].until then s.reservations[k].value else 0
  }

  function KeyAt(d: Decision, i: nat): PendingKey
    requires i < |d.limits|
  {
    PendingKey(d.counter, d.limits[i].spec.id, d.limits[i].windowStart)
  }

  function SlotAt(d: Decision, i: nat, r: string): ReservationKey
    requires i < |d.limits|
  {
    ReservationKey(d.counter, d.limits[i].spec.id, r)
  }

  function Headroom(s: Store, d: Decision, i: nat, now: int): int
    requires i < |d.limits|
  {
    d.limits[i].spec.limit - d.limits[i].used - Pending(s, KeyAt(d, i), now)
  }

  predicate RoomEverywhere(s: Store, d: Decision, now: int) {
    forall i | 0 <= i < |d.limits| :: Headroom(s, d, i, now) > 0
  }

  /** The script's second loop, after its first n windows. */
  function Take(s: Store, d: Decision, r: string, amount: int, now: int, n: nat): Store
    requires n <= |d.limits|
  {
    if n == 0 then s
    else
      var before := Take(s, d, r, amount, now, n - 1);
      var key := KeyAt(d, n - 1);
      var share := Min(amount, Headroom(before, d, n - 1, now));
      Store(before.pending[key := Counter(Pending(before, key, now) + share, now + TTL)],
            before.reservations[SlotAt(d, n - 1, r) := Counter(share, now + TTL)])
  }

  /** reserveQuota; None is "quota exhausted". */
  function Reserve(s: Store, d: Decision, r: string, amount: int, now: int): Option<Store> {
    if d.unlimited then Some(s)
    else if d.blocked then None
    else if !RoomEverywhere(s, d, now) then None
    else Some(Take(s, d, r, amount, now, |d.limits|))
  }

  /** The release script, after its first n windows. */
  function Give(s: Store, d: Decision, r: string, now: int, n: nat): Store
    requires n <= |d.limits|
  {
    if n == 0 then s
    else
      var before := Give(s, d, r, now, n - 1);
      var key := KeyAt(d, n - 1);
      var next := Pending(before, key, now) - Reserved(before, SlotAt(d, n - 1, r), now);
      Store(if next <= 0 then before.pending - {key} else before.pending[key := Counter(next, now + TTL)],
            before.reservations - {SlotAt(d, n - 1, r)})
  }

  function Release(s: Store, d: Decision, r: string, now: int): Store {
    if d.unlimited then s else Give(s, d, r, now, |d.limits|)
  }

  class Reservations {
    var pending: map<PendingKey, Counter>
    var reservations: map<ReservationKey, Counter>

    function View(): Store
      reads this
    {
      Store(pending, reservations)
    }

    constructor ()
      ensures View() == Store(map[], map[])
    {
      pending, reservations := map[], map[];
    }

    method ReserveQuota(d: Decision, r: string, amount: int, now: int) returns (ok: bool)
      modifies this
      ensures ok ==> Reserve(old(View()), d, r, amount, now) == Some(View())
      ensures !ok ==> Reserve(old(View()), d, r, amount, now) == None && View() == old(View())
    {
      if d.unlimited { return true; }
      if d.blocked { return false; }
      ghost var s := View();
      for i := 0 to |d.limits|
        invariant View() == s
        invariant forall j | 0 <= j < i :: Headroom(s, d, j, now) > 0
      {
        if d.limits[i].spec.limit - d.limits[i].used - Pending(View(), KeyAt(d, i), now) <= 0 {
          assert Headroom(s, d, i, now) <= 0;
          return false;
        }
      }
      for i := 0 to |d.limits|
        invariant View() == Take(s, d, r, amount, now, i)
      {
        var key := KeyAt(d, i);
        var share := Min(amount, d.limits[i].spec.limit - d.limits[i].used - Pending(View(), key, now));
        pending := pending[key := Counter(Pending(View(), key, now) + share, now + TTL)];
        reservations := reservations[SlotAt(d, i, r) := Counter(share, now + TTL)];
      }
      return true;
    }

    method ReleaseReservation(d: Decision, r: string, now: int)
      modifies this
      ensures View() == Release(old(View()), d, r, now)
    {
      if d.unlimited || |d.limits| == 0 { return; }
      ghost var s := View();
      for i := 0 to |d.limits|
        invariant View() == Give(s, d, r, now, i)
      {
        var key := KeyAt(d, i);
        var amount := Reserved(View(), SlotAt(d, i, r), now);
        var next := Pending(View(), key, now) - amount;
        if next <= 0 {
          pending := pending - {key};
        } else {
          pending := pending[key := Counter(next, now + TTL)];
        }
        reservations := reservations - {SlotAt(d, i, r)};
      }
    }
  }

  // ------------------------------------------------- what one script changes

  predicate DistinctIds(d: Decision) {
    forall i, j | 0 <= i < j < |d.limits| :: d.limits[i].spec.id != d.limits[j].spec.id
  }

  function Lookup<K, V>(m: map<K, V>, k: K): Option<V> {
    if k in m then Some(m[k]) else None
  }

  /** Which of the decision's first n windows uses this pending key, if any. */
  function FindKey(d: Decision, k: PendingKey, n: nat): (i: Option<nat>)
    requires n <= |d.limits|
    ensures i.Some? ==> i.value < n && KeyAt(d, i.value) == k
  {
    if n == 0 then None else if KeyAt(d, n - 1) == k then Some(n - 1) else FindKey(d, k, n - 1)
  }

  function FindSlot(d: Decision, r: string, k: ReservationKey, n: nat): (i: Option<nat>)
    requires n <= |d.limits|
    ensures i.Some? ==> i.value < n && SlotAt(d, i.value, r) == k
  {
    if n == 0 then None else if SlotAt(d, n - 1, r) == k then Some(n - 1) else FindSlot(d, r, k, n - 1)
  }

  lemma KeysDiffer(d: Decision, r: string, n: nat)
    requires DistinctIds(d) && n < |d.limits|
    ensures FindKey(d, KeyAt(d, n), n) == None && FindSlot(d, r, SlotAt(d, n, r), n) == None
  {
  }

  lemma SameLookup(before: Store, s: Store, d: Decision, r: string, n: nat, now: int)
    requires n < |d.limits|
    requires Lookup(before.pending, KeyAt(d, n)) == Lookup(s.pending, KeyAt(d, n))
    ensures Pending(before, KeyAt(d, n), now) == Pending(s, KeyAt(d, n), now)
    ensures Headroom(before, d, n, now) == Headroom(s, d, n, now)
    ensures Lookup(before.reservations, SlotAt(d, n, r)) == Lookup(s.reservations, SlotAt(d, n, r)) ==>
              Reserved(before, SlotAt(d, n, r), now) == Reserved(s, SlotAt(d, n, r), now)
  {
  }

  lemma TakeStep(s: Store, d: Decision, r: string, amount: int, now: int, n: nat, k: PendingKey)
    requires n < |d.limits|
    ensures var before := Take(s, d, r, amount, now, n);
            Lookup(Take(s, d, r, amount, now, n + 1).pending, k) ==
            if k != KeyAt(d, n) then Lookup(before.pending, k)
            else Some(Counter(Pending(before, k, now) + Min(amount, Headroom(before, d, n, now)), now + TTL))
  {
  }

  /** Reserving changes exactly the decision's own pending keys, each once: it adds the amount, or
      the window's whole headroom if that is less. */
  lemma {:induction false} TakePending(s: Store, d: Decision, r: string, amount: int, now: int, n: nat, k: PendingKey)
    requires n <= |d.limits| && DistinctIds(d)
    ensures Lookup(Take(s, d, r, amount, now, n).pending, k) ==
            match FindKey(d, k, n)
            case None => Lookup(s.pending, k)
            case Some(i) => Some(Counter(Pending(s, k, now) + Min(amount, Headroom(s, d, i, now)),
                                         now + 3_600_000_000_000))
  {
    hide DistinctIds, Lookup, Min, Headroom, Pending, KeyAt;
    if n > 0 {
      TakePending(s, d, r, amount, now, n - 1, k);
      TakePending(s, d, r, amount, now, n - 1, KeyAt(d, n - 1));
      KeysDiffer(d, r, n - 1);
      TakeStep(s, d, r, amount, now, n - 1, k);
      SameLookup(Take(s, d, r, amount, now, n - 1), s, d, r, n - 1, now);
    }
  }

  lemma {:induction false} TakeReservations(s: Store, d: Decision, r: string, amount: int, now: int, n: nat,
                                            k: ReservationKey)
    requires n <= |d.limits| && DistinctIds(d)
    ensures Lookup(Take(s, d, r, amount, now, n).reservations, k) ==
            match FindSlot(d, r, k, n)
            case None => Lookup(s.reservations, k)
            case Some(i) => Some(Counter(Min(amount, Headroom(s, d, i, now)), now + 3_600_000_000_000))
  {
    if n > 0 {
      TakeReservations(s, d, r, amount, now, n - 1, k);
      TakePending(s, d, r, amount, now, n - 1, KeyAt(d, n - 1));
      KeysDiffer(d, r, n - 1);
      hide DistinctIds;
      SameLookup(Take(s, d, r, amount, now, n - 1), s, d, r, n - 1, now);
    }
  }

  lemma GiveStep(s: Store, d: Decision, r: string, now: int, n: nat, k: PendingKey)
    requires n < |d.limits|
    ensures var before := Give(s, d, r, now, n);
            var next := Pending(before, KeyAt(d, n), now) - Reserved(before, SlotAt(d, n, r), now);
            Lookup(Give(s, d, r, now, n + 1).pending, k) ==
            if k != KeyAt(d, n) then Lookup(before.pending, k)
            else if next <= 0 then None else Some(Counter(next, now + TTL))
  {
  }

  /** Releasing subtracts exactly what the request still holds, and nothing elsewhere. */
  lemma {:induction false} GivePending(s: Store, d: Decision, r: string, now: int, n: nat, k: PendingKey)
    requires n <= |d.limits| && DistinctIds(d)
    ensures Lookup(Give(s, d, r, now, n).pending, k) ==
            match FindKey(d, k, n)
            case None => Lookup(s.pending, k)
            case Some(i) =>
              var next := Pending(s, k, now) - Reserved(s, SlotAt(d, i, r), now);
              if next <= 0 then None else Some(Counter(next, now + 3_600_000_000_000))
  {
    hide DistinctIds, Lookup, Pending, Reserved, KeyAt, SlotAt;
    if n > 0 {
      GivePending(s, d, r, now, n - 1, k);
      GivePending(s, d, r, now, n - 1, KeyAt(d, n - 1));
      GiveReservations(s, d, r, now, n - 1, SlotAt(d, n - 1, r));
      KeysDiffer(d, r, n - 1);
      GiveStep(s, d, r, now, n - 1, k);
      SameLookup(Give(s, d, r, now, n - 1), s, d, r, n - 1, now);
    }
  }

  lemma {:induction false} GiveReservations(s: Store, d: Decision, r: string, now: int, n: nat, k: ReservationKey)
    requires n <= |d.limits|
    ensures Lookup(Give(s, d, r, now, n).reservations, k) ==
            match FindSlot(d, r, k, n) case None => Lookup(s.reservations, k) case Some(_) => None
  {
    if n > 0 { GiveReservations(s, d, r, now, n - 1, k); }
  }

  lemma {:induction false} FindKeyAt(d: Decision, i: nat, n: nat)
    requires i < n <= |d.limits| && DistinctIds(d)
    ensures FindKey(d, KeyAt(d, i), n) == Some(i)
  {
    if i < n - 1 { FindKeyAt(d, i, n - 1); }
  }

  lemma {:induction false} FindSlotAt(d: Decision, r: string, i: nat, n: nat)
    requires i < n <= |d.limits| && DistinctIds(d)
    ensures FindSlot(d, r, SlotAt(d, i, r), n) == Some(i)
  {
    if i < n - 1 { FindSlotAt(d, r, i, n - 1); }
  }

  lemma {:induction false} FindSlotOther(d: Decision, r: string, k: ReservationKey, n: nat)
    requires n <= |d.limits| && k.request != r
    ensures FindSlot(d, r, k, n) == None
  {
    if n > 0 { FindSlotOther(d, r, k, n - 1); }
  }

  // ---------------------------------------------- what a book of requests holds

  /** A request that has reserved: whom for, on which decision, when its ledger row started, and the row's
      tokens once it is complete. */
  datatype Entry = Entry(request: string, via: Option<string>, decision: Decision, startedAt: Option<nat>,
                         tokens: Option<nat>)

  function FindEntry(book: seq<Entry>, r: string): (j: Option<nat>)
    ensures j.Some? ==> j.value < |book| && book[j.value].request == r
    ensures j.None? ==> forall e | e in book :: e.request != r
  {
    if book == [] then None
    else if book[|book| - 1].request == r then Some(|book| - 1)
    else FindEntry(book[..|book| - 1], r)
  }

  /** What an entry still holds, unexpired, against one pending key. */
  function Share(s: Store, e: Entry, k: PendingKey, now: int): int {
    match FindKey(e.decision, k, |e.decision.limits|)
    case None => 0
    case Some(i) => Reserved(s, SlotAt(e.decision, i, e.request), now)
  }

  /** The sum of unexpired reservations against k; optionally only those not yet billed. */
  function Held(s: Store, book: seq<Entry>, k: PendingKey, now: int, unbilledOnly: bool): int {
    if book == [] then 0
    else
      var e := book[|book| - 1];
      Held(s, book[..|book| - 1], k, now, unbilledOnly) +
        (if unbilledOnly && e.tokens.Some? then 0 else Share(s, e, k, now))
  }

  ghost predicate BookOk(book: seq<Entry>) {
    && (forall j | 0 <= j < |book| ::
          DistinctIds(book[j].decision) && (book[j].decision.unlimited ==> book[j].decision.limits == []))
    && (forall i, j | 0 <= i < j < |book| :: book[i].request != book[j].request)
  }

  /** An unexpired reservation is positive, and its pending counter outlives it. */
  ghost predicate SlotBacked(s: Store, d: Decision, i: nat, r: string, now: int)
    requires i < |d.limits|
  {
    var slot := SlotAt(d, i, r);
    var key := KeyAt(d, i);
    slot in s.reservations && now < s.reservations[slot].until ==>
      && s.reservations[slot].value > 0 && s.reservations[slot].until <= now + TTL
      && key in s.pending && s.reservations[slot].until <= s.pending[key].until
  }

  ghost predicate Backed(s: Store, book: seq<Entry>, now: int) {
    forall j, i | 0 <= j < |book| && 0 <= i < |book[j].decision.limits| ::
      SlotBacked(s, book[j].decision, i, book[j].request, now)
  }

  /** Every pending counter is at least the sum of the unexpired reservations made against it. */
  ghost predicate Accounted(s: Store, book: seq<Entry>, now: int) {
    forall k :: Held(s, book, k, now, false) <= Pending(s, k, now)
  }

  ghost predicate Inv(s: Store, book: seq<Entry>, now: int) {
    BookOk(book) && Backed(s, book, now) && Accounted(s, book, now)
  }

  lemma ShareNonNegative(s: Store, book: seq<Entry>, j: nat, k: PendingKey, now: int)
    requires j < |book| && Backed(s, book, now)
    ensures Share(s, book[j], k, now) >= 0
  {
    var i := FindKey(book[j].decision, k, |book[j].decision.limits|);
    if i.Some? { assert SlotBacked(s, book[j].decision, i.value, book[j].request, now); }
  }

  lemma BackedPrefix(s: Store, book: seq<Entry>, now: int)
    requires book != [] && Backed(s, book, now)
    ensures Backed(s, book[..|book| - 1], now)
  {
    var rest := book[..|book| - 1];
    forall j, i | 0 <= j < |rest| && 0 <= i < |rest[j].decision.limits|
      ensures SlotBacked(s, rest[j].decision, i, rest[j].request, now)
    {
      assert SlotBacked(s, book[j].decision, i, book[j].request, now);
    }
  }

  /** Sums of non-negative shares: any one share is within the sum, and unbilled within all. */
  lemma {:induction false} HeldCovers(s: Store, book: seq<Entry>, k: PendingKey, now: int)
    requires Backed(s, book, now)
    ensures 0 <= Held(s, book, k, now, true) <= Held(s, book, k, now, false)
    ensures forall j | 0 <= j < |book| :: Share(s, book[j], k, now) <= Held(s, book, k, now, false)
  {
    hide Backed, Share;
    if book != [] {
      var n := |book| - 1;
      BackedPrefix(s, book, now);
      HeldCovers(s, book[..n], k, now);
      ShareNonNegative(s, book, n, k, now);
      forall j | 0 <= j < |book| ensures Share(s, book[j], k, now) <= Held(s, book, k, now, false) {
        if j < n { assert book[..n][j] == book[j]; }
      }
    }
  }

  /** Entries whose shares agree in two stores are summed alike. */
  lemma {:induction false} HeldSame(s: Store, s': Store, book: seq<Entry>, k: PendingKey, now: int, now': int,
                                    unbilledOnly: bool)
    requires forall j | 0 <= j < |book| :: Share(s', book[j], k, now') == Share(s, book[j], k, now)
    ensures Held(s', book, k, now', unbilledOnly) == Held(s, book, k, now, unbilledOnly)
  {
    hide Share;
    if book != [] {
      var rest := book[..|book| - 1];
      assert forall j | 0 <= j < |rest| :: rest[j] == book[j];
      HeldSame(s, s', rest, k, now, now', unbilledOnly);
    }
  }

  lemma {:induction false} HeldDrops(s: Store, s': Store, book: seq<Entry>, k: PendingKey, now: int, now': int,
                                     unbilledOnly: bool)
    requires forall j | 0 <= j < |book| :: Share(s', book[j], k, now') <= Share(s, book[j], k, now)
    ensures Held(s', book, k, now', unbilledOnly) <= Held(s, book, k, now, unbilledOnly)
  {
    hide Share;
    if book != [] {
      var rest := book[..|book| - 1];
      assert forall j | 0 <= j < |rest| :: rest[j] == book[j];
      HeldDrops(s, s', rest, k, now, now', unbilledOnly);
    }
  }

  lemma {:induction false} HeldNothing(s: Store, book: seq<Entry>, k: PendingKey, now: int, unbilledOnly: bool)
    requires forall j | 0 <= j < |book| :: Share(s, book[j], k, now) <= 0
    ensures Held(s, book, k, now, unbilledOnly) <= 0
  {
    hide Share;
    if book != [] {
      var rest := book[..|book| - 1];
      assert forall j | 0 <= j < |rest| :: rest[j] == book[j];
      HeldNothing(s, rest, k, now, unbilledOnly);
    }
  }

  /** One entry's share changes; the sum changes by exactly that, if the entry is counted. */
  lemma {:induction false} HeldExcept(s: Store, s': Store, book: seq<Entry>, book': seq<Entry>, j: nat, k: PendingKey,
                                      now: int, unbilledOnly: bool)
    requires j < |book| && |book'| == |book|
    requires forall m | 0 <= m < |book| && m != j ::
               book'[m] == book[m] && Share(s', book[m], k, now) == Share(s, book[m], k, now)
    ensures Held(s', book', k, now, unbilledOnly) - (if unbilledOnly && book'[j].tokens.Some? then 0
                                                     else Share(s', book'[j], k, now))
            == Held(s, book, k, now, unbilledOnly) - (if unbilledOnly && book[j].tokens.Some? then 0
                                                      else Share(s, book[j], k, now))
  {
    hide Share;
    var n := |book| - 1;
    var rest, rest' := book[..n], book'[..n];
    if j == n {
      assert rest == rest';
      assert forall m | 0 <= m < |rest| :: rest[m] == book[m];
      HeldSame(s, s', rest, k, now, now, unbilledOnly);
    } else {
      assert forall m | 0 <= m < |rest| :: rest[m] == book[m] && rest'[m] == book'[m];
      HeldExcept(s, s', rest, rest', j, k, now, unbilledOnly);
    }
  }

  // ---------------------------------------------------------------- the steps

  lemma TimeKeeps(s: Store, book: seq<Entry>, now: int, now': int)
    requires Inv(s, book, now) && now <= now'
    ensures Inv(s, book, now')
  {
    BackedLater(s, book, now, now');
    forall k ensures Held(s, book, k, now', false) <= Pending(s, k, now') {
      forall j | 0 <= j < |book|
        ensures Share(s, book[j], k, now') <= Share(s, book[j], k, now)
        ensures Pending(s, k, now') != Pending(s, k, now) ==> Share(s, book[j], k, now') <= 0
      {
        ShareLater(s, book, j, k, now, now');
      }
      HeldDrops(s, s, book, k, now, now', false);
      assert Held(s, book, k, now, false) <= Pending(s, k, now);
      if Pending(s, k, now') != Pending(s, k, now) {
        HeldNothing(s, book, k, now', false);
      }
    }
  }

  lemma BackedLater(s: Store, book: seq<Entry>, now: int, now': int)
    requires Backed(s, book, now) && now <= now'
    ensures Backed(s, book, now')
  {
    forall j, i | 0 <= j < |book| && 0 <= i < |book[j].decision.limits|
      ensures SlotBacked(s, book[j].decision, i, book[j].request, now')
    {
      assert SlotBacked(s, book[j].decision, i, book[j].request, now);
    }
  }

  /** Time only expires shares, and a counter never expires under a live share. */
  lemma ShareLater(s: Store, book: seq<Entry>, j: nat, k: PendingKey, now: int, now': int)
    requires j < |book| && Backed(s, book, now) && now <= now'
    ensures Share(s, book[j], k, now') <= Share(s, book[j], k, now)
    ensures Pending(s, k, now') != Pending(s, k, now) ==> Share(s, book[j], k, now') <= 0
  {
    var i := FindKey(book[j].decision, k, |book[j].decision.limits|);
    if i.Some? { assert SlotBacked(s, book[j].decision, i.value, book[j].request, now); }
  }

  lemma OthersUntouchedByTake(s: Store, d: Decision, r: string, amount: int, now: int, e: Entry, k: PendingKey)
    requires DistinctIds(d) && e.request != r
    ensures Share(Take(s, d, r, amount, now, |d.limits|), e, k, now) == Share(s, e, k, now)
  {
    var i := FindKey(e.decision, k, |e.decision.limits|);
    if i.Some? {
      var slot := SlotAt(e.decision, i.value, e.request);
      TakeReservations(s, d, r, amount, now, |d.limits|, slot);
      FindSlotOther(d, r, slot, |d.limits|);
    }
  }

  /** The new entry's share is what its pending counter grew by. */
  lemma NewShare(s: Store, e: Entry, amount: int, now: int, k: PendingKey)
    requires DistinctIds(e.decision) && amount > 0 && RoomEverywhere(s, e.decision, now)
    ensures var d := e.decision;
            var s' := Take(s, d, e.request, amount, now, |d.limits|);
            && Pending(s', k, now) == Pending(s, k, now) + Share(s', e, k, now)
            && (match FindKey(d, k, |d.limits|)
                case None => Share(s', e, k, now) == 0
                case Some(i) => Share(s', e, k, now) == Min(amount, Headroom(s, d, i, now)))
  {
    var n := |e.decision.limits|;
    TakePending(s, e.decision, e.request, amount, now, n, k);
    var i := FindKey(e.decision, k, n);
    if i.Some? {
      TakeReservations(s, e.decision, e.request, amount, now, n, SlotAt(e.decision, i.value, e.request));
      FindSlotAt(e.decision, e.request, i.value, n);
      assert Headroom(s, e.decision, i.value, now) > 0;
    }
  }

  lemma TakeBacked(s: Store, book: seq<Entry>, e: Entry, amount: int, now: int)
    requires Inv(s, book, now) && DistinctIds(e.decision) && amount > 0 && RoomEverywhere(s, e.decision, now)
    requires forall f | f in book :: f.request != e.request
    ensures Backed(Take(s, e.decision, e.request, amount, now, |e.decision.limits|), book + [e], now)
  {
    var n := |e.decision.limits|;
    var s' := Take(s, e.decision, e.request, amount, now, n);
    var book' := book + [e];
    forall j, i | 0 <= j < |book'| && 0 <= i < |book'[j].decision.limits|
      ensures SlotBacked(s', book'[j].decision, i, book'[j].request, now)
    {
      var f := book'[j];
      var slot, key := SlotAt(f.decision, i, f.request), KeyAt(f.decision, i);
      TakePending(s, e.decision, e.request, amount, now, n, key);
      TakeReservations(s, e.decision, e.request, amount, now, n, slot);
      if j < |book| {
        assert f in book;
        FindSlotOther(e.decision, e.request, slot, n);
        assert SlotBacked(s, book[j].decision, i, book[j].request, now);
      } else {
        FindSlotAt(e.decision, e.request, i, n);
        FindKeyAt(e.decision, i, n);
        assert Headroom(s, e.decision, i, now) > 0;
      }
    }
  }

  lemma TakeKeeps(s: Store, book: seq<Entry>, e: Entry, amount: int, now: int)
    requires Inv(s, book, now) && DistinctIds(e.decision) && (e.decision.unlimited ==> e.decision.limits == []) &&
             e.tokens.None?
    requires amount > 0 && RoomEverywhere(s, e.decision, now)
    requires forall f | f in book :: f.request != e.request
    ensures Inv(Take(s, e.decision, e.request, amount, now, |e.decision.limits|), book + [e], now)
  {
    hide Take, Share, Held, RoomEverywhere;
    var s' := Take(s, e.decision, e.request, amount, now, |e.decision.limits|);
    TakeBacked(s, book, e, amount, now);
    forall k ensures Held(s', book + [e], k, now, false) <= Pending(s', k, now) {
      TakeHeld(s, book, e, amount, now, k, false);
      NewShare(s, e, amount, now, k);
      assert Held(s, book, k, now, false) <= Pending(s, k, now);
    }
  }

  lemma TakeHeld(s: Store, book: seq<Entry>, e: Entry, amount: int, now: int, k: PendingKey, unbilledOnly: bool)
    requires DistinctIds(e.decision) && e.tokens.None?
    requires forall f | f in book :: f.request != e.request
    ensures var s' := Take(s, e.decision, e.request, amount, now, |e.decision.limits|);
            Held(s', book + [e], k, now, unbilledOnly) == Held(s, book, k, now, unbilledOnly) + Share(s', e, k, now)
  {
    hide Take, Share;
    var s' := Take(s, e.decision, e.request, amount, now, |e.decision.limits|);
    forall j | 0 <= j < |book| ensures Share(s', book[j], k, now) == Share(s, book[j], k, now) {
      assert book[j] in book;
      OthersUntouchedByTake(s, e.decision, e.request, amount, now, book[j], k);
    }
    HeldSame(s, s', book, k, now, now, unbilledOnly);
    assert (book + [e])[..|book|] == book;
  }

  /** A release touches nobody else's share, and leaves the releaser none. */
  lemma GiveShares(s: Store, d: Decision, r: string, now: int, e: Entry, k: PendingKey)
    requires DistinctIds(d)
    ensures e.request != r ==> Share(Give(s, d, r, now, |d.limits|), e, k, now) == Share(s, e, k, now)
    ensures e.request == r && e.decision == d ==> Share(Give(s, d, r, now, |d.limits|), e, k, now) == 0
  {
    var i := FindKey(e.decision, k, |e.decision.limits|);
    if i.Some? {
      var slot := SlotAt(e.decision, i.value, e.request);
      GiveReservations(s, d, r, now, |d.limits|, slot);
      if e.request != r { FindSlotOther(d, r, slot, |d.limits|); }
      if e.request == r && e.decision == d { FindSlotAt(d, r, i.value, |d.limits|); }
    }
  }

  lemma GiveHeld(s: Store, book: seq<Entry>, j: nat, now: int, k: PendingKey, unbilledOnly: bool)
    requires Inv(s, book, now) && j < |book|
    ensures var e := book[j];
            var s' := Give(s, e.decision, e.request, now, |e.decision.limits|);
            Held(s', book, k, now, unbilledOnly) == Held(s, book, k, now, unbilledOnly)
              - (if unbilledOnly && e.tokens.Some? then 0 else Share(s, e, k, now))
  {
    hide Give, Share, Backed, Accounted;
    var e := book[j];
    var s' := Give(s, e.decision, e.request, now, |e.decision.limits|);
    forall m | 0 <= m < |book|
      ensures m != j ==> Share(s', book[m], k, now) == Share(s, book[m], k, now)
      ensures m == j ==> Share(s', book[m], k, now) == 0
    {
      GiveShares(s, e.decision, e.request, now, book[m], k);
    }
    HeldExcept(s, s', book, book, j, k, now, unbilledOnly);
  }

  lemma GivePendingShare(s: Store, e: Entry, now: int, k: PendingKey)
    requires DistinctIds(e.decision)
    ensures var next := Pending(s, k, now) - Share(s, e, k, now);
            var s' := Give(s, e.decision, e.request, now, |e.decision.limits|);
            FindKey(e.decision, k, |e.decision.limits|).Some? ==>
              Lookup(s'.pending, k) == if next <= 0 then None else Some(Counter(next, now + TTL))
    ensures FindKey(e.decision, k, |e.decision.limits|).None? ==>
              Lookup(Give(s, e.decision, e.request, now, |e.decision.limits|).pending, k) == Lookup(s.pending, k)
  {
    GivePending(s, e.decision, e.request, now, |e.decision.limits|, k);
  }

  lemma GiveBacked(s: Store, book: seq<Entry>, j: nat, now: int)
    requires Inv(s, book, now) && j < |book|
    ensures Backed(Give(s, book[j].decision, book[j].request, now, |book[j].decision.limits|), book, now)
  {
    var e := book[j];
    var s' := Give(s, e.decision, e.request, now, |e.decision.limits|);
    forall m, i | 0 <= m < |book| && 0 <= i < |book[m].decision.limits|
      ensures SlotBacked(s', book[m].decision, i, book[m].request, now)
    {
      GiveSlotBacked(s, book, j, m, i, now);
    }
  }

  /** If another request still holds a live share of a window, the release leaves that counter standing. */
  lemma GiveSlotBacked(s: Store, book: seq<Entry>, j: nat, m: nat, i: nat, now: int)
    requires Inv(s, book, now) && j < |book| && m < |book| && i < |book[m].decision.limits|
    ensures var e := book[j];
            SlotBacked(Give(s, e.decision, e.request, now, |e.decision.limits|), book[m].decision, i, book[m].request,
                       now)
  {
    hide Give, Held, DistinctIds;
    var e, f := book[j], book[m];
    var n := |e.decision.limits|;
    var s' := Give(s, e.decision, e.request, now, n);
    var slot, key := SlotAt(f.decision, i, f.request), KeyAt(f.decision, i);
    GiveReservations(s, e.decision, e.request, now, n, slot);
    GivePendingShare(s, e, now, key);
    assert SlotBacked(s, f.decision, i, f.request, now);
    if m == j {
      FindSlotAt(e.decision, e.request, i, n);
    } else {
      FindSlotOther(e.decision, e.request, slot, n);
      FindKeyAt(f.decision, i, |f.decision.limits|);
      OthersStillHeld(s, book, j, m, key, now);
    }
  }

  lemma OthersStillHeld(s: Store, book: seq<Entry>, j: nat, m: nat, k: PendingKey, now: int)
    requires Inv(s, book, now) && j < |book| && m < |book| && m != j
    ensures Share(s, book[m], k, now) <= Pending(s, k, now) - Share(s, book[j], k, now)
  {
    hide Share, Backed, Pending;
    HeldPair(s, book, j, m, k, now);
    assert Held(s, book, k, now, false) <= Pending(s, k, now);
  }

  lemma {:induction false} HeldPair(s: Store, book: seq<Entry>, j: nat, m: nat, k: PendingKey, now: int)
    requires Backed(s, book, now) && j < |book| && m < |book| && m != j
    ensures Share(s, book[j], k, now) + Share(s, book[m], k, now) <= Held(s, book, k, now, false)
  {
    hide Share, Backed;
    var n := |book| - 1;
    BackedPrefix(s, book, now);
    ShareNonNegative(s, book, n, k, now);
    assert forall i | 0 <= i < n :: book[..n][i] == book[i];
    if j < n && m < n { HeldPair(s, book[..n], j, m, k, now); } else { HeldCovers(s, book[..n], k, now); }
  }

  lemma GiveKeeps(s: Store, book: seq<Entry>, j: nat, now: int)
    requires Inv(s, book, now) && j < |book|
    ensures Inv(Give(s, book[j].decision, book[j].request, now, |book[j].decision.limits|), book, now)
  {
    hide Give, Share, Held, Backed;
    var e := book[j];
    var s' := Give(s, e.decision, e.request, now, |e.decision.limits|);
    GiveBacked(s, book, j, now);
    forall k ensures Held(s', book, k, now, false) <= Pending(s', k, now) {
      GiveHeld(s, book, j, now, k, false);
      GivePendingShare(s, e, now, k);
      ShareOfMissing(s, e, k, now);
      assert Held(s, book, k, now, false) <= Pending(s, k, now);
    }
  }

  lemma ShareOfMissing(s: Store, e: Entry, k: PendingKey, now: int)
    ensures FindKey(e.decision, k, |e.decision.limits|).None? ==> Share(s, e, k, now) == 0
  {
  }

  /** What a request holds depends only on its name and its decision. */
  lemma UpdateKeeps(s: Store, book: seq<Entry>, j: nat, e: Entry, now: int)
    requires Inv(s, book, now) && j < |book| && e.request == book[j].request && e.decision == book[j].decision
    ensures Inv(s, book[j := e], now)
  {
    hide Share;
    var book' := book[j := e];
    forall k ensures Held(s, book', k, now, false) <= Pending(s, k, now) {
      SameShare(s, book[j], e, k, now);
      HeldExcept(s, s, book, book', j, k, now, false);
      assert Held(s, book, k, now, false) <= Pending(s, k, now);
    }
    forall m, i | 0 <= m < |book'| && 0 <= i < |book'[m].decision.limits|
      ensures SlotBacked(s, book'[m].decision, i, book'[m].request, now)
    {
      assert SlotBacked(s, book[m].decision, i, book[m].request, now);
    }
  }

  lemma SameShare(s: Store, e: Entry, f: Entry, k: PendingKey, now: int)
    requires f.request == e.request && f.decision == e.decision
    ensures Share(s, f, k, now) == Share(s, e, k, now)
  {
  }

  /** A reservation is all or nothing: it succeeds exactly when every window has headroom, then holds the amount in
      every window, or all its headroom if that is less, and leaves usage plus pending within every limit. */
  lemma ReserveIsAllOrNothing(s: Store, d: Decision, r: string, amount: int, now: int)
    requires DistinctIds(d) && amount > 0
    ensures Reserve(s, d, r, amount, now).Some? <==>
            d.unlimited ||
            (!d.blocked && forall i | 0 <= i < |d.limits| ::
                             d.limits[i].used + Pending(s, KeyAt(d, i), now) < d.limits[i].spec.limit)
    ensures d.unlimited ==> Reserve(s, d, r, amount, now) == Some(s) && Release(s, d, r, now) == s
    ensures Reserve(s, d, r, amount, now).Some? && !d.unlimited ==>
              var s' := Reserve(s, d, r, amount, now).value;
              forall i | 0 <= i < |d.limits| ::
                var l, key := d.limits[i], PendingKey(d.counter, d.limits[i].spec.id, d.limits[i].windowStart);
                var slot := ReservationKey(d.counter, d.limits[i].spec.id, r);
                var headroom := l.spec.limit - l.used - Pending(s, key, now);
                && Reserved(s', slot, now) == (if amount < headroom then amount else headroom) > 0
                && Pending(s', key, now) == Pending(s, key, now) + Reserved(s', slot, now)
                && l.used + Pending(s', key, now) <= l.spec.limit
  {
    hide Take;
    assert RoomEverywhere(s, d, now) <==> forall i | 0 <= i < |d.limits| ::
             d.limits[i].used + Pending(s, KeyAt(d, i), now) < d.limits[i].spec.limit
    by {
      forall i | 0 <= i < |d.limits|
        ensures Headroom(s, d, i, now) > 0 <==> d.limits[i].used + Pending(s, KeyAt(d, i), now) < d.limits[i].spec.limit
      {
      }
    }
    if Reserve(s, d, r, amount, now).Some? && !d.unlimited {
      forall i | 0 <= i < |d.limits|
        ensures var l, key := d.limits[i], PendingKey(d.counter, d.limits[i].spec.id, d.limits[i].windowStart);
                var slot := ReservationKey(d.counter, d.limits[i].spec.id, r);
                var headroom := l.spec.limit - l.used - Pending(s, key, now);
                var s' := Reserve(s, d, r, amount, now).value;
                && Reserved(s', slot, now) == (if amount < headroom then amount else headroom) > 0
                && Pending(s', key, now) == Pending(s, key, now) + Reserved(s', slot, now)
                && l.used + Pending(s', key, now) <= l.spec.limit
      {
        TakePending(s, d, r, amount, now, |d.limits|, KeyAt(d, i));
        TakeReservations(s, d, r, amount, now, |d.limits|, SlotAt(d, i, r));
        FindKeyAt(d, i, |d.limits|);
        FindSlotAt(d, r, i, |d.limits|);
        assert Headroom(s, d, i, now) > 0;
      }
    }
  }

  /** What a request reserves counts for an hour after the last reserve or release that wrote its counter. */
  lemma ReservationsLast(s: Store, d: Decision, r: string, amount: int, now: int, later: int, i: nat)
    requires DistinctIds(d) && i < |d.limits| && later >= now
    ensures var s' := Take(s, d, r, amount, now, |d.limits|);
            && Pending(s', KeyAt(d, i), later) ==
               (if later - now < 3_600_000_000_000 then Pending(s', KeyAt(d, i), now) else 0)
            && Reserved(s', SlotAt(d, i, r), later) ==
               (if later - now < 3_600_000_000_000 then Reserved(s', SlotAt(d, i, r), now) else 0)
    ensures var s' := Give(s, d, r, now, |d.limits|);
            && Pending(s', KeyAt(d, i), later) ==
               (if later - now < 3_600_000_000_000 then Pending(s', KeyAt(d, i), now) else 0)
            && Reserved(s', SlotAt(d, i, r), later) == 0
  {
    var n := |d.limits|;
    FindKeyAt(d, i, n);
    FindSlotAt(d, r, i, n);
    TakePending(s, d, r, amount, now, n, KeyAt(d, i));
    TakeReservations(s, d, r, amount, now, n, SlotAt(d, i, r));
    GivePending(s, d, r, now, n, KeyAt(d, i));
    GiveReservations(s, d, r, now, n, SlotAt(d, i, r));
    hide Take, Give, DistinctIds;
  }

  /** Releasing again, at once or later, takes nothing more. */
  lemma ReleaseIsIdempotent(s: Store, d: Decision, r: string, now: int, later: int, k: PendingKey, slot: ReservationKey)
    requires DistinctIds(d) && now <= later
    ensures var once := Release(s, d, r, now);
            var twice := Release(once, d, r, later);
            Pending(twice, k, later) == Pending(once, k, later) &&
              Reserved(twice, slot, later) == Reserved(once, slot, later)
  {
    if !d.unlimited {
      var n := |d.limits|;
      var once := Give(s, d, r, now, n);
      GivePending(s, d, r, now, n, k);
      GivePending(once, d, r, later, n, k);
      GiveReservations(s, d, r, now, n, slot);
      GiveReservations(once, d, r, later, n, slot);
      var i := FindKey(d, k, n);
      if i.Some? {
        GiveReservations(s, d, r, now, n, SlotAt(d, i.value, r));
        FindSlotAt(d, r, i.value, n);
      }
    }
  }

  /** A release leaves every other request's share whole, and still covered by its counter. */
  lemma ReleaseTakesNoOtherShare(s: Store, book: seq<Entry>, j: nat, m: nat, k: PendingKey, now: int)
    requires Inv(s, book, now) && j < |book| && m < |book| && m != j
    ensures var s' := Release(s, book[j].decision, book[j].request, now);
            && Share(s', book[m], k, now) == Share(s, book[m], k, now)
            && Share(s, book[m], k, now) <= Pending(s', k, now)
  {
    hide Share;
    var e := book[j];
    var s' := Give(s, e.decision, e.request, now, |e.decision.limits|);
    assert e.decision.unlimited ==> s' == s;
    GiveKeeps(s, book, j, now);
    HeldCovers(s', book, k, now);
    assert Held(s', book, k, now, false) <= Pending(s', k, now);
    GiveShares(s, e.decision, e.request, now, book[m], k);
  }
}
