/** What the queue's scripts do to leases, locks and waiters (internal/inference/queue.go). */
module QueueScripts {
  import opened StringOrder
  import opened Wrappers
  import opened InferenceQueue
  import opened QueueSafety
  import opened QueueOrder
  import opened QueueLag

  /** Whose leases have not expired. */
  function Running(leases: map<Request, int>, now: int): set<Request> {
    set r | r in leases && leases[r] > now
  }

  function RunningIn(s: Store, w: Workload, now: int): set<Request> {
    if w in s.workloadLeases then Running(s.workloadLeases[w], now) else {}
  }

  function Waiting(cfg: Config, s: Store, w: Workload, now: int): map<Request, int> {
    if w in s.rooms && now < s.rooms[w].deadline + cfg.lag then s.rooms[w].scores else map[]
  }

  /** The waiters served before m. */
  function Before(scores: map<Request, int>, m: Request): set<Request>
    requires m in scores
  {
    set q | q in scores && (scores[q] < scores[m] || (scores[q] == scores[m] && LexLess(q, m)))
  }

  predicate GaveUp(room: Room, m: Request, now: int) {
    m in room.expiries && 0 < room.expiries[m] < now
  }

  /** m has not given up, and its principal holds no lock. */
  predicate MayRun(cfg: Config, s: Store, room: Room, m: Request, now: int) {
    && !GaveUp(room, m, now) && m in room.principals
    && (room.principals[m] in s.locks ==> s.locks[room.principals[m]].until + cfg.lag <= now)
  }

  ghost predicate HasRoom(cfg: Config, s: Store, w: Workload, now: int) {
    && |Running(s.leases, now)| < cfg.globalLimit
    && |RunningIn(s, w, now)| <
       match cfg.workloadLimits
       case None => 1
       case Some(limits) => if w in limits && limits[w] > 0 then limits[w] else 1
  }

  /** The scan comes to m: fewer than 64 waiters, none of whom may run, are before it. */
  ghost predicate Reached(cfg: Config, s: Store, w: Workload, m: Request, now: int) {
    var scores := Waiting(cfg, s, w, now);
    m in scores && |Before(scores, m)| < 64 && forall q | q in Before(scores, m) :: !MayRun(cfg, s, s.rooms[w], q, now)
  }

  lemma CountsAgree(cfg: Config, s: Store, w: Workload, now: int)
    ensures HasRoom(cfg, s, w, now) <==> !Full(cfg, Purge(s, w, now), w)
  {
    SameCount(s.leases, now);
    SameCount(LeasesOf(s, w), now);
  }

  lemma SameCount(leases: map<Request, int>, now: int)
    ensures |Unlapsed(leases, now)| == |Running(leases, now)|
  {
    assert Unlapsed(leases, now).Keys == Running(leases, now);
    assert |Unlapsed(leases, now).Keys| == |Unlapsed(leases, now)|;
  }

  lemma MayRunIsEligible(cfg: Config, s: Store, w: Workload, m: Request, now: int)
    requires w in s.rooms && m in s.rooms[w].expiries
    ensures MayRun(cfg, s, s.rooms[w], m, now) <==> Eligible(cfg, Purge(s, w, now), s.rooms[w], m, now)
    ensures GaveUp(s.rooms[w], m, now) <==> Stale(s.rooms[w], m, now)
  {
  }

  /** The place of a waiter in the ranking is the number of those before it. */
  lemma PlaceInLine(scores: map<Request, int>, m: Request) returns (k: nat)
    requires m in scores
    ensures k < |Ranked(scores)| && Ranked(scores)[k] == m && k == |Before(scores, m)|
    ensures forall q :: q in Before(scores, m) <==> exists j | 0 <= j < k :: Ranked(scores)[j] == q
  {
    hide Ranked, LexLess;
    RankedIsTheOrder(scores);
    assert m in Ranked(scores);
    k :| 0 <= k < |Ranked(scores)| && Ranked(scores)[k] == m;
    RankCountsAhead(scores, k);
    assert Before(scores, m) == set q | q in scores && Ahead(scores, q, m);
    forall q ensures q in Before(scores, m) <==> exists j | 0 <= j < k :: Ranked(scores)[j] == q {
      if q in Before(scores, m) { AheadIsEarlier(scores, q, k); }
      if j :| 0 <= j < k && Ranked(scores)[j] == q { assert Ranked(scores)[j] in Ranked(scores); }
    }
  }

  lemma WaitingRoom(cfg: Config, s: Store, w: Workload, now: int)
    ensures Waiting(cfg, s, w, now) == RoomOf(cfg, Purge(s, w, now), w, now).scores
    ensures Waiting(cfg, s, w, now) != map[] ==> w in s.rooms && RoomOf(cfg, Purge(s, w, now), w, now) == s.rooms[w]
  {
  }

  /** Fewer than 64 before m, and all of them in a set, in terms of the ranking. */
  lemma FirstPlaces(scores: map<Request, int>, m: Request, passed: iset<Request>)
    requires m in scores
    ensures |Before(scores, m)| < 64 && (forall q | q in Before(scores, m) :: q in passed) <==>
            InPlace(scores, m, passed)
  {
    hide Ranked, LexLess, Before;
    var k := PlaceInLine(scores, m);
    if i :| 0 <= i < |Ranked(scores)| && i < 64 && Ranked(scores)[i] == m
            && forall j | 0 <= j < i :: Ranked(scores)[j] in passed {
      OnePlace(scores, i, k);
    }
  }

  lemma OnePlace(scores: map<Request, int>, i: nat, k: nat)
    requires i < |Ranked(scores)| && k < |Ranked(scores)| && Ranked(scores)[i] == Ranked(scores)[k]
    ensures i == k
  {
    hide Ranked, LexLess;
    RankedIsTheOrder(scores);
    LexTotal(Ranked(scores)[i], Ranked(scores)[k]);
  }

  /** The scan comes to those candidates that only ineligible ones precede. */
  ghost predicate ComesTo(cfg: Config, s: Store, room: Room, m: Request, now: int) {
    exists k | 0 <= k < |Candidates(room)| ::
      Candidates(room)[k] == m && forall j | 0 <= j < k :: !Eligible(cfg, s, room, Candidates(room)[j], now)
  }

  ghost function Passed(cfg: Config, s: Store, room: Room, now: int): iset<Request> {
    iset q | !Eligible(cfg, s, room, q, now)
  }

  ghost predicate InPlace(scores: map<Request, int>, m: Request, passed: iset<Request>) {
    exists k | 0 <= k < |Ranked(scores)| ::
      k < 64 && Ranked(scores)[k] == m && forall j | 0 <= j < k :: Ranked(scores)[j] in passed
  }

  lemma ComesToPlace(cfg: Config, s: Store, room: Room, m: Request, now: int)
    ensures ComesTo(cfg, s, room, m, now) <==> InPlace(room.scores, m, Passed(cfg, s, room, now))
  {
    CandidatesAre(room);
    hide Candidates, Eligible, Ranked;
    var passed := Passed(cfg, s, room, now);
    if k :| 0 <= k < |Ranked(room.scores)| && k < 64 && Ranked(room.scores)[k] == m
            && forall j | 0 <= j < k :: Ranked(room.scores)[j] in passed {
      assert Candidates(room)[k] == m;
      forall j | 0 <= j < k ensures !Eligible(cfg, s, room, Candidates(room)[j], now) {
        assert Ranked(room.scores)[j] in passed;
      }
    }
    if k :| 0 <= k < |Candidates(room)| && Candidates(room)[k] == m
            && forall j | 0 <= j < k :: !Eligible(cfg, s, room, Candidates(room)[j], now) {
      assert Ranked(room.scores)[k] == m;
      forall j | 0 <= j < k ensures Ranked(room.scores)[j] in passed {
        assert !Eligible(cfg, s, room, Candidates(room)[j], now);
      }
    }
  }

  lemma CandidatesAre(room: Room)
    ensures |Candidates(room)| == if |Ranked(room.scores)| < 64 then |Ranked(room.scores)| else 64
    ensures forall k | 0 <= k < |Candidates(room)| :: Candidates(room)[k] == Ranked(room.scores)[k]
  {
  }

  lemma ReachedIff(cfg: Config, sys: System, w: Workload, m: Request)
    requires Inv(cfg, sys)
    ensures var s1 := Purge(sys.store, w, sys.now);
            Reached(cfg, sys.store, w, m, sys.now) <==> ComesTo(cfg, s1, RoomOf(cfg, s1, w, sys.now), m, sys.now)
  {
    hide LeasesCoupled, WorkloadLeasesCoupled, LocksCoupled, WithinLimits, Ranked, Eligible, MayRun, Before, ComesTo;
    var s1 := Purge(sys.store, w, sys.now);
    var room := RoomOf(cfg, s1, w, sys.now);
    WaitingRoom(cfg, sys.store, w, sys.now);
    ComesToPlace(cfg, s1, room, m, sys.now);
    if m in room.scores {
      FirstPlaces(room.scores, m, Passed(cfg, s1, room, sys.now));
      hide InPlace;
      forall q | q in Before(room.scores, m)
        ensures MayRun(cfg, sys.store, room, q, sys.now) <==> q !in Passed(cfg, s1, room, sys.now)
      {
        EarlierWaits(room.scores, m, q);
        assert q in room.scores.Keys && q in room.expiries.Keys;
        MayRunIsEligible(cfg, sys.store, w, q, sys.now);
      }
    } else {
      RankedIsTheOrder(room.scores);
      forall k | 0 <= k < |Ranked(room.scores)| ensures Ranked(room.scores)[k] != m {
        assert Ranked(room.scores)[k] in Ranked(room.scores);
      }
    }
  }

  lemma EarlierWaits(scores: map<Request, int>, m: Request, q: Request)
    requires m in scores && q in Before(scores, m)
    ensures q in scores
  {
  }

  lemma SelectedIff(cfg: Config, s: Store, room: Room, now: int, r: Request)
    ensures Selected(cfg, s, room, Candidates(room), now) == Some(r) <==>
            ComesTo(cfg, s, room, r, now) && Eligible(cfg, s, room, r, now)
  {
    hide Candidates, Eligible;
    SelectedAt(cfg, s, room, Candidates(room), now);
  }

  lemma {:induction false} SweptIff(cfg: Config, s: Store, room: Room, candidates: seq<Request>, now: int, m: Request)
    ensures m in Swept(cfg, s, room, candidates, now) <==>
            Stale(room, m, now) && exists k | 0 <= k < |candidates| ::
              candidates[k] == m && forall j | 0 <= j < k :: !Eligible(cfg, s, room, candidates[j], now)
  {
    hide Stale, Busy;
    if candidates != [] && !Eligible(cfg, s, room, candidates[0], now) {
      var rest := candidates[1..];
      SweptIff(cfg, s, room, rest, now, m);
      assert forall j | 0 <= j < |rest| :: rest[j] == candidates[j + 1];
      if k :| 0 <= k < |rest| && rest[k] == m && forall j | 0 <= j < k :: !Eligible(cfg, s, room, rest[j], now) {
        assert candidates[k + 1] == m;
        forall j | 0 <= j < k + 1 ensures !Eligible(cfg, s, room, candidates[j], now) {
          if j > 0 { assert rest[j - 1] == candidates[j]; }
        }
      }
      if k :| 0 <= k < |candidates| && candidates[k] == m
              && forall j | 0 <= j < k :: !Eligible(cfg, s, room, candidates[j], now) {
        if k > 0 {
          assert rest[k - 1] == m;
          forall j | 0 <= j < k - 1 ensures !Eligible(cfg, s, room, rest[j], now)
          {
            assert rest[j] == candidates[j + 1];
          }
        }
      }
    }
  }

  /** A poll is granted exactly if fewer leases than the global limit, and fewer than the workload's, have yet to
      expire, fewer than 64 waiters are before the caller, none of them may run, and the caller may. */
  lemma PollIsGrantedIff(cfg: Config, sys: System, r: Request)
    requires Inv(cfg, sys) && r in sys.callers
    ensures var c := sys.callers[r];
            TryAcquire(cfg, sys.store, r, c.principal, c.workload, sys.now).1 <==>
            && HasRoom(cfg, sys.store, c.workload, sys.now)
            && Reached(cfg, sys.store, c.workload, r, sys.now)
            && MayRun(cfg, sys.store, sys.store.rooms[c.workload], r, sys.now)
  {
    hide Full, Purge, RoomOf, Candidates, Selected, TryAcquire, HasRoom, MayRun, Eligible, Before, ComesTo;
    hide LeasesCoupled, WorkloadLeasesCoupled, LocksCoupled, WithinLimits;
    var w := sys.callers[r].workload;
    var s1 := Purge(sys.store, w, sys.now);
    GrantedExactlyToTheWinner(cfg, sys, r);
    CountsAgree(cfg, sys.store, w, sys.now);
    SelectedIff(cfg, s1, RoomOf(cfg, s1, w, sys.now), sys.now, r);
    ReachedIff(cfg, sys, w, r);
    WaitingRoom(cfg, sys.store, w, sys.now);
    if Reached(cfg, sys.store, w, r, sys.now) {
      assert r in sys.store.rooms[w].scores.Keys && r in sys.store.rooms[w].expiries.Keys;
      MayRunIsEligible(cfg, sys.store, w, r, sys.now);
    }
  }

  // ------------------------------------------------------ what a script leaves

  /** The leases of a set that have yet to expire, and those of one request until a new time. */
  ghost predicate Leases(after: map<Request, int>, before: map<Request, int>, now: int, r: Request, until: Option<int>)
  {
    && (forall q | q != r || until.None? :: q in after <==> q in before && before[q] > now)
    && (forall q | q in after && (q != r || until.None?) :: after[q] == before[q])
    && (until.Some? ==> r in after && after[r] == until.value)
  }

  /** The scan comes to m, and m has given up. */
  ghost predicate Removed(cfg: Config, s: Store, w: Workload, m: Request, now: int) {
    HasRoom(cfg, s, w, now) && Reached(cfg, s, w, m, now) && GaveUp(s.rooms[w], m, now)
  }

  lemma Unexpired(leases: map<Request, int>, now: int, r: Request, until: int)
    ensures Leases(Unlapsed(leases, now), leases, now, r, None)
    ensures Leases(Unlapsed(leases, now)[r := until], leases, now, r, Some(until))
  {
  }

  lemma InstallShape(s: Store, r: Request, p: Principal, w: Workload, until: int)
    ensures var s' := Install(s, r, p, w, until);
            && s'.leases == s.leases[r := until] && LeasesOf(s', w) == LeasesOf(s, w)[r := until]
            && (forall v | v != w :: LeasesOf(s', v) == LeasesOf(s, v))
            && s'.locks == s.locks[p := Lock(r, until)] && s'.rooms == s.rooms
  {
  }

  lemma PurgeShape(s: Store, w: Workload, now: int)
    ensures var s' := Purge(s, w, now);
            && s'.leases == Unlapsed(s.leases, now) && LeasesOf(s', w) == Unlapsed(LeasesOf(s, w), now)
            && (forall v | v != w :: LeasesOf(s', v) == LeasesOf(s, v)) && s'.locks == s.locks && s'.rooms == s.rooms
  {
  }

  lemma SetRoomShape(s: Store, w: Workload, room: Room)
    ensures var s' := SetRoom(s, w, room);
            && s'.leases == s.leases && (forall v :: LeasesOf(s', v) == LeasesOf(s, v)) && s'.locks == s.locks
            && s'.rooms == s.rooms[w := room]
  {
  }

  /** What a poll leaves of leases and locks: expired leases of the caller's workload and of the global set are
      gone, and a granted caller holds both leases and the principal's lock, for the lease time. */
  lemma PollLeases(cfg: Config, s: Store, r: Request, p: Principal, w: Workload, now: int)
    ensures var (s', granted) := TryAcquire(cfg, s, r, p, w, now);
            var until := if granted then Some(now + cfg.leaseTtl) else None;
            && Leases(s'.leases, s.leases, now, r, until)
            && Leases(LeasesOf(s', w), LeasesOf(s, w), now, r, until)
            && (forall v | v != w :: LeasesOf(s', v) == LeasesOf(s, v))
            && s'.locks == if granted then s.locks[p := Lock(r, now + cfg.leaseTtl)] else s.locks
  {
    hide Full, Candidates, Selected, Swept, Busy, Install, Purge, SetRoom, Without, RoomOf, LeasesOf, Unlapsed, Leases;
    var s1 := Purge(s, w, now);
    var room := RoomOf(cfg, s1, w, now);
    var s2 := SetRoom(s1, w, Without(room, Swept(cfg, s1, room, Candidates(room), now)));
    var s3 := SetRoom(s2, w, Without(RoomOf(cfg, s2, w, now), {r}));
    PurgeShape(s, w, now);
    SetRoomShape(s1, w, Without(room, Swept(cfg, s1, room, Candidates(room), now)));
    SetRoomShape(s2, w, Without(RoomOf(cfg, s2, w, now), {r}));
    InstallShape(s3, r, p, w, now + cfg.leaseTtl);
    Unexpired(s.leases, now, r, now + cfg.leaseTtl);
    Unexpired(LeasesOf(s, w), now, r, now + cfg.leaseTtl);
  }

  lemma WithoutTwice(room: Room, a: set<Request>, b: set<Request>)
    ensures Without(Without(room, a), b) == Without(room, a + b)
    ensures Without(room, a + {}) == Without(room, a)
  {
    assert a + {} == a;
  }

  lemma RoomAfter(cfg: Config, s: Store, w: Workload, gone: set<Request>, now: int)
    ensures RoomOf(cfg, SetRoom(s, w, Without(RoomOf(cfg, s, w, now), gone)), w, now) ==
            Without(RoomOf(cfg, s, w, now), gone)
  {
  }

  lemma SameRoom(cfg: Config, s: Store, s': Store, w: Workload, now: int)
    requires s'.rooms == s.rooms
    ensures RoomOf(cfg, s', w, now) == RoomOf(cfg, s, w, now)
  {
  }

  lemma PollRoomsAre(cfg: Config, s: Store, r: Request, p: Principal, w: Workload, now: int)
    ensures var (s', granted) := TryAcquire(cfg, s, r, p, w, now);
            var s1 := Purge(s, w, now);
            var room := RoomOf(cfg, s1, w, now);
            var gone := Swept(cfg, s1, room, Candidates(room), now) + (if granted then {r} else {});
            && (forall v | v != w :: (v in s'.rooms <==> v in s.rooms) && (v in s'.rooms ==> s'.rooms[v] == s.rooms[v]))
            && RoomOf(cfg, s', w, now) == if Full(cfg, s1, w) then room else Without(room, gone)
  {
    hide Full, Candidates, Selected, Swept, Busy, Install, Purge, SetRoom, Without, RoomOf, LeasesOf;
    var s1 := Purge(s, w, now);
    var room := RoomOf(cfg, s1, w, now);
    var swept := Swept(cfg, s1, room, Candidates(room), now);
    var s2 := SetRoom(s1, w, Without(room, swept));
    var s3 := SetRoom(s2, w, Without(RoomOf(cfg, s2, w, now), {r}));
    PurgeShape(s, w, now);
    SetRoomShape(s1, w, Without(room, swept));
    SetRoomShape(s2, w, Without(RoomOf(cfg, s2, w, now), {r}));
    InstallShape(s3, r, p, w, now + cfg.leaseTtl);
    RoomAfter(cfg, s1, w, swept, now);
    RoomAfter(cfg, s2, w, {r}, now);
    WithoutTwice(room, swept, {r});
    SameRoom(cfg, s3, Install(s3, r, p, w, now + cfg.leaseTtl), w, now);
  }

  /** What it leaves of the waiters: those that the scan came to and that had given up are gone, and a granted caller
      waits no more. */
  lemma PollWaiters(cfg: Config, sys: System, r: Request, m: Request)
    requires Inv(cfg, sys) && r in sys.callers
    ensures var c := sys.callers[r];
            var w := c.workload;
            var (s', granted) := TryAcquire(cfg, sys.store, r, c.principal, w, sys.now);
            var room, room' := RoomOf(cfg, sys.store, w, sys.now), RoomOf(cfg, s', w, sys.now);
            && (m in room'.scores <==>
                m in room.scores && !(granted && m == r) && !Removed(cfg, sys.store, w, m, sys.now))
            && (m in room'.scores ==>
                  && room'.scores[m] == room.scores[m]
                  && m in room'.principals && room'.principals[m] == room.principals[m]
                  && m in room'.expiries && room'.expiries[m] == room.expiries[m])
  {
    hide LeasesCoupled, WorkloadLeasesCoupled, LocksCoupled, WithinLimits, Swept, Eligible, MayRun, Stale, GaveUp;
    hide Full, HasRoom, Reached, Candidates, TryAcquire, ComesTo;
    var c := sys.callers[r];
    var s1 := Purge(sys.store, c.workload, sys.now);
    var room := RoomOf(cfg, s1, c.workload, sys.now);
    CountsAgree(cfg, sys.store, c.workload, sys.now);
    PollRoomsAre(cfg, sys.store, r, c.principal, c.workload, sys.now);
    PollNeedsRoom(cfg, sys.store, r, c.principal, c.workload, sys.now);
    SweptAreReached(cfg, sys, c.workload, m);
    if m in room.scores { assert m in room.scores.Keys && m in room.principals.Keys && m in room.expiries.Keys; }
  }

  lemma PollNeedsRoom(cfg: Config, s: Store, r: Request, p: Principal, w: Workload, now: int)
    ensures TryAcquire(cfg, s, r, p, w, now).1 ==> !Full(cfg, Purge(s, w, now), w)
  {
  }

  lemma SweptAreReached(cfg: Config, sys: System, w: Workload, m: Request)
    requires Inv(cfg, sys)
    ensures var s1 := Purge(sys.store, w, sys.now);
            var room := RoomOf(cfg, s1, w, sys.now);
            m in Swept(cfg, s1, room, Candidates(room), sys.now) <==>
            Reached(cfg, sys.store, w, m, sys.now) && GaveUp(sys.store.rooms[w], m, sys.now)
  {
    hide LeasesCoupled, WorkloadLeasesCoupled, LocksCoupled, WithinLimits, Ranked, Swept, Eligible, MayRun, Before,
         Stale;
    hide GaveUp;
    var s1 := Purge(sys.store, w, sys.now);
    var room := RoomOf(cfg, s1, w, sys.now);
    WaitingRoom(cfg, sys.store, w, sys.now);
    SweptIff(cfg, s1, room, Candidates(room), sys.now, m);
    ReachedIff(cfg, sys, w, m);
    if Reached(cfg, sys.store, w, m, sys.now) {
      assert m in room.scores.Keys && m in room.expiries.Keys;
      MayRunIsEligible(cfg, sys.store, w, m, sys.now);
    }
  }

  // --------------------------------------------------------- the other scripts

  /** Joining adds one waiter, with its principal and its deadline, and keeps the others' places. */
  lemma AddJoins(cfg: Config, s: Store, r: Request, p: Principal, w: Workload, priority: int, now: int, m: Request)
    requires ConfigOk(cfg)
    ensures var room, room' := RoomOf(cfg, s, w, now), RoomOf(cfg, Enqueue(cfg, s, r, p, w, priority, now), w, now);
            var level := if priority < 0 then 0 else if priority > 9 then 9 else priority;
            && (m != r ==>
                  && (m in room'.scores <==> m in room.scores)
                  && (m in room'.scores ==> room'.scores[m] == room.scores[m])
                  && (m in room'.principals <==> m in room.principals)
                  && (m in room'.principals ==> room'.principals[m] == room.principals[m])
                  && (m in room'.expiries <==> m in room.expiries)
                  && (m in room'.expiries ==> room'.expiries[m] == room.expiries[m]))
            && r in room'.scores && room'.scores[r] == (9 - level) * 10_000_000_000_000 + now
            && r in room'.principals && room'.principals[r] == p
            && r in room'.expiries && room'.expiries[r] == now + cfg.maxWait
            && room'.deadline == now + cfg.maxWait + 60000
  {
  }

  /** A renewal of a lease whose lock is still the caller's moves lock and leases to a full lease time from now. */
  lemma RenewExtends(cfg: Config, s: Store, r: Request, p: Principal, w: Workload, now: int)
    ensures var s' := Renew(cfg, s, r, p, w, now);
            if p in s.locks && s.locks[p].owner == r && now < s.locks[p].until + cfg.lag then
              && s'.locks == s.locks[p := Lock(r, now + cfg.leaseTtl)] && s'.rooms == s.rooms
              && s'.leases == s.leases[r := now + cfg.leaseTtl]
              && LeasesOf(s', w) == LeasesOf(s, w)[r := now + cfg.leaseTtl]
              && forall v | v != w :: LeasesOf(s', v) == LeasesOf(s, v)
            else s' == s
  {
  }

  /** A release ends the caller's leases and, if it is still the caller's, the lock; nothing else. */
  lemma FreeEnds(cfg: Config, s: Store, r: Request, p: Principal, w: Workload, now: int)
    ensures var s' := Release(cfg, s, r, p, w, now);
            && r !in s'.leases && r !in LeasesOf(s', w) && s'.rooms == s.rooms
            && (forall q | q != r ::
                  (q in s'.leases <==> q in s.leases) && (q in s'.leases ==> s'.leases[q] == s.leases[q]))
            && (forall q | q != r :: (q in LeasesOf(s', w) <==> q in LeasesOf(s, w))
                                     && (q in LeasesOf(s', w) ==> LeasesOf(s', w)[q] == LeasesOf(s, w)[q]))
            && (forall v | v != w :: LeasesOf(s', v) == LeasesOf(s, v))
            && (forall o | o != p :: (o in s'.locks <==> o in s.locks) && (o in s'.locks ==> s'.locks[o] == s.locks[o]))
            && (p in s'.locks <==>
                p in s.locks && !(s.locks[p].owner == r && now < s.locks[p].until + cfg.lag))
            && (p in s'.locks ==> s'.locks[p] == s.locks[p])
  {
  }

  /** A cancelled request waits no more; everybody else still does. */
  lemma DropLeaves(cfg: Config, s: Store, r: Request, w: Workload, now: int, m: Request)
    ensures var s' := Cancel(cfg, s, r, w, now);
            var room, room' := RoomOf(cfg, s, w, now), RoomOf(cfg, s', w, now);
            && s'.leases == s.leases && s'.workloadLeases == s.workloadLeases && s'.locks == s.locks
            && (m in room'.scores <==> m in room.scores && m != r)
            && (m in room'.scores ==> room'.scores[m] == room.scores[m])
            && (m in room'.principals <==> m in room.principals && m != r)
            && (m in room'.principals ==> room'.principals[m] == room.principals[m])
            && (m in room'.expiries <==> m in room.expiries && m != r)
            && (m in room'.expiries ==> room'.expiries[m] == room.expiries[m])
  {
  }
}
