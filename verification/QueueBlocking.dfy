/** How waiters beyond the scan's reach can be kept waiting although there is room (internal/inference/queue.go). */
module QueueBlocking {
  import opened StringOrder
  import opened Wrappers
  import opened InferenceQueue
  import opened QueueSafety
  import opened QueueOrder
  import opened QueueLag

  /** There is capacity, y could be granted, and nobody is: the 64 waiters the scan looks at are all still waiting. */
  ghost predicate Blocked(cfg: Config, sys: System, w: Workload, y: Request) {
    var room := RoomOf(cfg, sys.store, w, sys.now);
    && !Full(cfg, Purge(sys.store, w, sys.now), w) && Winner(cfg, sys.store, w, sys.now) == None
    && y in room.scores && Eligible(cfg, sys.store, room, y, sys.now)
    && |Candidates(room)| == SCAN && forall r | r in Candidates(room) :: !Stale(room, r, sys.now)
  }

  // ----------------------------------------------------- a crowd of one principal

  const HOLDER := "holder"
  const OTHER := "other"

  function Name(k: nat): Request { seq(k + 1, _ => 'a') }

  function Names(n: nat): set<Request> { set k | 0 <= k < n :: Name(k) }

  lemma {:induction false} NamesCount(n: nat)
    ensures |Names(n)| == n
  {
    if n > 0 {
      NamesCount(n - 1);
      NewName(n - 1);
      assert Names(n) == Names(n - 1) + {Name(n - 1)};
    }
  }

  lemma NewName(n: nat)
    ensures Name(n) !in Names(n) && HOLDER !in Names(n) && OTHER !in Names(n) && Name(n) != HOLDER && Name(n) != OTHER
  {
    forall k: nat ensures |Name(k)| == k + 1 && Name(k)[0] == 'a' { }
    assert HOLDER[0] == 'h' && OTHER[0] == 'o';
  }

  function Arrivals(w: Workload, n: nat): seq<Step> {
    if n == 0 then [DoEnqueue(HOLDER, "p", "x" + w, 0), DoTry(HOLDER)]
    else Arrivals(w, n - 1) + [DoEnqueue(Name(n - 1), "p", w, 9)]
  }

  ghost predicate CrowdRoom(cfg: Config, room: Room, names: set<Request>) {
    && room.scores.Keys == room.principals.Keys == room.expiries.Keys == names
    && forall r | r in names :: room.scores[r] == 0 && room.principals[r] == "p" && room.expiries[r] == cfg.maxWait
  }

  /** One request of p runs in another workload, and n more of p wait here. */
  ghost predicate Crowd(cfg: Config, sys: System, w: Workload, n: nat) {
    && sys.now == 0 && sys.callers.Keys == {HOLDER} + Names(n)
    && sys.store.leases == map[HOLDER := cfg.leaseTtl] && LeasesOf(sys.store, w) == map[]
    && sys.store.locks == map["p" := Lock(HOLDER, cfg.leaseTtl)]
    && CrowdRoom(cfg, RoomOf(cfg, sys.store, w, 0), Names(n))
  }

  lemma HolderEnqueues(cfg: Config, v: Workload)
    requires ConfigOk(cfg)
    ensures var sys := Do(cfg, Start(0), DoEnqueue(HOLDER, "p", v, 0));
            && sys == System(EMPTY_STORE.(rooms := sys.store.rooms), 0, map[HOLDER := Caller("p", v)])
            && sys.store.rooms.Keys == {v}
            && RoomOf(cfg, sys.store, v, 0) ==
               Room(map[HOLDER := Score(0, 0)], map[HOLDER := "p"], map[HOLDER := cfg.maxWait], cfg.maxWait + 60000)
  {
    assert |HOLDER| == 6 && |"p"| == 1;
  }

  lemma NothingRuns(cfg: Config, s: Store, v: Workload)
    requires ConfigOk(cfg) && s.leases == map[] && s.workloadLeases == map[] && s.locks == map[]
    ensures !Full(cfg, Purge(s, v, 0), v) && forall p :: !Busy(cfg, s, p, 0)
    ensures Purge(s, v, 0) == s.(workloadLeases := map[v := map[]])
  {
    assert Unlapsed(map[], 0) == map[];
  }

  lemma HolderGranted(cfg: Config, sys: System, v: Workload)
    requires ConfigOk(cfg) && sys == Do(cfg, Start(0), DoEnqueue(HOLDER, "p", v, 0))
    ensures var sys' := Do(cfg, sys, DoTry(HOLDER));
            && sys'.now == 0 && sys'.callers == map[HOLDER := Caller("p", v)] && sys'.store.rooms.Keys == {v}
            && sys'.store.leases == map[HOLDER := cfg.leaseTtl] && sys'.store.workloadLeases.Keys == {v}
            && sys'.store.locks == map["p" := Lock(HOLDER, cfg.leaseTtl)]
  {
    HolderEnqueues(cfg, v);
    hide TryAcquire, Score, Full, Busy, RoomOf, Purge, Grant, SetRoom;
    NothingRuns(cfg, sys.store, v);
    SoleWaiterWins(cfg, sys.store, HOLDER, "p", v, 0, Score(0, 0));
    GrantShape(cfg, sys.store.(workloadLeases := map[v := map[]]), v, RoomOf(cfg, sys.store, v, 0));
  }

  lemma GrantShape(cfg: Config, s: Store, v: Workload, room: Room)
    requires s.leases == map[] && s.workloadLeases == map[v := map[]] && s.locks == map[] && s.rooms.Keys == {v}
    ensures var s' := Grant(cfg, SetRoom(s, v, room), HOLDER, "p", v, 0);
            && s'.rooms.Keys == {v} && s'.workloadLeases.Keys == {v}
            && s'.leases == map[HOLDER := cfg.leaseTtl] && s'.locks == map["p" := Lock(HOLDER, cfg.leaseTtl)]
  {
  }

  lemma HolderRuns(cfg: Config, w: Workload)
    requires ConfigOk(cfg)
    ensures Crowd(cfg, Run(cfg, Start(0), Arrivals(w, 0)), w, 0)
  {
    hide Do;
    var v := "x" + w;
    var enqueue := DoEnqueue(HOLDER, "p", v, 0);
    assert Arrivals(w, 0)[..1] == [enqueue] && [enqueue][..0] == [];
    assert Run(cfg, Start(0), [enqueue]) == Do(cfg, Start(0), enqueue);
    HolderGranted(cfg, Do(cfg, Start(0), enqueue), v);
    assert |v| == |w| + 1;
    assert Names(0) == {};
  }

  lemma RoomGrows(cfg: Config, s: Store, w: Workload, names: set<Request>, r: Request)
    requires ConfigOk(cfg) && CrowdRoom(cfg, RoomOf(cfg, s, w, 0), names)
    ensures CrowdRoom(cfg, RoomOf(cfg, Enqueue(cfg, s, r, "p", w, 9, 0), w, 0), names + {r})
  {
    var room := RoomOf(cfg, s, w, 0);
    assert Score(9, 0) == 0;
    assert RoomOf(cfg, Enqueue(cfg, s, r, "p", w, 9, 0), w, 0) ==
           Room(room.scores[r := 0], room.principals[r := "p"], room.expiries[r := cfg.maxWait], cfg.maxWait + 60000);
  }

  lemma CrowdGrows(cfg: Config, sys: System, w: Workload, n: nat)
    requires ConfigOk(cfg) && Crowd(cfg, sys, w, n)
    ensures Crowd(cfg, Do(cfg, sys, DoEnqueue(Name(n), "p", w, 9)), w, n + 1)
  {
    NewName(n);
    assert Names(n + 1) == Names(n) + {Name(n)};
    assert Name(n) != "";
    RoomGrows(cfg, sys.store, w, Names(n), Name(n));
    hide Names, Name, CrowdRoom, RoomOf;
    assert Name(n) !in sys.callers.Keys;
  }

  lemma {:induction false} CrowdGathers(cfg: Config, w: Workload, n: nat)
    requires ConfigOk(cfg)
    ensures Crowd(cfg, Run(cfg, Start(0), Arrivals(w, n)), w, n)
  {
    hide Crowd, Do;
    if n == 0 {
      HolderRuns(cfg, w);
    } else {
      CrowdGathers(cfg, w, n - 1);
      CrowdGrows(cfg, Run(cfg, Start(0), Arrivals(w, n - 1)), w, n - 1);
      assert Arrivals(w, n)[..|Arrivals(w, n)| - 1] == Arrivals(w, n - 1);
    }
  }

  // --------------------------------------------------------- who waits behind it

  lemma LastInLine(scores: map<Request, int>, y: Request)
    requires y in scores && scores.Keys == Names(SCAN) + {y} && y !in Names(SCAN)
    requires forall r | r in Names(SCAN) :: scores[r] < scores[y]
    ensures |Ranked(scores)| > SCAN && forall k | 0 <= k < SCAN :: Ranked(scores)[k] in Names(SCAN)
  {
    hide Ranked, Names, LexLess;
    RankedIsTheOrder(scores);
    assert forall m | m in scores :: m in scores.Keys;
    assert forall m | m in Names(SCAN) :: m in scores.Keys;
    assert y in Ranked(scores);
    var at :| 0 <= at < |Ranked(scores)| && Ranked(scores)[at] == y;
    RankCountsAhead(scores, at);
    LexTotal(y, y);
    assert (set m | m in scores && Ahead(scores, m, y)) == Names(SCAN);
    NamesCount(SCAN);
    forall k | 0 <= k < SCAN ensures Ranked(scores)[k] in Names(SCAN) {
      assert Ranked(scores)[k] in Ranked(scores) && Ahead(scores, Ranked(scores)[k], Ranked(scores)[at]);
    }
  }

  /** The room once a request of another principal, of the lowest priority, has joined the crowd. */
  lemma OtherJoins(cfg: Config, sys: System, w: Workload)
    requires ConfigOk(cfg) && Crowd(cfg, sys, w, SCAN)
    ensures var sys' := Do(cfg, sys, DoEnqueue(OTHER, "q", w, 0));
            var room := RoomOf(cfg, sys'.store, w, 0);
            && sys'.now == 0 && sys'.store == sys.store.(rooms := sys'.store.rooms)
            && room.scores.Keys == Names(SCAN) + {OTHER} && OTHER !in Names(SCAN)
            && room.scores[OTHER] == Score(0, 0) && OTHER in room.principals && room.principals[OTHER] == "q"
            && OTHER in room.expiries && room.expiries[OTHER] == cfg.maxWait
            && forall r | r in Names(SCAN) ::
                 && room.scores[r] == 0 && r in room.principals && room.principals[r] == "p"
                 && r in room.expiries && room.expiries[r] == cfg.maxWait
  {
    NewName(SCAN);
    hide Names, Score;
    assert |OTHER| == 5 && |HOLDER| == 6 && |"q"| == 1;
    assert OTHER !in sys.callers.Keys;
  }

  lemma CrowdBlocks(cfg: Config, sys: System, w: Workload)
    requires ConfigOk(cfg) && cfg.globalLimit >= 2 && Crowd(cfg, sys, w, SCAN)
    ensures Blocked(cfg, Do(cfg, sys, DoEnqueue(OTHER, "q", w, 0)), w, OTHER)
  {
    hide Names, Candidates, Ranked, Winner, RoomOf, Do, Full;
    var sys' := Do(cfg, sys, DoEnqueue(OTHER, "q", w, 0));
    OtherJoins(cfg, sys, w);
    var room := RoomOf(cfg, sys'.store, w, 0);
    LastInLine(room.scores, OTHER);
    OthersBusy(cfg, sys', w, room);
    HasCapacity(cfg, sys'.store, w);
    WinnerIff(cfg, sys'.store, w, 0);
  }

  lemma HasCapacity(cfg: Config, s: Store, w: Workload)
    requires cfg.globalLimit >= 2 && s.leases == map[HOLDER := cfg.leaseTtl] && LeasesOf(s, w) == map[]
    ensures !Full(cfg, Purge(s, w, 0), w)
  {
    SmallerMap(Unlapsed(s.leases, 0), s.leases);
    assert |s.leases| == 1;
    assert Unlapsed(map[], 0) == map[];
  }

  lemma OthersBusy(cfg: Config, sys: System, w: Workload, room: Room)
    requires sys.store.locks == map["p" := Lock(HOLDER, cfg.leaseTtl)] && cfg.leaseTtl >= 1 && cfg.lag >= 0 &&
             cfg.maxWait >= 1
    requires |Ranked(room.scores)| > SCAN && forall k | 0 <= k < SCAN :: Ranked(room.scores)[k] in Names(SCAN)
    requires forall r | r in Names(SCAN) ::
               r in room.principals && room.principals[r] == "p" && r in room.expiries &&
                 room.expiries[r] == cfg.maxWait
    ensures |Candidates(room)| == SCAN
    ensures forall r | r in Candidates(room) :: !Stale(room, r, 0) && !Eligible(cfg, sys.store, room, r, 0)
  {
    hide Names, Ranked;
  }

  /** With one place for everybody, a busy principal means that there is no room. */
  lemma BusyIsFull(cfg: Config, sys: System, w: Workload, p: Principal)
    requires cfg.lag == 0 && cfg.globalLimit == 1 && Inv(cfg, sys) && Busy(cfg, sys.store, p, sys.now)
    ensures Full(cfg, Purge(sys.store, w, sys.now), w)
  {
    hide LeasesCoupled, WorkloadLeasesCoupled, WithinLimits, RoomsHonest;
    var owner := sys.store.locks[p].owner;
    assert owner in Unlapsed(sys.store.leases, sys.now);
  }

  lemma BlockedNeedsTwo(cfg: Config, sys: System, w: Workload, y: Request)
    requires cfg.lag == 0 && ConfigOk(cfg) && Inv(cfg, sys) && Blocked(cfg, sys, w, y)
    ensures cfg.globalLimit >= 2
  {
    hide LeasesCoupled, WorkloadLeasesCoupled, LocksCoupled, WithinLimits, Winner, Full, Ranked;
    var room := RoomOf(cfg, sys.store, w, sys.now);
    WinnerIff(cfg, sys.store, w, sys.now);
    RankedIsTheOrder(room.scores);
    var r := Candidates(room)[0];
    assert r in Candidates(room) && r in Ranked(room.scores);
    assert r in room.scores.Keys && room.principals.Keys == room.scores.Keys;
    if cfg.globalLimit == 1 { BusyIsFull(cfg, sys, w, room.principals[r]); }
  }

  /** With exact deadlines, some run leads a workload into a blocked state exactly when two requests may run at once:
      a principal that is busy elsewhere can fill all the places the scan looks at. */
  lemma BlockedIff(cfg: Config, w: Workload)
    requires ConfigOk(cfg) && cfg.lag == 0
    ensures (exists start: nat, steps, y :: Blocked(cfg, Run(cfg, Start(start), steps), w, y)) <==> cfg.globalLimit >= 2
  {
    hide Blocked, Inv, Run;
    forall start: nat, steps, y | Blocked(cfg, Run(cfg, Start(start), steps), w, y) ensures cfg.globalLimit >= 2 {
      RunKeeps(cfg, start, steps);
      BlockedNeedsTwo(cfg, Run(cfg, Start(start), steps), w, y);
    }
    if cfg.globalLimit >= 2 {
      var steps := Arrivals(w, SCAN) + [DoEnqueue(OTHER, "q", w, 0)];
      CrowdGathers(cfg, w, SCAN);
      CrowdBlocks(cfg, Run(cfg, Start(0), Arrivals(w, SCAN)), w);
      OneMore(cfg, Arrivals(w, SCAN), DoEnqueue(OTHER, "q", w, 0));
      assert Blocked(cfg, Run(cfg, Start(0), steps), w, OTHER);
    }
  }

  lemma OneMore(cfg: Config, steps: seq<Step>, step: Step)
    ensures Run(cfg, Start(0), steps + [step]) == Do(cfg, Run(cfg, Start(0), steps), step)
  {
    assert (steps + [step])[..|steps|] == steps;
  }
}
