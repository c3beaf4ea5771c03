/** What every run of the inference queue keeps: its limits, and the coupling of locks and leases behind them. */
module QueueSafety {
  import opened Wrappers
  import opened InferenceQueue

  // --------------------------------------------------------- runs and safety

  datatype Caller = Caller(principal: Principal, workload: Workload)

  /** The store, the clock, and who made each request (request ids are unique). */
  datatype System = System(store: Store, now: int, callers: map<Request, Caller>)

  datatype Step =
    | Tick(elapsed: nat)
    | DoEnqueue(r: Request, p: Principal, w: Workload, priority: int)
    | DoTry(r: Request)
    | DoRenew(r: Request)
    | DoRelease(r: Request)
    | DoCancel(r: Request)

  function Do(cfg: Config, sys: System, step: Step): System {
    match step
    case Tick(elapsed) => sys.(now := sys.now + elapsed)
    case DoEnqueue(r, p, w, priority) =>
      if r == "" || p == "" || r in sys.callers then sys
      else sys.(store := Enqueue(cfg, sys.store, r, p, w, priority, sys.now), callers := sys.callers[r := Caller(p, w)])
    case _ =>
      if step.r !in sys.callers then sys
      else
        var c := sys.callers[step.r];
        sys.(store := match step
          case DoTry(r) => TryAcquire(cfg, sys.store, r, c.principal, c.workload, sys.now).0
          case DoRenew(r) => Renew(cfg, sys.store, r, c.principal, c.workload, sys.now)
          case DoRelease(r) => Release(cfg, sys.store, r, c.principal, c.workload, sys.now)
          case _ => Cancel(cfg, sys.store, step.r, c.workload, sys.now))
  }

  function Run(cfg: Config, sys: System, steps: seq<Step>): System {
    if steps == [] then sys else Do(cfg, Run(cfg, sys, steps[..|steps| - 1]), steps[|steps| - 1])
  }

  function Start(now: nat): System {
    System(EMPTY_STORE, now, map[])
  }

  predicate Live(sys: System, r: Request) {
    r in sys.store.leases && sys.store.leases[r] > sys.now
  }

  predicate LiveIn(sys: System, w: Workload, r: Request) {
    r in LeasesOf(sys.store, w) && LeasesOf(sys.store, w)[r] > sys.now
  }

  /** Every live global lease belongs to a known caller, is held in its workload, and is coupled to
      its principal's lock: same owner, same expiry. */
  ghost predicate LeasesCoupled(sys: System) {
    forall r | Live(sys, r) ::
      && r in sys.callers
      && var c := sys.callers[r];
         && c.principal in sys.store.locks && sys.store.locks[c.principal] == Lock(r, sys.store.leases[r])
         && r in LeasesOf(sys.store, c.workload) && LeasesOf(sys.store, c.workload)[r] == sys.store.leases[r]
  }

  ghost predicate WorkloadLeasesCoupled(sys: System) {
    forall w, r | LiveIn(sys, w, r) ::
      && r in sys.callers && sys.callers[r].workload == w
      && r in sys.store.leases && sys.store.leases[r] == LeasesOf(sys.store, w)[r]
  }

  ghost predicate LocksCoupled(sys: System) {
    forall p | p in sys.store.locks && sys.store.locks[p].until > sys.now ::
      var lock := sys.store.locks[p];
      && lock.owner in sys.callers && sys.callers[lock.owner].principal == p
      && lock.owner in sys.store.leases && sys.store.leases[lock.owner] == lock.until
  }

  ghost predicate WithinLimits(cfg: Config, sys: System) {
    && |sys.store.leases| <= cfg.globalLimit
    && forall w :: |LeasesOf(sys.store, w)| <= WorkloadLimit(cfg, w)
  }

  /** A waiting room lists known callers of its own workload, alike in all three keys, and none of
      them outlives the room's deadline. */
  ghost predicate RoomsHonest(cfg: Config, sys: System) {
    && cfg.maxWait >= 1 && sys.now >= 0
    && forall w | w in sys.store.rooms ::
      var room := sys.store.rooms[w];
      && room.scores.Keys == room.principals.Keys == room.expiries.Keys
      && (forall r | r in room.principals :: r in sys.callers && sys.callers[r] == Caller(room.principals[r], w))
      && (forall r | r in room.expiries :: room.expiries[r] + 60000 <= room.deadline)
      && room.deadline <= sys.now + cfg.maxWait + 60000
  }

  ghost predicate Inv(cfg: Config, sys: System) {
    LeasesCoupled(sys) && WorkloadLeasesCoupled(sys) && LocksCoupled(sys) && WithinLimits(cfg, sys) &&
      RoomsHonest(cfg, sys)
  }

  lemma UnlapsedShrinks(leases: map<Request, int>, now: int)
    ensures |Unlapsed(leases, now)| <= |leases|
  {
    SmallerMap(Unlapsed(leases, now), leases);
  }

  lemma SmallerMap(small: map<Request, int>, big: map<Request, int>)
    requires small.Keys <= big.Keys
    ensures |small| <= |big|
  {
    assert |small.Keys| == |small| && |big.Keys| == |big|;
    var rest := big.Keys - small.Keys;
    assert big.Keys == small.Keys + rest;
  }

  /** A step that leaves leases and locks alone keeps the coupling. */
  lemma RoomsOnly(cfg: Config, sys: System, sys': System)
    requires LeasesCoupled(sys) && WorkloadLeasesCoupled(sys) && LocksCoupled(sys) && WithinLimits(cfg, sys)
    requires sys'.store == sys.store.(rooms := sys'.store.rooms) && sys'.now == sys.now
    requires forall r | r in sys.callers :: r in sys'.callers && sys'.callers[r] == sys.callers[r]
    ensures LeasesCoupled(sys') && WorkloadLeasesCoupled(sys') && LocksCoupled(sys') && WithinLimits(cfg, sys')
  {
    assert forall r | Live(sys', r) :: Live(sys, r);
    assert forall w, r | LiveIn(sys', w, r) :: LiveIn(sys, w, r);
    assert forall w :: LeasesOf(sys'.store, w) == LeasesOf(sys.store, w);
  }

  lemma TickKeeps(cfg: Config, sys: System, elapsed: nat)
    requires Inv(cfg, sys)
    ensures Inv(cfg, sys.(now := sys.now + elapsed))
  {
    var sys' := sys.(now := sys.now + elapsed);
    assert forall r | Live(sys', r) :: Live(sys, r);
    assert forall w, r | LiveIn(sys', w, r) :: LiveIn(sys, w, r);
  }

  lemma EnqueueKeeps(cfg: Config, sys: System, r: Request, p: Principal, w: Workload, priority: int)
    requires Inv(cfg, sys) && r !in sys.callers
    ensures Inv(cfg, sys.(store := Enqueue(cfg, sys.store, r, p, w, priority, sys.now),
                          callers := sys.callers[r := Caller(p, w)]))
  {
    var sys' := sys.(store := Enqueue(cfg, sys.store, r, p, w, priority, sys.now),
                     callers := sys.callers[r := Caller(p, w)]);
    RoomsOnly(cfg, sys, sys');
    EnqueueRooms(cfg, sys, r, p, w, priority);
  }

  lemma EnqueueRooms(cfg: Config, sys: System, r: Request, p: Principal, w: Workload, priority: int)
    requires RoomsHonest(cfg, sys) && r !in sys.callers
    ensures RoomsHonest(cfg,
                        sys.(store := Enqueue(cfg, sys.store, r, p, w, priority, sys.now),
                             callers := sys.callers[r := Caller(p, w)]))
  {
  }

  lemma SetRoomHonest(cfg: Config, sys: System, w: Workload, gone: set<Request>)
    requires RoomsHonest(cfg, sys)
    ensures RoomsHonest(cfg, sys.(store := SetRoom(sys.store, w, Without(RoomOf(cfg, sys.store, w, sys.now), gone))))
  {
    var room := RoomOf(cfg, sys.store, w, sys.now);
    var smaller := Without(room, gone);
    assert smaller.scores.Keys == room.scores.Keys - gone;
    assert smaller.principals.Keys == room.principals.Keys - gone;
    assert smaller.expiries.Keys == room.expiries.Keys - gone;
  }

  lemma SetRoomKeeps(cfg: Config, sys: System, w: Workload, gone: set<Request>)
    requires Inv(cfg, sys)
    ensures Inv(cfg, sys.(store := SetRoom(sys.store, w, Without(RoomOf(cfg, sys.store, w, sys.now), gone))))
  {
    hide RoomsHonest, Without, RoomOf;
    SetRoomHonest(cfg, sys, w, gone);
    RoomsOnly(cfg, sys, sys.(store := SetRoom(sys.store, w, Without(RoomOf(cfg, sys.store, w, sys.now), gone))));
  }

  lemma PurgeCoupling(sys: System, w: Workload)
    requires LeasesCoupled(sys) && WorkloadLeasesCoupled(sys)
    ensures LeasesCoupled(sys.(store := Purge(sys.store, w, sys.now)))
    ensures WorkloadLeasesCoupled(sys.(store := Purge(sys.store, w, sys.now)))
  {
    var sys' := sys.(store := Purge(sys.store, w, sys.now));
    forall r | Live(sys', r) ensures Live(sys, r) { }
    forall v, r | LiveIn(sys', v, r) ensures LiveIn(sys, v, r) { }
  }

  lemma PurgeLocks(sys: System, w: Workload)
    requires LocksCoupled(sys)
    ensures LocksCoupled(sys.(store := Purge(sys.store, w, sys.now)))
  {
  }

  lemma PurgeLimits(cfg: Config, sys: System, w: Workload)
    requires WithinLimits(cfg, sys)
    ensures WithinLimits(cfg, sys.(store := Purge(sys.store, w, sys.now)))
  {
    var s' := Purge(sys.store, w, sys.now);
    UnlapsedShrinks(sys.store.leases, sys.now);
    UnlapsedShrinks(LeasesOf(sys.store, w), sys.now);
    forall v ensures |LeasesOf(s', v)| <= WorkloadLimit(cfg, v) {
      assert |LeasesOf(sys.store, v)| <= WorkloadLimit(cfg, v);
    }
  }

  lemma PurgeKeeps(cfg: Config, sys: System, w: Workload)
    requires Inv(cfg, sys)
    ensures Inv(cfg, sys.(store := Purge(sys.store, w, sys.now)))
  {
    hide LeasesCoupled, WorkloadLeasesCoupled, LocksCoupled, WithinLimits;
    PurgeCoupling(sys, w);
    PurgeLocks(sys, w);
    PurgeLimits(cfg, sys, w);
  }

  /** No other live lease is held by r's principal. */
  ghost predicate Alone(sys: System, r: Request) {
    r in sys.callers &&
    forall q | Live(sys, q) && q != r :: q in sys.callers && sys.callers[q].principal != sys.callers[r].principal
  }

  function Installed(sys: System, r: Request, until: int): System
    requires r in sys.callers
  {
    sys.(store := Install(sys.store, r, sys.callers[r].principal, sys.callers[r].workload, until))
  }

  lemma InstallLeases(sys: System, r: Request, until: int)
    requires LeasesCoupled(sys) && Alone(sys, r)
    ensures LeasesCoupled(Installed(sys, r, until))
  {
    var sys' := Installed(sys, r, until);
    forall q | Live(sys', q) && q != r ensures Live(sys, q) { }
  }

  lemma InstallWorkloadLeases(sys: System, r: Request, until: int)
    requires WorkloadLeasesCoupled(sys) && r in sys.callers
    ensures WorkloadLeasesCoupled(Installed(sys, r, until))
  {
    var sys' := Installed(sys, r, until);
    forall w, q | LiveIn(sys', w, q) && (q != r || w != sys.callers[r].workload) ensures LiveIn(sys, w, q) { }
  }

  lemma InstallLocks(sys: System, r: Request, until: int)
    requires LocksCoupled(sys) && r in sys.callers
    ensures LocksCoupled(Installed(sys, r, until))
  {
  }

  lemma InstallLimits(cfg: Config, sys: System, r: Request, until: int)
    requires WithinLimits(cfg, sys) && r in sys.callers
    requires r in sys.store.leases || |sys.store.leases| < cfg.globalLimit
    requires var w := sys.callers[r].workload;
             r in LeasesOf(sys.store, w) || |LeasesOf(sys.store, w)| < WorkloadLimit(cfg, w)
    ensures WithinLimits(cfg, Installed(sys, r, until))
  {
    var sys' := Installed(sys, r, until);
    var w := sys.callers[r].workload;
    AddOne(sys.store.leases, r, until);
    AddOne(LeasesOf(sys.store, w), r, until);
    forall v ensures |LeasesOf(sys'.store, v)| <= WorkloadLimit(cfg, v) {
      assert |LeasesOf(sys.store, v)| <= WorkloadLimit(cfg, v);
    }
  }

  lemma AddOne(m: map<Request, int>, r: Request, until: int)
    ensures |m[r := until]| == if r in m then |m| else |m| + 1
  {
    assert m[r := until].Keys == m.Keys + {r};
    assert |m.Keys| == |m| && |m[r := until].Keys| == |m[r := until]|;
  }

  lemma InstallKeeps(cfg: Config, sys: System, r: Request, until: int)
    requires Inv(cfg, sys) && Alone(sys, r)
    requires r in sys.store.leases || |sys.store.leases| < cfg.globalLimit
    requires var w := sys.callers[r].workload;
             r in LeasesOf(sys.store, w) || |LeasesOf(sys.store, w)| < WorkloadLimit(cfg, w)
    ensures Inv(cfg, Installed(sys, r, until))
  {
    hide LeasesCoupled, WorkloadLeasesCoupled, LocksCoupled, WithinLimits;
    InstallLeases(sys, r, until);
    InstallWorkloadLeases(sys, r, until);
    InstallLocks(sys, r, until);
    InstallLimits(cfg, sys, r, until);
  }

  /** A renewal re-checks no limit: it is the coupling of lock and leases that makes it safe. */
  lemma RenewKeeps(cfg: Config, sys: System, r: Request)
    requires cfg.lag == 0 && Inv(cfg, sys) && r in sys.callers
    ensures var c := sys.callers[r];
            Inv(cfg, sys.(store := Renew(cfg, sys.store, r, c.principal, c.workload, sys.now)))
  {
    hide Install;
    var c := sys.callers[r];
    if Busy(cfg, sys.store, c.principal, sys.now) && sys.store.locks[c.principal].owner == r {
      assert Live(sys, r);
      InstallKeeps(cfg, sys, r, sys.now + cfg.leaseTtl);
    }
  }

  lemma ReleaseLeases(cfg: Config, sys: System, r: Request)
    requires LeasesCoupled(sys) && r in sys.callers
    ensures var c := sys.callers[r];
            LeasesCoupled(sys.(store := Release(cfg, sys.store, r, c.principal, c.workload, sys.now)))
  {
    var c := sys.callers[r];
    var sys' := sys.(store := Release(cfg, sys.store, r, c.principal, c.workload, sys.now));
    forall q | Live(sys', q) ensures Live(sys, q) && q != r { }
  }

  lemma ReleaseWorkloadLeases(cfg: Config, sys: System, r: Request)
    requires WorkloadLeasesCoupled(sys) && r in sys.callers
    ensures var c := sys.callers[r];
            WorkloadLeasesCoupled(sys.(store := Release(cfg, sys.store, r, c.principal, c.workload, sys.now)))
  {
    var c := sys.callers[r];
    var sys' := sys.(store := Release(cfg, sys.store, r, c.principal, c.workload, sys.now));
    forall w, q | LiveIn(sys', w, q) ensures LiveIn(sys, w, q) && q != r { }
  }

  lemma ReleaseLocks(cfg: Config, sys: System, r: Request)
    requires cfg.lag == 0 && LocksCoupled(sys) && r in sys.callers
    ensures var c := sys.callers[r];
            LocksCoupled(sys.(store := Release(cfg, sys.store, r, c.principal, c.workload, sys.now)))
  {
  }

  lemma ReleaseLimits(cfg: Config, sys: System, r: Request)
    requires WithinLimits(cfg, sys) && r in sys.callers
    ensures var c := sys.callers[r];
            WithinLimits(cfg, sys.(store := Release(cfg, sys.store, r, c.principal, c.workload, sys.now)))
  {
    var c := sys.callers[r];
    var sys' := sys.(store := Release(cfg, sys.store, r, c.principal, c.workload, sys.now));
    SmallerMap(sys.store.leases - {r}, sys.store.leases);
    SmallerMap(LeasesOf(sys.store, c.workload) - {r}, LeasesOf(sys.store, c.workload));
    forall v ensures |LeasesOf(sys'.store, v)| <= WorkloadLimit(cfg, v) {
      assert |LeasesOf(sys.store, v)| <= WorkloadLimit(cfg, v);
    }
  }

  lemma ReleaseKeeps(cfg: Config, sys: System, r: Request)
    requires cfg.lag == 0 && Inv(cfg, sys) && r in sys.callers
    ensures var c := sys.callers[r];
            Inv(cfg, sys.(store := Release(cfg, sys.store, r, c.principal, c.workload, sys.now)))
  {
    hide LeasesCoupled, WorkloadLeasesCoupled, LocksCoupled, WithinLimits;
    ReleaseLeases(cfg, sys, r);
    ReleaseWorkloadLeases(cfg, sys, r);
    ReleaseLocks(cfg, sys, r);
    ReleaseLimits(cfg, sys, r);
  }

  lemma FreePrincipalIsAlone(cfg: Config, sys: System, r: Request)
    requires cfg.lag == 0 && LeasesCoupled(sys) && r in sys.callers
    requires !Busy(cfg, sys.store, sys.callers[r].principal, sys.now)
    ensures Alone(sys, r)
  {
  }

  lemma GrantKeeps(cfg: Config, sys: System, r: Request)
    requires cfg.lag == 0 && Inv(cfg, sys) && r in sys.callers
    requires !Full(cfg, sys.store, sys.callers[r].workload) && !Busy(cfg, sys.store, sys.callers[r].principal, sys.now)
    ensures var c := sys.callers[r];
            Inv(cfg, sys.(store := Grant(cfg, sys.store, r, c.principal, c.workload, sys.now)))
  {
    hide LeasesCoupled, WorkloadLeasesCoupled, LocksCoupled, WithinLimits, RoomsHonest, Alone;
    var c := sys.callers[r];
    var mid := sys.(store := SetRoom(sys.store, c.workload, Without(RoomOf(cfg, sys.store, c.workload, sys.now), {r})));
    SetRoomKeeps(cfg, sys, c.workload, {r});
    FreePrincipalIsAlone(cfg, mid, r);
    InstallKeeps(cfg, mid, r, sys.now + cfg.leaseTtl);
  }

  lemma TryKeeps(cfg: Config, sys: System, r: Request)
    requires cfg.lag == 0 && Inv(cfg, sys) && r in sys.callers
    ensures var c := sys.callers[r];
            Inv(cfg, sys.(store := TryAcquire(cfg, sys.store, r, c.principal, c.workload, sys.now).0))
  {
    hide LeasesCoupled, WorkloadLeasesCoupled, LocksCoupled, WithinLimits, RoomsHonest, Swept, Selected, Candidates;
    var c := sys.callers[r];
    var sys1 := sys.(store := Purge(sys.store, c.workload, sys.now));
    PurgeKeeps(cfg, sys, c.workload);
    if !Full(cfg, sys1.store, c.workload) {
      var room := RoomOf(cfg, sys1.store, c.workload, sys.now);
      var gone := Swept(cfg, sys1.store, room, Candidates(room), sys.now);
      var sys2 := sys1.(store := SetRoom(sys1.store, c.workload, Without(room, gone)));
      SetRoomKeeps(cfg, sys1, c.workload, gone);
      if !Busy(cfg, sys2.store, c.principal, sys.now) {
        assert !Full(cfg, sys2.store, c.workload);
        GrantKeeps(cfg, sys2, r);
      }
    }
  }

  lemma StepKeeps(cfg: Config, sys: System, step: Step)
    requires cfg.lag == 0 && Inv(cfg, sys)
    ensures Inv(cfg, Do(cfg, sys, step))
  {
    hide Inv, TryAcquire, Renew, Release, Enqueue, Purge;
    match step
    case Tick(elapsed) => TickKeeps(cfg, sys, elapsed);
    case DoEnqueue(r, p, w, priority) =>
      if r !in sys.callers { EnqueueKeeps(cfg, sys, r, p, w, priority); }
    case DoTry(r) => if r in sys.callers { TryKeeps(cfg, sys, r); }
    case DoRenew(r) => if r in sys.callers { RenewKeeps(cfg, sys, r); }
    case DoRelease(r) => if r in sys.callers { ReleaseKeeps(cfg, sys, r); }
    case DoCancel(r) => if r in sys.callers { SetRoomKeeps(cfg, sys, sys.callers[r].workload, {r}); }
  }

  lemma {:induction false} RunKeeps(cfg: Config, start: nat, steps: seq<Step>)
    requires ConfigOk(cfg) && cfg.lag == 0
    ensures Inv(cfg, Run(cfg, Start(start), steps))
  {
    if steps != [] {
      RunKeeps(cfg, start, steps[..|steps| - 1]);
      StepKeeps(cfg, Run(cfg, Start(start), steps[..|steps| - 1]), steps[|steps| - 1]);
    }
  }

  /** What callers rely on, in terms of unexpired leases and locks only. */
  ghost predicate Safe(cfg: Config, sys: System) {
    && |set r | r in sys.store.leases && Live(sys, r)| <= cfg.globalLimit
    && (forall w :: |set r | r in LeasesOf(sys.store, w) && LiveIn(sys, w, r)| <= WorkloadLimit(cfg, w))
    && OnePerPrincipal(sys) && DisjointUnion(sys) && LockIffLease(sys)
  }

  ghost predicate OnePerPrincipal(sys: System) {
    forall r, q | Live(sys, r) && Live(sys, q) ::
      r in sys.callers && q in sys.callers && (sys.callers[r].principal == sys.callers[q].principal ==> r == q)
  }

  /** The live global leases are the disjoint union of the live workload leases, expiry by expiry. */
  ghost predicate DisjointUnion(sys: System) {
    && (forall r | Live(sys, r) :: exists w :: LiveIn(sys, w, r))
    && (forall w, r | LiveIn(sys, w, r) :: Live(sys, r) && sys.store.leases[r] == LeasesOf(sys.store, w)[r])
    && (forall v, w, r | LiveIn(sys, v, r) && LiveIn(sys, w, r) :: v == w)
  }

  ghost predicate LockIffLease(sys: System) {
    forall r | r in sys.callers ::
      var p := sys.callers[r].principal;
      && (Live(sys, r) <==> p in sys.store.locks && sys.store.locks[p].owner == r && sys.store.locks[p].until > sys.now)
      && (Live(sys, r) ==> sys.store.locks[p].until == sys.store.leases[r])
  }

  lemma SubsetOfKeys(live: set<Request>, m: map<Request, int>)
    requires live <= m.Keys
    ensures |live| <= |m|
  {
    assert |m.Keys| == |m|;
    var rest := m.Keys - live;
    assert m.Keys == live + rest;
  }

  lemma InvIsSafe(cfg: Config, sys: System)
    requires Inv(cfg, sys)
    ensures Safe(cfg, sys)
  {
    SubsetOfKeys((set r | r in sys.store.leases && Live(sys, r)), sys.store.leases);
    forall w ensures |set r | r in LeasesOf(sys.store, w) && LiveIn(sys, w, r)| <= WorkloadLimit(cfg, w) {
      SubsetOfKeys((set r | r in LeasesOf(sys.store, w) && LiveIn(sys, w, r)), LeasesOf(sys.store, w));
      assert |LeasesOf(sys.store, w)| <= WorkloadLimit(cfg, w);
    }
    InvUnion(cfg, sys);
  }

  lemma InvUnion(cfg: Config, sys: System)
    requires Inv(cfg, sys)
    ensures OnePerPrincipal(sys) && DisjointUnion(sys) && LockIffLease(sys)
  {
    forall r | Live(sys, r) ensures LiveIn(sys, sys.callers[r].workload, r) { }
  }

  /** Safety over every interleaving, when a key is never shown after its deadline. */
  lemma EveryRunIsSafe(cfg: Config, start: nat, steps: seq<Step>)
    requires ConfigOk(cfg) && cfg.lag == 0
    ensures Safe(cfg, Run(cfg, Start(start), steps))
  {
    RunKeeps(cfg, start, steps);
    InvIsSafe(cfg, Run(cfg, Start(start), steps));
  }

  // --------------------------------------------------- late renew and release

  /** A renewal by a request whose lease lapsed changes nothing at all. */
  lemma LapsedRenewDoesNothing(cfg: Config, sys: System, r: Request)
    requires cfg.lag == 0 && Inv(cfg, sys) && r in sys.callers && !Live(sys, r)
    ensures Do(cfg, sys, DoRenew(r)) == sys
  {
  }

  /** A release never touches another request's lease or lock, and by a request whose lease lapsed
      it frees no lock and ends no live lease. */
  lemma ReleaseFreesOnlyItsOwn(cfg: Config, sys: System, r: Request)
    requires cfg.lag == 0 && Inv(cfg, sys) && r in sys.callers
    ensures var sys' := Do(cfg, sys, DoRelease(r));
            && (forall p | p in sys.store.locks && sys.store.locks[p].owner != r ::
                  p in sys'.store.locks && sys'.store.locks[p] == sys.store.locks[p])
            && (forall q | q != r :: Live(sys', q) <==> Live(sys, q))
            && !Live(sys', r)
            && (!Live(sys, r) ==> sys'.store.locks == sys.store.locks)
  {
  }
}
