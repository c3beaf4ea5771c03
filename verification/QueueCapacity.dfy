/** The queue's capacity is used in full. */
module QueueCapacity {
  import opened Wrappers
  import opened InferenceQueue
  import opened QueueSafety
  import opened QueueLag
  import opened QueueBlocking
  import opened QueueScripts

  /** n requests of as many principals join and poll, one after the other. */
  function Fill(w: Workload, n: nat): seq<Step> {
    if n == 0 then [] else Fill(w, n - 1) + [DoEnqueue(Name(n - 1), Name(n - 1), w, 9), DoTry(Name(n - 1))]
  }

  ghost predicate Filled(cfg: Config, sys: System, w: Workload, n: nat) {
    && sys.now == 0 && sys.callers.Keys == Names(n)
    && AllUntil(sys.store.leases, n, cfg.leaseTtl) && AllUntil(LeasesOf(sys.store, w), n, cfg.leaseTtl)
    && sys.store.locks.Keys <= Names(n)
    && RoomOf(cfg, sys.store, w, 0).scores == map[] && RoomOf(cfg, sys.store, w, 0).principals == map[]
  }

  ghost predicate AllUntil(leases: map<Request, int>, n: nat, until: int) {
    leases.Keys == Names(n) && forall r | r in leases :: leases[r] == until
  }

  lemma {:induction false} RunTwo(cfg: Config, steps: seq<Step>, a: Step, b: Step)
    ensures Run(cfg, Start(0), steps + [a, b]) == Do(cfg, Do(cfg, Run(cfg, Start(0), steps), a), b)
  {
    hide Do;
    assert steps + [a, b] == (steps + [a]) + [b];
    OneMore(cfg, steps, a);
    OneMore(cfg, steps + [a], b);
  }

  lemma Joined(cfg: Config, sys: System, w: Workload, n: nat)
    requires ConfigOk(cfg) && Filled(cfg, sys, w, n)
    ensures var r := Name(n);
            var sys' := Do(cfg, sys, DoEnqueue(r, r, w, 9));
            && sys'.store == sys.store.(rooms := sys'.store.rooms) && sys'.now == 0
            && sys'.callers == sys.callers[r := Caller(r, w)]
            && RoomOf(cfg, sys'.store, w, 0).scores == map[r := Score(9, 0)]
            && RoomOf(cfg, sys'.store, w, 0).principals == map[r := r]
            && !Stale(RoomOf(cfg, sys'.store, w, 0), r, 0) && !Busy(cfg, sys'.store, r, 0)
  {
    NewName(n);
    hide Names;
    assert Name(n) != "";
    assert Name(n) !in sys.callers.Keys && Name(n) !in sys.store.locks.Keys;
  }

  lemma StillRoom(cfg: Config, s: Store, w: Workload, n: nat)
    requires ConfigOk(cfg) && AllUntil(s.leases, n, cfg.leaseTtl) && AllUntil(LeasesOf(s, w), n, cfg.leaseTtl)
    requires n < cfg.globalLimit && n < WorkloadLimit(cfg, w)
    ensures !Full(cfg, Purge(s, w, 0), w)
  {
    NamesCount(n);
    hide Names;
    SmallerMap(Unlapsed(s.leases, 0), s.leases);
    SmallerMap(Unlapsed(LeasesOf(s, w), 0), LeasesOf(s, w));
    assert |s.leases.Keys| == |s.leases| && |LeasesOf(s, w).Keys| == |LeasesOf(s, w)|;
  }

  lemma Grown(after: map<Request, int>, before: map<Request, int>, n: nat, until: int)
    requires until > 0 && AllUntil(before, n, until) && Leases(after, before, 0, Name(n), Some(until))
    ensures AllUntil(after, n + 1, until)
  {
    assert Names(n + 1) == Names(n) + {Name(n)};
    hide Names, Name;
    forall r ensures r in after.Keys <==> r in Names(n + 1) {
      assert r in before <==> r in before.Keys;
      assert r in after <==> r in after.Keys;
    }
  }

  lemma Granted(cfg: Config, sys: System, w: Workload, n: nat)
    requires ConfigOk(cfg) && Filled(cfg, sys, w, n) && n < cfg.globalLimit && n < WorkloadLimit(cfg, w)
    ensures var r := Name(n);
            Filled(cfg, Do(cfg, Do(cfg, sys, DoEnqueue(r, r, w, 9)), DoTry(r)), w, n + 1)
  {
    hide Names, Name, TryAcquire, RoomOf, Full, Stale, Busy, Leases, AllUntil, LeasesOf, Enqueue, Purge, WorkloadLimit,
         Without, Swept;
    var r := Name(n);
    var sys1 := Do(cfg, sys, DoEnqueue(r, r, w, 9));
    var sys2 := Do(cfg, sys1, DoTry(r));
    Joined(cfg, sys, w, n);
    StillRoom(cfg, sys.store, w, n);
    SameCapacity(cfg, sys.store, sys1.store, w);
    SoleWaiterWins(cfg, sys1.store, r, r, w, 0, Score(9, 0));
    PollLeases(cfg, sys1.store, r, r, w, 0);
    Grown(sys2.store.leases, sys.store.leases, n, cfg.leaseTtl);
    Grown(LeasesOf(sys2.store, w), LeasesOf(sys.store, w), n, cfg.leaseTtl);
    Emptied(cfg, sys1.store, r, w);
    OneMoreName(n);
  }

  lemma OneMoreName(n: nat)
    ensures Names(n + 1) == Names(n) + {Name(n)}
  {
  }

  lemma SameCapacity(cfg: Config, s: Store, s': Store, w: Workload)
    requires s' == s.(rooms := s'.rooms)
    ensures Full(cfg, Purge(s, w, 0), w) == Full(cfg, Purge(s', w, 0), w) && LeasesOf(s', w) == LeasesOf(s, w)
  {
  }

  lemma Emptied(cfg: Config, s: Store, r: Request, w: Workload)
    requires RoomOf(cfg, s, w, 0).scores.Keys == RoomOf(cfg, s, w, 0).principals.Keys == {r}
    requires !Full(cfg, Purge(s, w, 0), w) && TryAcquire(cfg, s, r, r, w, 0).1
    ensures var room := RoomOf(cfg, TryAcquire(cfg, s, r, r, w, 0).0, w, 0);
            room.scores == map[] && room.principals == map[]
  {
    hide TryAcquire, Full, Swept, Candidates, Ranked;
    PollRoomsAre(cfg, s, r, r, w, 0);
    PurgeShape(s, w, 0);
    SameRoom(cfg, s, Purge(s, w, 0), w, 0);
  }

  lemma {:induction false} FillsUp(cfg: Config, w: Workload, n: nat)
    requires ConfigOk(cfg) && n <= cfg.globalLimit && n <= WorkloadLimit(cfg, w)
    ensures Filled(cfg, Run(cfg, Start(0), Fill(w, n)), w, n)
  {
    hide Do, Filled, WorkloadLimit;
    if n == 0 {
      NobodyYet(cfg, w);
    } else {
      FillsUp(cfg, w, n - 1);
      Granted(cfg, Run(cfg, Start(0), Fill(w, n - 1)), w, n - 1);
      RunTwo(cfg, Fill(w, n - 1), DoEnqueue(Name(n - 1), Name(n - 1), w, 9), DoTry(Name(n - 1)));
    }
  }

  lemma NobodyYet(cfg: Config, w: Workload)
    ensures Filled(cfg, Start(0), w, 0)
  {
    assert Names(0) == {};
  }

  /** In some run just as many requests of a workload run at once as its limit and the global limit both allow. */
  lemma CapacityIsReached(cfg: Config, w: Workload)
    requires ConfigOk(cfg)
    ensures var limits := cfg.workloadLimits.value;
            var own := if w in limits && limits[w] > 0 then limits[w] else 1;
            var most := if own < cfg.globalLimit then own else cfg.globalLimit;
            var s := Run(cfg, Start(0), Fill(w, most)).store;
            |Running(s.leases, 0)| == |RunningIn(s, w, 0)| == most
  {
    hide Run;
    var most := if WorkloadLimit(cfg, w) < cfg.globalLimit then WorkloadLimit(cfg, w) else cfg.globalLimit;
    FillsUp(cfg, w, most);
    NamesCount(most);
    var s := Run(cfg, Start(0), Fill(w, most)).store;
    assert Running(s.leases, 0) == Names(most) && Running(LeasesOf(s, w), 0) == Names(most);
    assert RunningIn(s, w, 0) == Running(LeasesOf(s, w), 0) by { NoneIn(); }
  }

  lemma NoneIn()
    ensures Running(map[], 0) == {}
  {
  }
}
