/** What the inference queue's limits owe to exact key deadlines. */
module QueueLag {
  import opened Wrappers
  import opened InferenceQueue
  import opened QueueSafety

  // ------------------------------------------- the deadline must be exact

  lemma RankedOne(r: Request, score: int)
    ensures Ranked(map[r := score]) == [r]
  {
    var scores := map[r := score];
    FirstExists(scores);
    FirstsAgree(scores);
    var first :| IsFirst(scores, first);
    assert scores - {r} == map[];
  }

  lemma SoleCandidate(room: Room, r: Request, score: int)
    requires room.scores == map[r := score]
    ensures Candidates(room) == [r]
  {
    RankedOne(r, score);
  }

  lemma OneCandidate(cfg: Config, s: Store, room: Room, r: Request, now: int)
    requires Eligible(cfg, s, room, r, now)
    ensures Selected(cfg, s, room, [r], now) == Some(r) && Swept(cfg, s, room, [r], now) == {} &&
            Without(room, {}) == room
  {
  }

  /** A waiter alone in its room, unexpired and with a free principal, wins when there is capacity. */
  lemma SoleWaiterWins(cfg: Config, s: Store, r: Request, p: Principal, w: Workload, now: int, score: int)
    requires !Full(cfg, Purge(s, w, now), w) && !Busy(cfg, s, p, now)
    requires RoomOf(cfg, s, w, now).scores == map[r := score] && RoomOf(cfg, s, w, now).principals == map[r := p]
    requires !Stale(RoomOf(cfg, s, w, now), r, now)
    ensures TryAcquire(cfg, s, r, p, w, now) ==
            (Grant(cfg, SetRoom(Purge(s, w, now), w, RoomOf(cfg, s, w, now)), r, p, w, now), true)
  {
    hide Grant, Candidates, Selected, Swept, Full, Stale, Without;
    var s1 := Purge(s, w, now);
    var room := RoomOf(cfg, s1, w, now);
    SoleCandidate(room, r, score);
    assert Eligible(cfg, s1, room, r, now);
    OneCandidate(cfg, s1, room, r, now);
  }

  const LAG_SCRIPT := [DoEnqueue("a", "p", "w", 0), DoTry("a"), DoEnqueue("b", "q", "w", 0), Tick(1000), DoTry("b"),
                       DoRenew("a")]

  /** If a key outlives its deadline by even one millisecond, a renewal at the deadline restores a
      lease whose place has just been given away: two live leases under a limit of one. */
  lemma LagBreaksTheLimit(lag: int)
    requires lag >= 1
    ensures var cfg := Config(1, Some(map[]), 1000, 5000, lag);
            ConfigOk(cfg) && !Safe(cfg, Run(cfg, Start(0), LAG_SCRIPT))
  {
    hide Run, Safe, Do;
    var cfg := Config(1, Some(map[]), 1000, 5000, lag);
    var k := LAG_SCRIPT;
    var y1 := Do(cfg, Start(0), k[0]);
    var y2 := Do(cfg, y1, k[1]);
    var y3 := Do(cfg, y2, k[2]);
    var y4 := Do(cfg, y3, k[3]);
    var y5 := Do(cfg, y4, k[4]);
    var y6 := Do(cfg, y5, k[5]);
    LagFirstGrant(cfg, y1, y2);
    LagSecondGrant(cfg, y2, y3, y4, y5);
    LagUnfold(cfg, k);
    LagRenewal(cfg, y5);
  }

  lemma LagRenewal(cfg: Config, y5: System)
    requires cfg.lag >= 1 && cfg == Config(1, Some(map[]), 1000, 5000, cfg.lag)
    requires y5.now == 1000 && "a" in y5.callers && y5.callers["a"] == Caller("p", "w")
    requires y5.store.leases == map["b" := 2000]
    requires "p" in y5.store.locks && y5.store.locks["p"] == Lock("a", 1000)
    ensures !Safe(cfg, Do(cfg, y5, DoRenew("a")))
  {
    var y6 := Do(cfg, y5, DoRenew("a"));
    assert y6.store.leases == map["b" := 2000, "a" := 2000];
    var live := set r | r in y6.store.leases && Live(y6, r);
    assert live == {"a", "b"};
    assert |live| == 2;
  }

  lemma LagUnfold(cfg: Config, k: seq<Step>)
    requires |k| == 6
    ensures Run(cfg, Start(0), k) ==
            Do(cfg, Do(cfg, Do(cfg, Do(cfg, Do(cfg, Do(cfg, Start(0), k[0]), k[1]), k[2]), k[3]), k[4]), k[5])
  {
    hide Do;
    assert k[..5][..4] == k[..4] && k[..4][..3] == k[..3] && k[..3][..2] == k[..2] && k[..2][..1] == k[..1] &&
           k[..1][..0] == [];
    assert Run(cfg, Start(0), k[..1]) == Do(cfg, Start(0), k[0]);
    assert Run(cfg, Start(0), k[..2]) == Do(cfg, Run(cfg, Start(0), k[..1]), k[1]);
    assert Run(cfg, Start(0), k[..3]) == Do(cfg, Run(cfg, Start(0), k[..2]), k[2]);
    assert Run(cfg, Start(0), k[..4]) == Do(cfg, Run(cfg, Start(0), k[..3]), k[3]);
    assert Run(cfg, Start(0), k[..5]) == Do(cfg, Run(cfg, Start(0), k[..4]), k[4]);
  }

  lemma LagFirstGrant(cfg: Config, y1: System, y2: System)
    requires cfg.lag >= 1 && cfg == Config(1, Some(map[]), 1000, 5000, cfg.lag)
    requires y1 == Do(cfg, Start(0), DoEnqueue("a", "p", "w", 0)) && y2 == Do(cfg, y1, DoTry("a"))
    ensures y2.now == 0 && y2.callers == map["a" := Caller("p", "w")]
    ensures y2.store.leases == map["a" := 1000] && y2.store.locks == map["p" := Lock("a", 1000)]
    ensures LeasesOf(y2.store, "w") == map["a" := 1000]
    ensures RoomOf(cfg, y2.store, "w", 0) == Room(map[], map[], map[], 65000)
  {
    var room := RoomOf(cfg, y1.store, "w", 0);
    assert room == Room(map["a" := Score(0, 0)], map["a" := "p"], map["a" := 5000], 65000);
    assert Unlapsed(y1.store.leases, 0) == map[];
    SoleWaiterWins(cfg, y1.store, "a", "p", "w", 0, Score(0, 0));
    assert Without(room, {"a"}) == Room(map[], map[], map[], 65000);
  }

  lemma LagSecondGrant(cfg: Config, y2: System, y3: System, y4: System, y5: System)
    requires cfg.lag >= 1 && cfg == Config(1, Some(map[]), 1000, 5000, cfg.lag)
    requires y2.now == 0 && y2.callers == map["a" := Caller("p", "w")]
    requires y2.store.leases == map["a" := 1000] && y2.store.locks == map["p" := Lock("a", 1000)]
    requires LeasesOf(y2.store, "w") == map["a" := 1000]
    requires RoomOf(cfg, y2.store, "w", 0) == Room(map[], map[], map[], 65000)
    requires y3 == Do(cfg, y2, DoEnqueue("b", "q", "w", 0)) && y4 == Do(cfg, y3, Tick(1000)) &&
             y5 == Do(cfg, y4, DoTry("b"))
    ensures y5.now == 1000 && "a" in y5.callers && y5.callers["a"] == Caller("p", "w")
    ensures y5.store.leases == map["b" := 2000]
    ensures "p" in y5.store.locks && y5.store.locks["p"] == Lock("a", 1000)
  {
    var room := RoomOf(cfg, y4.store, "w", 1000);
    assert room == Room(map["b" := Score(0, 0)], map["b" := "q"], map["b" := 5000], 65000);
    assert Unlapsed(y4.store.leases, 1000) == map[];
    assert Unlapsed(LeasesOf(y4.store, "w"), 1000) == map[];
    SoleWaiterWins(cfg, y4.store, "b", "q", "w", 1000, Score(0, 0));
  }

  /** The limits hold in every run of every configuration exactly when a key is never shown after
      its deadline: renewals re-check nothing, so the lock must lapse no later than the lease. */
  lemma SafeIffDeadlinesAreExact(lag: int)
    requires lag >= 0
    ensures (forall cfg: Config, start: nat, steps | ConfigOk(cfg) && cfg.lag == lag ::
               Safe(cfg, Run(cfg, Start(start), steps)))
            <==> lag == 0
  {
    if lag == 0 {
      forall cfg: Config, start: nat, steps | ConfigOk(cfg) && cfg.lag == lag { EveryRunIsSafe(cfg, start, steps); }
    } else {
      LagBreaksTheLimit(lag);
    }
  }
}
