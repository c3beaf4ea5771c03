/** Who is served next by the inference queue. */
module QueueOrder {
  import opened StringOrder
  import opened Wrappers
  import opened InferenceQueue
  import opened QueueSafety

  // ------------------------------------------------------------ queue order

  /** Below 1e13 ms (the year 2286) the score orders waiters by priority, highest first, then by time. */
  lemma ScoreOrdersWaiters(pa: int, ta: int, pb: int, tb: int)
    requires 0 <= ta < 10_000_000_000_000 && 0 <= tb < 10_000_000_000_000
    ensures Score(pa, ta) < Score(pb, tb) <==> Clamp(pa) > Clamp(pb) || (Clamp(pa) == Clamp(pb) && ta < tb)
    ensures Score(pa, ta) == Score(pb, tb) <==> Clamp(pa) == Clamp(pb) && ta == tb
  {
  }

  /** ...and that bound is exact: it is the largest horizon over which priorities dominate. */
  lemma ScoreHorizonIsExact(horizon: int)
    ensures (forall pa, ta, pb, tb | 0 <= ta < horizon && 0 <= tb < horizon && Clamp(pa) > Clamp(pb) ::
               Score(pa, ta) < Score(pb, tb))
            <==> horizon <= 10_000_000_000_000
  {
    if horizon > 10_000_000_000_000 {
      assert Clamp(9) > Clamp(8) && Score(9, 10_000_000_000_000) == Score(8, 0);
    }
  }

  /** The request the next successful poll of workload w will grant. */
  function Winner(cfg: Config, s: Store, w: Workload, now: int): Option<Request> {
    var s1 := Purge(s, w, now);
    if Full(cfg, s1, w) then None
    else
      var room := RoomOf(cfg, s1, w, now);
      Selected(cfg, s1, room, Candidates(room), now)
  }

  lemma {:induction false} SelectedAt(cfg: Config, s: Store, room: Room, candidates: seq<Request>, now: int)
    ensures Selected(cfg, s, room, candidates, now) == None ==>
              forall k | 0 <= k < |candidates| :: !Eligible(cfg, s, room, candidates[k], now)
    ensures forall k | 0 <= k < |candidates| && Eligible(cfg, s, room, candidates[k], now)
                       && (forall j | 0 <= j < k :: !Eligible(cfg, s, room, candidates[j], now)) ::
              Selected(cfg, s, room, candidates, now) == Some(candidates[k])
    ensures Selected(cfg, s, room, candidates, now) != None ==>
              exists k :: 0 <= k < |candidates| && Eligible(cfg, s, room, candidates[k], now)
                          && Selected(cfg, s, room, candidates, now) == Some(candidates[k])
                          && (forall j | 0 <= j < k :: !Eligible(cfg, s, room, candidates[j], now))
  {
    hide Eligible;
    if candidates != [] {
      var rest := candidates[1..];
      SelectedAt(cfg, s, room, rest, now);
      if !Eligible(cfg, s, room, candidates[0], now) {
        assert forall k | 1 <= k < |candidates| :: candidates[k] == rest[k - 1];
        if Selected(cfg, s, room, rest, now) != None {
          var k :| 0 <= k < |rest| && Eligible(cfg, s, room, rest[k], now)
                   && Selected(cfg, s, room, rest, now) == Some(rest[k])
                   && (forall j | 0 <= j < k :: !Eligible(cfg, s, room, rest[j], now));
          assert candidates[k + 1] == rest[k];
          assert forall j | 0 <= j < k + 1 :: !Eligible(cfg, s, room, candidates[j], now);
        }
        forall k | 0 <= k < |candidates| && Eligible(cfg, s, room, candidates[k], now)
                   && (forall j | 0 <= j < k :: !Eligible(cfg, s, room, candidates[j], now))
          ensures Selected(cfg, s, room, candidates, now) == Some(candidates[k])
        {
          assert forall j | 0 <= j < k - 1 :: rest[j] == candidates[j + 1];
          assert rest[k - 1] == candidates[k];
        }
      }
    }
  }

  lemma AheadOfSelected(cfg: Config, s: Store, room: Room, winner: Request, m: Request, now: int)
    requires Selected(cfg, s, room, Candidates(room), now) == Some(winner) && Ahead(room.scores, m, winner)
    ensures !Eligible(cfg, s, room, m, now)
  {
    hide Ranked, Selected, Eligible, LexLess;
    var candidates := Candidates(room);
    SelectedAt(cfg, s, room, candidates, now);
    var k :| 0 <= k < |candidates| && winner == candidates[k]
             && (forall j | 0 <= j < k :: !Eligible(cfg, s, room, candidates[j], now));
    AheadIsEarlier(room.scores, m, k);
  }

  /** Whoever stands ahead of the winner is either stale or has a busy principal. */
  lemma NobodyEligibleIsOvertaken(cfg: Config, sys: System, w: Workload, winner: Request, m: Request)
    requires Inv(cfg, sys) && Winner(cfg, sys.store, w, sys.now) == Some(winner)
    requires Ahead(RoomOf(cfg, sys.store, w, sys.now).scores, m, winner)
    ensures var room := RoomOf(cfg, sys.store, w, sys.now);
            m in room.principals && (Stale(room, m, sys.now) || Busy(cfg, sys.store, room.principals[m], sys.now))
  {
    hide LeasesCoupled, WorkloadLeasesCoupled, LocksCoupled, WithinLimits, Candidates, Selected, Unlapsed;
    var room := RoomOf(cfg, sys.store, w, sys.now);
    AheadOfSelected(cfg, Purge(sys.store, w, sys.now), room, winner, m, sys.now);
    assert m in room.scores.Keys && room.principals.Keys == room.scores.Keys;
  }

  lemma AheadIsEarlier(scores: map<Request, int>, m: Request, k: nat)
    requires k < |Ranked(scores)| && Ahead(scores, m, Ranked(scores)[k])
    ensures exists j | 0 <= j < k :: Ranked(scores)[j] == m
  {
    hide Ranked, LexLess;
    RankedIsTheOrder(scores);
    var order := Ranked(scores);
    var j :| 0 <= j < |order| && order[j] == m;
    forall i | k <= i < |order| ensures !Ahead(scores, order[i], order[k]) { NeverAheadLater(scores, k, i); }
  }

  lemma NeverAheadLater(scores: map<Request, int>, k: nat, i: nat)
    requires k <= i < |Ranked(scores)|
    ensures !Ahead(scores, Ranked(scores)[i], Ranked(scores)[k])
  {
    hide Ranked, LexLess;
    RankedIsTheOrder(scores);
    LexTotal(Ranked(scores)[i], Ranked(scores)[k]);
  }

  /** A poll is granted only to the winner, and the winner's own poll is always granted. */
  lemma GrantedExactlyToTheWinner(cfg: Config, sys: System, r: Request)
    requires Inv(cfg, sys) && r in sys.callers
    ensures var c := sys.callers[r];
            TryAcquire(cfg, sys.store, r, c.principal, c.workload, sys.now).1
            <==> Winner(cfg, sys.store, c.workload, sys.now) == Some(r)
  {
    hide LeasesCoupled, WorkloadLeasesCoupled, LocksCoupled, WithinLimits, Candidates, Swept;
    var c := sys.callers[r];
    var s1 := Purge(sys.store, c.workload, sys.now);
    var room := RoomOf(cfg, s1, c.workload, sys.now);
    if Winner(cfg, sys.store, c.workload, sys.now) == Some(r) {
      SelectedAt(cfg, s1, room, Candidates(room), sys.now);
      assert Eligible(cfg, s1, room, r, sys.now);
      assert room.principals[r] == c.principal;
    }
  }

  /** With free capacity, an eligible waiter among the first 64 means there is a winner. */
  lemma EligibleMeansWinner(cfg: Config, s: Store, w: Workload, now: int, r: Request)
    requires !Full(cfg, Purge(s, w, now), w)
    requires r in Candidates(RoomOf(cfg, s, w, now)) && Eligible(cfg, s, RoomOf(cfg, s, w, now), r, now)
    ensures Winner(cfg, s, w, now) != None
  {
    var s1 := Purge(s, w, now);
    var room := RoomOf(cfg, s1, w, now);
    SelectedAt(cfg, s1, room, Candidates(room), now);
    assert Eligible(cfg, s1, room, r, now);
  }

  /** And it means that exactly: with free capacity, nobody wins only if nobody among the first 64 is eligible. */
  lemma WinnerIff(cfg: Config, s: Store, w: Workload, now: int)
    ensures var room := RoomOf(cfg, s, w, now);
            Winner(cfg, s, w, now) != None <==>
            !Full(cfg, Purge(s, w, now), w) && exists r :: r in Candidates(room) && Eligible(cfg, s, room, r, now)
  {
    hide Candidates, Selected, Full, Busy, Stale;
    var s1 := Purge(s, w, now);
    var room := RoomOf(cfg, s, w, now);
    assert RoomOf(cfg, s1, w, now) == room;
    forall r ensures Eligible(cfg, s1, room, r, now) <==> Eligible(cfg, s, room, r, now) { SameBusy(cfg, s, w, now); }
    SelectedAt(cfg, s1, room, Candidates(room), now);
    if r :| r in Candidates(room) && Eligible(cfg, s, room, r, now) {
      var k :| 0 <= k < |Candidates(room)| && Candidates(room)[k] == r;
    }
  }

  lemma SameBusy(cfg: Config, s: Store, w: Workload, now: int)
    ensures forall p :: Busy(cfg, Purge(s, w, now), p, now) <==> Busy(cfg, s, p, now)
  {
  }

  // A loser's poll sweeps stale waiters away.  The winner keeps its place because the ranking of
  // what is left is the old ranking with those waiters taken out.

  lemma {:induction false} DistinctPrefix(scores: map<Request, int>, order: seq<Request>, k: nat)
    requires InOrder(scores, order) && k <= |order|
    ensures |set j | 0 <= j < k :: order[j]| == k
  {
    if k > 0 {
      DistinctPrefix(scores, order, k - 1);
      var before := set j | 0 <= j < k - 1 :: order[j];
      assert (set j | 0 <= j < k :: order[j]) == before + {order[k - 1]};
      if order[k - 1] in before {
        var j :| 0 <= j < k - 1 && order[j] == order[k - 1];
        assert Ahead(scores, order[j], order[k - 1]);
        LexTotal(order[j], order[j]);
      }
    }
  }

  /** A member's rank is the number of members ahead of it. */
  lemma RankCountsAhead(scores: map<Request, int>, k: nat)
    requires k < |Ranked(scores)|
    ensures k == |set m | m in scores && Ahead(scores, m, Ranked(scores)[k])|
  {
    hide Ranked, LexLess;
    RankedIsTheOrder(scores);
    var order := Ranked(scores);
    var prefix := set j | 0 <= j < k :: order[j];
    DistinctPrefix(scores, order, k);
    var ahead := set m | m in scores && Ahead(scores, m, order[k]);
    forall m | m in prefix ensures m in ahead {
      var j :| 0 <= j < k && order[j] == m;
      assert Ahead(scores, order[j], order[k]) && order[j] in order;
    }
    forall m | m in ahead ensures m in prefix { AheadIsEarlier(scores, m, k); }
    assert prefix == ahead;
  }

  /** Taking members out never moves a remaining member back. */
  lemma RemovalAdvances(scores: map<Request, int>, gone: set<Request>, k: nat) returns (k': nat)
    requires k < |Ranked(scores)| && Ranked(scores)[k] !in gone
    ensures k' <= k && k' < |Ranked(scores - gone)| && Ranked(scores - gone)[k'] == Ranked(scores)[k]
  {
    hide Ranked, LexLess;
    RankedIsTheOrder(scores);
    RankedIsTheOrder(scores - gone);
    var m := Ranked(scores)[k];
    assert m in Ranked(scores) && m in scores - gone;
    k' :| 0 <= k' < |Ranked(scores - gone)| && Ranked(scores - gone)[k'] == m;
    RankCountsAhead(scores, k);
    RankCountsAhead(scores - gone, k');
    var fewer := set q | q in scores - gone && Ahead(scores - gone, q, m);
    var more := set q | q in scores && Ahead(scores, q, m);
    assert fewer <= more;
    var rest := more - fewer;
    assert more == fewer + rest;
  }

  lemma SweptAreStale(cfg: Config, s: Store, room: Room, candidates: seq<Request>, now: int)
    ensures forall m | m in Swept(cfg, s, room, candidates, now) :: Stale(room, m, now)
  {
  }

  /** Sweeping stale waiters does not change whom the scan selects. */
  lemma SweepKeepsSelection(cfg: Config, s: Store, room: Room, now: int, gone: set<Request>, winner: Request)
    requires Selected(cfg, s, room, Candidates(room), now) == Some(winner)
    requires forall m | m in gone :: Stale(room, m, now)
    ensures Selected(cfg, s, Without(room, gone), Candidates(Without(room, gone)), now) == Some(winner)
  {
    hide Ranked, Selected, LexLess;
    var candidates := Candidates(room);
    SelectedAt(cfg, s, room, candidates, now);
    var k :| 0 <= k < |candidates| && candidates[k] == winner && Eligible(cfg, s, room, winner, now)
             && (forall j | 0 <= j < k :: !Eligible(cfg, s, room, candidates[j], now));
    var room' := Without(room, gone);
    var candidates' := Candidates(room');
    var k' := RemovalAdvances(room.scores, gone, k);
    assert candidates'[k'] == winner && Eligible(cfg, s, room', winner, now);
    forall j | 0 <= j < k' ensures !Eligible(cfg, s, room', candidates'[j], now) {
      var m := candidates'[j];
      RankedIsTheOrder(room'.scores);
      assert Ahead(room'.scores, m, winner);
      assert Ahead(room.scores, m, winner);
      AheadIsEarlier(room.scores, m, k);
      assert !Eligible(cfg, s, room, m, now);
      assert m in room'.scores && m !in gone;
    }
    SelectedAt(cfg, s, room', candidates', now);
  }

  lemma PurgeTwice(s: Store, w: Workload, room: Room, now: int)
    ensures Purge(SetRoom(Purge(s, w, now), w, room), w, now) == SetRoom(Purge(s, w, now), w, room)
  {
    assert Unlapsed(Unlapsed(s.leases, now), now) == Unlapsed(s.leases, now);
    assert Unlapsed(Unlapsed(LeasesOf(s, w), now), now) == Unlapsed(LeasesOf(s, w), now);
  }

  /** A loser's poll admits nobody and leaves the winner the winner. */
  lemma LoserDoesNotDisturb(cfg: Config, sys: System, r: Request, winner: Request)
    requires Inv(cfg, sys) && r in sys.callers && r != winner
    requires Winner(cfg, sys.store, sys.callers[r].workload, sys.now) == Some(winner)
    ensures var c := sys.callers[r];
            var (s', granted) := TryAcquire(cfg, sys.store, r, c.principal, c.workload, sys.now);
            && !granted
            && s'.locks == sys.store.locks
            && Winner(cfg, s', c.workload, sys.now) == Some(winner)
  {
    hide LeasesCoupled, WorkloadLeasesCoupled, LocksCoupled, WithinLimits, RoomsHonest, Candidates, Swept, Selected,
         Stale;
    var w := sys.callers[r].workload;
    var s1 := Purge(sys.store, w, sys.now);
    var room := RoomOf(cfg, s1, w, sys.now);
    var gone := Swept(cfg, s1, room, Candidates(room), sys.now);
    SweptAreStale(cfg, s1, room, Candidates(room), sys.now);
    SweepKeepsSelection(cfg, s1, room, sys.now, gone, winner);
    var s2 := SetRoom(s1, w, Without(room, gone));
    PurgeTwice(sys.store, w, Without(room, gone), sys.now);
    SameLocksSameSelection(cfg, s1, s2, Without(room, gone), Candidates(Without(room, gone)), sys.now);
    EmptyRoomHasNoWinner(cfg, s1, sys.now);
    assert RoomOf(cfg, s2, w, sys.now) == Without(room, gone);
  }

  lemma {:induction false} SameLocksSameSelection(cfg: Config, s: Store, s': Store, room: Room,
                                                  candidates: seq<Request>, now: int)
    requires s.locks == s'.locks
    ensures Selected(cfg, s, room, candidates, now) == Selected(cfg, s', room, candidates, now)
  {
    if candidates != [] { SameLocksSameSelection(cfg, s, s', room, candidates[1..], now); }
  }

  lemma EmptyRoomHasNoWinner(cfg: Config, s: Store, now: int)
    ensures Selected(cfg, s, EMPTY_ROOM, Candidates(EMPTY_ROOM), now) == None
  {
    assert Ranked(EMPTY_ROOM.scores) == [];
  }

  /** When the keys of a waiting room lapse, everyone still in it had already given up. */
  lemma RoomDeadlineDropsOnlyStale(cfg: Config, sys: System, w: Workload, r: Request)
    requires cfg.lag >= 0 && Inv(cfg, sys)
    requires w in sys.store.rooms && !Visible(cfg, sys.store.rooms[w].deadline, sys.now)
    requires r in sys.store.rooms[w].scores
    ensures sys.store.rooms[w].expiries.Keys == sys.store.rooms[w].scores.Keys &&
            sys.store.rooms[w].expiries[r] < sys.now
  {
    assert r in sys.store.rooms[w].expiries.Keys;
  }
}
