/** The distributed inference queue (internal/inference/queue.go).

  Redis is one record; each Lua script or pipeline is one atomic step that also reads the clock
  (times are milliseconds).  A sorted set is a map from member to score, ranked by score and then
  by member.  Deadlines: a sorted-set lease lapses when the script purges it (score <= now); a key
  with a TTL is visible while now < deadline + lag, where lag is how long the store may still show
  a key after its deadline as the queue's clock sees it.
 */
module InferenceQueue {
  import opened StringOrder
  import opened Wrappers

  type Request = string
  type Principal = string
  type Workload = string

  /** workloadLimits is None for a nil table. */
  datatype Config = Config(globalLimit: int, workloadLimits: Option<map<Workload, int>>, leaseTtl: int, maxWait: int,
                           lag: int)

  predicate ConfigOk(cfg: Config) {
    cfg.globalLimit >= 1 && cfg.workloadLimits.Some? && cfg.leaseTtl >= 1 && cfg.maxWait >= 1 && cfg.lag >= 0
  }

  const WORKLOAD_LIMITS := map["fast" := 4, "deep" := 1, "vision" := 1, "image" := 1, "embedding" := 2, "batch" := 1]

  /** NewQueue's defaults; the per-principal limit is stored but never read, and polling is the caller's. */
  function NewQueue(cfg: Config): (c: Config)
    requires cfg.lag >= 0
    ensures ConfigOk(c)
    ensures ConfigOk(cfg) ==> c == cfg
    ensures forall w :: WorkloadLimit(c, w) ==
              if cfg.workloadLimits.Some? then WorkloadLimit(cfg, w) else if w == "fast" then 4
              else if w == "embedding" then 2 else 1
  {
    cfg.(globalLimit := if cfg.globalLimit <= 0 then 4 else cfg.globalLimit,
         workloadLimits := Some(if cfg.workloadLimits.None? then WORKLOAD_LIMITS else cfg.workloadLimits.value),
         leaseTtl := if cfg.leaseTtl <= 0 then 30000 else cfg.leaseTtl,
         maxWait := if cfg.maxWait <= 0 then 120000 else cfg.maxWait)
  }

  function WorkloadLimit(cfg: Config, w: Workload): (limit: int)
    ensures limit >= 1
  {
    match cfg.workloadLimits
    case None => 1
    case Some(limits) => if w in limits && limits[w] > 0 then limits[w] else 1
  }

  /** One workload's waiting requests: the sorted set and its two hashes, under a common deadline. */
  datatype Room = Room(scores: map<Request, int>, principals: map<Request, Principal>, expiries: map<Request, int>,
                       deadline: int)

  datatype Lock = Lock(owner: Request, until: int)

  datatype Store = Store(rooms: map<Workload, Room>, leases: map<Request, int>,
                         workloadLeases: map<Workload, map<Request, int>>, locks: map<Principal, Lock>)

  const EMPTY_ROOM := Room(map[], map[], map[], 0)
  const EMPTY_STORE := Store(map[], map[], map[], map[])
  const SCAN := 64

  predicate Visible(cfg: Config, until: int, now: int) {
    now < until + cfg.lag
  }

  function RoomOf(cfg: Config, s: Store, w: Workload, now: int): Room {
    if w in s.rooms && Visible(cfg, s.rooms[w].deadline, now) then s.rooms[w] else EMPTY_ROOM
  }

  function LeasesOf(s: Store, w: Workload): map<Request, int> {
    if w in s.workloadLeases then s.workloadLeases[w] else map[]
  }

  predicate Busy(cfg: Config, s: Store, p: Principal, now: int) {
    p in s.locks && Visible(cfg, s.locks[p].until, now)
  }

  // -------------------------------------------------------- sorted-set order

  predicate Ahead(scores: map<Request, int>, a: Request, b: Request) {
    && a in scores && b in scores
    && (scores[a] < scores[b] || (scores[a] == scores[b] && LexLess(a, b)))
  }

  predicate IsFirst(scores: map<Request, int>, m: Request) {
    m in scores && forall k | k in scores && k != m :: Ahead(scores, m, k)
  }

  lemma {:induction false} FirstExists(scores: map<Request, int>)
    requires scores != map[]
    ensures exists m :: IsFirst(scores, m)
    decreases |scores|
  {
    var k :| k in scores;
    var others := scores - {k};
    if others == map[] {
      assert forall m | m in scores :: m == k || m in others;
      assert IsFirst(scores, k);
    } else {
      FirstExists(others);
      var m :| IsFirst(others, m);
      LexTotal(k, m);
      if Ahead(scores, k, m) {
        forall j | j in scores && j != k ensures Ahead(scores, k, j) {
          assert j in others;
          if j != m {
            assert Ahead(others, m, j);
            if scores[k] == scores[m] && scores[m] == scores[j] { LexTransitive(k, m, j); }
          }
        }
        assert IsFirst(scores, k);
      } else {
        assert forall j | j in scores && j != m :: j == k || Ahead(others, m, j);
        assert IsFirst(scores, m);
      }
    }
  }

  lemma FirstIsUnique(scores: map<Request, int>, m: Request, m': Request)
    requires IsFirst(scores, m) && IsFirst(scores, m')
    ensures m == m'
  {
    LexTotal(m, m');
  }

  lemma FirstsAgree(scores: map<Request, int>)
    ensures forall m, m' | IsFirst(scores, m) && IsFirst(scores, m') :: m == m'
  {
    forall m, m' | IsFirst(scores, m) && IsFirst(scores, m') ensures m == m' { FirstIsUnique(scores, m, m'); }
  }

  lemma DropOne(scores: map<Request, int>, m: Request)
    requires m in scores
    ensures |scores - {m}| == |scores| - 1
  {
    assert (scores - {m}).Keys == scores.Keys - {m};
    assert |scores.Keys| == |scores| && |(scores - {m}).Keys| == |scores - {m}|;
  }

  /** ZRANGE 0 -1. */
  function Ranked(scores: map<Request, int>): (order: seq<Request>)
    decreases |scores|
  {
    if scores == map[] then []
    else
      FirstExists(scores);
      FirstsAgree(scores);
      var first :| IsFirst(scores, first);
      DropOne(scores, first);
      [first] + Ranked(scores - {first})
  }

  ghost predicate InOrder(scores: map<Request, int>, order: seq<Request>) {
    forall i, j | 0 <= i < j < |order| :: Ahead(scores, order[i], order[j])
  }

  /** The ranking lists every member once, in (score, member) order. */
  lemma {:induction false} RankedIsTheOrder(scores: map<Request, int>)
    ensures forall r :: r in Ranked(scores) <==> r in scores
    ensures InOrder(scores, Ranked(scores))
    decreases |scores|
  {
    if scores != map[] {
      FirstExists(scores);
      FirstsAgree(scores);
      var first :| IsFirst(scores, first);
      DropOne(scores, first);
      var others := scores - {first};
      var rest := Ranked(others);
      RankedIsTheOrder(others);
      assert Ranked(scores) == [first] + rest;
      forall i, j | 0 <= i < j < |rest| + 1 ensures Ahead(scores, Ranked(scores)[i], Ranked(scores)[j]) {
        assert rest[j - 1] in rest && rest[j - 1] in others;
        if i > 0 { assert Ahead(others, rest[i - 1], rest[j - 1]); }
      }
    }
  }

  function Candidates(room: Room): seq<Request> {
    var order := Ranked(room.scores);
    if |order| <= SCAN then order else order[..SCAN]
  }

  // -------------------------------------------------------------- the scripts

  function Clamp(priority: int): int {
    if priority < 0 then 0 else if priority > 9 then 9 else priority
  }

  function Score(priority: int, now: int): int {
    (9 - Clamp(priority)) * 10_000_000_000_000 + now
  }

  function Enqueue(cfg: Config, s: Store, r: Request, p: Principal, w: Workload, priority: int, now: int): Store {
    var room := RoomOf(cfg, s, w, now);
    s.(rooms := s.rooms[w := Room(room.scores[r := Score(priority, now)], room.principals[r := p],
                                  room.expiries[r := now + cfg.maxWait], now + cfg.maxWait + 60000)])
  }

  /** ZREMRANGEBYSCORE -inf now. */
  function Unlapsed(leases: map<Request, int>, now: int): map<Request, int> {
    map r | r in leases && leases[r] > now :: leases[r]
  }

  function Purge(s: Store, w: Workload, now: int): Store {
    s.(leases := Unlapsed(s.leases, now), workloadLeases := s.workloadLeases[w := Unlapsed(LeasesOf(s, w), now)])
  }

  predicate Full(cfg: Config, s: Store, w: Workload) {
    |s.leases| >= cfg.globalLimit || |LeasesOf(s, w)| >= WorkloadLimit(cfg, w)
  }

  /** The waiter has given up: its own deadline passed. */
  predicate Stale(room: Room, m: Request, now: int) {
    var exp := if m in room.expiries then room.expiries[m] else 0;
    exp > 0 && exp < now
  }

  predicate Eligible(cfg: Config, s: Store, room: Room, m: Request, now: int) {
    !Stale(room, m, now) && m in room.principals && !Busy(cfg, s, room.principals[m], now)
  }

  /** The candidate the scan stops at. */
  function Selected(cfg: Config, s: Store, room: Room, candidates: seq<Request>, now: int): Option<Request> {
    if candidates == [] then None
    else if Eligible(cfg, s, room, candidates[0], now) then Some(candidates[0])
    else Selected(cfg, s, room, candidates[1..], now)
  }

  /** The stale waiters the scan passed on its way. */
  function Swept(cfg: Config, s: Store, room: Room, candidates: seq<Request>, now: int): set<Request> {
    if candidates == [] || Eligible(cfg, s, room, candidates[0], now) then {}
    else (if Stale(room, candidates[0], now) then {candidates[0]} else {}) + Swept(cfg, s, room, candidates[1..], now)
  }

  function Without(room: Room, gone: set<Request>): Room {
    Room(room.scores - gone, room.principals - gone, room.expiries - gone, room.deadline)
  }

  function SetRoom(s: Store, w: Workload, room: Room): Store {
    s.(rooms := s.rooms[w := room])
  }

  /** Both lease entries and the principal's lock, under one deadline. */
  function Install(s: Store, r: Request, p: Principal, w: Workload, until: int): Store {
    s.(leases := s.leases[r := until],
       workloadLeases := s.workloadLeases[w := LeasesOf(s, w)[r := until]],
       locks := s.locks[p := Lock(r, until)])
  }

  function Grant(cfg: Config, s: Store, r: Request, p: Principal, w: Workload, now: int): Store {
    Install(SetRoom(s, w, Without(RoomOf(cfg, s, w, now), {r})), r, p, w, now + cfg.leaseTtl)
  }

  function TryAcquire(cfg: Config, s: Store, r: Request, p: Principal, w: Workload, now: int): (Store, bool) {
    var s1 := Purge(s, w, now);
    if Full(cfg, s1, w) then (s1, false)
    else
      var room := RoomOf(cfg, s1, w, now);
      var candidates := Candidates(room);
      var s2 := SetRoom(s1, w, Without(room, Swept(cfg, s1, room, candidates, now)));
      if Selected(cfg, s1, room, candidates, now) != Some(r) || Busy(cfg, s2, p, now) then (s2, false)
      else (Grant(cfg, s2, r, p, w, now), true)
  }

  function Renew(cfg: Config, s: Store, r: Request, p: Principal, w: Workload, now: int): Store {
    if !Busy(cfg, s, p, now) || s.locks[p].owner != r then s
    else Install(s, r, p, w, now + cfg.leaseTtl)
  }

  function Release(cfg: Config, s: Store, r: Request, p: Principal, w: Workload, now: int): Store {
    s.(locks := if Busy(cfg, s, p, now) && s.locks[p].owner == r then s.locks - {p} else s.locks,
       leases := s.leases - {r},
       workloadLeases := s.workloadLeases[w := LeasesOf(s, w) - {r}])
  }

  function Cancel(cfg: Config, s: Store, r: Request, w: Workload, now: int): Store {
    SetRoom(s, w, Without(RoomOf(cfg, s, w, now), {r}))
  }

  lemma ScanStep(cfg: Config, s: Store, room: Room, candidates: seq<Request>, k: nat, now: int)
    requires k < |candidates|
    ensures var m := candidates[k];
            if Eligible(cfg, s, room, m, now) then
              && Selected(cfg, s, room, candidates[k..], now) == Some(m)
              && Swept(cfg, s, room, candidates[k..], now) == {}
            else
              && Selected(cfg, s, room, candidates[k..], now) == Selected(cfg, s, room, candidates[k + 1..], now)
              && Swept(cfg, s, room, candidates[k..], now) ==
                 (if Stale(room, m, now) then {m} else {}) + Swept(cfg, s, room, candidates[k + 1..], now)
  {
    assert candidates[k..][1..] == candidates[k + 1..];
  }

  lemma ScanEnd(cfg: Config, s: Store, room: Room, candidates: seq<Request>, now: int)
    ensures Selected(cfg, s, room, candidates[|candidates|..], now) == None
    ensures Swept(cfg, s, room, candidates[|candidates|..], now) == {}
  {
    assert candidates[|candidates|..] == [];
  }

  // ------------------------------------------------------- the queue in place

  class Queue {
    const cfg: Config
    var rooms: map<Workload, Room>
    var leases: map<Request, int>
    var workloadLeases: map<Workload, map<Request, int>>
    var locks: map<Principal, Lock>

    function View(): Store
      reads this
    {
      Store(rooms, leases, workloadLeases, locks)
    }

    constructor (cfg: Config)
      requires cfg.lag >= 0
      ensures this.cfg == NewQueue(cfg) && View() == EMPTY_STORE
    {
      this.cfg := NewQueue(cfg);
      rooms, leases, workloadLeases, locks := map[], map[], map[], map[];
    }

    /** The pipeline of Acquire. */
    method Add(r: Request, p: Principal, w: Workload, priority: int, now: int) returns (ok: bool)
      modifies this
      ensures ok == (r != "" && p != "")
      ensures View() == if ok then Enqueue(cfg, old(View()), r, p, w, priority, now) else old(View())
    {
      if r == "" || p == "" { return false; }
      var level := priority;
      if level < 0 { level := 0; }
      if level > 9 { level := 9; }
      var score := (9 - level) * 10_000_000_000_000 + now;
      var room := RoomOf(cfg, View(), w, now);
      room := room.(scores := room.scores[r := score]);
      room := room.(principals := room.principals[r := p]);
      room := room.(expiries := room.expiries[r := now + cfg.maxWait]);
      rooms := rooms[w := room.(deadline := now + cfg.maxWait + 60000)];
      return true;
    }

    /** The candidate loop of the tryAcquire script. */
    method Scan(room: Room, candidates: seq<Request>, now: int) returns (selected: Option<Request>, remaining: Room)
      ensures selected == Selected(cfg, View(), room, candidates, now)
      ensures remaining == Without(room, Swept(cfg, View(), room, candidates, now))
    {
      hide Selected, Swept, Busy, Stale;
      ghost var s := View();
      selected, remaining := None, room;
      ghost var gone: set<Request> := {};
      for k := 0 to |candidates|
        invariant selected == None && remaining == Without(room, gone)
        invariant gone + Swept(cfg, s, room, candidates[k..], now) == Swept(cfg, s, room, candidates, now)
        invariant Selected(cfg, s, room, candidates[k..], now) == Selected(cfg, s, room, candidates, now)
      {
        var m := candidates[k];
        ScanStep(cfg, s, room, candidates, k, now);
        if Stale(room, m, now) {
          remaining := Room(remaining.scores - {m}, remaining.principals - {m}, remaining.expiries - {m},
                            remaining.deadline);
          gone := gone + {m};
        } else if m in room.principals && !Busy(cfg, View(), room.principals[m], now) {
          selected := Some(m);
          return;
        }
      }
      ScanEnd(cfg, s, room, candidates, now);
    }

    method DropLapsed(w: Workload, now: int)
      modifies this
      ensures View() == Purge(old(View()), w, now)
    {
      hide Unlapsed;
      leases := Unlapsed(leases, now);
      workloadLeases := workloadLeases[w := Unlapsed(LeasesOf(View(), w), now)];
    }

    /** The three writes that grant or renew a lease. */
    method PutLease(r: Request, p: Principal, w: Workload, until: int)
      modifies this
      ensures View() == Install(old(View()), r, p, w, until)
    {
      locks := locks[p := Lock(r, until)];
      leases := leases[r := until];
      workloadLeases := workloadLeases[w := LeasesOf(View(), w)[r := until]];
    }

    /** The tryAcquire script. */
    method Poll(r: Request, p: Principal, w: Workload, now: int) returns (granted: bool)
      modifies this
      ensures (View(), granted) == TryAcquire(cfg, old(View()), r, p, w, now)
    {
      hide Candidates, Selected, Swept, Purge, Install, WorkloadLimit, RoomOf, Busy, Stale, Without;
      DropLapsed(w, now);
      if |leases| >= cfg.globalLimit || |LeasesOf(View(), w)| >= WorkloadLimit(cfg, w) { return false; }
      var room := RoomOf(cfg, View(), w, now);
      var selected, remaining := Scan(room, Candidates(room), now);
      rooms := rooms[w := remaining];
      if selected != Some(r) { return false; }
      if Busy(cfg, View(), p, now) { return false; }
      rooms := rooms[w := Without(RoomOf(cfg, View(), w, now), {r})];
      PutLease(r, p, w, now + cfg.leaseTtl);
      return true;
    }

    method Extend(r: Request, p: Principal, w: Workload, now: int)
      modifies this
      ensures View() == Renew(cfg, old(View()), r, p, w, now)
    {
      hide Install;
      if !Busy(cfg, View(), p, now) || locks[p].owner != r { return; }
      PutLease(r, p, w, now + cfg.leaseTtl);
    }

    method Free(r: Request, p: Principal, w: Workload, now: int)
      modifies this
      ensures View() == Release(cfg, old(View()), r, p, w, now)
    {
      if Busy(cfg, View(), p, now) && locks[p].owner == r {
        locks := locks - {p};
      }
      leases := leases - {r};
      workloadLeases := workloadLeases[w := LeasesOf(View(), w) - {r}];
    }

    method Drop(r: Request, w: Workload, now: int)
      modifies this
      ensures View() == Cancel(cfg, old(View()), r, w, now)
    {
      rooms := rooms[w := Without(RoomOf(cfg, View(), w, now), {r})];
    }
  }
}
