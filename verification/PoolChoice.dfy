/** Picking a model from the free pool (cmd/api/model_pool.go): scores, daily pacing and the weighted pick.

  The pick walks the cumulative weights of the usable models to an offset that a shared counter is hashed
  to; over a full cycle of the counter every model gets its share, to within rounding.

  Floating-point values are reals.  What the store and Redis say of a model (its health, today's use,
  whether its circuit is open) is read once and part of the model here; so is how far the provider's day has run.
 */
module PoolChoice {
  import opened Numbers
  import opened StringOrder
  import opened Wrappers
  import Text

  datatype Health = Health(successes: nat, failures: nat, latencyMs: int)

  datatype PoolModel = PoolModel(name: string, quality: int, weight: int, circuitOpen: bool, health: Health,
                                 used: nat, capacity: int, allowance: int)

  /** The source never fills in a candidate's priority. */
  datatype Candidate = Candidate(model: PoolModel, score: real, weight: int, overPaced: bool, priority: int)

  // ------------------------------------------------------------ daily pacing

  function DailyCapacity(limit: int): int {
    if limit <= 0 then 0 else Max(1, limit * 9 / 10)
  }

  function Ceil(x: real): int { -((-x).Floor) }

  /** How much of the day's capacity may be used when the day has progressed that far. */
  function DailyPacedAllowance(limit: int, progress: real): int {
    var capacity := DailyCapacity(limit);
    if capacity <= 0 then 0
    else
      var burst := Max(1, Min(3, capacity / 5));
      Min(capacity, Max(burst, Ceil(capacity as real * progress) + burst))
  }

  /** The allowance starts positive, never shrinks through the day, and has released the whole capacity by
      its end but never more. */
  lemma AllowanceOpensUp(limit: int, p: real, q: real)
    requires limit > 0 && 0.0 <= p <= q <= 1.0
    ensures 1 <= DailyPacedAllowance(limit, p) <= DailyPacedAllowance(limit, q) <= DailyCapacity(limit) <= limit
    ensures DailyPacedAllowance(limit, 1.0) == DailyCapacity(limit)
  {
    hide DailyPacedAllowance, DailyCapacity, Ceil;
    CapacityRange(limit);
    var capacity := DailyCapacity(limit);
    var c := capacity as real;
    var burst := Max(1, Min(3, capacity / 5));
    ScaledIsMonotone(c, p, q);
    CeilIsMonotone(c * p, c * q);
    CeilOfWhole(capacity);
    AllowanceIs(limit, p, c * p);
    AllowanceIs(limit, q, c * q);
    AllowanceIs(limit, 1.0, c);
    AllowanceArithmetic(capacity, burst, Ceil(c * p), Ceil(c * q));
  }

  lemma CapacityRange(limit: int)
    requires limit > 0
    ensures 1 <= DailyCapacity(limit) <= limit
  {
  }

  lemma AllowanceIs(limit: int, progress: real, scaled: real)
    requires DailyCapacity(limit) > 0 && scaled == DailyCapacity(limit) as real * progress
    ensures var burst := Max(1, Min(3, DailyCapacity(limit) / 5));
            DailyPacedAllowance(limit, progress) == Min(DailyCapacity(limit), Max(burst, Ceil(scaled) + burst))
  {
    hide DailyCapacity, Ceil;
  }

  lemma CeilOfWhole(n: int)
    ensures Ceil(n as real) == n
  {
  }

  lemma AllowanceArithmetic(capacity: int, burst: int, x: int, y: int)
    requires capacity >= 1 && burst >= 1 && x <= y
    ensures 1 <= Min(capacity, Max(burst, x + burst)) <= Min(capacity, Max(burst, y + burst)) <= capacity
    ensures Min(capacity, Max(burst, capacity + burst)) == capacity
  {
  }

  lemma ScaledIsMonotone(c: real, p: real, q: real)
    requires c >= 0.0 && p <= q
    ensures c * p <= c * q
  {
    assert c * q == c * p + c * (q - p);
  }

  lemma CeilIsMonotone(x: real, y: real)
    requires x <= y
    ensures Ceil(x) <= Ceil(y)
  {
  }

  /** One attempt: the counter afterwards, and whether it was admitted. */
  function AdmitDaily(used: nat, limit: int): (nat, bool) {
    if limit <= 0 then (used, true)
    else if used >= DailyCapacity(limit) then (used, false)
    else (used + 1, true)
  }

  /** Today's counter of one model; the source gives each Pacific day its own key. */
  class DailyCounter {
    var used: nat

    constructor ()
      ensures used == 0
    {
      used := 0;
    }

    method TryModelDailyAdmission(limit: int) returns (admitted: bool, seen: nat, capacity: int)
      modifies this
      ensures (used, admitted) == AdmitDaily(old(used), limit)
      ensures seen == (if limit <= 0 then 0 else used) && capacity == DailyCapacity(limit)
    {
      capacity := DailyCapacity(limit);
      if limit <= 0 { return true, 0, capacity; }
      if used >= capacity { return false, used, capacity; }
      used := used + 1;
      return true, used, capacity;
    }
  }

  /** The counter after a day's attempts, and how many of them were admitted. */
  function Day(limit: int, attempts: nat): (nat, nat) {
    if attempts == 0 then (0, 0)
    else
      var (used, count) := Day(limit, attempts - 1);
      var (used', admitted) := AdmitDaily(used, limit);
      (used', if admitted then count + 1 else count)
  }

  /** A day admits every attempt up to the capacity and none beyond it. */
  lemma {:induction false} DayAdmitsCapacity(limit: int, attempts: nat)
    ensures Day(limit, attempts).1 == if limit <= 0 then attempts else Min(attempts, Max(1, limit * 9 / 10))
    ensures limit > 0 ==> Day(limit, attempts).0 == Day(limit, attempts).1
  {
    if attempts > 0 { DayAdmitsCapacity(limit, attempts - 1); }
  }

  // ----------------------------------------------------------------- scoring

  function Clamp(x: real, lo: real, hi: real): real {
    if x < lo then lo else if x > hi then hi else x
  }

  /** Models without a quality or weight of their own get the defaults. */
  function Quality(m: PoolModel): (q: int)
    ensures q > 0
  {
    if m.quality <= 0 then 50 else m.quality
  }

  function BaseWeight(m: PoolModel): (w: int)
    ensures w > 0
  {
    if m.weight <= 0 then 100 else m.weight
  }

  function BaseScore(m: PoolModel): real {
    BaseWeight(m) as real * (0.55 + Quality(m) as real / 100.0)
  }

  /** The latency factor of an average latency. */
  function LatencyFactor(latency: real): real {
    if latency > 0.0 then Clamp(5000.0 / latency, 0.35, 1.25) else 1.0
  }

  function HealthFactor(h: Health): real {
    var total := h.successes + h.failures;
    if total == 0 then 1.0
    else
      var rate := (h.successes + 1) as real / (total + 2) as real;
      var latency := h.latencyMs as real / total as real;
      (0.25 + 0.75 * rate) * LatencyFactor(latency)
  }

  predicate DailyFull(m: PoolModel) { m.capacity > 0 && m.used >= m.capacity }

  predicate OverPaced(m: PoolModel) {
    m.capacity > 0 && (m.used >= m.capacity || (m.allowance > 0 && m.used >= m.allowance))
  }

  function Score(m: PoolModel): real {
    if DailyFull(m) then 0.0
    else
      var score := BaseScore(m) * HealthFactor(m.health);
      if m.capacity <= 0 then score
      else
        var paced := score * (0.55 + 0.45 * ((m.capacity - m.used) as real / m.capacity as real));
        if OverPaced(m) then paced * 0.05 else paced
  }

  lemma ProductIsPositive(a: real, b: real)
    requires a > 0.0 && b > 0.0
    ensures a * b > 0.0
  {
  }

  lemma HealthFactorIsPositive(h: Health)
    ensures HealthFactor(h) > 0.0
  {
    var total := h.successes + h.failures;
    if total > 0 {
      var rate := (h.successes + 1) as real / (total + 2) as real;
      var latency := h.latencyMs as real / total as real;
      assert rate > 0.0;
      ProductIsPositive(0.25 + 0.75 * rate, LatencyFactor(latency));
    }
  }

  lemma RatioIsPositive(a: int, b: int)
    requires a > 0 && b > 0
    ensures a as real / b as real > 0.0
  {
  }

  function DailyFactor(m: PoolModel): real {
    if m.capacity <= 0 then 1.0
    else (0.55 + 0.45 * ((m.capacity - m.used) as real / m.capacity as real)) * (if OverPaced(m) then 0.05 else 1.0)
  }

  lemma ScoreFactors(m: PoolModel)
    requires !DailyFull(m)
    ensures Score(m) == BaseScore(m) * HealthFactor(m.health) * DailyFactor(m)
  {
    hide BaseScore, HealthFactor;
    var score := BaseScore(m) * HealthFactor(m.health);
    if m.capacity > 0 {
      var daily := 0.55 + 0.45 * ((m.capacity - m.used) as real / m.capacity as real);
      assert score * daily * 0.05 == score * (daily * 0.05);
    }
  }

  lemma FactorsArePositive(m: PoolModel)
    requires !DailyFull(m)
    ensures BaseScore(m) > 0.0 && DailyFactor(m) > 0.0
  {
    if m.capacity > 0 { RatioIsPositive(m.capacity - m.used, m.capacity); }
  }

  /** No weight, quality, health or pacing takes a model out of the pool: only a full day does. */
  lemma ScoreIsPositiveIff(m: PoolModel)
    ensures Score(m) > 0.0 <==> !DailyFull(m)
  {
    hide BaseScore, HealthFactor, DailyFactor, Score, OverPaced;
    FullScoresNothing(m);
    if !DailyFull(m) {
      FactorsArePositive(m);
      HealthFactorIsPositive(m.health);
      ScoreFactors(m);
      ProductIsPositive(BaseScore(m), HealthFactor(m.health));
      ProductIsPositive(BaseScore(m) * HealthFactor(m.health), DailyFactor(m));
    }
  }

  lemma FullScoresNothing(m: PoolModel)
    ensures DailyFull(m) ==> Score(m) == 0.0
  {
  }

  lemma ProductIsMonotone(a: real, b: real, a': real, b': real)
    requires 0.0 <= a <= a' && 0.0 <= b <= b'
    ensures 0.0 <= a * b <= a' * b'
  {
    ScaledIsMonotone(a, b, b');
    ScaledIsMonotone(b', a, a');
    assert a' * b' == b' * a' && a * b' == b' * a;
    ScaledIsMonotone(a, 0.0, b);
  }

  lemma QuotientIsMonotone(a: real, b: real, a': real, b': real)
    requires 0.0 <= a && b > 0.0 && b' > 0.0 && a * b' <= a' * b
    ensures a / b <= a' / b'
  {
    var q, q' := a / b, a' / b';
    assert a == q * b && a' == q' * b';
    assert q * (b * b') <= q' * (b * b');
    if q > q' { ProductIsPositive(b, b'); ProductIsPositive(q - q', b * b'); }
  }

  /** One record is at least as good as another: both empty, or more successes, fewer failures and no longer
      an average latency, measured for both or for neither. */
  predicate RecordAtLeastAsGood(better: Health, h: Health) {
    var t, t' := h.successes + h.failures, better.successes + better.failures;
    if t == 0 || t' == 0 then t == t'
    else
      && h.successes <= better.successes && better.failures <= h.failures
      && if h.latencyMs <= 0 || better.latencyMs <= 0 then h.latencyMs <= 0 && better.latencyMs <= 0
         else better.latencyMs * t <= h.latencyMs * t'
  }

  /** One model is at least as good as another: weight, quality, record, latency and use. */
  predicate AtLeastAsGood(better: PoolModel, m: PoolModel) {
    && Quality(m) <= Quality(better) && BaseWeight(m) <= BaseWeight(better)
    && RecordAtLeastAsGood(better.health, m.health)
    && better.used <= m.used && better.capacity == m.capacity && better.allowance == m.allowance
  }

  lemma BaseIsMonotone(m: PoolModel, better: PoolModel)
    requires AtLeastAsGood(better, m)
    ensures 0.0 <= BaseScore(m) <= BaseScore(better)
  {
    hide Quality, BaseWeight, RecordAtLeastAsGood;
    var a, a' := BaseWeight(m) as real, BaseWeight(better) as real;
    var b, b' := 0.55 + Quality(m) as real / 100.0, 0.55 + Quality(better) as real / 100.0;
    ProductIsMonotone(a, b, a', b');
  }

  lemma RateIsMonotone(s: nat, f: nat, s': nat, f': nat)
    requires s <= s' && f' <= f
    ensures 0.0 <= (s + 1) as real / (s + f + 2) as real <= (s' + 1) as real / (s' + f' + 2) as real
  {
    var a, b, a', b' := (s + 1) as real, (s + f + 2) as real, (s' + 1) as real, (s' + f' + 2) as real;
    ProductIsMonotone(a, b' - a', a', b - a);
    assert a * b' == a * a' + a * (b' - a') && a' * b == a' * a + a' * (b - a);
    QuotientIsMonotone(a, b, a', b');
  }

  lemma LatencyIsAntitone(latency: real, latency': real)
    requires 0.0 < latency' <= latency
    ensures 0.0 <= LatencyFactor(latency) <= LatencyFactor(latency')
  {
    ScaledIsMonotone(5000.0, latency', latency);
    QuotientIsMonotone(5000.0, latency, 5000.0, latency');
  }

  lemma MeasuredIsMonotone(l: int, t: int, l': int, t': int)
    requires t > 0 && t' > 0 && (if l <= 0 || l' <= 0 then l <= 0 && l' <= 0 else l' * t <= l * t')
    ensures 0.0 <= LatencyFactor(l as real / t as real) <= LatencyFactor(l' as real / t' as real)
  {
    if l > 0 {
      QuotientIsMonotone(l' as real, t' as real, l as real, t as real);
      RatioIsPositive(l', t');
      LatencyIsAntitone(l as real / t as real, l' as real / t' as real);
    } else {
      NotPositiveRatio(l, t);
      NotPositiveRatio(l', t');
    }
  }

  lemma NotPositiveRatio(a: int, b: int)
    requires a <= 0 && b > 0
    ensures a as real / b as real <= 0.0
  {
  }

  lemma HealthIsMonotone(h: Health, better: Health)
    requires RecordAtLeastAsGood(better, h)
    ensures 0.0 <= HealthFactor(h) <= HealthFactor(better)
  {
    hide LatencyFactor, Clamp;
    var t, t' := h.successes + h.failures, better.successes + better.failures;
    if t > 0 {
      RateIsMonotone(h.successes, h.failures, better.successes, better.failures);
      MeasuredIsMonotone(h.latencyMs, t, better.latencyMs, t');
      ProductIsMonotone(0.25 + 0.75 * ((h.successes + 1) as real / (t + 2) as real),
                        LatencyFactor(h.latencyMs as real / t as real),
                        0.25 + 0.75 * ((better.successes + 1) as real / (t' + 2) as real),
                        LatencyFactor(better.latencyMs as real / t' as real));
    }
  }

  lemma DailyIsMonotone(m: PoolModel, better: PoolModel)
    requires AtLeastAsGood(better, m) && !DailyFull(m)
    ensures 0.0 <= DailyFactor(m) <= DailyFactor(better)
  {
    if m.capacity > 0 {
      var c := m.capacity as real;
      var a, a' := (m.capacity - m.used) as real, (m.capacity - better.used) as real;
      ScaledIsMonotone(c, a, a');
      QuotientIsMonotone(a, c, a', c);
      QuotientIsMonotone(0.0, c, a, c);
      ProductIsMonotone(0.55 + 0.45 * (a / c), if OverPaced(m) then 0.05 else 1.0,
                        0.55 + 0.45 * (a' / c), if OverPaced(better) then 0.05 else 1.0);
    }
  }

  /** A model that is at least as good never scores or weighs less. */
  lemma BetterModelsScoreMore(m: PoolModel, better: PoolModel)
    requires AtLeastAsGood(better, m)
    ensures Score(m) <= Score(better)
    ensures Scored(m).weight <= Scored(better).weight
  {
    ScoreIsPositiveIff(better);
    hide BaseScore, HealthFactor, DailyFactor, Score;
    if DailyFull(m) {
      FullScoresNothing(m);
      FullScoresNothing(better);
    } else {
      BaseIsMonotone(m, better);
      HealthIsMonotone(m.health, better.health);
      DailyIsMonotone(m, better);
      ProductIsMonotone(BaseScore(m), HealthFactor(m.health), BaseScore(better), HealthFactor(better.health));
      ProductIsMonotone(BaseScore(m) * HealthFactor(m.health), DailyFactor(m),
                        BaseScore(better) * HealthFactor(better.health), DailyFactor(better));
      ScoreFactors(m);
      ScoreFactors(better);
    }
  }

  // ----------------------------------------------------------------- ranking

  predicate Before(a: Candidate, b: Candidate) {
    if a.score == b.score then LexLess(a.model.name, b.model.name) else a.score > b.score
  }

  function Insert(c: Candidate, ranked: seq<Candidate>): seq<Candidate> {
    if ranked == [] then [c]
    else if Before(c, ranked[0]) then [c] + ranked
    else [ranked[0]] + Insert(c, ranked[1..])
  }

  /** sort.SliceStable. */
  function Ranked(cs: seq<Candidate>): seq<Candidate> {
    if cs == [] then [] else Insert(cs[|cs| - 1], Ranked(cs[..|cs| - 1]))
  }

  ghost predicate InRank(cs: seq<Candidate>) {
    forall i, j | 0 <= i < j < |cs| :: !Before(cs[j], cs[i])
  }

  lemma NotBeforeIsTransitive(a: Candidate, b: Candidate, c: Candidate)
    requires !Before(b, a) && !Before(c, b)
    ensures !Before(c, a)
  {
    if a.score == b.score == c.score { LexNotLessTransitive(a.model.name, b.model.name, c.model.name); }
  }

  lemma {:induction false} InsertKeeps(c: Candidate, ranked: seq<Candidate>)
    ensures multiset(Insert(c, ranked)) == multiset(ranked) + multiset{c}
  {
    if ranked != [] && !Before(c, ranked[0]) {
      InsertKeeps(c, ranked[1..]);
      assert ranked == [ranked[0]] + ranked[1..];
    }
  }

  lemma {:induction false} InsertRanks(c: Candidate, ranked: seq<Candidate>)
    requires InRank(ranked)
    ensures InRank(Insert(c, ranked))
  {
    if ranked == [] {
    } else if Before(c, ranked[0]) {
      if c.score == ranked[0].score { LexTotal(c.model.name, ranked[0].model.name); }
      forall j | 0 <= j < |ranked| ensures !Before(ranked[j], c) {
        if j > 0 { NotBeforeIsTransitive(c, ranked[0], ranked[j]); }
      }
    } else {
      var rest := Insert(c, ranked[1..]);
      InsertRanks(c, ranked[1..]);
      InsertKeeps(c, ranked[1..]);
      forall j | 0 <= j < |rest| ensures !Before(rest[j], ranked[0]) {
        assert rest[j] in multiset(rest);
        if rest[j] != c { assert rest[j] in ranked[1..]; }
      }
    }
  }

  /** Ranking keeps exactly the candidates and puts the best first. */
  lemma {:induction false} RankedIsASort(cs: seq<Candidate>)
    ensures multiset(Ranked(cs)) == multiset(cs) && InRank(Ranked(cs)) && |Ranked(cs)| == |cs|
  {
    if cs != [] {
      var n := |cs| - 1;
      RankedIsASort(cs[..n]);
      InsertKeeps(cs[n], Ranked(cs[..n]));
      InsertRanks(cs[n], Ranked(cs[..n]));
      assert cs == cs[..n] + [cs[n]];
    }
    assert |multiset(Ranked(cs))| == |multiset(cs)|;
  }

  // --------------------------------------------------------------- the weights

  const MOST := 100000

  function Weight(c: Candidate): int { Min(c.weight, MOST) }

  function WeightBefore(cs: seq<Candidate>, n: nat): int
    requires n <= |cs|
  {
    if n == 0 then 0 else WeightBefore(cs, n - 1) + Weight(cs[n - 1])
  }

  function Total(cs: seq<Candidate>): int { WeightBefore(cs, |cs|) }

  ghost predicate Weighted(cs: seq<Candidate>) {
    forall i | 0 <= i < |cs| :: cs[i].weight >= 1
  }

  predicate LandsOn(cs: seq<Candidate>, pick: int, i: int) {
    0 <= i < |cs| && WeightBefore(cs, i) <= pick < WeightBefore(cs, i + 1)
  }

  lemma {:induction false} WeightsGrow(cs: seq<Candidate>, i: nat, j: nat)
    requires Weighted(cs) && i < j <= |cs|
    ensures WeightBefore(cs, i) + Weight(cs[i]) <= WeightBefore(cs, j)
    decreases j
  {
    if i < j - 1 { WeightsGrow(cs, i, j - 1); }
  }

  /** The bands of the candidates tile the range of offsets. */
  lemma {:induction false} LandsExactlyOnce(cs: seq<Candidate>, n: nat, pick: int) returns (i: int)
    requires Weighted(cs) && n <= |cs| && 0 <= pick < WeightBefore(cs, n)
    ensures i < n && LandsOn(cs, pick, i)
    ensures forall j :: LandsOn(cs, pick, j) ==> j == i
  {
    if pick >= WeightBefore(cs, n - 1) {
      i := n - 1;
    } else {
      i := LandsExactlyOnce(cs, n - 1, pick);
    }
    forall j | LandsOn(cs, pick, j) ensures j == i {
      if j < i { WeightsGrow(cs, j, i); } else if i < j { WeightsGrow(cs, i, j); }
    }
  }

  /** The walk over the cumulative weights. */
  method Walk(cs: seq<Candidate>, offset: int) returns (i: int)
    requires Weighted(cs) && 0 <= offset < Total(cs)
    ensures LandsOn(cs, offset, i)
  {
    var pick := offset;
    i := 0;
    while i < |cs|
      invariant 0 <= i <= |cs|
      invariant pick == offset - WeightBefore(cs, i) >= 0
    {
      if pick < Weight(cs[i]) { return; }
      pick := pick - Weight(cs[i]);
      i := i + 1;
    }
    assert false;
  }

  // --------------------------------------------------------------- the selection

  const WORD := 0x1_0000_0000_0000_0000
  const MULTIPLIER := 11400714819323198485

  /** The counter is reinterpreted as unsigned and multiplied with wrap-around. */
  function WeightedPoolOffset(counter: int, total: int): int {
    if total <= 0 then 0 else ((counter % WORD * MULTIPLIER) % WORD) % total
  }

  function RoundHalfUp(x: real): int { (x + 0.5).Floor }

  predicate Eligible(m: PoolModel, excluded: set<string>) {
    var name := Text.TrimSpace(m.name);
    name != "" && name !in excluded && !m.circuitOpen && Score(m) > 0.0
  }

  function Scored(m: PoolModel): (c: Candidate)
    ensures c.weight >= 1 && c.priority == 0
  {
    Candidate(m, Score(m), Max(1, RoundHalfUp(Score(m) * 10.0)), OverPaced(m), 0)
  }

  function Candidates(models: seq<PoolModel>, excluded: set<string>): seq<Candidate> {
    if models == [] then []
    else
      var m := models[|models| - 1];
      Candidates(models[..|models| - 1], excluded) + (if Eligible(m, excluded) then [Scored(m)] else [])
  }

  function WithPriority(cs: seq<Candidate>, priority: int): seq<Candidate> {
    if cs == [] then []
    else
      var c := cs[|cs| - 1];
      WithPriority(cs[..|cs| - 1], priority) + (if c.priority == priority then [c] else [])
  }

  function Paced(cs: seq<Candidate>): seq<Candidate> {
    if cs == [] then []
    else
      var c := cs[|cs| - 1];
      Paced(cs[..|cs| - 1]) + (if !c.overPaced then [c] else [])
  }

  /** The candidates the pick is made from, best first. */
  function Field(models: seq<PoolModel>, excluded: set<string>): seq<Candidate> {
    var cs := Candidates(models, excluded);
    Ranked(if Paced(cs) != [] then Paced(cs) else cs)
  }

  lemma {:induction false} CandidatesAreBlank(models: seq<PoolModel>, excluded: set<string>)
    ensures forall i | 0 <= i < |Candidates(models, excluded)| ::
              Candidates(models, excluded)[i].priority == 0 && Candidates(models, excluded)[i].weight >= 1
  {
    hide Eligible, Scored;
    if models != [] { CandidatesAreBlank(models[..|models| - 1], excluded); }
  }

  lemma {:induction false} CandidatesAre(models: seq<PoolModel>, excluded: set<string>)
    ensures forall c :: c in Candidates(models, excluded) <==>
            exists i :: 0 <= i < |models| && Eligible(models[i], excluded) && c == Scored(models[i])
  {
    hide Eligible, Scored;
    if models != [] {
      var n := |models| - 1;
      CandidatesAre(models[..n], excluded);
      var before, all := Candidates(models[..n], excluded), Candidates(models, excluded);
      forall c
        ensures c in all <==> exists i :: 0 <= i < |models| && Eligible(models[i], excluded) && c == Scored(models[i])
      {
        assert c in all <==> c in before || (Eligible(models[n], excluded) && c == Scored(models[n]));
        if i :| 0 <= i < n && Eligible(models[..n][i], excluded) && c == Scored(models[..n][i]) {
          assert models[i] == models[..n][i];
        }
      }
    }
  }

  lemma {:induction false} PacedAre(cs: seq<Candidate>)
    ensures forall c :: c in Paced(cs) <==> c in cs && !c.overPaced
  {
    if cs != [] {
      PacedAre(cs[..|cs| - 1]);
      assert cs == cs[..|cs| - 1] + [cs[|cs| - 1]];
    }
  }

  /** Since no candidate ever gets a priority, filtering by the best one keeps them all. */
  lemma {:induction false} PriorityKeepsAll(cs: seq<Candidate>, priority: int)
    requires forall i | 0 <= i < |cs| :: cs[i].priority == priority
    ensures WithPriority(cs, priority) == cs
  {
    if cs != [] { PriorityKeepsAll(cs[..|cs| - 1], priority); }
  }

  lemma FieldIs(models: seq<PoolModel>, excluded: set<string>)
    ensures multiset(Field(models, excluded)) ==
            multiset(if Paced(Candidates(models, excluded)) != [] then Paced(Candidates(models, excluded))
                     else Candidates(models, excluded))
    ensures InRank(Field(models, excluded)) && Weighted(Field(models, excluded))
    ensures Field(models, excluded) != [] <==> Candidates(models, excluded) != []
  {
    var cs := Candidates(models, excluded);
    CandidatesAreBlank(models, excluded);
    PacedAre(cs);
    var chosen := if Paced(cs) != [] then Paced(cs) else cs;
    RankedIsASort(chosen);
    hide Candidates, Paced, Ranked, InRank;
    forall i | 0 <= i < |Field(models, excluded)| ensures Field(models, excluded)[i].weight >= 1 {
      var c := Field(models, excluded)[i];
      assert c in multiset(chosen);
      assert c in cs;
    }
  }

  datatype Selection = Nothing | Picked(candidate: Candidate, count: nat)

  method ScoreCandidates(models: seq<PoolModel>, excluded: set<string>) returns (cs: seq<Candidate>)
    ensures cs == Candidates(models, excluded)
  {
    hide Score, Text.TrimSpace, OverPaced;
    cs := [];
    for i := 0 to |models|
      invariant cs == Candidates(models[..i], excluded)
    {
      assert models[..i + 1][..i] == models[..i];
      var m := models[i];
      var name := Text.TrimSpace(m.name);
      if name == "" || name in excluded || m.circuitOpen { continue; }
      if Score(m) <= 0.0 { continue; }
      cs := cs + [Scored(m)];
    }
    assert models[..|models|] == models;
  }

  /** counter is the value of the route's shared counter, if it could be incremented. */
  method SelectFreePoolModel(models: seq<PoolModel>, excluded: set<string>, counter: Option<int>) returns (s: Selection)
    ensures var field := Field(models, excluded);
      match s
      case Nothing => field == []
      case Picked(c, count) =>
        && count == |field| > 0
        && if counter.None? || count == 1 then c == field[0]
           else exists i :: LandsOn(field, WeightedPoolOffset(counter.value, Total(field)), i) && c == field[i]
  {
    hide Candidates, Eligible, Scored, WeightedPoolOffset, LandsOn, Weighted, InRank, Paced, Ranked;
    var cs := ScoreCandidates(models, excluded);
    CandidatesAreBlank(models, excluded);
    FieldIs(models, excluded);
    if |cs| > 0 {
      cs := KeepBestPriority(cs);
    }
    var hasPaced := HasPaced(cs);
    if hasPaced {
      cs := KeepPaced(cs);
    }
    if |cs| == 0 { return Nothing; }
    cs := Ranked(cs);
    assert cs == Field(models, excluded);
    var chosen := 0;
    if counter.Some? && |cs| > 1 {
      var total := TotalWeight(cs);
      OffsetInRange(counter.value, total);
      chosen := Walk(cs, WeightedPoolOffset(counter.value, total));
    }
    assert |cs| > 1 || chosen == 0;
    LandsInside(cs, chosen);
    return Picked(cs[chosen], |cs|);
  }

  lemma LandsInside(cs: seq<Candidate>, i: int)
    ensures forall pick :: LandsOn(cs, pick, i) ==> 0 <= i < |cs|
  {
  }

  lemma OffsetInRange(counter: int, total: int)
    requires total > 0
    ensures 0 <= WeightedPoolOffset(counter, total) < total
  {
  }

  method KeepBestPriority(cs: seq<Candidate>) returns (kept: seq<Candidate>)
    requires cs != [] && forall i | 0 <= i < |cs| :: cs[i].priority == 0
    ensures kept == cs
  {
    var best := cs[0].priority;
    for i := 1 to |cs|
      invariant best == 0
    {
      if cs[i].priority < best { best := cs[i].priority; }
    }
    kept := [];
    for i := 0 to |cs|
      invariant kept == WithPriority(cs[..i], best)
    {
      assert cs[..i + 1][..i] == cs[..i];
      if cs[i].priority == best { kept := kept + [cs[i]]; }
    }
    assert cs[..|cs|] == cs;
    PriorityKeepsAll(cs, best);
  }

  method HasPaced(cs: seq<Candidate>) returns (found: bool)
    ensures found <==> Paced(cs) != []
  {
    PacedAre(cs);
    assert Paced(cs) == [] || (Paced(cs)[0] in Paced(cs) && Paced(cs)[0] in cs && !Paced(cs)[0].overPaced);
    found := false;
    for i := 0 to |cs|
      invariant !found && forall j | 0 <= j < i :: cs[j].overPaced
    {
      if !cs[i].overPaced {
        assert cs[i] in Paced(cs);
        return true;
      }
    }
  }

  method KeepPaced(cs: seq<Candidate>) returns (kept: seq<Candidate>)
    ensures kept == Paced(cs)
  {
    kept := [];
    for i := 0 to |cs|
      invariant kept == Paced(cs[..i])
    {
      assert cs[..i + 1][..i] == cs[..i];
      if !cs[i].overPaced { kept := kept + [cs[i]]; }
    }
    assert cs[..|cs|] == cs;
  }

  method TotalWeight(cs: seq<Candidate>) returns (total: int)
    requires Weighted(cs) && cs != []
    ensures total == Total(cs) > 0
  {
    total := 0;
    for i := 0 to |cs|
      invariant total == WeightBefore(cs, i) && total >= i
    {
      total := total + Min(cs[i].weight, MOST);
    }
  }

  /** Whatever the counter: a candidate of the field is a model that is not excluded, not cut off and not out
      for the day, and it is ahead of its daily pace only if every usable model is; the field is empty only if
      no model is usable; and its first candidate has the best score. */
  lemma FieldIsUsable(models: seq<PoolModel>, excluded: set<string>)
    ensures forall i | 0 <= i < |Field(models, excluded)| ::
      var c := Field(models, excluded)[i];
      && c.model in models && c.score == Score(c.model) <= Field(models, excluded)[0].score
      && Text.TrimSpace(c.model.name) !in excluded + {""} && !c.model.circuitOpen && !DailyFull(c.model)
      && (OverPaced(c.model) ==> forall m | m in models && Usable(m, excluded) :: OverPaced(m))
    ensures Field(models, excluded) == [] <==> forall m | m in models :: !Usable(m, excluded)
  {
    var cs, field := Candidates(models, excluded), Field(models, excluded);
    CandidatesAre(models, excluded);
    PacedAre(cs);
    FieldIs(models, excluded);
    forall m | m in models ensures Usable(m, excluded) <==> Scored(m) in cs && Eligible(m, excluded)
    {
      UsableIsEligible(models, m, excluded);
    }
    hide Candidates, Paced, Ranked, Field, Score, DailyFull;
    forall i | 0 <= i < |field|
      ensures var c := field[i];
        && c.model in models && c.score == Score(c.model) <= field[0].score
        && Text.TrimSpace(c.model.name) !in excluded + {""} && !c.model.circuitOpen && !DailyFull(c.model)
        && (OverPaced(c.model) ==> forall m | m in models && Usable(m, excluded) :: OverPaced(m))
    {
      var c := field[i];
      assert c in multiset(field);
      assert c in cs;
      var k :| 0 <= k < |models| && Eligible(models[k], excluded) && c == Scored(models[k]);
      ScoreIsPositiveIff(models[k]);
      assert i > 0 ==> !Before(field[i], field[0]);
      if OverPaced(c.model) {
        assert Paced(cs) == [] || c in Paced(cs);
        forall m | m in models && Usable(m, excluded) ensures OverPaced(m) {
          assert Scored(m) in cs;
          assert OverPaced(m) || Scored(m) in Paced(cs);
        }
      }
    }
    if field != [] {
      assert cs[0] in cs;
    }
  }

  predicate Usable(m: PoolModel, excluded: set<string>) {
    Text.TrimSpace(m.name) !in excluded + {""} && !m.circuitOpen && !DailyFull(m)
  }

  lemma UsableIsEligible(models: seq<PoolModel>, m: PoolModel, excluded: set<string>)
    requires m in models
    ensures Usable(m, excluded) <==> Scored(m) in Candidates(models, excluded) && Eligible(m, excluded)
  {
    ScoreIsPositiveIff(m);
    CandidatesAre(models, excluded);
    hide Candidates, Score, DailyFull, Scored;
    var k :| 0 <= k < |models| && models[k] == m;
  }

  // ------------------------------------------- shares over a full counter cycle

  const INVERSE := 17428512612931826493

  lemma InverseOfMultiplier()
    ensures MULTIPLIER * INVERSE == 10771413168148108919 * WORD + 1
  {
  }

  lemma {:induction false} AddMultiple(x: int, k: int, n: int)
    requires n > 0
    ensures (x + k * n) % n == x % n
    decreases if k < 0 then -k else k
  {
    if k > 0 {
      AddMultiple(x, k - 1, n);
      assert x + k * n == (x + (k - 1) * n) + n;
      AddOne(x + (k - 1) * n, n);
    } else if k < 0 {
      AddMultiple(x, k + 1, n);
      assert x + (k + 1) * n == (x + k * n) + n;
      AddOne(x + k * n, n);
    }
  }

  lemma AddOne(x: int, n: int)
    requires n > 0
    ensures (x + n) % n == x % n
  {
    assert x == n * (x / n) + x % n;
    assert x + n == n * (x / n + 1) + x % n;
    UniqueRemainder(x + n, x / n + 1, x % n, n);
  }

  lemma UniqueRemainder(x: int, q: int, r: int, n: int)
    requires n > 0 && 0 <= r < n && x == n * q + r
    ensures x % n == r && x / n == q
  {
    var p := x / n;
    assert x == n * p + x % n;
    assert n * (p - q) == r - x % n;
    if p > q { AtLeastOnce(n, p - q); } else if p < q { AtLeastOnce(n, q - p); }
  }

  lemma AtLeastOnce(n: int, k: int)
    requires n > 0 && k >= 1
    ensures n * k >= n
  {
    assert n * k == n * (k - 1) + n;
  }

  /** Reducing before multiplying changes nothing. */
  lemma ModMul(a: int, b: int, n: int)
    requires n > 0
    ensures (a % n * b) % n == (a * b) % n
  {
    var q := a / n;
    assert a == n * q + a % n;
    assert a * b == a % n * b + (q * b) * n;
    AddMultiple(a % n * b, q * b, n);
  }

  function Hash(c: int): (h: int)
    ensures 0 <= h < WORD
  {
    (c % WORD * MULTIPLIER) % WORD
  }

  /** Multiplying by the inverse undoes the hash. */
  lemma HashUndone(c: int)
    ensures (Hash(c) * INVERSE) % WORD == c % WORD
  {
    var k := 10771413168148108919;
    var u := c % WORD;
    ModMul(u * MULTIPLIER, INVERSE, WORD);
    InverseOfMultiplier();
    assert u * MULTIPLIER * INVERSE == u * (MULTIPLIER * INVERSE);
    assert u * (k * WORD + 1) == u + (u * k) * WORD;
    AddMultiple(u, u * k, WORD);
  }

  /** The one counter of a cycle that hashes to x. */
  function Unhash(start: int, x: int): int { start + (x * INVERSE - start) % WORD }

  lemma UnhashHashes(start: int, x: int)
    requires 0 <= x < WORD
    ensures start <= Unhash(start, x) < start + WORD && Hash(Unhash(start, x)) == x
  {
    var c := Unhash(start, x);
    var y := x * INVERSE - start;
    assert y == WORD * (y / WORD) + y % WORD;
    assert c == x * INVERSE + (-(y / WORD)) * WORD;
    AddMultiple(x * INVERSE, -(y / WORD), WORD);
    assert c % WORD == (x * INVERSE) % WORD;
    ModMul(x * INVERSE, MULTIPLIER, WORD);
    InverseOfMultiplier();
    var k := 10771413168148108919;
    assert x * INVERSE * MULTIPLIER == x * (MULTIPLIER * INVERSE);
    assert x * (k * WORD + 1) == x + (x * k) * WORD;
    AddMultiple(x, x * k, WORD);
  }

  lemma SameWithinCycle(start: int, c: int, d: int)
    requires start <= c < start + WORD && start <= d < start + WORD && c % WORD == d % WORD
    ensures c == d
  {
  }

  lemma HashIsInjective(start: int, c: int, d: int)
    requires start <= c < start + WORD && start <= d < start + WORD && Hash(c) == Hash(d)
    ensures c == d
  {
    HashUndone(c);
    HashUndone(d);
    SameWithinCycle(start, c, d);
  }

  predicate InBand(x: int, total: int, lo: int, hi: int)
    requires total > 0
  {
    lo <= x % total < hi
  }

  ghost function Hits(n: nat, total: int, lo: int, hi: int): set<int>
    requires total > 0
  {
    set x: int | 0 <= x < n && InBand(x, total, lo, hi)
  }

  /** How many of the first n numbers fall into the band. */
  lemma {:induction false} HitCount(n: nat, total: int, lo: int, hi: int)
    requires 0 <= lo <= hi <= total && total > 0
    ensures |Hits(n, total, lo, hi)| ==
            (hi - lo) * (n / total) + (if n % total < lo then 0 else Min(n % total, hi) - lo)
  {
    if n == 0 {
      assert Hits(0, total, lo, hi) == {};
    } else {
      var m := n - 1;
      HitCount(m, total, lo, hi);
      if InBand(m, total, lo, hi) {
        assert Hits(n, total, lo, hi) == Hits(m, total, lo, hi) + {m};
      } else {
        assert Hits(n, total, lo, hi) == Hits(m, total, lo, hi);
      }
      hide Hits;
      NextRemainder(m, total);
      assert (hi - lo) * (m / total + 1) == (hi - lo) * (m / total) + (hi - lo);
    }
  }

  lemma NextRemainder(m: nat, total: int)
    requires total > 0
    ensures if m % total + 1 < total then (m + 1) % total == m % total + 1 && (m + 1) / total == m / total
            else (m + 1) % total == 0 && (m + 1) / total == m / total + 1
  {
    var q, r := m / total, m % total;
    assert m == total * q + r;
    if r + 1 < total {
      UniqueRemainder(m + 1, q, r + 1, total);
    } else {
      assert total * (q + 1) == total * q + total;
      UniqueRemainder(m + 1, q + 1, 0, total);
    }
  }

  /** The first n counters of the cycle that pick candidate i. */
  ghost function Picks(start: int, n: nat, cs: seq<Candidate>, i: nat): set<int>
    requires i < |cs|
  {
    set c: int | start <= c < start + n && LandsOn(cs, WeightedPoolOffset(c, Total(cs)), i)
  }

  ghost function Image(s: set<int>): set<int> { set c | c in s :: Hash(c) }

  lemma {:induction false} ImageCount(start: int, n: nat, cs: seq<Candidate>, i: nat)
    requires n <= WORD && i < |cs|
    ensures |Image(Picks(start, n, cs, i))| == |Picks(start, n, cs, i)|
  {
    if n == 0 {
      assert Picks(start, 0, cs, i) == {} && Image({}) == {};
    } else {
      var c := start + n - 1;
      ImageCount(start, n - 1, cs, i);
      var before := Picks(start, n - 1, cs, i);
      if LandsOn(cs, WeightedPoolOffset(c, Total(cs)), i) {
        assert Picks(start, n, cs, i) == before + {c};
        hide Hash;
        assert Image(before + {c}) == Image(before) + {Hash(c)};
        if Hash(c) in Image(before) {
          var d :| d in before && Hash(d) == Hash(c);
          HashIsInjective(start, c, d);
        }
      } else {
        assert Picks(start, n, cs, i) == before;
      }
    }
  }

  ghost function Cycle(start: int, cs: seq<Candidate>, i: nat): set<int>
    requires i < |cs|
  {
    Picks(start, WORD, cs, i)
  }

  lemma ImageOfCycle(start: int, cs: seq<Candidate>, i: nat)
    requires i < |cs| && Total(cs) > 0
    ensures Image(Cycle(start, cs, i)) == Hits(WORD, Total(cs), WeightBefore(cs, i), WeightBefore(cs, i + 1))
  {
    var total, lo, hi := Total(cs), WeightBefore(cs, i), WeightBefore(cs, i + 1);
    forall c: int ensures LandsOn(cs, WeightedPoolOffset(c, total), i) <==> InBand(Hash(c), total, lo, hi) { }
    hide Total, WeightBefore, WeightedPoolOffset, InBand, LandsOn;
    forall x | x in Hits(WORD, total, lo, hi) ensures x in Image(Cycle(start, cs, i)) {
      UnhashHashes(start, x);
      hide Hash, Unhash;
      assert Unhash(start, x) in Cycle(start, cs, i);
    }
    forall x | x in Image(Cycle(start, cs, i)) ensures x in Hits(WORD, total, lo, hi) {
      hide Unhash;
      var c :| c in Cycle(start, cs, i) && x == Hash(c);
    }
  }

  /** Over any full cycle of counters, candidate i is picked in proportion to its weight: between
      weight * floor(2^64 / total) and weight * ceil(2^64 / total) times. */
  lemma SharesFollowWeights(start: int, cs: seq<Candidate>, i: nat)
    requires Weighted(cs) && i < |cs|
    ensures Total(cs) > 0
    ensures Weight(cs[i]) * (WORD / Total(cs)) <= |Cycle(start, cs, i)| <=
            Weight(cs[i]) * ((WORD + Total(cs) - 1) / Total(cs))
  {
    var total, lo, hi := Total(cs), WeightBefore(cs, i), WeightBefore(cs, i + 1);
    WeightsGrow(cs, i, |cs|);
    if i > 0 { WeightsGrow(cs, 0, i); }
    assert hi - lo == Weight(cs[i]) && 0 <= lo <= hi <= total;
    ImageOfCycle(start, cs, i);
    ImageCount(start, WORD, cs, i);
    HitCount(WORD, total, lo, hi);
    hide Cycle, Hits, Image, WeightBefore, Total;
    CeilDivision(WORD, total, hi - lo);
  }

  lemma CeilDivision(n: nat, total: int, w: nat)
    requires total > 0
    ensures w * ((n + total - 1) / total) == w * (n / total) + (if n % total == 0 then 0 else w)
  {
    var q, r := n / total, n % total;
    assert n == total * q + r;
    if r == 0 {
      UniqueRemainder(n + total - 1, q, total - 1, total);
    } else {
      assert total * (q + 1) == total * q + total;
      UniqueRemainder(n + total - 1, q + 1, r - 1, total);
      assert w * (q + 1) == w * q + w;
    }
  }
}
