/** What a model's share of the pool comes to, from its weight, quality, record and use (cmd/api/model_pool.go). */
module PoolScores {
  import opened Numbers
  import opened PoolChoice

  /** Weight and quality, 100 and 50 unless they are set. */
  function Merit(m: PoolModel): real {
    var weight := if m.weight <= 0 then 100 else m.weight;
    var quality := if m.quality <= 0 then 50 else m.quality;
    weight as real * (0.55 + quality as real / 100.0)
  }

  /** A quarter for anybody, and the rest by the rate of success, which starts at a half. */
  function Reliability(h: Health): real {
    var asked := h.successes + h.failures;
    if asked == 0 then 1.0 else 0.25 + 0.75 * ((h.successes + 1) as real / (asked + 2) as real)
  }

  /** Five seconds over the average latency, within bounds. */
  function Speed(h: Health): real {
    var asked := h.successes + h.failures;
    if asked == 0 || h.latencyMs as real / asked as real <= 0.0 then 1.0
    else if 5000.0 / (h.latencyMs as real / asked as real) < 0.35 then 0.35
    else if 5000.0 / (h.latencyMs as real / asked as real) > 1.25 then 1.25
    else 5000.0 / (h.latencyMs as real / asked as real)
  }

  /** By what is left of the day's capacity, from all to nothing. */
  function DayLeft(m: PoolModel): real {
    if m.capacity <= 0 then 1.0 else 0.55 + 0.45 * ((m.capacity - m.used) as real / m.capacity as real)
  }

  /** A twentieth when ahead of the day's pace. */
  function Pace(m: PoolModel): real {
    if m.capacity > 0 && m.allowance > 0 && m.used >= m.allowance then 0.05 else 1.0
  }

  /** A score is the product of these; a full day scores nothing. */
  lemma ScoreMeans(m: PoolModel)
    ensures Score(m) == if m.capacity > 0 && m.used >= m.capacity then 0.0
                        else Merit(m) * (Reliability(m.health) * Speed(m.health)) * (DayLeft(m) * Pace(m))
  {
    hide Score, BaseScore, HealthFactor, DailyFactor, Merit, Reliability, Speed, DayLeft, Pace;
    FullScoresNothing(m);
    if !(m.capacity > 0 && m.used >= m.capacity) {
      ScoreFactors(m);
      MeritIs(m);
      RecordIs(m.health);
      DayIs(m);
    }
  }

  lemma MeritIs(m: PoolModel)
    ensures BaseScore(m) == Merit(m)
  {
  }

  lemma RecordIs(h: Health)
    ensures HealthFactor(h) == Reliability(h) * Speed(h)
  {
  }

  lemma DayIs(m: PoolModel)
    requires !(m.capacity > 0 && m.used >= m.capacity)
    ensures DailyFactor(m) == DayLeft(m) * Pace(m)
  {
  }

  /** By a fraction p of the day, that fraction of nine tenths of the limit may be used, rounded up, and up to three
      more; never more than the nine tenths. */
  lemma AllowanceMeans(limit: int, p: real) returns (due: int)
    requires limit > 0 && p >= 0.0
    ensures var capacity := if limit * 9 / 10 < 1 then 1 else limit * 9 / 10;
            var burst := if capacity < 10 then 1 else if capacity < 15 then 2 else 3;
            && (due - 1) as real < capacity as real * p <= due as real
            && DailyPacedAllowance(limit, p) == if due + burst < capacity then due + burst else capacity
  {
    hide DailyPacedAllowance;
    var scaled := DailyCapacity(limit) as real * p;
    due := Ceil(scaled);
    ProductIsMonotone(0.0, 0.0, DailyCapacity(limit) as real, p);
    CeilIs(scaled);
    AllowanceIs(limit, p, scaled);
  }

  lemma CeilIs(x: real)
    ensures (Ceil(x) - 1) as real < x <= Ceil(x) as real
    ensures x >= 0.0 ==> Ceil(x) >= 0
  {
  }

  /** The weight the pick goes by is ten times the score, rounded, at least 1 and at most 100000. */
  predicate Weighs(c: Candidate) {
    var w, s := Weight(c), Score(c.model);
    || (1 <= w <= 100000 && 10.0 * s - 0.5 <= w as real <= 10.0 * s + 0.5)
    || (w == 1 && 0.0 < s < 0.15)
    || (w == 100000 && s > 9999.0)
  }

  lemma ScoredWeighs(m: PoolModel)
    requires Score(m) > 0.0
    ensures Weighs(Scored(m))
  {
    hide Score;
  }

  /** Every candidate of the field weighs what its model scores. */
  lemma FieldWeighs(models: seq<PoolModel>, excluded: set<string>, i: nat)
    requires i < |Field(models, excluded)|
    ensures Weighs(Field(models, excluded)[i]) && Field(models, excluded)[i].model in models
  {
    hide Candidates, Paced, Ranked, Score, DailyFull, Scored, Weighs;
    FieldIsUsable(models, excluded);
    FieldIs(models, excluded);
    CandidatesAre(models, excluded);
    PacedAre(Candidates(models, excluded));
    var c := Field(models, excluded)[i];
    assert c in multiset(Field(models, excluded));
    assert c in Candidates(models, excluded) by { ChosenAreCandidates(Candidates(models, excluded), c); }
    var k :| 0 <= k < |models| && Eligible(models[k], excluded) && c == Scored(models[k]);
    EligibleScores(models[k], excluded);
    ScoredWeighs(models[k]);
  }

  lemma EligibleScores(m: PoolModel, excluded: set<string>)
    requires Eligible(m, excluded)
    ensures Score(m) > 0.0
  {
  }

  lemma ChosenAreCandidates(cs: seq<Candidate>, c: Candidate)
    requires c in multiset(if Paced(cs) != [] then Paced(cs) else cs)
    ensures c in cs
  {
    PacedAre(cs);
    hide Paced;
  }

  /** How often a score of s is picked where a weight of one is picked between low and high times. */
  predicate Fair(s: real, picks: int, low: int, high: int) {
    && (0.15 <= s <= 9999.0 ==>
          (10.0 * s - 0.5) * low as real <= picks as real <= (10.0 * s + 0.5) * high as real)
    && (s < 0.15 ==>
          low <= picks <= high || (10.0 * s - 0.5) * low as real <= picks as real <= (10.0 * s + 0.5) * high as real)
    && (s > 9999.0 ==> picks <= 100000 * high)
  }

  lemma WeightIsFair(c: Candidate, picks: int, low: nat, high: nat)
    requires Weighs(c) && 1 <= Weight(c) && Weight(c) * low <= picks <= Weight(c) * high
    ensures Fair(Score(c.model), picks, low, high)
  {
    hide Weight, Score;
    var w, s := Weight(c), Score(c.model);
    if 10.0 * s - 0.5 <= w as real <= 10.0 * s + 0.5 {
      Between(w, low, 10.0 * s - 0.5, 10.0 * s + 0.5);
      Between(w, high, 10.0 * s - 0.5, 10.0 * s + 0.5);
    }
    AtMost(w, 100000, high);
  }

  lemma AtMost(w: int, most: int, q: nat)
    ensures w <= most ==> w * q <= most * q
  {
    if w <= most { assert (most - w) * q == most * q - w * q && (most - w) * q >= 0; }
  }

  lemma Between(w: int, q: nat, low: real, high: real)
    requires low <= w as real <= high
    ensures low * q as real <= (w * q) as real <= high * q as real
  {
    assert (w * q) as real == w as real * q as real;
    ScaledIsMonotone(q as real, low, w as real);
    ScaledIsMonotone(q as real, w as real, high);
  }

  /** Over any full cycle of counters a candidate is picked in proportion to its model's score: with a total weight
      T and a score s between (10s - 1/2) * floor(2^64 / T) and (10s + 1/2) * ceil(2^64 / T) times, unless the score
      is so small or so large that its weight meets a bound. */
  lemma SharesFollowScores(models: seq<PoolModel>, excluded: set<string>, start: int, i: nat)
    requires i < |Field(models, excluded)|
    ensures var field := Field(models, excluded);
            var total := Total(field);
            && total > 0
            && Fair(Score(field[i].model), |Cycle(start, field, i)|,
                    0x1_0000_0000_0000_0000 / total, (0x1_0000_0000_0000_0000 + total - 1) / total)
  {
    hide Field, Score, Total, Cycle, Weight, Weighs, Fair, InRank;
    var field := Field(models, excluded);
    FieldWeighs(models, excluded, i);
    FieldIs(models, excluded);
    SharesFollowWeights(start, field, i);
    Quotients(Total(field));
    PositiveWeight(field, i);
    WeightIsFair(field[i], |Cycle(start, field, i)|, WORD / Total(field), (WORD + Total(field) - 1) / Total(field));
  }

  lemma PositiveWeight(cs: seq<Candidate>, i: nat)
    requires Weighted(cs) && i < |cs|
    ensures Weight(cs[i]) >= 1
  {
  }

  lemma Quotients(total: int)
    requires total > 0
    ensures WORD / total >= 0 && (WORD + total - 1) / total >= 0
  {
  }
}
