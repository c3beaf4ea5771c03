/** Tokens-per-minute admission (cmd/api/model_runtime.go).

  A bucket refills with the clock up to 85% of the model's limit; a call is admitted when the bucket
  holds its cost, and told how long to wait otherwise.  The bucket lives in a hash that expires after
  120 idle seconds, and each call brings its own timestamp, which may lie behind an earlier one's.

  The script's numbers are scaled by 60000, so that a limit of L tokens a minute refills exactly L
  units a millisecond; float rounding is not modelled.

  The theorems are about whole histories of calls.
 */
module TokenBucket {
  import opened Numbers
  import opened Wrappers

  const SCALE := 60000
  const IDLE := 120000

  /** 85% of the limit, at least one token. */
  function Capacity(limit: int): int {
    Max(1, limit * 85 / 100)
  }

  /** The limits and overheads of a model that its admission cost depends on. */
  datatype Model = Model(tpm: int, itpm: int, maxOutput: int, agentOverhead: int, researchOverhead: int)

  /** runtimeTokenLimit: the tighter of the two limits that are set. */
  function TokenLimit(m: Model): (limit: int)
    ensures limit > 0 ==>
              (limit == m.tpm || limit == m.itpm) && (m.tpm > 0 ==> limit <= m.tpm) && (m.itpm > 0 ==> limit <= m.itpm)
    ensures limit <= 0 <==> m.tpm <= 0 && m.itpm <= 0
  {
    if m.tpm <= 0 || 0 < m.itpm < m.tpm then m.itpm else m.tpm
  }

  /** requestCompletionReserve: what the request asks for, else the model's maximum, else the bound itself. */
  function CompletionReserve(maxTokens: int, maxCompletion: int, m: Model): (reserve: int)
    ensures 1 <= reserve <= 256
  {
    var asked := if maxCompletion > 0 then maxCompletion else maxTokens;
    var out := if asked > 0 then asked else m.maxOutput;
    Min(if out > 0 then out else 256, 256)
  }

  /** modelAdmissionCost, for a request estimated at so many input tokens; research is any of the profiles
      research, research-direct, guest and vision. */
  function Cost(m: Model, estimate: nat, maxTokens: int, maxCompletion: int, research: bool): (cost: int)
    ensures TokenLimit(m) <= 0 ==> cost == 0
    ensures TokenLimit(m) > 0 ==> 1 <= cost <= Capacity(TokenLimit(m))
  {
    var limit := TokenLimit(m);
    var overhead := if research && m.researchOverhead > 0 then m.researchOverhead else m.agentOverhead;
    if limit <= 0 then 0
    else Max(1, Min(estimate + overhead + CompletionReserve(maxTokens, maxCompletion, m), Capacity(limit)))
  }

  datatype Bucket = Bucket(tokens: int, last: int)

  function Full(limit: int): int { Capacity(limit) * SCALE }

  /** The bucket after the refill part of the script. */
  function Refilled(b: Option<Bucket>, limit: int, now: int): Bucket {
    match b
    case None => Bucket(Full(limit), now)
    case Some(Bucket(tokens, last)) =>
      var held := Min(Full(limit), tokens);
      if now > last then Bucket(Min(Full(limit), held + (now - last) * limit), now) else Bucket(held, last)
  }

  function CeilDiv(a: int, b: int): int
    requires b > 0
  {
    (a + b - 1) / b
  }

  /** The script: the new bucket and the wait it returns, 0 when admitted. */
  function Admit(b: Option<Bucket>, limit: int, cost: int, now: int): (Bucket, int)
    requires limit > 0
  {
    var r := Refilled(b, limit, now);
    if r.tokens >= cost * SCALE then (Bucket(r.tokens - cost * SCALE, r.last), 0)
    else (r, CeilDiv(cost * SCALE - r.tokens, limit))
  }

  /** The Redis hash, with its idle deadline. */
  class Admission {
    var bucket: Option<Bucket>
    var deadline: int

    constructor ()
      ensures bucket == None
    {
      bucket, deadline := None, 0;
    }

    method TryModelAdmission(limit: int, cost: int, now: int) returns (wait: int)
      modifies this
      ensures limit <= 0 || cost <= 0 ==> wait == 0 && bucket == old(bucket) && deadline == old(deadline)
      ensures limit > 0 && cost > 0 ==>
                var seen := if now < old(deadline) then old(bucket) else None;
                && (bucket, wait) == (Some(Admit(seen, limit, cost, now).0), Admit(seen, limit, cost, now).1)
                && deadline == now + 120000
    {
      if limit <= 0 || cost <= 0 { return 0; }
      var capacity := Capacity(limit) * SCALE;
      var tokens, last := capacity, now;
      if bucket.Some? && now < deadline {
        tokens, last := bucket.value.tokens, bucket.value.last;
      }
      tokens := Min(capacity, tokens);
      if now > last {
        tokens := Min(capacity, tokens + (now - last) * limit);
        last := now;
      }
      deadline := now + IDLE;
      if tokens >= cost * SCALE {
        tokens := tokens - cost * SCALE;
        bucket := Some(Bucket(tokens, last));
        return 0;
      }
      var need := cost * SCALE - tokens;
      bucket := Some(Bucket(tokens, last));
      wait := CeilDiv(need, limit);
    }
  }

  // ----------------------------------------------------------- whole histories

  datatype Call = Call(now: int, cost: int)

  /** The bucket and the total cost admitted after a history of calls; timestamps are arbitrary. */
  function After(limit: int, calls: seq<Call>): (Option<Bucket>, int)
    requires limit > 0
  {
    if calls == [] then (None, 0)
    else
      var (b, total) := After(limit, calls[..|calls| - 1]);
      var c := calls[|calls| - 1];
      var (b', wait) := Admit(b, limit, c.cost, c.now);
      (Some(b'), total + (if wait == 0 then c.cost else 0))
  }

  function Latest(calls: seq<Call>): int
    requires calls != []
  {
    if |calls| == 1 then calls[0].now else Max(Latest(calls[..|calls| - 1]), calls[|calls| - 1].now)
  }

  lemma NonPositiveProduct(q: int, b: int)
    requires q <= 0 && b > 0
    ensures q * b <= 0
  {
  }

  lemma CeilDivIsLeast(a: int, b: int)
    requires b > 0 && a > 0
    ensures CeilDiv(a, b) >= 1 && CeilDiv(a, b) * b >= a && (CeilDiv(a, b) - 1) * b < a
  {
    var q := (a + b - 1) / b;
    assert a + b - 1 == q * b + (a + b - 1) % b;
    assert (q - 1) * b == q * b - b;
    assert q >= 1 by { if q <= 0 { NonPositiveProduct(q, b); } }
  }

  lemma {:induction false} LatestOf(calls: seq<Call>)
    requires calls != []
    ensures Latest(calls) >= calls[0].now
    ensures forall c | c in calls :: c.now <= Latest(calls)
    ensures exists c | c in calls :: c.now == Latest(calls)
  {
    if |calls| > 1 {
      LatestOf(calls[..|calls| - 1]);
      assert calls == calls[..|calls| - 1] + [calls[|calls| - 1]];
    }
  }

  /** One call: the bucket stays in range, and what is spent came from the bucket or the refill. */
  lemma AdmitBounds(b: Option<Bucket>, limit: int, cost: int, now: int)
    requires limit > 0 && 1 <= cost <= Capacity(limit)
    requires b.Some? ==> 0 <= b.value.tokens <= Full(limit)
    ensures var (b', wait) := Admit(b, limit, cost, now);
            var before := if b.None? then Full(limit) else b.value.tokens;
            var since := if b.None? then now else b.value.last;
            && 0 <= b'.tokens <= Full(limit) && wait >= 0
            && b'.last == Max(since, now)
            && b'.tokens + (if wait == 0 then cost * SCALE else 0) <= before + limit * Max(0, now - since)
  {
    var r := Refilled(b, limit, now);
    if b.Some? && now > b.value.last {
      assert (now - b.value.last) * limit == limit * (now - b.value.last) >= 0;
    }
    if r.tokens < cost * SCALE { CeilDivIsLeast(cost * SCALE - r.tokens, limit); }
  }

  /** What the invariant says after a non-empty history that started at first. */
  ghost predicate Sound(limit: int, first: int, latest: int, b: Option<Bucket>, total: int) {
    && b.Some? && 0 <= b.value.tokens <= Full(limit) && b.value.last == latest
    && total * SCALE + b.value.tokens <= Full(limit) + limit * (latest - first)
  }

  lemma SoundStep(limit: int, first: int, latest: int, b: Option<Bucket>, total: int, c: Call)
    requires limit > 0 && 1 <= c.cost <= Capacity(limit)
    requires if b.None? then total == 0 && first == latest == c.now else Sound(limit, first, latest, b, total)
    ensures var (b', wait) := Admit(b, limit, c.cost, c.now);
            Sound(limit, first, Max(latest, c.now), Some(b'), total + (if wait == 0 then c.cost else 0))
  {
    hide Admit, Full, Capacity;
    AdmitBounds(b, limit, c.cost, c.now);
    var grown := Max(0, c.now - latest);
    assert limit * (latest + grown - first) == limit * (latest - first) + limit * grown;
  }

  /** Everything admitted so far plus what is left never exceeds one full bucket plus the refill
      between the first timestamp and the latest, however timestamps jump about. */
  lemma {:induction false} BucketInvariant(limit: int, calls: seq<Call>)
    requires limit > 0 && calls != [] && forall c | c in calls :: 1 <= c.cost <= Capacity(limit)
    ensures var (b, total) := After(limit, calls);
            Sound(limit, calls[0].now, Latest(calls), b, total)
  {
    hide Admit, Sound, Capacity;
    var n := |calls| - 1;
    var c := calls[n];
    var (b, total) := After(limit, calls[..n]);
    assert c in calls;
    if n == 0 {
      assert calls[..n] == [];
      SoundStep(limit, c.now, c.now, None, 0, c);
    } else {
      assert forall d | d in calls[..n] :: d in calls;
      BucketInvariant(limit, calls[..n]);
      assert b.Some? by { assert |calls[..n]| == n; }
      SoundStep(limit, calls[0].now, Latest(calls[..n]), b, total, c);
    }
  }

  /** Rate limit: over any history the cost admitted is at most the capacity plus the refill between
      the first and the highest timestamp, and the bucket stays between empty and full. */
  lemma AdmittedCostIsBounded(limit: int, calls: seq<Call>)
    requires limit > 0 && calls != [] && forall c | c in calls :: 1 <= c.cost <= Capacity(limit)
    ensures var (b, total) := After(limit, calls);
            && total * SCALE <= Capacity(limit) * SCALE + limit * (Latest(calls) - calls[0].now)
            && b.Some? && 0 <= b.value.tokens <= Full(limit)
  {
    BucketInvariant(limit, calls);
  }

  /** A wait is the least number of milliseconds whose refill covers the need. */
  lemma WaitCovers(need: int, limit: int, gained: int)
    requires need > 0 && limit > 0 && gained >= 0
    ensures gained * limit >= need <==> gained >= CeilDiv(need, limit)
    ensures CeilDiv(need, limit) >= 1
  {
    CeilDivIsLeast(need, limit);
    var wait := CeilDiv(need, limit);
    if gained >= wait {
      assert gained * limit >= wait * limit;
    } else {
      assert gained * limit <= (wait - 1) * limit;
    }
  }

  /** From a bucket that lacks need units, a call at time t is admitted once enough time has passed. */
  lemma AdmittedOnceCovered(b: Bucket, limit: int, cost: int, t: int)
    requires limit > 0 && 1 <= cost <= Capacity(limit) && 0 <= b.tokens < cost * SCALE
    ensures Admit(Some(b), limit, cost, t).1 == 0 <==> t - b.last >= CeilDiv(cost * SCALE - b.tokens, limit)
    ensures Admit(Some(b), limit, cost, t).1 >= 0
  {
    var need := cost * SCALE - b.tokens;
    var r := Refilled(Some(b), limit, t);
    if t > b.last {
      WaitCovers(need, limit, t - b.last);
    } else {
      WaitCovers(need, limit, 0);
    }
    if r.tokens < cost * SCALE { CeilDivIsLeast(cost * SCALE - r.tokens, limit); }
  }

  /** A returned wait is exactly right, provided this call's timestamp was not behind the bucket's:
      retrying after it is admitted if nobody else consumes, and no earlier retry is.  With a
      timestamp behind the bucket's the same retry is refused. */
  lemma WaitIsExactIff(b: Bucket, limit: int, cost: int, now: int)
    requires limit > 0 && 1 <= cost <= Capacity(limit) && 0 <= b.tokens <= Full(limit)
    requires Admit(Some(b), limit, cost, now).1 > 0
    ensures var (b', wait) := Admit(Some(b), limit, cost, now);
            && (Admit(Some(b'), limit, cost, now + wait).1 == 0 <==> now >= b.last)
            && (forall t | now <= t < now + wait :: Admit(Some(b'), limit, cost, t).1 > 0)
  {
    var (b', wait) := Admit(Some(b), limit, cost, now);
    RefilledRange(b, limit, now);
    assert 0 <= b'.tokens < cost * SCALE && wait == CeilDiv(cost * SCALE - b'.tokens, limit);
    assert b'.last == Max(b.last, now);
    hide Admit;
    AdmittedOnceCovered(b', limit, cost, now + wait);
    forall t | now <= t < now + wait ensures Admit(Some(b'), limit, cost, t).1 > 0 {
      AdmittedOnceCovered(b', limit, cost, t);
    }
  }

  lemma RefilledRange(b: Bucket, limit: int, now: int)
    requires limit > 0 && 0 <= b.tokens <= Full(limit)
    ensures 0 <= Refilled(Some(b), limit, now).tokens <= Full(limit) &&
            Refilled(Some(b), limit, now).last == Max(b.last, now)
  {
    if now > b.last { NotNegative(now - b.last, limit); }
    hide Capacity;
  }

  lemma NotNegative(a: int, b: int)
    requires a >= 0 && b >= 0
    ensures a * b >= 0
  {
  }

  // ------------------------------------------------------------- idle expiry

  /** The same history against a store that drops the bucket 120 s after its last call. */
  function AfterExpiring(limit: int, calls: seq<Call>): (Option<Bucket>, seq<int>)
    requires limit > 0
  {
    if calls == [] then (None, [])
    else
      var n := |calls| - 1;
      var (b, waits) := AfterExpiring(limit, calls[..n]);
      var seen := if n > 0 && calls[n].now >= calls[n - 1].now + IDLE then None else b;
      var (b', wait) := Admit(seen, limit, calls[n].cost, calls[n].now);
      (Some(b'), waits + [wait])
  }

  function Waits(limit: int, calls: seq<Call>): seq<int>
    requires limit > 0
  {
    if calls == [] then []
    else
      var n := |calls| - 1;
      Waits(limit, calls[..n]) + [Admit(After(limit, calls[..n]).0, limit, calls[n].cost, calls[n].now).1]
  }

  ghost predicate Monotone(calls: seq<Call>) {
    forall i, j | 0 <= i < j < |calls| :: calls[i].now <= calls[j].now
  }

  lemma {:induction false} LatestIsLast(calls: seq<Call>)
    requires calls != [] && Monotone(calls)
    ensures Latest(calls) == calls[|calls| - 1].now
  {
    if |calls| > 1 { LatestIsLast(calls[..|calls| - 1]); }
  }

  /** Two idle minutes refill any bucket, so forgetting it then cannot be noticed. */
  lemma IdleIsFull(b: Bucket, limit: int, now: int)
    requires limit > 0 && 0 <= b.tokens <= Full(limit) && now >= b.last + IDLE
    ensures Refilled(Some(b), limit, now) == Refilled(None, limit, now)
  {
    assert (now - b.last) * limit >= IDLE * limit;
  }

  lemma AdmitSeesRefill(b: Option<Bucket>, c: Option<Bucket>, limit: int, call: Call)
    requires limit > 0 && Refilled(b, limit, call.now) == Refilled(c, limit, call.now)
    ensures Admit(b, limit, call.cost, call.now) == Admit(c, limit, call.cost, call.now)
  {
  }

  lemma SoundIsFilled(limit: int, calls: seq<Call>)
    requires limit > 0 && calls != [] && forall c | c in calls :: 1 <= c.cost <= Capacity(limit)
    ensures var b := After(limit, calls).0;
            b.Some? && 0 <= b.value.tokens <= Full(limit) && b.value.last == Latest(calls)
  {
    BucketInvariant(limit, calls);
    hide Admit, Capacity, After;
  }

  /** The expiring store's step from a state that agrees with the keeping one. */
  lemma SameStep(limit: int, calls: seq<Call>)
    requires limit > 0 && calls != []
    requires AfterExpiring(limit, calls[..|calls| - 1]) ==
             (After(limit, calls[..|calls| - 1]).0, Waits(limit, calls[..|calls| - 1]))
    requires var n := |calls| - 1;
             n > 0 && calls[n].now >= calls[n - 1].now + IDLE ==>
               Admit(After(limit, calls[..n]).0, limit, calls[n].cost, calls[n].now) ==
                 Admit(None, limit, calls[n].cost, calls[n].now)
    ensures AfterExpiring(limit, calls) == (After(limit, calls).0, Waits(limit, calls))
  {
    hide Admit;
  }

  /** Under one monotone clock, dropping the key after 120 s idle is indistinguishable from keeping it. */
  lemma {:induction false} ExpiryIsInvisible(limit: int, calls: seq<Call>)
    requires limit > 0 && Monotone(calls) && forall c | c in calls :: 1 <= c.cost <= Capacity(limit)
    ensures AfterExpiring(limit, calls) == (After(limit, calls).0, Waits(limit, calls))
  {
    hide Admit, Refilled, Capacity, Latest, Full;
    if calls != [] {
      var n := |calls| - 1;
      var rest := calls[..n];
      assert forall c | c in rest :: c in calls;
      ExpiryIsInvisible(limit, rest);
      if n > 0 && calls[n].now >= calls[n - 1].now + IDLE {
        LatestIsLast(rest);
        var b := After(limit, rest).0;
        SoundIsFilled(limit, rest);
        IdleIsFull(b.value, limit, calls[n].now);
        AdmitSeesRefill(b, None, limit, calls[n]);
      }
      SameStep(limit, calls);
    }
  }

  // ------------------------------------------------------ what a call costs and gets

  /** A call costs what it may put in, the model's overhead and what is set aside for the answer: what it asks for, or
      the model's maximum, or 256, and never more than 256.  It costs no more than 85% of the limit, the tighter one
      if there are two, and no less than one; without a limit it costs nothing. */
  lemma CostMeans(m: Model, estimate: nat, maxTokens: int, maxCompletion: int, research: bool)
    ensures var limit := if m.tpm > 0 && (m.itpm <= 0 || m.tpm <= m.itpm) then m.tpm else m.itpm;
            var overhead := if research && m.researchOverhead > 0 then m.researchOverhead else m.agentOverhead;
            var asked := if maxCompletion > 0 then maxCompletion else if maxTokens > 0 then maxTokens
                         else if m.maxOutput > 0 then m.maxOutput else 256;
            var whole := estimate + overhead + (if asked < 256 then asked else 256);
            var most := if limit * 85 / 100 < 1 then 1 else limit * 85 / 100;
            Cost(m, estimate, maxTokens, maxCompletion, research) ==
            if limit <= 0 then 0 else if whole > most then most else if whole < 1 then 1 else whole
  {
  }

  /** A call is admitted exactly if it is paid for by what the bucket held and what has come in since, a limit's worth a
      minute, up to 85% of the limit; a bucket not seen before is full.  It then leaves the rest, else all of it. */
  lemma AdmittedIff(b: Option<Bucket>, limit: int, cost: int, now: int)
    requires limit > 0 && cost > 0 && (b.Some? ==> b.value.tokens >= 0)
    ensures var full := (if limit * 85 / 100 < 1 then 1 else limit * 85 / 100) * 60000;
            var held := if b.None? then full
                        else b.value.tokens + (if now > b.value.last then (now - b.value.last) * limit else 0);
            var usable := if held < full then held else full;
            var (b', wait) := Admit(b, limit, cost, now);
            && (wait == 0 <==> cost * 60000 <= usable)
            && b'.tokens == (if wait == 0 then usable - cost * 60000 else usable)
            && b'.last == (if b.Some? && b.value.last > now then b.value.last else now)
  {
    if b.Some? && now > b.value.last { NotNegative(now - b.value.last, limit); }
    var r := Refilled(b, limit, now);
    if r.tokens < cost * SCALE { CeilDivIsLeast(cost * SCALE - r.tokens, limit); }
  }

  ghost predicate AtOnce(calls: seq<Call>, t: int) {
    forall c | c in calls :: c.now == t && c.cost > 0
  }

  /** At one instant a new bucket admits 85% of the limit, call by call as long as they fit. */
  lemma {:induction false} InstantAdmits(limit: int, calls: seq<Call>, t: int)
    requires limit > 0 && AtOnce(calls, t)
    ensures var (b, total) := After(limit, calls);
            var most := if limit * 85 / 100 < 1 then 1 else limit * 85 / 100;
            && 0 <= total <= most && (b == None <==> calls == [])
            && (b.Some? ==> b.value == Bucket((most - total) * 60000, t))
  {
    hide Admit;
    if calls != [] {
      var n := |calls| - 1;
      assert calls[n] in calls && forall c | c in calls[..n] :: c in calls;
      InstantAdmits(limit, calls[..n], t);
      AdmittedIff(After(limit, calls[..n]).0, limit, calls[n].cost, t);
    }
  }
}
