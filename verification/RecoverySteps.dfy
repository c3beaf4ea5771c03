/** What one turn of the recovery loop does, answer by answer (cmd/api/model_runtime.go). */
module RecoverySteps {
  import opened Numbers
  import opened Wrappers
  import opened ModelRecovery

  /** The catalogue's entry for a name, as the loop reads it. */
  ghost predicate EntryFor(env: Env, name: string, m: Model) {
    if name != "" && name in env.catalog then
      && m.fallback == env.catalog[name].fallback && m.maxRetries == env.catalog[name].maxRetries
      && m.backoffMs == env.catalog[name].backoffMs && m.maxOutput == env.catalog[name].maxOutput
      && m.otpmLimit == env.catalog[name].otpmLimit
      && (env.catalog[name].strategy != "" ==> m.strategy == env.catalog[name].strategy)
      && (env.catalog[name].strategy == "" ==> m.strategy == "adaptive")
    else
      m.fallback == "" && m.strategy == "adaptive" && m.maxRetries == 2 && m.backoffMs == 500 && m.maxOutput == 0 &&
        m.otpmLimit == 0
  }

  /** The same once the pool has had its say: an unvisited member it offers becomes the fallback, and then the model may
      fall back whatever its entry says; the vision pool offers that or nothing. */
  ghost predicate PreparedFor(env: Env, name: string, visited: set<string>, pick: string, m: Model) {
    exists e: Model ::
      && EntryFor(env, name, e)
      && m.maxRetries == e.maxRetries && m.backoffMs == e.backoffMs && m.maxOutput == e.maxOutput
      && m.otpmLimit == e.otpmLimit
      && (if env.route != "" && pick in env.members && pick !in visited && pick != "" && pick != name then
            m.fallback == pick && m.strategy == if e.strategy in {"reject", "trim"} then "adaptive" else e.strategy
          else
            m.fallback == (if env.route == "vision" then "" else e.fallback) && m.strategy == e.strategy)
  }

  /** The largest answer a model may be asked for: its maximum, or nine tenths of what it may put out in a minute,
      whichever is set and less. */
  ghost predicate LargestAnswer(m: Model, cap: int) {
    var ninety := if m.otpmLimit * 9 / 10 < 1 then 1 else m.otpmLimit * 9 / 10;
    && (m.otpmLimit <= 0 ==> cap == m.maxOutput)
    && (m.otpmLimit > 0 && m.maxOutput <= 0 ==> cap == ninety)
    && (m.otpmLimit > 0 && m.maxOutput > 0 ==>
          cap <= ninety && cap <= m.maxOutput && (cap == ninety || cap == m.maxOutput))
  }

  /** A budget once capped: max_tokens goes, and max_completion_tokens is the cap or less. */
  ghost predicate CappedTo(before: Budget, m: Model, after: Budget) {
    exists cap :: LargestAnswer(m, cap) && CutTo(before, cap, after)
  }

  predicate CutTo(before: Budget, cap: int, after: Budget) {
    if cap <= 0 then after == before
    else
      && after.maxTokens == 0 && after.maxCompletion <= cap
      && (if 0 < before.maxCompletion < cap then after.maxCompletion == before.maxCompletion
          else after.maxCompletion == cap)
  }

  /** The loop has moved to its fallback. */
  ghost predicate MovedOn(env: Env, l: Loop, budget: Budget, pick: string, l': Loop) {
    && l'.current == l.m.fallback && l'.path == l.path + [l.m.fallback]
    && l'.visited == (if env.route == "" then l.visited else l.visited + {l.m.fallback})
    && PreparedFor(env, l.m.fallback, l'.visited, pick, l'.m) && CappedTo(budget, l'.m, l'.budget)
    && l'.compat == l.compat
  }

  predicate MayMove(allow: bool, l: Loop) {
    allow && l.m.strategy in {"", "adaptive", "fallback"} && l.m.fallback != "" && l.m.fallback != l.current
  }

  lemma EntryIs(env: Env, name: string)
    ensures EntryFor(env, name, RuntimeModel(env, name))
  {
  }

  lemma EntryStrategy(env: Env, name: string)
    ensures RuntimeModel(env, name).strategy != ""
  {
  }

  lemma PrepareIs(env: Env, name: string, visited: set<string>, pick: string)
    ensures PreparedFor(env, name, visited, pick, Prepare(env, name, RuntimeModel(env, name), visited, pick))
  {
    EntryIs(env, name);
    EntryStrategy(env, name);
    hide RuntimeModel, EntryFor;
    assert EntryFor(env, name, RuntimeModel(env, name));
  }

  lemma CapIs(b: Budget, m: Model)
    ensures CappedTo(b, m, ApplyOutputCap(b, OutputCap(m)))
  {
    assert LargestAnswer(m, OutputCap(m)) && CutTo(b, OutputCap(m), ApplyOutputCap(b, OutputCap(m)));
  }

  lemma MoveIs(env: Env, l: Loop, pick: string)
    ensures MovedOn(env, l, l.budget, pick, Move(env, l, pick))
    ensures MovedOn(env, l, l.budget, pick, Again(Move(env, l, pick)).loop)
    ensures SameCounts(l, Move(env, l, pick))
  {
    hide RuntimeModel, Prepare, PreparedFor, CappedTo, ApplyOutputCap, OutputCap;
    var l' := Move(env, l, pick);
    PrepareIs(env, l.m.fallback, l'.visited, pick);
    CapIs(l.budget, l'.m);
  }

  lemma MayMoveIff(l: Loop, allow: bool)
    ensures allow && CanFallback(l.m, l.current) <==> MayMove(allow, l)
  {
  }

  // -------------------------------------------------------------------- the answers

  /** What an otpm refusal cuts the budget to. */
  function OutputTarget(m: Model, limit: int): int {
    var ninety := if limit * 9 / 10 < 1 then 1 else limit * 9 / 10;
    if m.maxOutput > 0 && m.maxOutput < ninety then m.maxOutput else ninety
  }

  function Asked(b: Budget, requested: int): int {
    if b.maxCompletion > 0 then b.maxCompletion else if b.maxTokens > 0 then b.maxTokens else requested
  }

  /** A refusal for too much output that a smaller budget answers. */
  predicate CutHelps(l: Loop, a: Answer)
    requires a.Status?
  {
    && a.status == 429 && a.kind == "otpm" && a.limit > 0
    && (Asked(l.budget, a.requested) <= 0 || Asked(l.budget, a.requested) > OutputTarget(l.m, a.limit))
  }

  /** A refusal for too much input that a shorter chat answers. */
  predicate TrimHelps(l: Loop, t: Turn)
    requires t.answer.Status?
  {
    && t.answer.status == 429 && (t.answer.kind == "itpm" || t.answer.kind == "tpm")
    && l.m.strategy in {"", "adaptive", "trim"} && t.trimHelps
  }

  lemma ShrinkIs(l: Loop, a: Answer)
    requires a.Status? && a.limit > 0
    ensures var (budget, shrunk) := Shrink(l, a.limit, a.requested);
            && (shrunk <==>
                (Asked(l.budget, a.requested) <= 0 || Asked(l.budget, a.requested) > OutputTarget(l.m, a.limit)))
            && (shrunk ==> budget == Budget(0, OutputTarget(l.m, a.limit))) && (!shrunk ==> budget == l.budget)
  {
  }

  /** The request of this turn was sent, and answered with a status. */
  predicate WasAnswered(t: Turn) {
    t.admitted && t.dailyAdmitted && !t.requestFails && t.answer.Status?
  }

  function AfterSending(l: Loop): Loop { l.(sent := l.sent + [Sent(l.current, l.budget)]) }

  lemma SendIs(env: Env, allow: bool, maxRetries: int, l: Loop, t: Turn)
    requires t.admitted && t.dailyAdmitted && !t.requestFails
    ensures Step(env, allow, maxRetries, l, t) == AfterSend(env, allow, maxRetries, AfterSending(l), t)
  {
  }

  predicate WorthRetrying(status: int) {
    status in {401, 403, 404, 408, 413, 429} || status >= 500
  }

  /** The ordinary answers.  The turn ends at once with the answer exactly if the status is not worth another try,
      or the tries are used up, or the model's strategy is to reject, or nothing would be different and there is no
      waiting.  Otherwise there is another: with a smaller budget, with a shorter chat, with the fallback or, after
      waiting unless cancelled, with everything as it was; the first of these that can be. */
  lemma AnswerDecides(env: Env, allow: bool, maxRetries: int, l: Loop, t: Turn)
    requires WasAnswered(t)
    requires t.answer.status == 400 ==> !(env.toolsProfile && t.answer.toolIncompatible && MayMove(allow, l))
    requires t.answer.blockedTool ==> l.compat
    ensures var a, p, sent := t.answer, Step(env, allow, maxRetries, l, t), AfterSending(l);
            var more := WorthRetrying(a.status) && l.attempt < maxRetries && l.m.strategy != "reject";
            && (p == Finished(sent, ModelRecovery.Answered(a.status)) <==>
                !more || (!CutHelps(l, a) && !TrimHelps(l, t) && !MayMove(allow, l) && l.m.backoffMs <= 0))
            && (more && CutHelps(l, a) ==>
                  p == Running(sent.(budget := Budget(0, OutputTarget(l.m, a.limit)), attempt := l.attempt + 1)))
            && (more && !CutHelps(l, a) && TrimHelps(l, t) ==> p == Running(sent.(attempt := l.attempt + 1)))
            && (more && !CutHelps(l, a) && !TrimHelps(l, t) && MayMove(allow, l) ==>
                  p.Running? && MovedOn(env, sent, l.budget, t.pick, p.loop) && p.loop.sent == sent.sent &&
                    p.loop.attempt == l.attempt + 1)
            && (more && !CutHelps(l, a) && !TrimHelps(l, t) && !MayMove(allow, l) && l.m.backoffMs > 0 ==>
                  p == if t.cancelled then Finished(sent, Cancelled) else Running(sent.(attempt := l.attempt + 1)))
  {
    hide Step, Move, Shrink, MovedOn, OutputTarget;
    var sent := AfterSending(l);
    SendIs(env, allow, maxRetries, l, t);
    MayMoveIff(sent, allow);
    if t.answer.limit > 0 { ShrinkIs(sent, t.answer); }
    MoveIs(env, sent, t.pick);
    hide CanFallback;
  }

  /** A blocked tool call is answered once by another try without tools, whatever the tries left. */
  lemma BlockedToolDecides(env: Env, allow: bool, maxRetries: int, l: Loop, t: Turn)
    requires WasAnswered(t) && t.answer.blockedTool && !l.compat &&
             (t.answer.status == 400 || WorthRetrying(t.answer.status))
    requires t.answer.status == 400 ==> !(env.toolsProfile && t.answer.toolIncompatible && MayMove(allow, l))
    ensures Step(env, allow, maxRetries, l, t) == Running(AfterSending(l).(compat := true, attempt := l.attempt + 1))
  {
    hide Move, Shrink;
  }

  /** A model that does not take the profile's tools is left for the fallback while there are tries. */
  lemma IncompatibleDecides(env: Env, allow: bool, maxRetries: int, l: Loop, t: Turn)
    requires WasAnswered(t) && t.answer.status == 400 && env.toolsProfile && t.answer.toolIncompatible
    requires MayMove(allow, l) && l.attempt < maxRetries
    ensures var p := Step(env, allow, maxRetries, l, t);
            p.Running? && MovedOn(env, AfterSending(l), l.budget, t.pick, p.loop) && p.loop.sent == AfterSending(l).sent
            && p.loop.attempt == l.attempt + 1
  {
    hide Move, Shrink, MovedOn;
    MoveIs(env, AfterSending(l), t.pick);
  }

  /** Without an answer there is only the fallback; an answer that cannot be read is the end. */
  lemma NoAnswerDecides(env: Env, allow: bool, maxRetries: int, l: Loop, t: Turn)
    requires t.admitted && t.dailyAdmitted && !t.requestFails && !t.answer.Status?
    ensures var p := Step(env, allow, maxRetries, l, t);
            if t.answer.TransportError? && MayMove(allow, l) && l.attempt < maxRetries then
              && p.Running? && MovedOn(env, AfterSending(l), l.budget, t.pick, p.loop)
              && p.loop.sent == AfterSending(l).sent
              && p.loop.attempt == l.attempt + 1
            else p == Finished(AfterSending(l), if t.answer.TransportError? then Transport else InspectFailed)
  {
    hide Move, Shrink, MovedOn;
    MoveIs(env, AfterSending(l), t.pick);
  }

  /** Before sending: a spent day means the fallback, however many tries were made, or the end; a request that cannot
      be made is the end, and so is a wait that fails.  While the wait for the model is long and shorter at the
      fallback, the turn goes on there. */
  lemma AdmissionDecides(env: Env, allow: bool, maxRetries: int, l: Loop, t: Turn)
    ensures var p := Step(env, allow, maxRetries, l, t);
            var spills := !t.admitted && t.longWait && t.spill && MayMove(allow, l);
            var admitted := if spills then t.fallbackAdmitted else t.admitted;
            exists here: Loop ::
              && here.sent == l.sent && here.attempt == l.attempt
              && (if spills then MovedOn(env, l, l.budget, t.spillPick, here) else here == l)
              && (!admitted && t.waitFails ==> p == Finished(here, WaitFailed))
              && (!(!admitted && t.waitFails) && !t.dailyAdmitted ==>
                    if MayMove(allow, here) then
                      && p.Running? && MovedOn(env, here, here.budget, t.pick, p.loop) && p.loop.sent == l.sent
                      && p.loop.attempt == l.attempt + 1
                    else p == Finished(here, DailyLimit))
              && (!(!admitted && t.waitFails) && t.dailyAdmitted ==>
                    if t.requestFails then p == Finished(here, RequestFailed)
                    else p == Step(env, allow, maxRetries, here, t.(admitted := true)))
  {
    hide Move, Shrink, MovedOn, AfterSend;
    MayMoveIff(l, allow);
    MoveIs(env, l, t.spillPick);
    var here := if !t.admitted && t.longWait && t.spill && MayMove(allow, l) then Move(env, l, t.spillPick) else l;
    MayMoveIff(here, allow);
    MoveIs(env, here, t.pick);
    SameTurn(env, allow, maxRetries, here, t);
    hide CanFallback, MayMove;
    assert here.sent == l.sent && here.attempt == l.attempt;
  }

  lemma SameTurn(env: Env, allow: bool, maxRetries: int, l: Loop, t: Turn)
    ensures AfterSend(env, allow, maxRetries, AfterSending(l), t.(admitted := true)) ==
            AfterSend(env, allow, maxRetries, AfterSending(l), t)
  {
    hide Move, Shrink, CanFallback;
  }

  // ------------------------------------------------------------------ the beginning

  /** The loop starts at the model asked for or, if its circuit is open or its overhead cannot fit, at its fallback;
      the budget is that model's. */
  lemma BeginIs(env: Env, r: Request, circuitOpen: bool, preflight: bool, pick: string, nextPick: string)
    ensures var l := Begin(env, r, circuitOpen, preflight, pick, nextPick);
            var visited := if env.route == "" then r.visited else r.visited + {r.model};
            var allow := !r.image || env.route == "vision";
            exists m: Model ::
              && PreparedFor(env, r.model, visited, pick, m)
              && l.attempt == 0 && l.sent == [] && !l.compat
              && (if allow && m.strategy in {"adaptive", "fallback"} && m.fallback != ""
                     && (preflight || (circuitOpen && m.fallback != r.model)) then
                    && l.current == m.fallback && l.path == [m.fallback]
                    && l.visited == (if env.route == "" then visited else visited + {m.fallback})
                    && PreparedFor(env, m.fallback, l.visited, nextPick, l.m)
                  else l.current == r.model && l.path == [] && l.visited == visited && l.m == m)
              && CappedTo(r.budget, l.m, l.budget)
  {
    hide RuntimeModel, Prepare, PreparedFor, CappedTo, ApplyOutputCap, OutputCap;
    var visited := if env.route == "" then r.visited else r.visited + {r.model};
    var m := Prepare(env, r.model, RuntimeModel(env, r.model), visited, pick);
    PrepareIs(env, r.model, visited, pick);
    PreparedStrategy(env, r.model, visited, pick);
    var l := Loop(r.model, m, r.budget, visited, 0, false, [], []);
    MoveIs(env, l, nextPick);
    var l' := Begin(env, r, circuitOpen, preflight, pick, nextPick);
    CapIs(r.budget, l'.m);
    CapTwice(r.budget, l'.m);
  }

  lemma PreparedStrategy(env: Env, name: string, visited: set<string>, pick: string)
    ensures Prepare(env, name, RuntimeModel(env, name), visited, pick).strategy != ""
  {
  }

  lemma CapTwice(b: Budget, m: Model)
    ensures ApplyOutputCap(ApplyOutputCap(b, OutputCap(m)), OutputCap(m)) == ApplyOutputCap(b, OutputCap(m))
  {
  }

  /** The tries after the first: the model's own number, or one for each further pool candidate if that is more; at
      most four. */
  lemma RetriesAre(env: Env, m: Model)
    ensures var own := if m.maxRetries < 0 then 0 else m.maxRetries;
            var pooled := if env.route != "" && env.candidateCount > 1 then env.candidateCount - 1 else 0;
            MaxRetries(env, m) == if own > 4 || pooled > 4 then 4 else if own > pooled then own else pooled
  {
  }
}
