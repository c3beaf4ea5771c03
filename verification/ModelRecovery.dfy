/** The model recovery loop (cmd/api/model_runtime.go, cmd/api/model_pool.go).

  One turn of the loop is one Step; everything the outside world decides in a turn (admission,
  daily limits, the provider's answer, which pool model is offered) is an arbitrary Turn.  The model
  catalogue and the pool's membership do not change during a run, and names carry no outer blanks.
 */
module ModelRecovery {
  import opened Numbers
  import opened Wrappers

  // ------------------------------------------------------- output budgets

  /** max_tokens and max_completion_tokens of a request body; 0 when absent. */
  datatype Budget = Budget(maxTokens: int, maxCompletion: int)

  datatype Model = Model(fallback: string, strategy: string, maxRetries: int, backoffMs: int, maxOutput: int,
                         otpmLimit: int)

  /** runtimeOutputCap. */
  function OutputCap(m: Model): int {
    if m.otpmLimit > 0 && (m.maxOutput <= 0 || Max(1, m.otpmLimit * 9 / 10) < m.maxOutput)
    then Max(1, m.otpmLimit * 9 / 10) else m.maxOutput
  }

  /** applyModelOutputCap: max_tokens is deleted before its turn to be read comes. */
  function ApplyOutputCap(b: Budget, cap: int): Budget {
    if cap <= 0 then b
    else Budget(0, if 0 < b.maxCompletion < cap then b.maxCompletion else cap)
  }

  /** requestCompletionLimit. */
  function CompletionLimit(b: Budget): int {
    if b.maxCompletion > 0 then b.maxCompletion else Max(0, b.maxTokens)
  }

  /** Capping never raises a budget exactly when the body does not rely on max_tokens alone, or
      relies on one that is at least the cap. */
  lemma CapNeverRaisesIff(b: Budget, cap: int)
    requires cap > 0 && CompletionLimit(b) > 0
    ensures CompletionLimit(ApplyOutputCap(b, cap)) <= CompletionLimit(b) <==> b.maxCompletion > 0 || b.maxTokens >= cap
    ensures 0 < CompletionLimit(ApplyOutputCap(b, cap)) <= cap
  {
  }

  // --------------------------------------------------------- configuration

  /** route is "" when no model pool is in play. */
  datatype Env = Env(catalog: map<string, Model>, members: set<string>, route: string, candidateCount: int,
                     toolsProfile: bool)

  datatype Request = Request(model: string, image: bool, budget: Budget, visited: set<string>)

  /** runtimeModel. */
  function RuntimeModel(env: Env, name: string): Model {
    if name == "" || name !in env.catalog then Model("", "adaptive", 2, 500, 0, 0)
    else
      var m := env.catalog[name];
      if m.strategy == "" then m.(strategy := "adaptive") else m
  }

  /** What selectFreePoolModel may answer: a pool model not yet visited, or nothing. */
  function Offer(env: Env, visited: set<string>, pick: string): string {
    if pick in env.members && pick !in visited then pick else ""
  }

  /** preparePoolFallback, after the current model has been marked visited. */
  function Prepare(env: Env, current: string, m: Model, visited: set<string>, pick: string): Model {
    if env.route == "" then m
    else
      var offer := Offer(env, visited, pick);
      if offer != "" && offer != current then
        m.(fallback := offer,
           strategy := if m.strategy == "" || m.strategy == "reject" || m.strategy == "trim" then "adaptive"
                       else m.strategy)
      else if env.route == "vision" then m.(fallback := "")
      else m
  }

  function Strategy(m: Model): string {
    if m.strategy == "" then "adaptive" else m.strategy
  }

  /** modelCanFallback. */
  predicate CanFallback(m: Model, current: string) {
    (Strategy(m) == "adaptive" || Strategy(m) == "fallback") && m.fallback != "" && m.fallback != current
  }

  predicate AllowFallback(env: Env, request: Request) {
    !request.image || env.route == "vision"
  }

  // -------------------------------------------------------------- the loop

  datatype Sent = Sent(model: string, budget: Budget)

  /** The loop's variables; path lists the models moved to, in order. */
  datatype Loop = Loop(current: string, m: Model, budget: Budget, visited: set<string>, attempt: nat, compat: bool,
                       sent: seq<Sent>, path: seq<string>)

  datatype Answer =
    | TransportError
    | InspectError
    | Status(status: int, toolIncompatible: bool, blockedTool: bool, kind: string, limit: int, requested: int)

  datatype Turn = Turn(admitted: bool, longWait: bool, spill: bool, fallbackAdmitted: bool, waitFails: bool,
                       dailyAdmitted: bool, requestFails: bool, answer: Answer, trimHelps: bool, cancelled: bool,
                       spillPick: string, pick: string)

  datatype Ending =
    | WaitFailed | DailyLimit | RequestFailed | Transport | InspectFailed | Answered(status: int) | Cancelled

  datatype Phase = Running(loop: Loop) | Finished(loop: Loop, ending: Ending)

  predicate Recoverable(status: int) {
    status == 401 || status == 403 || status == 404 || status == 408 || status == 413 || status == 429 || status >= 500
  }

  /** applyFallbackModel. */
  function Move(env: Env, l: Loop, pick: string): Loop {
    var next := l.m.fallback;
    var visited := if env.route == "" then l.visited else l.visited + {next};
    var m := Prepare(env, next, RuntimeModel(env, next), visited, pick);
    l.(current := next, m := m, budget := ApplyOutputCap(l.budget, OutputCap(m)), visited := visited,
       path := l.path + [next])
  }

  function MaxRetries(env: Env, m: Model): nat {
    var own := Max(0, m.maxRetries);
    Min(4, if env.route != "" && env.candidateCount > 1 then Max(own, Min(4, env.candidateCount - 1)) else own)
  }

  /** Everything before the loop: circuit bypass, preflight fallback and the first output cap. */
  function Begin(env: Env, r: Request, circuitOpen: bool, preflight: bool, pick: string, nextPick: string): Loop {
    var visited := if env.route == "" then r.visited else r.visited + {r.model};
    var m := Prepare(env, r.model, RuntimeModel(env, r.model), visited, pick);
    var l := Loop(r.model, m, r.budget, visited, 0, false, [], []);
    var bypass := AllowFallback(env, r) && circuitOpen && CanFallback(m, r.model);
    // the preflight test reads m's own strategy and does not exclude a fallback to itself
    var ahead := AllowFallback(env, r) && preflight && m.fallback != "" &&
      (m.strategy == "adaptive" || m.strategy == "fallback");
    var moved := if bypass || ahead then Move(env, l, nextPick) else l;
    moved.(budget := ApplyOutputCap(if bypass then moved.budget else r.budget, OutputCap(moved.m)))
  }

  /** The output-tokens-per-minute recovery: a smaller budget, if that helps. */
  function Shrink(l: Loop, limit: int, requested: int): (Budget, bool) {
    var limitOf := CompletionLimit(l.budget);
    var before := if limitOf <= 0 then requested else limitOf;
    var ninety := Max(1, limit * 9 / 10);
    var target := if 0 < l.m.maxOutput < ninety then l.m.maxOutput else ninety;
    if before <= 0 || before > target then
      var budget := ApplyOutputCap(l.budget, target);
      var after := CompletionLimit(budget);
      (budget, after > 0 && (before <= 0 || after < before))
    else (l.budget, false)
  }

  function Again(l: Loop): Phase {
    Running(l.(attempt := l.attempt + 1))
  }

  /** The provider answered with a recoverable failure that has not used its compatibility retry. */
  function Recover(env: Env, allow: bool, maxRetries: int, l: Loop, t: Turn): Phase
    requires t.answer.Status?
  {
    var a := t.answer;
    if l.attempt >= maxRetries || Strategy(l.m) == "reject" then Finished(l, Answered(a.status))
    else
      var (budget, shrunk) := if a.status == 429 && a.kind == "otpm" && a.limit > 0 then Shrink(l, a.limit, a.requested)
                              else (l.budget, false);
      var l1 := l.(budget := budget);
      var trimmed := a.status == 429 && !shrunk && (Strategy(l.m) == "adaptive" || Strategy(l.m) == "trim")
                     && (a.kind == "itpm" || a.kind == "tpm") && t.trimHelps;
      if shrunk || trimmed then Again(l1)
      else if allow && CanFallback(l.m, l.current) then Again(Move(env, l1, t.pick))
      else if l.m.backoffMs <= 0 then Finished(l1, Answered(a.status))
      else if t.cancelled then Finished(l1, Cancelled)
      else Again(l1)
  }

  function AfterSend(env: Env, allow: bool, maxRetries: int, l: Loop, t: Turn): Phase {
    var mayMove := allow && l.attempt < maxRetries && Strategy(l.m) != "reject" && CanFallback(l.m, l.current);
    match t.answer
    case TransportError => if mayMove then Again(Move(env, l, t.pick)) else Finished(l, Transport)
    case InspectError => Finished(l, InspectFailed)
    case Status(status, toolIncompatible, blockedTool, _, _, _) =>
      if status == 400 && env.toolsProfile && toolIncompatible && mayMove then Again(Move(env, l, t.pick))
      else if (status == 400 || Recoverable(status)) && blockedTool && !l.compat then Again(l.(compat := true))
      else if !Recoverable(status) then Finished(l, Answered(status))
      else Recover(env, allow, maxRetries, l, t)
  }

  /** What reading an answer can lead to. */
  ghost predicate Follows(env: Env, allow: bool, maxRetries: int, l: Loop, t: Turn, p: Phase) {
    var b := if t.answer.Status? then Shrink(l, t.answer.limit, t.answer.requested).0 else l.budget;
    match p
    case Finished(l', _) => l' == l || l' == l.(budget := b)
    case Running(l') =>
      || (!l.compat && l' == l.(compat := true, attempt := l.attempt + 1))
      || (l.attempt < maxRetries &&
          (l' == l.(attempt := l.attempt + 1) || l' == l.(budget := b, attempt := l.attempt + 1)))
      || (l.attempt < maxRetries && allow && CanFallback(l.m, l.current)
          && (Running(l') == Again(Move(env, l, t.pick)) || Running(l') == Again(Move(env, l.(budget := b), t.pick))))
  }

  lemma AfterSendFollows(env: Env, allow: bool, maxRetries: int, l: Loop, t: Turn)
    ensures Follows(env, allow, maxRetries, l, t, AfterSend(env, allow, maxRetries, l, t))
  {
    hide Move, Shrink, CanFallback, Recoverable, Strategy;
  }

  function Step(env: Env, allow: bool, maxRetries: int, l: Loop, t: Turn): Phase {
    var spills := !t.admitted && allow && CanFallback(l.m, l.current) && t.longWait && t.spill;
    var l1 := if spills then Move(env, l, t.spillPick) else l;
    var admitted := if spills then t.fallbackAdmitted else t.admitted;
    if !admitted && t.waitFails then Finished(l1, WaitFailed)
    else if !t.dailyAdmitted then
      if allow && CanFallback(l1.m, l1.current) then Again(Move(env, l1, t.pick)) else Finished(l1, DailyLimit)
    else if t.requestFails then Finished(l1, RequestFailed)
    else AfterSend(env, allow, maxRetries, l1.(sent := l1.sent + [Sent(l1.current, l1.budget)]), t)
  }

  /** The phase after at most n turns. */
  function Run(env: Env, allow: bool, maxRetries: int, start: Loop, turns: nat -> Turn, n: nat): Phase {
    if n == 0 then Running(start)
    else
      match Run(env, allow, maxRetries, start, turns, n - 1)
      case Finished(l, e) => Finished(l, e)
      case Running(l) => Step(env, allow, maxRetries, l, turns(n - 1))
  }

  // ------------------------------------------------------- how many requests

  ghost predicate SendBound(maxRetries: int, l: Loop) {
    |l.sent| <= Min(l.attempt, maxRetries) + (if l.compat then 1 else 0)
  }

  /** What a turn keeps or counts, whatever it decides after sending. */
  ghost predicate SameCounts(l: Loop, l': Loop) {
    l'.sent == l.sent && l'.attempt == l.attempt && l'.compat == l.compat
  }

  lemma MoveKeeps(env: Env, l: Loop, pick: string)
    ensures SameCounts(l, Move(env, l, pick))
  {
  }

  lemma AfterSendCounts(env: Env, allow: bool, maxRetries: int, l: Loop, t: Turn)
    ensures var p := AfterSend(env, allow, maxRetries, l, t);
            && p.loop.sent == l.sent
            && (p.Running? ==> p.loop.attempt == l.attempt + 1)
            && (p.Running? ==> (l.attempt < maxRetries && p.loop.compat == l.compat) || (!l.compat && p.loop.compat))
  {
    hide Move, CanFallback, Shrink;
    MoveKeeps(env, l, t.pick);
    if t.answer.Status? {
      var (budget, _) := Shrink(l, t.answer.limit, t.answer.requested);
      MoveKeeps(env, l.(budget := budget), t.pick);
    }
  }

  lemma StepSends(env: Env, allow: bool, maxRetries: int, l: Loop, t: Turn)
    requires maxRetries >= 0 && SendBound(maxRetries, l)
    ensures var p := Step(env, allow, maxRetries, l, t);
            && (p.Running? ==> SendBound(maxRetries, p.loop))
            && |p.loop.sent| <= maxRetries + 2
  {
    hide Move, CanFallback, AfterSend;
    MoveKeeps(env, l, t.spillPick);
    var l1 := if !t.admitted && allow && CanFallback(l.m, l.current) && t.longWait && t.spill
              then Move(env, l, t.spillPick) else l;
    MoveKeeps(env, l1, t.pick);
    AfterSendCounts(env, allow, maxRetries, l1.(sent := l1.sent + [Sent(l1.current, l1.budget)]), t);
  }

  lemma {:induction false} RunSends(env: Env, allow: bool, maxRetries: int, start: Loop, turns: nat -> Turn, n: nat)
    requires maxRetries >= 0 && SendBound(maxRetries, start)
    ensures var p := Run(env, allow, maxRetries, start, turns, n);
            && (p.Running? ==> SendBound(maxRetries, p.loop))
            && |p.loop.sent| <= maxRetries + 2
  {
    if n > 0 {
      RunSends(env, allow, maxRetries, start, turns, n - 1);
      var p := Run(env, allow, maxRetries, start, turns, n - 1);
      if p.Running? { StepSends(env, allow, maxRetries, p.loop, turns(n - 1)); }
    }
  }

  /** However the world answers, a request is sent upstream at most maxRetries + 2 times, hence at most 6. */
  lemma AtMostSixRequests(env: Env, r: Request, circuitOpen: bool, preflight: bool, pick: string, nextPick: string,
                          turns: nat -> Turn, n: nat)
    ensures var start := Begin(env, r, circuitOpen, preflight, pick, nextPick);
            var maxRetries := MaxRetries(env, start.m);
            |Run(env, AllowFallback(env, r), maxRetries, start, turns, n).loop.sent| <= maxRetries + 2 <= 6
  {
    var start := Begin(env, r, circuitOpen, preflight, pick, nextPick);
    BeginCounts(env, r, circuitOpen, preflight, pick, nextPick);
    RunSends(env, AllowFallback(env, r), MaxRetries(env, start.m), start, turns, n);
  }

  lemma BeginCounts(env: Env, r: Request, circuitOpen: bool, preflight: bool, pick: string, nextPick: string)
    ensures var start := Begin(env, r, circuitOpen, preflight, pick, nextPick);
            start.sent == [] && start.attempt == 0 && !start.compat
  {
  }

  // The bound is reached: a provider that always fails with 500, and reports a blocked tool call
  // once the ordinary retries are spent.

  function Stubborn(maxRetries: nat): nat -> Turn {
    (k: nat) => Turn(true, false, false, false, false, true, false, Status(500, false, k == maxRetries, "", 0, 0),
                     false, false, "", "")
  }

  /** A catalogue of one model without a fallback, and a request for it. */
  function LoneEnv(maxRetries: nat): Env {
    Env(map["a" := Model("", "adaptive", maxRetries, 1, 0, 0)], {}, "", 0, false)
  }

  const LONE_REQUEST := Request("a", false, Budget(0, 0), {})

  function Lone(maxRetries: nat): Loop { Begin(LoneEnv(maxRetries), LONE_REQUEST, false, false, "", "") }

  lemma LoneLoop(maxRetries: nat)
    ensures Lone(maxRetries) ==
            Loop("a", Model("", "adaptive", maxRetries, 1, 0, 0), Budget(0, 0), {}, 0, false, [], [])
    ensures MaxRetries(LoneEnv(maxRetries), Lone(maxRetries).m) == Min(4, maxRetries)
  {
  }

  lemma {:induction false} StubbornRetries(env: Env, maxRetries: nat, n: nat)
    requires n <= maxRetries
    ensures var p := Run(env, true, maxRetries, Lone(maxRetries), Stubborn(maxRetries), n);
            && p.Running? && p.loop == Lone(maxRetries).(attempt := n, sent := p.loop.sent) && |p.loop.sent| == n
  {
    LoneLoop(maxRetries);
    hide Lone;
    if n > 0 { StubbornRetries(env, maxRetries, n - 1); }
  }

  /** Every bound up to six requests is reached, by a request for the only model of the catalogue. */
  lemma SendBoundIsReached(maxRetries: nat)
    requires maxRetries <= 4
    ensures var env := LoneEnv(maxRetries);
            var start := Begin(env, LONE_REQUEST, false, false, "", "");
            var p := Run(env, AllowFallback(env, LONE_REQUEST), MaxRetries(env, start.m), start, Stubborn(maxRetries),
                         maxRetries + 2);
            MaxRetries(env, start.m) == maxRetries && p.Finished? && |p.loop.sent| == maxRetries + 2
  {
    var env, l, turns := LoneEnv(maxRetries), Lone(maxRetries), Stubborn(maxRetries);
    LoneLoop(maxRetries);
    StubbornRetries(env, maxRetries, maxRetries);
    hide Lone, Begin;
    var p := Run(env, true, maxRetries, l, turns, maxRetries);
    var p1 := Run(env, true, maxRetries, l, turns, maxRetries + 1);
    assert p1 == Step(env, true, maxRetries, p.loop, turns(maxRetries));
    assert p1 == Running(p.loop.(attempt := maxRetries + 1, compat := true,
                                 sent := p.loop.sent + [Sent("a", Budget(0, 0))]));
    var p2 := Run(env, true, maxRetries, l, turns, maxRetries + 2);
    assert p2 == Step(env, true, maxRetries, p1.loop, turns(maxRetries + 1));
  }

  // --------------------------------------------------- images stay in the pool

  /** Without leave to fall back, nothing ever moves. */
  ghost predicate Stays(model: string, l: Loop) {
    l.current == model && l.path == [] && forall k | 0 <= k < |l.sent| :: l.sent[k].model == model
  }

  lemma StepStays(env: Env, maxRetries: int, model: string, l: Loop, t: Turn)
    requires Stays(model, l)
    ensures Stays(model, Step(env, false, maxRetries, l, t).loop)
  {
    hide Move, CanFallback, Shrink;
  }

  lemma {:induction false} RunStays(env: Env, maxRetries: int, model: string, start: Loop, turns: nat -> Turn, n: nat)
    requires Stays(model, start)
    ensures Stays(model, Run(env, false, maxRetries, start, turns, n).loop)
  {
    if n > 0 {
      RunStays(env, maxRetries, model, start, turns, n - 1);
      var p := Run(env, false, maxRetries, start, turns, n - 1);
      if p.Running? { StepStays(env, maxRetries, model, p.loop, turns(n - 1)); }
    }
  }

  /** On the vision route: every move went to a pool model that nothing had visited before. */
  ghost predicate Confined(env: Env, r: Request, l: Loop) {
    && (l.current == r.model || l.current in env.members)
    && (forall k | 0 <= k < |l.sent| :: l.sent[k].model == r.model || l.sent[k].model in env.members)
    && (l.m.fallback == "" || (l.m.fallback in env.members && l.m.fallback !in l.visited))
    && r.visited + {r.model} <= l.visited
    && (forall k | 0 <= k < |l.path| ::
          l.path[k] in env.members && l.path[k] in l.visited && l.path[k] !in r.visited && l.path[k] != r.model)
    && (forall j, k | 0 <= j < k < |l.path| :: l.path[j] != l.path[k])
  }

  lemma MoveConfined(env: Env, r: Request, l: Loop, pick: string)
    requires env.route == "vision" && Confined(env, r, l) && l.m.fallback != ""
    ensures Confined(env, r, Move(env, l, pick))
  {
    hide ApplyOutputCap, RuntimeModel;
  }

  lemma AfterSendConfined(env: Env, maxRetries: int, r: Request, l: Loop, t: Turn)
    requires env.route == "vision" && Confined(env, r, l)
    ensures Confined(env, r, AfterSend(env, true, maxRetries, l, t).loop)
  {
    AfterSendFollows(env, true, maxRetries, l, t);
    hide Move, Shrink, AfterSend;
    if l.m.fallback != "" {
      MoveConfined(env, r, l, t.pick);
      if t.answer.Status? {
        var (budget, _) := Shrink(l, t.answer.limit, t.answer.requested);
        MoveConfined(env, r, l.(budget := budget), t.pick);
      }
    }
  }

  lemma StepConfined(env: Env, maxRetries: int, r: Request, l: Loop, t: Turn)
    requires env.route == "vision" && Confined(env, r, l)
    ensures Confined(env, r, Step(env, true, maxRetries, l, t).loop)
  {
    hide Move, AfterSend;
    var spills := !t.admitted && CanFallback(l.m, l.current) && t.longWait && t.spill;
    if spills { MoveConfined(env, r, l, t.spillPick); }
    var l1 := if spills then Move(env, l, t.spillPick) else l;
    if l1.m.fallback != "" { MoveConfined(env, r, l1, t.pick); }
    AfterSendConfined(env, maxRetries, r, l1.(sent := l1.sent + [Sent(l1.current, l1.budget)]), t);
  }

  lemma {:induction false} RunConfined(env: Env, maxRetries: int, r: Request, start: Loop, turns: nat -> Turn, n: nat)
    requires env.route == "vision" && Confined(env, r, start)
    ensures Confined(env, r, Run(env, true, maxRetries, start, turns, n).loop)
  {
    hide Confined, Step;
    if n > 0 {
      RunConfined(env, maxRetries, r, start, turns, n - 1);
      var p := Run(env, true, maxRetries, start, turns, n - 1);
      if p.Running? { StepConfined(env, maxRetries, r, p.loop, turns(n - 1)); }
    }
  }

  lemma BeginConfined(env: Env, r: Request, circuitOpen: bool, preflight: bool, pick: string, nextPick: string)
    requires env.route == "vision"
    ensures Confined(env, r, Begin(env, r, circuitOpen, preflight, pick, nextPick))
  {
    hide Move, ApplyOutputCap, RuntimeModel;
    var visited := r.visited + {r.model};
    var l := Loop(r.model, Prepare(env, r.model, RuntimeModel(env, r.model), visited, pick), r.budget, visited, 0,
                  false, [], []);
    assert Confined(env, r, l);
    if l.m.fallback != "" { MoveConfined(env, r, l, nextPick); }
  }

  /** Image confinement over whole runs.  A request with an image goes only to its starting model, or,
      on the vision route, only to that model and the vision pool; there (for any request) the models
      moved to are all different, and none was visited before the run began. */
  lemma ImagesStayConfined(env: Env, r: Request, circuitOpen: bool, preflight: bool, pick: string, nextPick: string,
                           turns: nat -> Turn, n: nat)
    ensures var start := Begin(env, r, circuitOpen, preflight, pick, nextPick);
            var l := Run(env, AllowFallback(env, r), MaxRetries(env, start.m), start, turns, n).loop;
            && (r.image && env.route != "vision" ==> forall k | 0 <= k < |l.sent| :: l.sent[k].model == r.model)
            && (env.route == "vision" ==>
                  && (forall k | 0 <= k < |l.sent| :: l.sent[k].model == r.model || l.sent[k].model in env.members)
                  && (forall j, k | 0 <= j < k < |l.path| :: l.path[j] != l.path[k])
                  && (forall k | 0 <= k < |l.path| ::
                        l.path[k] in env.members && l.path[k] !in r.visited && l.path[k] != r.model))
  {
    hide Begin, Run, MaxRetries;
    var start := Begin(env, r, circuitOpen, preflight, pick, nextPick);
    if env.route == "vision" {
      BeginConfined(env, r, circuitOpen, preflight, pick, nextPick);
      RunConfined(env, MaxRetries(env, start.m), r, start, turns, n);
    } else if r.image {
      BeginStays(env, r, circuitOpen, preflight, pick, nextPick);
      RunStays(env, MaxRetries(env, start.m), r.model, start, turns, n);
    }
  }

  lemma BeginStays(env: Env, r: Request, circuitOpen: bool, preflight: bool, pick: string, nextPick: string)
    requires !AllowFallback(env, r)
    ensures Stays(r.model, Begin(env, r, circuitOpen, preflight, pick, nextPick))
  {
  }

  // ------------------------------------------------------------ output budgets

  /** The cap of a model does not depend on what the pool did to its fallback. */
  function CapOf(env: Env, name: string): int {
    OutputCap(RuntimeModel(env, name))
  }

  predicate Fits(env: Env, name: string, b: Budget) {
    CapOf(env, name) > 0 ==> 0 < b.maxCompletion <= CapOf(env, name)
  }

  /** Budgets fit the model they go to, and never grow once the body states max_completion_tokens. */
  ghost predicate Budgeted(env: Env, r: Request, l: Loop) {
    && OutputCap(l.m) == CapOf(env, l.current) && Fits(env, l.current, l.budget)
    && (forall k | 0 <= k < |l.sent| :: Fits(env, l.sent[k].model, l.sent[k].budget))
    && (r.budget.maxCompletion > 0 ==>
          && 0 < l.budget.maxCompletion <= r.budget.maxCompletion
          && (forall k | 0 <= k < |l.sent| ::
                l.budget.maxCompletion <= l.sent[k].budget.maxCompletion <= r.budget.maxCompletion)
          && (forall j, k | 0 <= j < k < |l.sent| :: l.sent[k].budget.maxCompletion <= l.sent[j].budget.maxCompletion))
  }

  lemma PrepareKeepsCap(env: Env, current: string, m: Model, visited: set<string>, pick: string)
    ensures OutputCap(Prepare(env, current, m, visited, pick)) == OutputCap(m)
  {
  }

  lemma MoveBudgeted(env: Env, r: Request, l: Loop, pick: string)
    requires Budgeted(env, r, l)
    ensures Budgeted(env, r, Move(env, l, pick))
  {
    hide Prepare, OutputCap, RuntimeModel;
    var visited := if env.route == "" then l.visited else l.visited + {l.m.fallback};
    PrepareKeepsCap(env, l.m.fallback, RuntimeModel(env, l.m.fallback), visited, pick);
  }

  lemma ShrinkBudgeted(env: Env, r: Request, l: Loop, limit: int, requested: int)
    requires Budgeted(env, r, l)
    ensures Budgeted(env, r, l.(budget := Shrink(l, limit, requested).0))
  {
    hide OutputCap, RuntimeModel;
  }

  lemma AfterSendBudgeted(env: Env, allow: bool, maxRetries: int, r: Request, l: Loop, t: Turn)
    requires Budgeted(env, r, l)
    ensures Budgeted(env, r, AfterSend(env, allow, maxRetries, l, t).loop)
  {
    AfterSendFollows(env, allow, maxRetries, l, t);
    hide Move, Shrink, CanFallback, OutputCap, RuntimeModel, CapOf, Fits, AfterSend;
    MoveBudgeted(env, r, l, t.pick);
    if t.answer.Status? {
      ShrinkBudgeted(env, r, l, t.answer.limit, t.answer.requested);
      MoveBudgeted(env, r, l.(budget := Shrink(l, t.answer.limit, t.answer.requested).0), t.pick);
    }
  }

  lemma StepBudgeted(env: Env, allow: bool, maxRetries: int, r: Request, l: Loop, t: Turn)
    requires Budgeted(env, r, l)
    ensures Budgeted(env, r, Step(env, allow, maxRetries, l, t).loop)
  {
    hide Move, AfterSend, CanFallback, OutputCap, RuntimeModel, CapOf, Fits;
    MoveBudgeted(env, r, l, t.spillPick);
    var l1 := if !t.admitted && allow && CanFallback(l.m, l.current) && t.longWait && t.spill
              then Move(env, l, t.spillPick) else l;
    MoveBudgeted(env, r, l1, t.pick);
    AfterSendBudgeted(env, allow, maxRetries, r, l1.(sent := l1.sent + [Sent(l1.current, l1.budget)]), t);
  }

  lemma {:induction false} RunBudgeted(env: Env, allow: bool, maxRetries: int, r: Request, start: Loop,
                                       turns: nat -> Turn, n: nat)
    requires Budgeted(env, r, start)
    ensures Budgeted(env, r, Run(env, allow, maxRetries, start, turns, n).loop)
  {
    hide Budgeted, Step;
    if n > 0 {
      RunBudgeted(env, allow, maxRetries, r, start, turns, n - 1);
      var p := Run(env, allow, maxRetries, start, turns, n - 1);
      if p.Running? { StepBudgeted(env, allow, maxRetries, r, p.loop, turns(n - 1)); }
    }
  }

  lemma BeginBudgeted(env: Env, r: Request, circuitOpen: bool, preflight: bool, pick: string, nextPick: string)
    ensures Budgeted(env, r, Begin(env, r, circuitOpen, preflight, pick, nextPick))
  {
    hide Prepare, OutputCap, RuntimeModel, CanFallback, AllowFallback;
    var visited := if env.route == "" then r.visited else r.visited + {r.model};
    var m := Prepare(env, r.model, RuntimeModel(env, r.model), visited, pick);
    PrepareKeepsCap(env, r.model, RuntimeModel(env, r.model), visited, pick);
    var visited' := if env.route == "" then visited else visited + {m.fallback};
    PrepareKeepsCap(env, m.fallback, RuntimeModel(env, m.fallback), visited', nextPick);
  }

  /** Every request sent stays within its own model's output cap; and if the caller stated
      max_completion_tokens, budgets start at most there and only go down from send to send. */
  lemma SentBudgetsFit(env: Env, r: Request, circuitOpen: bool, preflight: bool, pick: string, nextPick: string,
                       turns: nat -> Turn, n: nat)
    ensures var start := Begin(env, r, circuitOpen, preflight, pick, nextPick);
            var l := Run(env, AllowFallback(env, r), MaxRetries(env, start.m), start, turns, n).loop;
            && (forall k | 0 <= k < |l.sent| :: CapOf(env, l.sent[k].model) > 0 ==>
                  0 < CompletionLimit(l.sent[k].budget) <= CapOf(env, l.sent[k].model))
            && (r.budget.maxCompletion > 0 ==>
                  && (forall k | 0 <= k < |l.sent| :: 0 < l.sent[k].budget.maxCompletion <= r.budget.maxCompletion)
                  && (forall j, k | 0 <= j < k < |l.sent| ::
                        l.sent[k].budget.maxCompletion <= l.sent[j].budget.maxCompletion))
  {
    hide Begin, Run, MaxRetries, CapOf, OutputCap;
    var start := Begin(env, r, circuitOpen, preflight, pick, nextPick);
    BeginBudgeted(env, r, circuitOpen, preflight, pick, nextPick);
    RunBudgeted(env, AllowFallback(env, r), MaxRetries(env, start.m), r, start, turns, n);
  }

  // -------------------------------------------------------------- termination

  /** n configured fallbacks can be followed one after another from name. */
  ghost predicate Chain(env: Env, name: string, n: nat)
    decreases n
  {
    n > 0 ==> CanFallback(RuntimeModel(env, name), name) && Chain(env, RuntimeModel(env, name).fallback, n - 1)
  }

  ghost predicate Ends(env: Env, name: string) { exists n: nat :: !Chain(env, name, n) }

  /** A loop that can move moves to a model whose chain ends, and so does that of every pool model left to offer;
      on the vision route only pool models are moved to at all. */
  ghost predicate ChainsEnd(env: Env, l: Loop) {
    env.route != "vision" && CanFallback(l.m, l.current) ==>
      Ends(env, l.m.fallback) && (env.route != "" ==> forall p | p in env.members && p !in l.visited :: Ends(env, p))
  }

  /** The same with every chain shorter than depth. */
  ghost predicate Bounded(env: Env, depth: nat, l: Loop) {
    && Prepared(env, l)
    && (env.route != "vision" && CanFallback(l.m, l.current) ==>
          && !Chain(env, l.m.fallback, depth)
          && (l.m == RuntimeModel(env, l.current) ==> !Chain(env, l.current, depth))
          && (env.route != "" ==> forall p | p in env.members && p !in l.visited :: !Chain(env, p, depth)))
  }

  /** A fallback is an unvisited pool model, or the one configured, or none. */
  ghost predicate Prepared(env: Env, l: Loop) {
    || l.m.fallback == ""
    || (env.route != "" && l.m.fallback in env.members && l.m.fallback !in l.visited)
    || (env.route != "vision" && l.m == RuntimeModel(env, l.current))
  }

  function Unvisited(env: Env, l: Loop): nat { |env.members - l.visited| }

  function Left(maxRetries: int, l: Loop): nat { if l.attempt < maxRetries then maxRetries - l.attempt else 0 }

  /** How much of a name's chain lies within depth. */
  function ChainLength(env: Env, name: string, depth: nat): (n: nat)
    ensures n <= depth
    decreases depth
  {
    if depth > 0 && CanFallback(RuntimeModel(env, name), name)
    then 1 + ChainLength(env, RuntimeModel(env, name).fallback, depth - 1) else 0
  }

  /** The lexicographic measure: unvisited pool models, chain length, attempts left, the compatibility retry. */
  ghost predicate Lower(env: Env, depth: nat, maxRetries: int, l': Loop, l: Loop) {
    || MovedLower(env, depth, l', l)
    || (Unvisited(env, l') == Unvisited(env, l) &&
        ChainLength(env, l'.current, depth) == ChainLength(env, l.current, depth)
        && (Left(maxRetries, l') < Left(maxRetries, l)
            || (Left(maxRetries, l') == Left(maxRetries, l) && l'.compat && !l.compat)))
  }

  ghost predicate MovedLower(env: Env, depth: nat, l': Loop, l: Loop) {
    || Unvisited(env, l') < Unvisited(env, l)
    || (Unvisited(env, l') == Unvisited(env, l) &&
        ChainLength(env, l'.current, depth) < ChainLength(env, l.current, depth))
  }

  lemma {:induction false} ChainShorter(env: Env, name: string, n: nat, k: nat)
    requires Chain(env, name, n) && k <= n
    ensures Chain(env, name, k)
    decreases k
  {
    if k > 0 { ChainShorter(env, RuntimeModel(env, name).fallback, n - 1, k - 1); }
  }

  lemma {:induction false} EndedChainLength(env: Env, name: string, depth: nat)
    requires !Chain(env, name, depth)
    ensures ChainLength(env, name, depth + 1) == ChainLength(env, name, depth)
    decreases depth
  {
    if CanFallback(RuntimeModel(env, name), name) {
      EndedChainLength(env, RuntimeModel(env, name).fallback, depth - 1);
    }
  }

  /** Following a configured fallback shortens what is left of the chain. */
  lemma ChainStep(env: Env, name: string, depth: nat)
    requires !Chain(env, name, depth) && CanFallback(RuntimeModel(env, name), name)
    ensures var next := RuntimeModel(env, name).fallback;
            !Chain(env, next, depth) && ChainLength(env, next, depth) < ChainLength(env, name, depth)
  {
    var next := RuntimeModel(env, name).fallback;
    EndedChainLength(env, next, depth - 1);
    if Chain(env, next, depth) { ChainShorter(env, next, depth, depth - 1); }
  }

  lemma VisitShrinks(members: set<string>, visited: set<string>, next: string)
    ensures |members - (visited + {next})| <= |members - visited|
    ensures next in members && next !in visited ==> |members - (visited + {next})| < |members - visited|
  {
    var before, after := members - visited, members - (visited + {next});
    if next in before {
      assert before == after + {next};
    } else {
      assert before == after;
    }
  }

  lemma MoveLowers(env: Env, depth: nat, l: Loop, pick: string)
    requires Bounded(env, depth, l) && CanFallback(l.m, l.current)
    ensures MovedLower(env, depth, Move(env, l, pick), l) && Bounded(env, depth, Move(env, l, pick))
  {
    hide ApplyOutputCap, OutputCap, ChainLength, Chain, RuntimeModel;
    VisitShrinks(env.members, l.visited, l.m.fallback);
    var next := l.m.fallback;
    if env.route != "vision" {
      if l.m == RuntimeModel(env, l.current) { ChainStep(env, l.current, depth); }
      if CanFallback(RuntimeModel(env, next), next) { ChainStep(env, next, depth); }
    }
  }

  lemma AfterSendLowers(env: Env, allow: bool, maxRetries: int, depth: nat, l: Loop, t: Turn)
    requires allow ==> Bounded(env, depth, l)
    ensures var p := AfterSend(env, allow, maxRetries, l, t);
            p.Running? ==> (allow ==> Bounded(env, depth, p.loop)) && Lower(env, depth, maxRetries, p.loop, l)
  {
    AfterSendFollows(env, allow, maxRetries, l, t);
    hide Move, Shrink, CanFallback, Chain, ChainLength, RuntimeModel, AfterSend;
    if allow && CanFallback(l.m, l.current) {
      MoveLowers(env, depth, l, t.pick);
      if t.answer.Status? {
        var (budget, _) := Shrink(l, t.answer.limit, t.answer.requested);
        MoveLowers(env, depth, l.(budget := budget), t.pick);
      }
    }
  }

  lemma StepLowers(env: Env, allow: bool, maxRetries: int, depth: nat, l: Loop, t: Turn)
    requires allow ==> Bounded(env, depth, l)
    ensures var p := Step(env, allow, maxRetries, l, t);
            p.Running? ==> (allow ==> Bounded(env, depth, p.loop)) && Lower(env, depth, maxRetries, p.loop, l)
  {
    hide Move, AfterSend, CanFallback, Chain, ChainLength, RuntimeModel;
    var spills := !t.admitted && allow && CanFallback(l.m, l.current) && t.longWait && t.spill;
    if spills { MoveLowers(env, depth, l, t.spillPick); }
    var l1 := if spills then Move(env, l, t.spillPick) else l;
    if allow && CanFallback(l1.m, l1.current) { MoveLowers(env, depth, l1, t.pick); }
    MoveKeeps(env, l, t.spillPick);
    AfterSendLowers(env, allow, maxRetries, depth, l1.(sent := l1.sent + [Sent(l1.current, l1.budget)]), t);
  }

  lemma BeginPrepared(env: Env, r: Request, circuitOpen: bool, preflight: bool, pick: string, nextPick: string)
    ensures Prepared(env, Begin(env, r, circuitOpen, preflight, pick, nextPick))
  {
    hide ApplyOutputCap, OutputCap;
  }

  lemma {:induction false} UniformDepth(env: Env, names: set<string>) returns (depth: nat)
    requires forall p | p in names :: Ends(env, p)
    ensures forall p | p in names :: !Chain(env, p, depth)
    decreases |names|
  {
    hide Chain;
    if names == {} {
      depth := 0;
    } else {
      var p :| p in names;
      var n: nat :| !Chain(env, p, n);
      var rest := UniformDepth(env, names - {p});
      depth := Max(n, rest);
      forall q | q in names ensures !Chain(env, q, depth) {
        if Chain(env, q, depth) { ChainShorter(env, q, depth, if q == p then n else rest); }
      }
    }
  }

  lemma ChainsEndWithin(env: Env, l: Loop) returns (depth: nat)
    requires Prepared(env, l) && ChainsEnd(env, l)
    ensures Bounded(env, depth, l)
  {
    hide Chain, RuntimeModel;
    depth := 0;
    if env.route != "vision" && CanFallback(l.m, l.current) {
      var names := if env.route == "" then {l.m.fallback} else {l.m.fallback} + (env.members - l.visited);
      var n := UniformDepth(env, names);
      depth := n + 1;
      forall p | p in names ensures !Chain(env, p, depth) {
        if Chain(env, p, depth) { ChainShorter(env, p, depth, n); }
      }
      if l.m == RuntimeModel(env, l.current) { LongerChain(env, l.current, depth); }
    }
  }

  lemma LongerChain(env: Env, name: string, n: nat)
    requires n > 0 && !Chain(env, RuntimeModel(env, name).fallback, n - 1)
    ensures !Chain(env, name, n)
  {
  }

  /** The run has ended, with these results. */
  ghost predicate Ended(env: Env, r: Request, start: Loop, turns: nat -> Turn, sent: seq<Sent>, current: string,
                        budget: Budget, ending: Ending)
  {
    exists n, l ::
      && Run(env, AllowFallback(env, r), MaxRetries(env, start.m), start, turns, n) == Finished(l, ending)
      && l.sent == sent && l.current == current && l.budget == budget
  }

  /** applyFallbackModel, on the loop's own variables. */
  method ApplyFallbackModel(env: Env, m: Model, budget: Budget, visited: set<string>, path: seq<string>, pick: string,
                            ghost l: Loop)
    returns (current': string, m': Model, budget': Budget, visited': set<string>, path': seq<string>)
    requires l.m == m && l.budget == budget && l.visited == visited && l.path == path
    ensures Move(env, l, pick) ==
            l.(current := current', m := m', budget := budget', visited := visited', path := path')
  {
    current' := m.fallback;
    visited' := visited;
    m' := RuntimeModel(env, current');
    if env.route != "" {
      visited' := visited' + {current'};
      m' := Prepare(env, current', m', visited', pick);
    }
    budget' := ApplyOutputCap(budget, OutputCap(m'));
    path' := path + [current'];
  }

  /** One pass of the loop body, deciding in the order the body decides. */
  method TakeTurn(env: Env, allow: bool, maxRetries: int, l: Loop, t: Turn) returns (phase: Phase)
    ensures phase == Step(env, allow, maxRetries, l, t)
  {
    hide Move, CanFallback, Shrink, ApplyOutputCap, RuntimeModel, Prepare, Recoverable;
    var current, m, budget, visited, sent, path := l.current, l.m, l.budget, l.visited, l.sent, l.path;
    var admitted := t.admitted;
    if !admitted && allow && CanFallback(m, current) && t.longWait {
      if t.spill {
        current, m, budget, visited, path := ApplyFallbackModel(env, m, budget, visited, path, t.spillPick, l);
        admitted := t.fallbackAdmitted;
      }
    }
    var here := Loop(current, m, budget, visited, l.attempt, l.compat, sent, path);
    assert here == if !t.admitted && allow && CanFallback(l.m, l.current) && t.longWait && t.spill
                   then Move(env, l, t.spillPick) else l
      by { MoveKeeps(env, l, t.spillPick); }
    if !admitted && t.waitFails { return Finished(here, WaitFailed); }
    if !t.dailyAdmitted {
      if allow && CanFallback(m, current) {
        current, m, budget, visited, path := ApplyFallbackModel(env, m, budget, visited, path, t.pick, here);
        MoveKeeps(env, here, t.pick);
        return Running(Loop(current, m, budget, visited, l.attempt + 1, l.compat, sent, path));
      }
      return Finished(here, DailyLimit);
    }
    if t.requestFails { return Finished(here, RequestFailed); }
    sent := sent + [Sent(current, budget)];
    here := here.(sent := sent);
    phase := ReadAnswer(env, allow, maxRetries, here, t);
  }

  method ReadAnswer(env: Env, allow: bool, maxRetries: int, here: Loop, t: Turn) returns (phase: Phase)
    ensures phase == AfterSend(env, allow, maxRetries, here, t)
  {
    hide Move, CanFallback, Shrink, ApplyOutputCap, RuntimeModel, Prepare, Recoverable;
    var current, m, budget, visited, path := here.current, here.m, here.budget, here.visited, here.path;
    var strategy := Strategy(m);
    MoveKeeps(env, here, t.pick);
    match t.answer
    case TransportError =>
      if allow && here.attempt < maxRetries && strategy != "reject" && CanFallback(m, current) {
        current, m, budget, visited, path := ApplyFallbackModel(env, m, budget, visited, path, t.pick, here);
        return Running(Loop(current, m, budget, visited, here.attempt + 1, here.compat, here.sent, path));
      }
      return Finished(here, Transport);
    case InspectError =>
      return Finished(here, InspectFailed);
    case Status(status, toolIncompatible, blockedTool, kind, limit, requested) =>
      if status == 400 {
        if env.toolsProfile && toolIncompatible {
          if allow && here.attempt < maxRetries && strategy != "reject" && CanFallback(m, current) {
            current, m, budget, visited, path := ApplyFallbackModel(env, m, budget, visited, path, t.pick, here);
            return Running(Loop(current, m, budget, visited, here.attempt + 1, here.compat, here.sent, path));
          }
        }
        if blockedTool && !here.compat { return Running(here.(attempt := here.attempt + 1, compat := true)); }
      }
      if !Recoverable(status) { return Finished(here, Answered(status)); }
      if blockedTool && !here.compat { return Running(here.(attempt := here.attempt + 1, compat := true)); }
      if here.attempt >= maxRetries || strategy == "reject" { return Finished(here, Answered(status)); }
      var recovered := false;
      if status == 429 && kind == "otpm" && limit > 0 {
        budget, recovered := Shrunk(here, limit, requested);
      }
      var here1 := here.(budget := budget);
      MoveKeeps(env, here1, t.pick);
      if status == 429 && !recovered && (strategy == "adaptive" || strategy == "trim") &&
        (kind == "itpm" || kind == "tpm") {
        if t.trimHelps { recovered := true; }
      }
      if allow && !recovered && CanFallback(m, current) {
        current, m, budget, visited, path := ApplyFallbackModel(env, m, budget, visited, path, t.pick, here1);
        return Running(Loop(current, m, budget, visited, here.attempt + 1, here.compat, here.sent, path));
      }
      if !recovered {
        if m.backoffMs <= 0 { return Finished(here1, Answered(status)); }
        if t.cancelled { return Finished(here1, Cancelled); }
      }
      return Running(here1.(attempt := here.attempt + 1));
  }

  method Shrunk(l: Loop, limit: int, requested: int) returns (budget: Budget, capped: bool)
    ensures (budget, capped) == Shrink(l, limit, requested)
  {
    hide ApplyOutputCap;
    budget, capped := l.budget, false;
    var before := CompletionLimit(budget);
    if before <= 0 { before := requested; }
    var target := Max(1, limit * 9 / 10);
    if l.m.maxOutput > 0 && l.m.maxOutput < target { target := l.m.maxOutput; }
    if before <= 0 || before > target {
      budget := ApplyOutputCap(budget, target);
      var after := CompletionLimit(budget);
      capped := after > 0 && (before <= 0 || after < before);
    }
  }

  /** The loop.  If the chains of fallbacks it can follow end it terminates, whatever the turns are; see LoopEndsIff.*/
  method DoModelRequestWithRecovery(env: Env, r: Request, circuitOpen: bool, preflight: bool, pick: string,
                                    nextPick: string, turns: nat -> Turn)
    returns (sent: seq<Sent>, current: string, budget: Budget, ending: Ending)
    requires AllowFallback(env, r) ==> ChainsEnd(env, Begin(env, r, circuitOpen, preflight, pick, nextPick))
    ensures Ended(env, r, Begin(env, r, circuitOpen, preflight, pick, nextPick), turns, sent, current, budget, ending)
  {
    hide Step, Move, Begin, Bounded, Prepared, ChainsEnd, MaxRetries, Unvisited, ChainLength;
    var l := Begin(env, r, circuitOpen, preflight, pick, nextPick);
    BeginPrepared(env, r, circuitOpen, preflight, pick, nextPick);
    BeginCounts(env, r, circuitOpen, preflight, pick, nextPick);
    ghost var start := l;
    var allow := AllowFallback(env, r);
    var maxRetries := MaxRetries(env, l.m);
    ghost var depth := 0;
    if allow { depth := ChainsEndWithin(env, l); }
    while true
      invariant Run(env, allow, maxRetries, start, turns, l.attempt) == Running(l)
      invariant allow ==> Bounded(env, depth, l)
      decreases Unvisited(env, l), ChainLength(env, l.current, depth), Left(maxRetries, l), !l.compat
    {
      var t := turns(l.attempt);
      StepLowers(env, allow, maxRetries, depth, l, t);
      StepCounts(env, allow, maxRetries, l, t);
      var phase := TakeTurn(env, allow, maxRetries, l, t);
      assert Run(env, allow, maxRetries, start, turns, l.attempt + 1) == phase;
      l := phase.loop;
      if phase.Finished? {
        return l.sent, l.current, l.budget, phase.ending;
      }
    }
  }

  lemma StepCounts(env: Env, allow: bool, maxRetries: int, l: Loop, t: Turn)
    ensures var p := Step(env, allow, maxRetries, l, t);
            p.Running? ==> p.loop.attempt == l.attempt + 1
  {
    hide Move, CanFallback, AfterSend;
    MoveKeeps(env, l, t.spillPick);
    var l1 := if !t.admitted && allow && CanFallback(l.m, l.current) && t.longWait && t.spill
              then Move(env, l, t.spillPick) else l;
    MoveKeeps(env, l1, t.pick);
    AfterSendCounts(env, allow, maxRetries, l1.(sent := l1.sent + [Sent(l1.current, l1.budget)]), t);
  }

  // ------------------------------------------------------ exactly when it ends

  function Moves(start: Loop, l: Loop): nat
    requires |l.path| >= |start.path|
  {
    |l.path| - |start.path|
  }

  /** How many more moves there can be. */
  function MovesLeft(env: Env, depth: nat, l: Loop): nat {
    Unvisited(env, l) * (depth + 1) + ChainLength(env, l.current, depth)
  }

  /** Only maxRetries + 1 turns do not move. */
  ghost predicate Counted(env: Env, depth: nat, maxRetries: int, start: Loop, l: Loop) {
    && Bounded(env, depth, l) && |l.path| >= |start.path|
    && Moves(start, l) + MovesLeft(env, depth, l) <= MovesLeft(env, depth, start)
    && l.attempt <= Moves(start, l) + Min(l.attempt, maxRetries) + (if l.compat then 1 else 0)
  }

  lemma {:induction false} TimesLess(a: nat, b: nat, d: nat)
    requires a < b
    ensures a * d + d <= b * d
    decreases b
  {
    if a + 1 < b { TimesLess(a, b - 1, d); }
  }

  lemma MoveCounts(env: Env, depth: nat, l: Loop, pick: string)
    requires Bounded(env, depth, l) && CanFallback(l.m, l.current)
    ensures var l' := Move(env, l, pick);
            && SameCounts(l, l') && |l'.path| == |l.path| + 1 && Bounded(env, depth, l')
            && MovesLeft(env, depth, l') < MovesLeft(env, depth, l)
  {
    hide ApplyOutputCap, OutputCap, RuntimeModel, CanFallback, Bounded, Unvisited, ChainLength;
    MoveLowers(env, depth, l, pick);
    var l' := Move(env, l, pick);
    if Unvisited(env, l') < Unvisited(env, l) { TimesLess(Unvisited(env, l'), Unvisited(env, l), depth + 1); }
  }

  /** Budget, counters and what was sent do not matter to where a loop can go. */
  lemma SameChains(env: Env, depth: nat, l: Loop, l': Loop)
    requires l'.current == l.current && l'.m == l.m && l'.visited == l.visited
    ensures Bounded(env, depth, l) <==> Bounded(env, depth, l')
    ensures MovesLeft(env, depth, l') == MovesLeft(env, depth, l)
  {
  }

  lemma AfterSendCounted(env: Env, depth: nat, maxRetries: nat, start: Loop, l: Loop, t: Turn)
    requires Counted(env, depth, maxRetries, start, l)
    ensures var p := AfterSend(env, true, maxRetries, l, t);
            p.Running? ==> Counted(env, depth, maxRetries, start, p.loop)
  {
    AfterSendFollows(env, true, maxRetries, l, t);
    hide Move, Shrink, CanFallback, AfterSend, Bounded, MovesLeft;
    var b := if t.answer.Status? then Shrink(l, t.answer.limit, t.answer.requested).0 else l.budget;
    SameChains(env, depth, l, l.(budget := b));
    if CanFallback(l.m, l.current) {
      MoveCounts(env, depth, l, t.pick);
      MoveCounts(env, depth, l.(budget := b), t.pick);
    }
    var p := AfterSend(env, true, maxRetries, l, t);
    if p.Running? {
      var moved := Move(env, l, t.pick);
      var moved' := Move(env, l.(budget := b), t.pick);
      SameChains(env, depth, l, l.(compat := true, attempt := l.attempt + 1));
      SameChains(env, depth, l, l.(attempt := l.attempt + 1));
      SameChains(env, depth, l, l.(budget := b, attempt := l.attempt + 1));
      SameChains(env, depth, moved, moved.(attempt := l.attempt + 1));
      SameChains(env, depth, moved', moved'.(attempt := l.attempt + 1));
    }
  }

  lemma StepCounted(env: Env, depth: nat, maxRetries: nat, start: Loop, l: Loop, t: Turn)
    requires Counted(env, depth, maxRetries, start, l)
    ensures var p := Step(env, true, maxRetries, l, t);
            p.Running? ==> Counted(env, depth, maxRetries, start, p.loop)
  {
    hide Move, AfterSend, CanFallback, Chain, RuntimeModel, ChainLength;
    var spills := !t.admitted && CanFallback(l.m, l.current) && t.longWait && t.spill;
    if spills { MoveCounts(env, depth, l, t.spillPick); }
    var l1 := if spills then Move(env, l, t.spillPick) else l;
    if CanFallback(l1.m, l1.current) { MoveCounts(env, depth, l1, t.pick); }
    AfterSendCounted(env, depth, maxRetries, start, l1.(sent := l1.sent + [Sent(l1.current, l1.budget)]), t);
  }

  lemma {:induction false} RunCounted(env: Env, depth: nat, maxRetries: nat, start: Loop, turns: nat -> Turn, n: nat)
    requires Bounded(env, depth, start) && start.attempt == 0
    ensures var p := Run(env, true, maxRetries, start, turns, n);
            p.Running? ==> p.loop.attempt == n && Counted(env, depth, maxRetries, start, p.loop)
  {
    hide Step, Bounded, MovesLeft;
    if n > 0 {
      RunCounted(env, depth, maxRetries, start, turns, n - 1);
      var p := Run(env, true, maxRetries, start, turns, n - 1);
      if p.Running? {
        StepCounted(env, depth, maxRetries, start, p.loop, turns(n - 1));
        StepCounts(env, true, maxRetries, p.loop, turns(n - 1));
      }
    }
  }

  ghost predicate OverWithin(env: Env, maxRetries: nat, start: Loop, bound: nat) {
    forall turns :: Run(env, true, maxRetries, start, turns, bound).Finished?
  }

  lemma ChainEndsBoundTheLoop(env: Env, maxRetries: nat, start: Loop)
    requires Prepared(env, start) && ChainsEnd(env, start) && start.attempt == 0
    ensures exists bound: nat :: OverWithin(env, maxRetries, start, bound)
  {
    hide Run, Bounded, ChainsEnd, Prepared, MovesLeft;
    var depth := ChainsEndWithin(env, start);
    var bound := MovesLeft(env, depth, start) + maxRetries + 2;
    forall turns ensures Run(env, true, maxRetries, start, turns, bound).Finished? {
      RunCounted(env, depth, maxRetries, start, turns, bound);
    }
    assert OverWithin(env, maxRetries, start, bound);
  }

  /** Turns on which the current model's daily allowance is spent; the pool offers one model, on the first. */
  function DailySpent(offer: string): nat -> Turn {
    (k: nat) =>
      Turn(true, false, false, false, false, false, false, TransportError, false, false, "", if k == 0 then offer
                                                                                             else "")
  }

  lemma MoveUnoffered(env: Env, l: Loop)
    requires env.route != "vision"
    ensures Move(env, l, "").m == RuntimeModel(env, l.m.fallback) && Move(env, l, "").current == l.m.fallback
  {
    hide RuntimeModel, ApplyOutputCap, OutputCap;
  }

  /** Once on a chain of configured fallbacks, spent allowances alone follow it. */
  lemma {:induction false} DailySpillsFollowTheChain(env: Env, maxRetries: int, start: Loop, offer: string, from: nat,
                                                     n: nat, more: nat)
    requires env.route != "vision" && from > 0
    requires var p := Run(env, true, maxRetries, start, DailySpent(offer), from);
             p.Running? && p.loop.m == RuntimeModel(env, p.loop.current) && Chain(env, p.loop.current, n + more)
    ensures var p := Run(env, true, maxRetries, start, DailySpent(offer), from + n);
            p.Running? && p.loop.m == RuntimeModel(env, p.loop.current) && Chain(env, p.loop.current, more)
  {
    hide RuntimeModel, Move, CanFallback;
    if n > 0 {
      DailySpillsFollowTheChain(env, maxRetries, start, offer, from, n - 1, more + 1);
      MoveUnoffered(env, Run(env, true, maxRetries, start, DailySpent(offer), from + n - 1).loop);
    }
  }

  /** The strategies that can be stored. */
  ghost predicate Stored(env: Env) {
    forall name | name in env.catalog :: env.catalog[name].strategy in {"", "adaptive", "trim", "fallback", "reject"}
  }

  lemma OfferIsTaken(env: Env, l: Loop, p: string)
    requires Stored(env) && env.route != "" && p in env.members && p !in l.visited && p != l.m.fallback && p != ""
    ensures var l' := Move(env, l, p);
            l'.current == l.m.fallback && l'.m.fallback == p && CanFallback(l'.m, l'.current)
  {
    hide ApplyOutputCap, OutputCap;
  }

  /** The loop can be led to p, and on from there for ever. */
  lemma EndlessChain(env: Env, maxRetries: nat, start: Loop, offer: string, from: nat)
    requires env.route != "vision" && from > 0
    requires var p := Run(env, true, maxRetries, start, DailySpent(offer), from);
             p.Running? && p.loop.m == RuntimeModel(env, p.loop.current) && !Ends(env, p.loop.current)
    ensures !exists bound: nat :: OverWithin(env, maxRetries, start, bound)
  {
    hide Run, Chain;
    var p := Run(env, true, maxRetries, start, DailySpent(offer), from);
    forall bound: nat ensures !OverWithin(env, maxRetries, start, bound) {
      assert Chain(env, p.loop.current, bound + 0);
      DailySpillsFollowTheChain(env, maxRetries, start, offer, from, bound, 0);
      if Run(env, true, maxRetries, start, DailySpent(offer), bound).Finished? {
        FinishedStays(env, maxRetries, start, DailySpent(offer), bound, from);
      }
    }
  }

  lemma {:induction false} FinishedStays(env: Env, maxRetries: int, start: Loop, turns: nat -> Turn, n: nat, more: nat)
    requires Run(env, true, maxRetries, start, turns, n).Finished?
    ensures Run(env, true, maxRetries, start, turns, more + n).Finished?
  {
    hide Step;
    if more > 0 { FinishedStays(env, maxRetries, start, turns, n, more - 1); }
  }

  lemma SpentTurn(env: Env, maxRetries: int, l: Loop, t: Turn)
    requires t.admitted && !t.dailyAdmitted && CanFallback(l.m, l.current)
    ensures Step(env, true, maxRetries, l, t) == Again(Move(env, l, t.pick))
  {
    hide Move, CanFallback;
  }

  lemma UnendingChainsRunOn(env: Env, maxRetries: nat, start: Loop)
    requires Stored(env) && !ChainsEnd(env, start)
    ensures !exists bound: nat :: OverWithin(env, maxRetries, start, bound)
  {
    hide Run, Chain, Ends, Move, CanFallback, RuntimeModel, Step, Stored, OverWithin;
    var next := start.m.fallback;
    if !Ends(env, next) {
      FirstTurn(env, maxRetries, start, "");
      MoveUnoffered(env, start);
      EndlessChain(env, maxRetries, start, "", 1);
    } else {
      var p :| p in env.members && p !in start.visited && !Ends(env, p);
      NamelessEnds(env);
      FirstTurn(env, maxRetries, start, p);
      OfferIsTaken(env, start, p);
      var l := Again(Move(env, start, p)).loop;
      SecondTurn(env, maxRetries, start, p, l);
      MoveUnoffered(env, l);
      EndlessChain(env, maxRetries, start, p, 2);
    }
  }

  lemma NamelessEnds(env: Env)
    ensures Ends(env, "")
  {
    assert !Chain(env, "", 1);
  }

  lemma FirstTurn(env: Env, maxRetries: int, start: Loop, offer: string)
    requires CanFallback(start.m, start.current)
    ensures Run(env, true, maxRetries, start, DailySpent(offer), 1) == Again(Move(env, start, offer))
  {
    hide Step, Move, CanFallback;
    SpentTurn(env, maxRetries, start, DailySpent(offer)(0));
    assert Run(env, true, maxRetries, start, DailySpent(offer), 0) == Running(start);
  }

  lemma SecondTurn(env: Env, maxRetries: int, start: Loop, offer: string, l: Loop)
    requires Run(env, true, maxRetries, start, DailySpent(offer), 1) == Running(l) && CanFallback(l.m, l.current)
    ensures Run(env, true, maxRetries, start, DailySpent(offer), 2) == Again(Move(env, l, ""))
  {
    hide Step, Move, CanFallback;
    SpentTurn(env, maxRetries, l, DailySpent(offer)(1));
  }

  /** However the loop is entered, it ends within some bound on every input exactly when it cannot move, or is on
      the vision route, or every chain of configured fallbacks it can be led into ends: daily limits alone can
      drive it round a cycle for ever, and maxRetries does not stop that. */
  lemma LoopEndsIff(env: Env, r: Request, circuitOpen: bool, preflight: bool, pick: string, nextPick: string)
    requires Stored(env) && AllowFallback(env, r)
    ensures var start := Begin(env, r, circuitOpen, preflight, pick, nextPick);
            (exists bound: nat :: OverWithin(env, MaxRetries(env, start.m), start, bound)) <==> ChainsEnd(env, start)
  {
    hide Begin, MaxRetries, OverWithin, ChainsEnd, Prepared, Stored;
    var start := Begin(env, r, circuitOpen, preflight, pick, nextPick);
    BeginPrepared(env, r, circuitOpen, preflight, pick, nextPick);
    BeginCounts(env, r, circuitOpen, preflight, pick, nextPick);
    if ChainsEnd(env, start) {
      ChainEndsBoundTheLoop(env, MaxRetries(env, start.m), start);
    } else {
      UnendingChainsRunOn(env, MaxRetries(env, start.m), start);
    }
  }
}
