/** The `xp_awarded` handler (app/handlers/xp_awarded.py): credit, then leaderboard, then quests,
    stopping at the first failure; and what that order gives when deliveries are repeated. */
module XpAwarded {
  import opened Prelude
  import opened Events
  import opened CircuitBreaking
  import opened CoreClient
  import opened Effects
  import Calendar
  import Buckets
  import Ledger
  import Quests

  /** The JSON body of a successful credit: an object, with the new total if it names one, or
      something `.get` fails on. */
  datatype Balance = Balance(newXp: Option<int>) | NotAnObject

  /** Everything the outside contributes to one delivery. */
  datatype AnyWorld = World(credit: Call<Balance>, enabled: bool, now: Buckets.Instant, answers: Ledger.Answers,
                            quests: Quests.Calls)

  type World = w: AnyWorld | Buckets.IsInstant(w.now)
    witness World(NoCall(), false, Buckets.Instant(Calendar.Date(1, 1, 1), 0, 0), Ledger.Answers(true, true),
                  Quests.Calls(Call(0.0, Script([], Answer(NetworkFailure, 0.0))), [],
                               Call(0.0, Script([], Answer(NetworkFailure, 0.0)))))

  function NoCall(): Call<Balance> { Call(0.0, Script([], Answer(NetworkFailure, 0.0))) }

  datatype Fault =
    | CreditFailed(error: Error) | BalanceUnreadable
    | LeaderboardFailed(fault: Ledger.Fault) | QuestsFailed(quest: Quests.Fault)

  datatype Entry =
    | UserXp(userId: string, added: int, newXp: Option<int>, source: Source)
    | Leaderboard(actions: seq<Ledger.Action>)
    | LeaderboardDisabled
    | QuestEval(bumped: seq<Quests.Action>)

  /** The process-local state the handler works with. */
  datatype Local = Local(breaker: Snapshot, latch: bool)

  datatype Handled = Handled(local: Local, result: Result<seq<Entry>, Fault>, effects: seq<Effect>, creditSends: nat)

  predicate MustCredit(e: Event)
    requires e.XpAwarded?
  {
    e.source != Lesson && e.amount > 0
  }

  /** The leaderboard writes of a delivery that take hold. */
  function Writes(e: Event, w: World): seq<Ledger.Write>
    requires e.XpAwarded?
  {
    if w.enabled then Ledger.Performed(Ledger.Plan(e, w.now), w.answers) else []
  }

  /** The leaderboard writes a delivery means to make. */
  function PlannedWrites(e: Event, w: World): nat
    requires e.XpAwarded?
  {
    if w.enabled && Ledger.Plan(e, w.now).Some? then |Ledger.Plan(e, w.now).value| else 0
  }

  /** The writes stop short of the plan exactly when the leaderboard stage fails. */
  lemma WritesAsPlanned(e: Event, w: World)
    requires e.XpAwarded?
    ensures PlannedWrites(e, w) <= 2 && |Writes(e, w)| <= 2
    ensures |Writes(e, w)| == PlannedWrites(e, w) || |Writes(e, w)| == 0 || |Writes(e, w)| == 1 <= PlannedWrites(e, w)
    ensures LeaderboardFault(e, w).None? ==> |Writes(e, w)| == PlannedWrites(e, w)
  {
  }

  function LeaderboardFault(e: Event, w: World): Option<Ledger.Fault>
    requires e.XpAwarded?
  {
    if w.enabled && Ledger.Outcome(Ledger.Plan(e, w.now), w.answers).Err?
    then Some(Ledger.Outcome(Ledger.Plan(e, w.now), w.answers).error) else None
  }

  /** What the three stages of a delivery would do, each if it is reached. */
  datatype Stages = Stages(credit: Performed<Balance>, writes: nat, leaderboard: Option<Ledger.Fault>,
                           quests: Quests.Evaluation)

  /** The breaker the quest stage finds. */
  function AfterCredit(c: Config, cfg: Settings, s: Snapshot, e: Event, w: World): Snapshot
    requires e.XpAwarded?
  {
    if MustCredit(e) then Perform(c, cfg, s, w.credit).state else s
  }

  function StagesOf(c: Config, cfg: Settings, local: Local, e: Event, w: World): Stages
    requires e.XpAwarded?
  {
    Stages(Perform(c, cfg, local.breaker, w.credit), |Writes(e, w)|, LeaderboardFault(e, w),
           Quests.Evaluate(c, cfg, local.latch, AfterCredit(c, cfg, local.breaker, e, w), e, w.quests))
  }

  function CreditEntry(e: Event, newXp: Option<int>): seq<Entry>
    requires e.XpAwarded?
  {
    if MustCredit(e) then [UserXp(e.userId, e.amount, newXp, e.source)] else []
  }

  function LeaderboardEntry(e: Event, w: World): Entry
    requires e.XpAwarded? && LeaderboardFault(e, w).None?
  {
    if w.enabled then Leaderboard(Ledger.Actions(e, w.now)) else LeaderboardDisabled
  }

  /** Where a delivery stops. */
  datatype Ending = AtCredit | AtBalance | AtLeaderboard | AtQuests | Finished

  function EndingOf(must: bool, t: Stages): Ending {
    if must && t.credit.result.Err? then AtCredit
    else if must && t.credit.result.value.NotAnObject? then AtBalance
    else if t.leaderboard.Some? then AtLeaderboard
    else if t.quests.result.Err? then AtQuests else Finished
  }

  /** The effects of a delivery, by where it stops. */
  function EffectsOf(must: bool, t: Stages): seq<Effect> {
    if EndingOf(must, t).AtCredit? then []
    else if EndingOf(must, t).AtBalance? then [Credited]
    else
      (if must then [Credited] else []) + WriteEffects(t.writes) +
      if EndingOf(must, t).AtLeaderboard? then [] else Quests.QuestEffects(t.quests)
  }

  /** One delivery: the credit, and if that went well the two stages after it. */
  function Handle(c: Config, cfg: Settings, local: Local, e: Event, w: World): Handled
    requires e.XpAwarded?
  {
    var reached := AfterCredit(c, cfg, local.breaker, e, w);
    Combined(e, w, Local(reached, local.latch), Perform(c, cfg, local.breaker, w.credit),
             Quests.Evaluate(c, cfg, local.latch, reached, e, w.quests))
  }

  /** The stages put together: the state after the credit, what the credit did, and what the quest
      stage would do. */
  function Combined(e: Event, w: World, reached: Local, credit: Performed<Balance>, run: Quests.Evaluation): Handled
    requires e.XpAwarded?
  {
    var credited, rest := CreditResult(e, credit), RestResult(e, w, run);
    Handled(if credited.Err? || LeaderboardFault(e, w).Some? then reached else Local(run.state, run.latch),
            if credited.Err? then credited else if rest.Err? then rest else Ok(credited.value + rest.value),
            CreditEffects(e, credit) + (if credited.Err? then [] else RestEffects(e, w, run)),
            if MustCredit(e) then credit.sends else 0)
  }

  predicate BeforeWrites(f: Fault) { f.CreditFailed? || f.BalanceUnreadable? }

  /** `handle`: the ordered fan-out, on the shared breaker, table and evaluator. What the calls it
      makes do to the outside, in the order they do it, is what `Handle` says. */
  method HandleEvent(breaker: CircuitBreaker, table: Ledger.LeaderboardTable, evaluator: Quests.Evaluator, trace: Trace,
                     cfg: Settings, e: Event, w: World)
    returns (result: Result<seq<Entry>, Fault>, creditSends: nat)
    requires breaker.Valid() && e.XpAwarded?
    modifies breaker, table, evaluator, trace
    ensures breaker.Valid()
    ensures var local := Local(old(breaker.State()), old(evaluator.unmounted));
            var run := Handle(breaker.config, cfg, local, e, w);
            && result == run.result && creditSends == run.creditSends
            && Local(breaker.State(), evaluator.unmounted) == run.local
            && trace.effects == old(trace.effects) + run.effects
    ensures table.items == if result.Err? && BeforeWrites(result.error) then old(table.items)
                           else Ledger.PutAll(old(table.items), Writes(e, w))
  {
    ghost var credit := Perform(breaker.config, cfg, breaker.State(), w.credit);
    ghost var run := Quests.Evaluate(breaker.config, cfg, evaluator.unmounted,
                                     AfterCredit(breaker.config, cfg, breaker.State(), e, w), e, w.quests);
    Joined(trace.effects, CreditEffects(e, credit), RestEffects(e, w, run));
    FaultsApart(e, w, credit, run);
    var credited;
    credited, creditSends := CreditUser(breaker, trace, cfg, e, w);
    if credited.Err? { return Err(credited.error), creditSends; }
    var rest := WriteAndEvaluate(breaker, table, evaluator, trace, cfg, e, w);
    if rest.Err? { return Err(rest.error), creditSends; }
    return Ok(credited.value + rest.value), creditSends;
  }

  /** The error tells whether the handler got to its writes. */
  lemma FaultsApart(e: Event, w: World, credit: Performed<Balance>, run: Quests.Evaluation)
    requires e.XpAwarded?
    ensures CreditResult(e, credit).Err? ==> BeforeWrites(CreditResult(e, credit).error)
    ensures RestResult(e, w, run).Err? ==> !BeforeWrites(RestResult(e, w, run).error)
  {
  }

  function CreditEffects(e: Event, credit: Performed<Balance>): seq<Effect>
    requires e.XpAwarded?
  {
    if MustCredit(e) && credit.result.Ok? then [Credited] else []
  }

  function RestEffects(e: Event, w: World, run: Quests.Evaluation): seq<Effect>
    requires e.XpAwarded?
  {
    WriteEffects(|Writes(e, w)|) + if LeaderboardFault(e, w).Some? then [] else Quests.QuestEffects(run)
  }

  /** The two stages after the credit. */
  method WriteAndEvaluate(breaker: CircuitBreaker, table: Ledger.LeaderboardTable, evaluator: Quests.Evaluator,
                          trace: Trace,
                          cfg: Settings, e: Event, w: World)
    returns (result: Result<seq<Entry>, Fault>)
    requires breaker.Valid() && e.XpAwarded?
    modifies breaker, table, evaluator, trace
    ensures breaker.Valid()
    ensures var latch, state := old(evaluator.unmounted), old(breaker.State());
            var run := Quests.Evaluate(breaker.config, cfg, latch, state, e, w.quests);
            && result == RestResult(e, w, run)
            && trace.effects == old(trace.effects) + RestEffects(e, w, run)
            && (if LeaderboardFault(e, w).Some?
                then breaker.State() == old(breaker.State()) && evaluator.unmounted == old(evaluator.unmounted)
                else breaker.State() == run.state && evaluator.unmounted == run.latch)
    ensures table.items == Ledger.PutAll(old(table.items), Writes(e, w))
  {
    ghost var run := Quests.Evaluate(breaker.config, cfg, evaluator.unmounted, breaker.State(), e, w.quests);
    Joined(trace.effects, WriteEffects(|Writes(e, w)|), Quests.QuestEffects(run));
    var written := UpdateTable(table, trace, e, w);
    if written.Err? { return Err(LeaderboardFailed(written.error)); }
    var bumped := evaluator.EvaluateFor(breaker, trace, cfg, e, w.quests);
    if bumped.Err? { return Err(QuestsFailed(bumped.error)); }
    return Ok([written.value, QuestEval(bumped.value)]);
  }

  function RestResult(e: Event, w: World, run: Quests.Evaluation): Result<seq<Entry>, Fault>
    requires e.XpAwarded?
  {
    if LeaderboardFault(e, w).Some? then Err(LeaderboardFailed(LeaderboardFault(e, w).value))
    else if run.result.Err? then Err(QuestsFailed(run.result.error))
    else Ok([LeaderboardEntry(e, w), QuestEval(run.result.value)])
  }

  /** The credit stage, skipped where the producer has credited or there is nothing to credit. */
  method CreditUser(breaker: CircuitBreaker, trace: Trace, cfg: Settings, e: Event, w: World)
    returns (credited: Result<seq<Entry>, Fault>, sends: nat)
    requires breaker.Valid() && e.XpAwarded?
    modifies breaker, trace
    ensures breaker.Valid() && breaker.State() == AfterCredit(breaker.config, cfg, old(breaker.State()), e, w)
    ensures var credit := Perform(breaker.config, cfg, old(breaker.State()), w.credit);
            && credited == CreditResult(e, credit) && sends == (if MustCredit(e) then credit.sends else 0)
            && trace.effects == old(trace.effects) + CreditEffects(e, credit)
  {
    sends := 0;
    if e.source != Lesson && e.amount > 0 {
      var credit;
      credit, sends := Callback(breaker, cfg, w.credit);
      if credit.Err? { return Err(CreditFailed(credit.error)), sends; }
      trace.Note(Credited);
      if credit.value.NotAnObject? { return Err(BalanceUnreadable), sends; }
      return Ok([UserXp(e.userId, e.amount, credit.value.newXp, e.source)]), sends;
    }
    return Ok([]), sends;
  }

  function CreditResult(e: Event, credit: Performed<Balance>): Result<seq<Entry>, Fault>
    requires e.XpAwarded?
  {
    if !MustCredit(e) then Ok([])
    else if credit.result.Err? then Err(CreditFailed(credit.result.error))
    else if credit.result.value.NotAnObject? then Err(BalanceUnreadable)
    else Ok(CreditEntry(e, credit.result.value.newXp))
  }

  /** The leaderboard stage, gated by the setting. */
  method UpdateTable(table: Ledger.LeaderboardTable, trace: Trace, e: Event, w: World)
    returns (written: Result<Entry, Ledger.Fault>)
    requires e.XpAwarded?
    modifies table, trace
    ensures trace.effects == old(trace.effects) + WriteEffects(|Writes(e, w)|)
    ensures table.items == Ledger.PutAll(old(table.items), Writes(e, w))
    ensures written ==
            if LeaderboardFault(e, w).Some? then Err(LeaderboardFault(e, w).value) else Ok(LeaderboardEntry(e, w))
  {
    if w.enabled {
      var actions := table.UpdateLeaderboard(trace, e, w.now, w.answers);
      if actions.Err? { return Err(actions.error); }
      return Ok(Leaderboard(actions.value));
    }
    return Ok(LeaderboardDisabled);
  }

  // ---- The order of effects ----

  /** The quests a delivery means to bump: the active XP quests of its listing. */
  function Wanted(run: Quests.Evaluation, e: Event): seq<string> {
    if run.listing.Some? && run.listing.value.Ok? then Quests.Ids(Quests.Matching(run.listing.value.value, "XP"))
    else []
  }

  /** Every effect a delivery could have, in order: credit, weekly, monthly, listing, bumps. */
  function Planned(c: Config, cfg: Settings, local: Local, e: Event, w: World): seq<Effect>
    requires e.XpAwarded?
  {
    var run := StagesOf(c, cfg, local, e, w).quests;
    (if MustCredit(e) then [Credited] else [])
    + WriteEffects(PlannedWrites(e, w))
    + (if run.listing.Some? && run.listing.value.Ok? then [Listed] else [])
    + BumpEffects(Wanted(run, e))
  }

  /** A delivery's effects are a prefix of credit, weekly, monthly, listing and bumps, in that
      order, and the whole of it when the handler returns normally. */
  lemma EffectsArePrefix(c: Config, cfg: Settings, local: Local, e: Event, w: World)
    requires e.XpAwarded?
    ensures var run := Handle(c, cfg, local, e, w);
            && run.effects <= Planned(c, cfg, local, e, w)
            && (run.result.Ok? ==> run.effects == Planned(c, cfg, local, e, w))
  {
    var t, must := StagesOf(c, cfg, local, e, w), MustCredit(e);
    HandledAsStaged(c, cfg, local, e, w);
    BumpsAsWanted(c, cfg, local, e, w);
    WritesAsPlanned(e, w);
    EffectsPrefix(must, t, PlannedWrites(e, w), Wanted(t.quests, e));
  }

  lemma HandledAsStaged(c: Config, cfg: Settings, local: Local, e: Event, w: World)
    requires e.XpAwarded?
    ensures var run, t, must := Handle(c, cfg, local, e, w), StagesOf(c, cfg, local, e, w), MustCredit(e);
            && run.effects == EffectsOf(must, t)
            && (run.result.Ok? <==> EndingOf(must, t).Finished?)
            && (run.result.Err? && BeforeWrites(run.result.error) <==>
                 EndingOf(must, t).AtCredit? || EndingOf(must, t).AtBalance?)
            && t.writes == |Writes(e, w)| && t.leaderboard == LeaderboardFault(e, w)
  {
    var reached := AfterCredit(c, cfg, local.breaker, e, w);
    CombinedAsStaged(e, w, Local(reached, local.latch), Perform(c, cfg, local.breaker, w.credit),
                     Quests.Evaluate(c, cfg, local.latch, reached, e, w.quests));
  }

  lemma CombinedAsStaged(e: Event, w: World, reached: Local, credit: Performed<Balance>, run: Quests.Evaluation)
    requires e.XpAwarded?
    ensures var all := Combined(e, w, reached, credit, run);
            var t := Stages(credit, |Writes(e, w)|, LeaderboardFault(e, w), run);
            && all.effects == EffectsOf(MustCredit(e), t)
            && (all.result.Ok? <==> EndingOf(MustCredit(e), t).Finished?)
            && (all.result.Err? && BeforeWrites(all.result.error) <==>
                  EndingOf(MustCredit(e), t).AtCredit? || EndingOf(MustCredit(e), t).AtBalance?)
  {
    Joined(CreditEffects(e, credit), WriteEffects(|Writes(e, w)|), Quests.QuestEffects(run));
    Joined(CreditEffects(e, credit), WriteEffects(|Writes(e, w)|), []);
  }

  /** The effects of the stages as a prefix of the plan. */
  lemma EffectsPrefix(must: bool, t: Stages, planned: nat, wanted: seq<string>)
    requires t.writes == planned || t.writes == 0 || t.writes == 1 <= planned
    requires t.leaderboard.None? ==> t.writes == planned
    requires t.quests.bumping.returned <= wanted && (t.quests.result.Ok? ==> t.quests.bumping.returned == wanted)
    ensures var all := (if must then [Credited] else []) + WriteEffects(planned)
                       + (if t.quests.listing.Some? && t.quests.listing.value.Ok? then [Listed] else [])
                       + BumpEffects(wanted);
            EffectsOf(must, t) <= all && (EndingOf(must, t).Finished? ==> EffectsOf(must, t) == all)
  {
    PrefixBySteps(if must then [Credited] else [], t.writes, planned,
                  if t.quests.listing.Some? && t.quests.listing.value.Ok? then [Listed] else [],
                  t.quests.bumping.returned, wanted);
  }

  lemma BumpsAsWanted(c: Config, cfg: Settings, local: Local, e: Event, w: World)
    requires e.XpAwarded?
    ensures var run := StagesOf(c, cfg, local, e, w).quests;
            && run.bumping.returned <= Wanted(run, e)
            && (run.result.Ok? ==> run.bumping.returned == Wanted(run, e))
  {
    Quests.EvaluationExact(c, cfg, local.latch, AfterCredit(c, cfg, local.breaker, e, w), e, w.quests);
  }

  /** Stopping after any of the steps leaves a prefix. */
  lemma PrefixBySteps(credited: seq<Effect>, done: nat, planned: nat, listed: seq<Effect>, bumped: seq<string>,
                      wanted: seq<string>)
    requires bumped <= wanted
    ensures var all := credited + WriteEffects(planned) + listed + BumpEffects(wanted);
            && credited <= all
            && (done == 0 || done == planned || done == 1 <= planned ==> credited + WriteEffects(done) + [] <= all)
            && credited + WriteEffects(planned) + (listed + BumpEffects(bumped)) <= all
            && (bumped == wanted ==> credited + WriteEffects(planned) + (listed + BumpEffects(bumped)) == all)
  {
    assert BumpEffects(bumped) <= BumpEffects(wanted);
    assert WriteEffects(1) <= WriteEffects(if planned < 1 then 1 else planned);
  }

  /** What a delivery returns or raises: the first of its stages to fail says why; otherwise one entry
      for the credit, if there was one to make, one for the leaderboard, and one for the quests. */
  lemma OutcomesExactly(c: Config, cfg: Settings, local: Local, e: Event, w: World)
    requires e.XpAwarded?
    ensures var result, must := Handle(c, cfg, local, e, w).result, e.source != Lesson && e.amount > 0;
            var credit := Perform(c, cfg, local.breaker, w.credit).result;
            var quests := StagesOf(c, cfg, local, e, w).quests.result;
            if must && credit.Err? then result == Err(CreditFailed(credit.error))
            else if must && credit.value.NotAnObject? then result == Err(BalanceUnreadable)
            else if LeaderboardFault(e, w).Some? then result == Err(LeaderboardFailed(LeaderboardFault(e, w).value))
            else if quests.Err? then result == Err(QuestsFailed(quests.error))
            else
              result == Ok((if must then [UserXp(e.userId, e.amount, credit.value.newXp, e.source)] else [])
                           + [if w.enabled then Leaderboard(Ledger.Actions(e, w.now)) else LeaderboardDisabled,
                              QuestEval(quests.value)])
  {
  }

  // ---- Counting over repeated deliveries ----

  /** A delivery of the event: the process state it finds, its world, and the number of its
      effects after which the process is killed, if it is. */
  datatype Delivery = Delivery(local: Local, world: World, killedAfter: Option<nat>)

  /** The effects of a delivery that happen before it ends or is killed. */
  function Happened(c: Config, cfg: Settings, e: Event, d: Delivery): seq<Effect>
    requires e.XpAwarded?
  {
    var all := Handle(c, cfg, d.local, e, d.world).effects;
    if d.killedAfter.Some? && d.killedAfter.value < |all| then all[..d.killedAfter.value] else all
  }

  /** The delivery is acknowledged: not killed, and the handler returned normally. */
  predicate Acked(c: Config, cfg: Settings, e: Event, d: Delivery)
    requires e.XpAwarded?
  {
    d.killedAfter.None? && Handle(c, cfg, d.local, e, d.world).result.Ok?
  }

  function Count(effects: seq<Effect>, x: Effect): nat { multiset(effects)[x] }

  function Total(c: Config, cfg: Settings, e: Event, ds: seq<Delivery>, x: Effect): nat
    requires e.XpAwarded?
  {
    if ds == [] then 0
    else Total(c, cfg, e, ds[..|ds| - 1], x) + Count(Happened(c, cfg, e, ds[|ds| - 1]), x)
  }

  /** The credit requests sent. */
  function CreditSends(c: Config, cfg: Settings, e: Event, ds: seq<Delivery>): nat
    requires e.XpAwarded?
  {
    if ds == [] then 0
    else CreditSends(c, cfg, e, ds[..|ds| - 1]) + Handle(c, cfg, ds[|ds| - 1].local, e, ds[|ds| - 1].world).creditSends
  }

  /** One delivery credits at most once, and writes each bucket only after crediting. */
  lemma DeliveryCounts(c: Config, cfg: Settings, e: Event, d: Delivery)
    requires e.XpAwarded?
    ensures var done := Happened(c, cfg, e, d);
            && Count(done, WroteMonthly) <= Count(done, WroteWeekly) <= 1 && Count(done, Credited) <= 1
            && (e.source != Lesson && e.amount > 0 ==> Count(done, WroteWeekly) <= Count(done, Credited))
            && (e.source != Lesson && e.amount > 0 && Acked(c, cfg, e, d) ==> Count(done, Credited) == 1)
            && (e.source == Lesson || e.amount == 0 ==> Count(done, Credited) == 0)
  {
    var t := StagesOf(c, cfg, d.local, e, d.world);
    EffectsByEnding(c, cfg, e, d);
    var all := EffectsOf(MustCredit(e), t);
    var killed := d.killedAfter.Some? && d.killedAfter.value < |all|;
    PrefixCounts(MustCredit(e), t, if killed then d.killedAfter.value else |all|);
  }

  lemma EffectsByEnding(c: Config, cfg: Settings, e: Event, d: Delivery)
    requires e.XpAwarded?
    ensures var all := EffectsOf(MustCredit(e), StagesOf(c, cfg, d.local, e, d.world));
            && Happened(c, cfg, e, d) ==
               all[..if d.killedAfter.Some? && d.killedAfter.value < |all| then d.killedAfter.value else |all|]
            && (Acked(c, cfg, e, d) <==>
                  d.killedAfter.None? && EndingOf(MustCredit(e), StagesOf(c, cfg, d.local, e, d.world)).Finished?)
  {
    HandledAsStaged(c, cfg, d.local, e, d.world);
    Whole(EffectsOf(MustCredit(e), StagesOf(c, cfg, d.local, e, d.world)));
  }

  lemma Whole(s: seq<Effect>)
    ensures s[..|s|] == s
  {
  }

  lemma DeliverySends(c: Config, cfg: Settings, e: Event, d: Delivery)
    requires e.XpAwarded?
    ensures Handle(c, cfg, d.local, e, d.world).creditSends <= if MustCredit(e) then cfg.MaxAttempts() else 0
  {
    PerformSends(c, cfg, d.local.breaker, d.world.credit);
  }

  lemma PerformSends(c: Config, cfg: Settings, s: Snapshot, call: Call<Balance>)
    ensures Perform(c, cfg, s, call).sends <= cfg.MaxAttempts()
  {
  }

  /** An effect that occurs at one index only is counted once past it. */
  lemma {:induction false} CountAt(s: seq<Effect>, x: Effect, i: nat, n: nat)
    requires n <= |s|
    requires forall j :: 0 <= j < |s| && j != i ==> s[j] != x
    ensures Count(s[..n], x) == if i < n && s[i] == x then 1 else 0
    decreases n
  {
    if n > 0 {
      CountAt(s, x, i, n - 1);
      assert s[..n] == s[..n - 1] + [s[n - 1]];
    } else {
      assert s[..0] == [];
    }
  }

  lemma PrefixCounts(must: bool, t: Stages, n: nat)
    requires n <= |EffectsOf(must, t)|
    ensures var done := EffectsOf(must, t)[..n];
            && Count(done, WroteMonthly) <= Count(done, WroteWeekly) <= 1 && Count(done, Credited) <= 1
            && (must ==> Count(done, WroteWeekly) <= Count(done, Credited))
            && (must && n == |EffectsOf(must, t)| && !EndingOf(must, t).AtCredit? ==> Count(done, Credited) == 1)
            && (!must ==> Count(done, Credited) == 0)
  {
    var all := EffectsOf(must, t);
    var first := if must then 1 else 0;
    EffectPlaces(must, t);
    CountAt(all, Credited, 0, n);
    CountAt(all, WroteWeekly, first, n);
    CountAt(all, WroteMonthly, first + 1, n);
  }

  /** Where in a delivery's effects the credit and the two writes can be. */
  lemma EffectPlaces(must: bool, t: Stages)
    ensures var all, first := EffectsOf(must, t), if must then 1 else 0;
            && (forall j :: 0 <= j < |all| ==>
                  && (all[j] == Credited <==> must && j == 0)
                  && (all[j] == WroteWeekly ==> j == first)
                  && (all[j] == WroteMonthly ==> j == first + 1 && all[first] == WroteWeekly))
            && (must && !EndingOf(must, t).AtCredit? ==> all != [])
  {
    if !EndingOf(must, t).AtCredit? {
      ConcatPlaces(if must then [Credited] else [], WriteEffects(t.writes),
                   if EndingOf(must, t).AtLeaderboard? then [] else Quests.QuestEffects(t.quests));
    }
  }

  lemma ConcatPlaces(credited: seq<Effect>, writes: seq<Effect>, quests: seq<Effect>)
    requires credited == [] || credited == [Credited]
    requires writes == [] || writes == [WroteWeekly] || writes == [WroteWeekly, WroteMonthly]
    requires forall j :: 0 <= j < |quests| ==> quests[j].Listed? || quests[j].Bumped?
    ensures var all, first := credited + writes + quests, |credited|;
            && forall j :: 0 <= j < |all| ==>
                 && (all[j] == Credited <==> credited != [] && j == 0)
                 && (all[j] == WroteWeekly ==> j == first)
                 && (all[j] == WroteMonthly ==> j == first + 1 && all[first] == WroteWeekly)
  {
  }

  /** Effect counts under redelivery and crashes, for an event that must be credited: monthly
      writes never exceed weekly writes, nor weekly writes credits, nor credits deliveries. */
  lemma {:induction false} RedeliveryCounts(c: Config, cfg: Settings, e: Event, ds: seq<Delivery>)
    requires e.XpAwarded? && e.source != Lesson && e.amount > 0
    ensures Total(c, cfg, e, ds, WroteMonthly) <= Total(c, cfg, e, ds, WroteWeekly)
            <= Total(c, cfg, e, ds, Credited) <= |ds|
    decreases |ds|
  {
    if ds == [] {
    } else {
      RedeliveryCounts(c, cfg, e, ds[..|ds| - 1]);
      DeliveryCounts(c, cfg, e, ds[|ds| - 1]);
    }
  }

  /** An event acknowledged by some delivery has been credited. */
  lemma {:induction false} AckedIsCredited(c: Config, cfg: Settings, e: Event, ds: seq<Delivery>, i: nat)
    requires e.XpAwarded? && e.source != Lesson && e.amount > 0
    requires i < |ds| && Acked(c, cfg, e, ds[i])
    ensures Total(c, cfg, e, ds, Credited) >= 1
    decreases |ds|
  {
    if i == |ds| - 1 {
      DeliveryCounts(c, cfg, e, ds[i]);
    } else {
      AckedIsCredited(c, cfg, e, ds[..|ds| - 1], i);
    }
  }

  /** The credit requests sent are at most the maximum number of attempts per delivery. */
  lemma {:induction false} CreditSendsBound(c: Config, cfg: Settings, e: Event, ds: seq<Delivery>)
    requires e.XpAwarded?
    ensures CreditSends(c, cfg, e, ds) <= |ds| * cfg.MaxAttempts()
    decreases |ds|
  {
    if ds == [] {
    } else {
      CreditSendsBound(c, cfg, e, ds[..|ds| - 1]);
      DeliverySends(c, cfg, e, ds[|ds| - 1]);
      OneMore(|ds| - 1, cfg.MaxAttempts());
    }
  }

  lemma OneMore(n: nat, a: nat)
    ensures (n + 1) * a == n * a + a
  {
  }

  /** Lesson events, and events without an amount, are never credited, however often delivered. */
  lemma {:induction false} NeverCredited(c: Config, cfg: Settings, e: Event, ds: seq<Delivery>)
    requires e.XpAwarded? && (e.source == Lesson || e.amount == 0)
    ensures Total(c, cfg, e, ds, Credited) == 0 && CreditSends(c, cfg, e, ds) == 0
    decreases |ds|
  {
    if ds == [] {
    } else {
      NeverCredited(c, cfg, e, ds[..|ds| - 1]);
      DeliveryCounts(c, cfg, e, ds[|ds| - 1]);
      DeliverySends(c, cfg, e, ds[|ds| - 1]);
    }
  }
}
