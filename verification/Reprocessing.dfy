/** What handling an `xp_awarded` event again does (app/handlers/xp_awarded.py): how often it is
    credited, when it could be handled again without harm, and what the leaderboard keeps. */
module Reprocessing {
  import opened Prelude
  import opened Events
  import opened CircuitBreaking
  import opened CoreClient
  import opened Effects
  import opened XpAwarded
  import Buckets
  import Calendar
  import Ledger
  import Quests

  // ---- How often an event is credited ----

  /** The credit call of the delivery goes through: the breaker is not open within its cooldown, the
      reply that settles the call has a status from 200 to 299 and a JSON body, and the process lives to
      see it. */
  predicate CreditReturns(c: Config, cfg: Settings, d: XpAwarded.Delivery) {
    var call, breaker := d.world.credit, d.local.breaker;
    var last := call.env.At(SendCount(call.env, cfg.MaxAttempts()) - 1).reply;
    && (breaker.phase.Open? ==> call.now - breaker.openedAt >= c.cooldown)
    && last.Response? && 200 <= last.code <= 299 && last.json.Some? && d.killedAfter != Some(0)
  }

  /** The deliveries whose credit call goes through. */
  function Returning(c: Config, cfg: Settings, ds: seq<XpAwarded.Delivery>): nat {
    if ds == [] then 0
    else Returning(c, cfg, ds[..|ds| - 1]) + if CreditReturns(c, cfg, ds[|ds| - 1]) then 1 else 0
  }

  lemma CreditCall(c: Config, cfg: Settings, d: XpAwarded.Delivery)
    ensures CreditReturns(c, cfg, d) <==>
            Perform(c, cfg, d.local.breaker, d.world.credit).result.Ok? && d.killedAfter != Some(0)
  {
  }

  /** Of the effects of stages that must credit, the first are a credit exactly when the call returned
      and they are not none. */
  lemma FirstIsCredit(t: Stages, n: nat)
    requires n <= |EffectsOf(true, t)|
    ensures Count(EffectsOf(true, t)[..n], Credited) == if t.credit.result.Ok? && n > 0 then 1 else 0
    ensures t.credit.result.Ok? ==> |EffectsOf(true, t)| > 0
  {
    EffectPlaces(true, t);
    CountAt(EffectsOf(true, t), Credited, 0, n);
  }

  /** A delivery credits exactly when its credit call goes through, whatever happens after it. */
  lemma CreditedExactly(c: Config, cfg: Settings, e: Event, d: XpAwarded.Delivery)
    requires e.XpAwarded? && e.source != Lesson && e.amount > 0
    ensures Count(Happened(c, cfg, e, d), Credited) == if CreditReturns(c, cfg, d) then 1 else 0
  {
    var t := StagesOf(c, cfg, d.local, e, d.world);
    var all := EffectsOf(true, t);
    EffectsByEnding(c, cfg, e, d);
    CreditCall(c, cfg, d);
    FirstIsCredit(t, if d.killedAfter.Some? && d.killedAfter.value < |all| then d.killedAfter.value else |all|);
  }

  /** Over any deliveries, an event is credited once for each whose credit call goes through. */
  lemma {:induction false} CreditsCounted(c: Config, cfg: Settings, e: Event, ds: seq<XpAwarded.Delivery>)
    requires e.XpAwarded? && e.source != Lesson && e.amount > 0
    ensures XpAwarded.Total(c, cfg, e, ds, Credited) == Returning(c, cfg, ds)
    decreases |ds|
  {
    if ds == [] {
    } else {
      CreditsCounted(c, cfg, e, ds[..|ds| - 1]);
      CreditedExactly(c, cfg, e, ds[|ds| - 1]);
    }
  }

  lemma {:induction false} NoneReturns(c: Config, cfg: Settings, ds: seq<XpAwarded.Delivery>)
    ensures Returning(c, cfg, ds) == 0 <==> forall i :: 0 <= i < |ds| ==> !CreditReturns(c, cfg, ds[i])
    decreases |ds|
  {
    if ds == [] {
    } else {
      var init := ds[..|ds| - 1];
      NoneReturns(c, cfg, init);
      assert forall i :: 0 <= i < |init| ==> init[i] == ds[i];
    }
  }

  /** No two of the deliveries have their credit call go through. */
  ghost predicate AtMostOneReturns(c: Config, cfg: Settings, ds: seq<XpAwarded.Delivery>) {
    forall i, j :: 0 <= i < j < |ds| ==> !CreditReturns(c, cfg, ds[i]) || !CreditReturns(c, cfg, ds[j])
  }

  lemma {:induction false} OneReturns(c: Config, cfg: Settings, ds: seq<XpAwarded.Delivery>)
    ensures Returning(c, cfg, ds) <= 1 <==> AtMostOneReturns(c, cfg, ds)
    decreases |ds|
  {
    if ds == [] {
    } else {
      var init := ds[..|ds| - 1];
      OneReturns(c, cfg, init);
      NoneReturns(c, cfg, init);
      assert forall i :: 0 <= i < |init| ==> init[i] == ds[i];
    }
  }

  /** When an event is credited exactly once: an acknowledged event, over any deliveries, exactly when
      no two of them have their credit call go through. */
  lemma {:induction false} CreditedOnce(c: Config, cfg: Settings, e: Event, ds: seq<XpAwarded.Delivery>, acked: nat)
    requires e.XpAwarded? && e.source != Lesson && e.amount > 0
    requires acked < |ds| && Acked(c, cfg, e, ds[acked])
    ensures XpAwarded.Total(c, cfg, e, ds, Credited) == 1 <==> AtMostOneReturns(c, cfg, ds)
  {
    AckedIsCredited(c, cfg, e, ds, acked);
    CreditsCounted(c, cfg, e, ds);
    OneReturns(c, cfg, ds);
  }

  /** The other half: an event is credited again exactly when two of its deliveries have their credit
      call go through, acknowledged or not. */
  lemma {:induction false} CreditedAgain(c: Config, cfg: Settings, e: Event, ds: seq<XpAwarded.Delivery>)
    requires e.XpAwarded? && e.source != Lesson && e.amount > 0
    ensures XpAwarded.Total(c, cfg, e, ds, Credited) >= 2 <==>
            exists i, j :: 0 <= i < j < |ds| && CreditReturns(c, cfg, ds[i]) && CreditReturns(c, cfg, ds[j])
  {
    CreditsCounted(c, cfg, e, ds);
    OneReturns(c, cfg, ds);
  }

  // ---- What an acknowledged delivery has done ----

  lemma {:induction false} BumpsCounted(ids: seq<string>, q: string)
    ensures multiset(BumpEffects(ids))[Bumped(q)] == multiset(ids)[q]
    ensures forall x :: x in multiset(BumpEffects(ids)) ==> x.Bumped?
    decreases |ids|
  {
    if ids == [] {
    } else {
      var init, last := ids[..|ids| - 1], ids[|ids| - 1];
      BumpsCounted(init, q);
      Quests.OneMoreBump(init, last);
      assert ids == init + [last];
    }
  }

  /** The quests a delivery is to bump, if it gets that far. */
  function WantedBy(c: Config, cfg: Settings, e: Event, d: XpAwarded.Delivery): seq<string>
    requires e.XpAwarded?
  {
    Wanted(StagesOf(c, cfg, d.local, e, d.world).quests, e)
  }

  /** The leaderboard is on, and the event is for it: an amount, a user who has not opted out, and a
      language that is more than space. */
  predicate Writing(e: Event, w: World)
    requires e.XpAwarded?
  {
    w.enabled && e.amount > 0 && e.optIn && Ledger.NamesLanguage(e)
  }

  lemma CountConcat(a: seq<Effect>, b: seq<Effect>, x: Effect)
    ensures Count(a + b, x) == Count(a, x) + Count(b, x)
  {
  }

  /** A plan, counted part by part. */
  lemma PartsCounted(credited: seq<Effect>, writes: nat, listed: seq<Effect>, ids: seq<string>, x: Effect)
    requires credited == [] || credited == [Credited]
    requires listed == [] || listed == [Listed]
    requires writes == 0 || writes == 2
    ensures Count(credited + WriteEffects(writes) + listed + BumpEffects(ids), x) ==
            match x
            case Credited => |credited|
            case WroteWeekly => writes / 2
            case WroteMonthly => writes / 2
            case Listed => |listed|
            case Bumped(q) => multiset(ids)[q]
  {
    CountConcat(credited + WriteEffects(writes) + listed, BumpEffects(ids), x);
    CountConcat(credited + WriteEffects(writes), listed, x);
    CountConcat(credited, WriteEffects(writes), x);
    WritesCounted(writes, x);
    BumpsOnly(ids, x);
  }

  lemma WritesCounted(writes: nat, x: Effect)
    requires writes == 0 || writes == 2
    ensures Count(WriteEffects(writes), x) == if x.WroteWeekly? || x.WroteMonthly? then writes / 2 else 0
  {
  }

  lemma BumpsOnly(ids: seq<string>, x: Effect)
    ensures Count(BumpEffects(ids), x) == if x.Bumped? then multiset(ids)[x.questId] else 0
  {
    BumpsCounted(ids, if x.Bumped? then x.questId else "");
  }

  lemma PlannedParts(c: Config, cfg: Settings, e: Event, d: XpAwarded.Delivery) returns (listed: seq<Effect>)
    requires e.XpAwarded?
    ensures listed == [] || listed == [Listed]
    ensures Planned(c, cfg, d.local, e, d.world) ==
            (if MustCredit(e) then [Credited] else []) + WriteEffects(PlannedWrites(e, d.world)) + listed
            + BumpEffects(WantedBy(c, cfg, e, d))
  {
    var run := StagesOf(c, cfg, d.local, e, d.world).quests;
    listed := if run.listing.Some? && run.listing.value.Ok? then [Listed] else [];
  }

  /** The effects planned for a delivery, counted. */
  lemma PlannedCounts(c: Config, cfg: Settings, e: Event, d: XpAwarded.Delivery, x: Effect)
    requires e.XpAwarded? && !x.Listed?
    ensures Count(Planned(c, cfg, d.local, e, d.world), x) ==
            match x
            case Credited => if e.source != Lesson && e.amount > 0 then 1 else 0
            case Bumped(q) => multiset(WantedBy(c, cfg, e, d))[q]
            case _ => PlannedWrites(e, d.world) / 2
  {
    PlannedInTwos(e, d.world);
    var listed := PlannedParts(c, cfg, e, d);
    var credited := if MustCredit(e) then [Credited] else [];
    PartsCounted(credited, PlannedWrites(e, d.world), listed, WantedBy(c, cfg, e, d), x);
  }

  lemma PlannedInTwos(e: Event, w: World)
    requires e.XpAwarded?
    ensures PlannedWrites(e, w) == 0 || PlannedWrites(e, w) == 2
  {
  }

  /** An acknowledged delivery has credited if it must, written both buckets if it is for the
      leaderboard, and bumped every wanted quest, each as often as it was listed. */
  lemma AckedCounts(c: Config, cfg: Settings, e: Event, d: XpAwarded.Delivery, x: Effect)
    requires e.XpAwarded? && Acked(c, cfg, e, d) && !x.Listed?
    ensures Count(Happened(c, cfg, e, d), x) ==
            match x
            case Credited => if e.source != Lesson && e.amount > 0 then 1 else 0
            case Bumped(q) => multiset(WantedBy(c, cfg, e, d))[q]
            case _ => if Writing(e, d.world) then 1 else 0
  {
    EffectsArePrefix(c, cfg, d.local, e, d.world);
    PlannedCounts(c, cfg, e, d, x);
    AckedWrites(c, cfg, e, d);
  }

  lemma AckedWrites(c: Config, cfg: Settings, e: Event, d: XpAwarded.Delivery)
    requires e.XpAwarded? && Acked(c, cfg, e, d)
    ensures PlannedWrites(e, d.world) == if Writing(e, d.world) then 2 else 0
  {
    Ledger.RankedExactly(e);
    HandledAsStaged(c, cfg, d.local, e, d.world);
  }

  lemma {:induction false} TotalAppend(c: Config, cfg: Settings, e: Event, ds: seq<XpAwarded.Delivery>,
                                       d: XpAwarded.Delivery, x: Effect)
    requires e.XpAwarded?
    ensures XpAwarded.Total(c, cfg, e, ds + [d], x) ==
            XpAwarded.Total(c, cfg, e, ds, x) + Count(Happened(c, cfg, e, d), x)
  {
    assert (ds + [d])[..|ds|] == ds;
  }

  /** Handling the event once more, and acknowledging it, changes something. */
  ghost predicate Changes(c: Config, cfg: Settings, e: Event, ds: seq<XpAwarded.Delivery>, d: XpAwarded.Delivery)
    requires e.XpAwarded?
  {
    exists x: Effect :: !x.Listed? && XpAwarded.Total(c, cfg, e, ds + [d], x) != XpAwarded.Total(c, cfg, e, ds, x)
  }

  /** When reprocessing is tolerated: after any deliveries, one more that is acknowledged leaves XP,
      leaderboard and quests as they were exactly when there is nothing to credit, the leaderboard is
      off or not for this event, and no active quest of the unit is listed. */
  lemma ReprocessingHarmless(c: Config, cfg: Settings, e: Event, ds: seq<XpAwarded.Delivery>, d: XpAwarded.Delivery)
    requires e.XpAwarded? && Acked(c, cfg, e, d)
    ensures !Changes(c, cfg, e, ds, d) <==>
            && (e.source == Lesson || e.amount == 0) && !Writing(e, d.world)
            && |WantedBy(c, cfg, e, d)| == 0
  {
    if (e.source == Lesson || e.amount == 0) && !Writing(e, d.world) && |WantedBy(c, cfg, e, d)| == 0 {
      forall x: Effect | !x.Listed?
        ensures XpAwarded.Total(c, cfg, e, ds + [d], x) == XpAwarded.Total(c, cfg, e, ds, x)
      {
        AddsNothing(c, cfg, e, ds, d, x);
      }
    } else {
      var x := if e.source != Lesson && e.amount > 0 then Credited else if Writing(e, d.world) then WroteWeekly
               else Bumped(WantedBy(c, cfg, e, d)[0]);
      AckedCounts(c, cfg, e, d, x);
      TotalAppend(c, cfg, e, ds, d, x);
      assert XpAwarded.Total(c, cfg, e, ds + [d], x) != XpAwarded.Total(c, cfg, e, ds, x);
    }
  }

  lemma {:induction false} AddsNothing(c: Config, cfg: Settings, e: Event, ds: seq<XpAwarded.Delivery>,
                                       d: XpAwarded.Delivery, x: Effect)
    requires e.XpAwarded? && Acked(c, cfg, e, d) && !x.Listed?
    requires (e.source == Lesson || e.amount == 0) && !Writing(e, d.world) && |WantedBy(c, cfg, e, d)| == 0
    ensures XpAwarded.Total(c, cfg, e, ds + [d], x) == XpAwarded.Total(c, cfg, e, ds, x)
  {
    TotalAppend(c, cfg, e, ds, d, x);
    AckedCounts(c, cfg, e, d, x);
  }

  // ---- How often a quest is bumped ----

  lemma PrefixCount(a: seq<Effect>, b: seq<Effect>, x: Effect)
    requires a <= b
    ensures Count(a, x) <= Count(b, x)
  {
    assert b == a + b[|a|..];
  }

  /** A delivery, killed anywhere, bumps a quest at most as often as its listing wants it bumped. */
  lemma BumpsWithin(c: Config, cfg: Settings, e: Event, d: XpAwarded.Delivery, q: string)
    requires e.XpAwarded?
    ensures Count(Happened(c, cfg, e, d), Bumped(q)) <= multiset(WantedBy(c, cfg, e, d))[q]
  {
    EffectsArePrefix(c, cfg, d.local, e, d.world);
    PrefixCount(Happened(c, cfg, e, d), Planned(c, cfg, d.local, e, d.world), Bumped(q));
    PlannedCounts(c, cfg, e, d, Bumped(q));
  }

  /** How often the deliveries' listings want a quest bumped. */
  function Listings(c: Config, cfg: Settings, e: Event, ds: seq<XpAwarded.Delivery>, q: string): nat
    requires e.XpAwarded?
  {
    if ds == [] then 0
    else Listings(c, cfg, e, ds[..|ds| - 1], q) + multiset(WantedBy(c, cfg, e, ds[|ds| - 1]))[q]
  }

  /** No delivery's listing wants the quest bumped more than once. */
  ghost predicate ListedOnce(c: Config, cfg: Settings, e: Event, ds: seq<XpAwarded.Delivery>, q: string)
    requires e.XpAwarded?
  {
    forall i :: 0 <= i < |ds| ==> multiset(WantedBy(c, cfg, e, ds[i]))[q] <= 1
  }

  /** Over any deliveries a quest is bumped at most as often as it is listed, and so at most once a
      delivery if no listing repeats it. */
  lemma {:induction false} BumpsBound(c: Config, cfg: Settings, e: Event, ds: seq<XpAwarded.Delivery>, q: string)
    requires e.XpAwarded?
    ensures XpAwarded.Total(c, cfg, e, ds, Bumped(q)) <= Listings(c, cfg, e, ds, q)
    ensures ListedOnce(c, cfg, e, ds, q) ==> Listings(c, cfg, e, ds, q) <= |ds|
    decreases |ds|
  {
    if |ds| == 0 {
    } else {
      BumpsBound(c, cfg, e, ds[..|ds| - 1], q);
      BumpsWithin(c, cfg, e, ds[|ds| - 1], q);
      ListedOnceInit(c, cfg, e, ds, q);
    }
  }

  lemma ListedOnceInit(c: Config, cfg: Settings, e: Event, ds: seq<XpAwarded.Delivery>, q: string)
    requires e.XpAwarded? && |ds| > 0
    ensures ListedOnce(c, cfg, e, ds, q) ==>
              ListedOnce(c, cfg, e, ds[..|ds| - 1], q) && multiset(WantedBy(c, cfg, e, ds[|ds| - 1]))[q] <= 1
  {
    var init := ds[..|ds| - 1];
    assert forall i :: 0 <= i < |init| ==> init[i] == ds[i];
  }

  // ---- What the leaderboard keeps ----

  /** A delivery as the table sees it: which of the two writes took hold before it ended or was
      killed. */
  function Seen(c: Config, cfg: Settings, e: Event, d: XpAwarded.Delivery): Ledger.Attempt
    requires e.XpAwarded?
  {
    var done := Happened(c, cfg, e, d);
    Ledger.Attempt(e, d.world.now, Ledger.Answers(WroteWeekly in done, WroteMonthly in done))
  }

  /** The writes that took hold are the first of those the handler performs, as many as are among
      its effects: all of them if it was not killed and got to them. */
  lemma SeenWrites(c: Config, cfg: Settings, e: Event, d: XpAwarded.Delivery)
    requires e.XpAwarded?
    ensures var done, a := Happened(c, cfg, e, d), Seen(c, cfg, e, d);
            var n := Count(done, WroteWeekly) + Count(done, WroteMonthly);
            var run := Handle(c, cfg, d.local, e, d.world);
            && n <= |Writes(e, d.world)|
            && Ledger.Performed(Ledger.Plan(a.event, a.now), a.answers) == Writes(e, d.world)[..n]
            && (d.killedAfter.None? ==>
                 n == if run.result.Err? && BeforeWrites(run.result.error) then 0 else |Writes(e, d.world)|)
  {
    var done := Happened(c, cfg, e, d);
    HappenedWrites(c, cfg, e, d);
    if d.world.enabled {
      var n := Count(done, WroteWeekly) + Count(done, WroteMonthly);
      FirstOfPerformed(Ledger.Plan(e, d.world.now), d.world.answers, n);
    }
  }

  /** The first `n` writes performed under some answers are those performed under others. */
  lemma FirstOfPerformed(plan: Option<seq<Ledger.Write>>, a: Ledger.Answers, n: nat)
    requires n <= |Ledger.Performed(plan, a)| && (plan.Some? ==> |plan.value| <= 2)
    ensures Ledger.Performed(plan, Ledger.Answers(n >= 1, n == 2)) == Ledger.Performed(plan, a)[..n]
  {
  }

  lemma HappenedWrites(c: Config, cfg: Settings, e: Event, d: XpAwarded.Delivery)
    requires e.XpAwarded?
    ensures var done, run := Happened(c, cfg, e, d), Handle(c, cfg, d.local, e, d.world);
            var n := Count(done, WroteWeekly) + Count(done, WroteMonthly);
            && n <= |Writes(e, d.world)| && n <= 2
            && (WroteWeekly in done <==> n >= 1) && (WroteMonthly in done <==> n == 2)
            && (d.killedAfter.None? ==>
                 n == if run.result.Err? && BeforeWrites(run.result.error) then 0 else |Writes(e, d.world)|)
  {
    var t, must := StagesOf(c, cfg, d.local, e, d.world), MustCredit(e);
    var all := EffectsOf(must, t);
    EffectsByEnding(c, cfg, e, d);
    WritesAsPlanned(e, d.world);
    WriteCounts(must, t, if d.killedAfter.Some? && d.killedAfter.value < |all| then d.killedAfter.value else |all|);
    HandledAsStaged(c, cfg, d.local, e, d.world);
  }

  lemma WriteCounts(must: bool, t: Stages, n: nat)
    requires n <= |EffectsOf(must, t)| && t.writes <= 2
    ensures var all := EffectsOf(must, t);
            var weekly, monthly := Count(all[..n], WroteWeekly), Count(all[..n], WroteMonthly);
            && monthly <= weekly <= 1 && weekly + monthly <= t.writes
            && (WroteWeekly in all[..n] <==> weekly == 1) && (WroteMonthly in all[..n] <==> monthly == 1)
            && (n == |all| ==> weekly + monthly ==
                               if EndingOf(must, t).AtCredit? || EndingOf(must, t).AtBalance? then 0 else t.writes)
  {
    var all, first := EffectsOf(must, t), if must then 1 else 0;
    PrefixCounts(must, t, n);
    EffectPlaces(must, t);
    CountAt(all, WroteWeekly, first, n);
    CountAt(all, WroteMonthly, first + 1, n);
  }

  // ---- An event that is handled twice ----

  const GRANT := XpAwarded("ana", 5, Manual, Some("fr"), true)

  const NEW_YEAR := Buckets.Instant(Calendar.Date(2026, 1, 1), 0, 0)

  function Answered<T>(body: T): Call<T> { Call(0.0, Script([], Answer(Response(200, Some(body)), 0.0))) }

  /** Core answers everything, there are no quests, and the table takes the weekly write or not. */
  function Day(weekly: bool): World {
    World(Answered(Balance(Some(5))), true, NEW_YEAR, Ledger.Answers(weekly, true),
          Quests.Calls(Answered([]), [], Answered(Quests.BumpReply(None, None))))
  }

  function OnADay(weekly: bool): XpAwarded.Delivery { XpAwarded.Delivery(Local(FRESH, false), Day(weekly), None) }

  lemma GrantPlan()
    ensures Ledger.Ranked(GRANT) && Ledger.Plan(GRANT, NEW_YEAR).Some? && |Ledger.Plan(GRANT, NEW_YEAR).value| == 2
  {
    assert "fr"[0] == 'f';
    assert !Buckets.IsSpace("fr"[0]);
    assert Ledger.Language(GRANT) != "";
    Buckets.WeeklyOverflow(Ledger.Language(GRANT), NEW_YEAR);
    Buckets.MonthlyOverflow(Ledger.Language(GRANT), NEW_YEAR);
  }

  lemma AnsweredSettles<T>(c: Config, cfg: Settings, body: T)
    ensures Perform(c, cfg, FRESH, Answered(body)).result == Ok(body)
    ensures Perform(c, cfg, FRESH, Answered(body)).state == FRESH
  {
    var call := Answered(body);
    assert SendCount(call.env, cfg.MaxAttempts()) == 1;
    assert AllSendOps(call.env, 0) == [] && AllSendOps(call.env, 1) == [] + [Success];
    assert RequestOps(true, 0.0, cfg, call.env) == [Op.Allow(0.0)] + [Success];
    RunAppend(c, FRESH, [Op.Allow(0.0)], Success);
    RunAppend(c, FRESH, [], Op.Allow(0.0));
    assert [] + [Op.Allow(0.0)] == [Op.Allow(0.0)];
  }

  lemma NoQuestsListed(c: Config, cfg: Settings, weekly: bool)
    ensures Quests.Evaluate(c, cfg, false, FRESH, GRANT, Day(weekly).quests).result == Ok([])
  {
    var none: seq<Quests.Quest> := [];
    AnsweredSettles(c, cfg, none);
  }

  lemma DayFault(weekly: bool)
    ensures LeaderboardFault(GRANT, Day(weekly)).None? <==> weekly
  {
    GrantPlan();
  }

  lemma DayEnds(c: Config, cfg: Settings, weekly: bool)
    ensures EndingOf(true, StagesOf(c, cfg, Local(FRESH, false), GRANT, Day(weekly))).Finished? <==> weekly
  {
    AnsweredSettles(c, cfg, Balance(Some(5)));
    NoQuestsListed(c, cfg, weekly);
    DayFault(weekly);
  }

  /** On such a day the event is acknowledged exactly when the table takes the weekly write. */
  lemma GrantDelivered(c: Config, cfg: Settings, weekly: bool)
    ensures Acked(c, cfg, GRANT, OnADay(weekly)) <==> weekly
  {
    DayEnds(c, cfg, weekly);
    EffectsByEnding(c, cfg, GRANT, OnADay(weekly));
  }

  lemma GrantCredits(c: Config, cfg: Settings, weekly: bool)
    ensures CreditReturns(c, cfg, OnADay(weekly))
  {
  }

  /** Exactly-once fails: a refused weekly write after a credit that went through, and the event is
      credited again by the delivery that acknowledges it. */
  lemma {:induction false} CreditedTwice(c: Config, cfg: Settings)
    ensures !Acked(c, cfg, GRANT, OnADay(false)) && Acked(c, cfg, GRANT, OnADay(true))
    ensures XpAwarded.Total(c, cfg, GRANT, [OnADay(false), OnADay(true)], Credited) == 2
  {
    GrantDelivered(c, cfg, false);
    GrantDelivered(c, cfg, true);
    GrantCredits(c, cfg, false);
    GrantCredits(c, cfg, true);
    CreditsCounted(c, cfg, GRANT, [OnADay(false), OnADay(true)]);
    ReturningTwo(c, cfg, OnADay(false), OnADay(true));
  }

  lemma {:induction false} ReturningTwo(c: Config, cfg: Settings, d: XpAwarded.Delivery, d': XpAwarded.Delivery)
    ensures Returning(c, cfg, [d, d']) ==
            (if CreditReturns(c, cfg, d) then 1 else 0) + if CreditReturns(c, cfg, d') then 1 else 0
  {
    assert [d, d'][..1] == [d] && [d][..0] == [];
    assert Returning(c, cfg, [d]) == if CreditReturns(c, cfg, d) then 1 else 0;
  }

  /** Reprocessing is not tolerated: acknowledged twice, the event is credited twice and written
      twice to both buckets. */
  lemma {:induction false} AcknowledgedTwice(c: Config, cfg: Settings)
    ensures Acked(c, cfg, GRANT, OnADay(true))
    ensures var ds := [OnADay(true), OnADay(true)];
            && XpAwarded.Total(c, cfg, GRANT, ds, Credited) == 2
            && XpAwarded.Total(c, cfg, GRANT, ds, WroteWeekly) == 2
            && XpAwarded.Total(c, cfg, GRANT, ds, WroteMonthly) == 2
  {
    GrantDelivered(c, cfg, true);
    GrantPlan();
    AckedTwice(c, cfg, GRANT, OnADay(true), Credited);
    AckedTwice(c, cfg, GRANT, OnADay(true), WroteWeekly);
    AckedTwice(c, cfg, GRANT, OnADay(true), WroteMonthly);
  }

  lemma {:induction false} AckedTwice(c: Config, cfg: Settings, e: Event, d: XpAwarded.Delivery, x: Effect)
    requires e.XpAwarded? && Acked(c, cfg, e, d) && (x.Credited? || x.WroteWeekly? || x.WroteMonthly?)
    ensures XpAwarded.Total(c, cfg, e, [d, d], x) ==
            if (if x.Credited? then MustCredit(e) else Writing(e, d.world)) then 2 else 0
  {
    TotalAppend(c, cfg, e, [], d, x);
    TotalAppend(c, cfg, e, [d], d, x);
    assert [] + [d] == [d] && [d] + [d] == [d, d];
    AckedCounts(c, cfg, e, d, x);
  }
}
