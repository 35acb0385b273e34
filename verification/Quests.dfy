/** The quest evaluator (app/quests/evaluator.py): list the user's quests through the callback
    client, then advance every active one that counts the event's unit. */
module Quests {
  import opened Prelude
  import opened Events
  import opened CircuitBreaking
  import opened CoreClient
  import opened Effects

  /** A listed quest. A missing `id`, and a `current` that `int()` refuses, are None. */
  datatype Quest = Quest(id: Option<string>, status: string, unit: string, current: Option<int>)

  /** The reply to a bump; a reply without a status keeps the old one. */
  datatype BumpReply = BumpReply(status: Option<string>, current: Option<int>) {
    function StatusOr(before: string): string { if status.Some? then status.value else before }
  }

  datatype Action = Action(questId: string, unit: string, delta: int, before: int, after: int,
                           statusBefore: string, statusAfter: string)

  /** The calls one evaluation may make: the listing, and a bump for each quest in turn. */
  datatype Calls = Calls(list: Call<seq<Quest>>, bumps: seq<Call<BumpReply>>, lastBump: Call<BumpReply>) {
    function Bump(i: nat): Call<BumpReply> { if i < |bumps| then bumps[i] else lastBump }
  }

  datatype Fault = Client(error: Error) | Malformed

  /** `_event_unit_and_delta` */
  function UnitAndDelta(e: Event): Option<(string, int)> {
    match e
    case XpAwarded(_, amount, _, _, _) => Some(("XP", amount))
    case LessonCompleted(_, isTestOut) => if isTestOut then None else Some(("lessons", 1))
    case ReviewCompleted(_, count) => Some(("cards", count))
    case FriendAdded(_, _) => Some(("friends", 1))
    case _ => None
  }

  predicate Matches(q: Quest, unit: string) { q.status == "active" && q.unit == unit }

  /** The quests an event advances, in listing order. */
  function Matching(quests: seq<Quest>, unit: string): seq<Quest> {
    if quests == [] then []
    else Matching(quests[..|quests| - 1], unit) +
         if Matches(quests[|quests| - 1], unit) then [quests[|quests| - 1]] else []
  }

  /** How far the bumping has got: the breaker, the quests whose bump returned, the number of
      bumps asked for, the action records, and whether something has been raised. */
  datatype Progress = Progress(state: Snapshot, returned: seq<string>, asked: nat, actions: seq<Action>,
                               fault: Option<Fault>)

  /** One matching quest. */
  function BumpOne(c: Config, cfg: Settings, p: Progress, q: Quest, unit: string, delta: int, calls: Calls): Progress {
    if q.id.None? || q.current.None? then p.(fault := Some(Malformed))
    else
      var call := Perform(c, cfg, p.state, calls.Bump(p.asked));
      var sent := p.(state := call.state, asked := p.asked + 1);
      if call.result.Err? then sent.(fault := Some(Client(call.result.error)))
      else
        var back := sent.(returned := p.returned + [q.id.value]);
        var reply := call.result.value;
        if reply.current.None? then back.(fault := Some(Malformed))
        else back.(actions := p.actions + [Action(q.id.value, unit, delta, q.current.value, reply.current.value,
                                                  q.status, reply.StatusOr(q.status))])
  }

  /** The loop over a listing, stopping at the first fault. */
  function BumpAll(c: Config, cfg: Settings, p: Progress, quests: seq<Quest>, unit: string, delta: int,
                   calls: Calls): Progress
    decreases |quests|
  {
    if quests == [] then p
    else
      var before := BumpAll(c, cfg, p, quests[..|quests| - 1], unit, delta, calls);
      if before.fault.Some? || !Matches(quests[|quests| - 1], unit) then before
      else BumpOne(c, cfg, before, quests[|quests| - 1], unit, delta, calls)
  }

  /** One evaluation: the latch and the breaker after it, what it returned or raised, whether it
      asked for the listing, and what the bumping did. */
  datatype Evaluation = Evaluation(latch: bool, state: Snapshot, result: Result<seq<Action>, Fault>,
                                   listing: Option<Result<seq<Quest>, Error>>, bumping: Progress)

  function Idle(s: Snapshot): Progress { Progress(s, [], 0, [], None) }

  /** Whether the event reaches the listing call. */
  predicate Asks(latch: bool, e: Event) {
    UnitAndDelta(e).Some? && UnitAndDelta(e).value.1 > 0 && !latch
  }

  function Evaluate(c: Config, cfg: Settings, latch: bool, s: Snapshot, e: Event, calls: Calls): Evaluation {
    if !Asks(latch, e) then Evaluation(latch, s, Ok([]), None, Idle(s))
    else
      var list := Perform(c, cfg, s, calls.list);
      if list.result == Err(HttpStatus(404)) then
        Evaluation(true, list.state, Ok([]), Some(list.result), Idle(list.state))
      else if list.result.Err? then
        Evaluation(latch, list.state, Err(Client(list.result.error)), Some(list.result), Idle(list.state))
      else
        var (unit, delta) := UnitAndDelta(e).value;
        var p := BumpAll(c, cfg, Idle(list.state), list.result.value, unit, delta, calls);
        Evaluation(latch, p.state, if p.fault.Some? then Err(p.fault.value) else Ok(p.actions), Some(list.result), p)
  }

  function QuestEffects(run: Evaluation): seq<Effect> {
    (if run.listing.Some? && run.listing.value.Ok? then [Listed] else []) + BumpEffects(run.bumping.returned)
  }

  class Evaluator {
    /** `_quests_surface_unmounted` */
    var unmounted: bool

    constructor ()
      ensures !unmounted
    {
      unmounted := false;
    }

    method EvaluateFor(breaker: CircuitBreaker, trace: Trace, cfg: Settings, e: Event, calls: Calls)
      returns (result: Result<seq<Action>, Fault>)
      requires breaker.Valid()
      modifies this, breaker, trace
      ensures breaker.Valid()
      ensures var run := Evaluate(breaker.config, cfg, old(unmounted), old(breaker.State()), e, calls);
              && unmounted == run.latch && breaker.State() == run.state && result == run.result
              && trace.effects == old(trace.effects) + QuestEffects(run)
    {
      ghost var run := Evaluate(breaker.config, cfg, unmounted, breaker.State(), e, calls);
      Joined(trace.effects, [Listed], BumpEffects(run.bumping.returned));
      NoEffects(trace.effects);
      var pair := UnitAndDelta(e);
      if pair.None? { return Ok([]); }
      var (unit, delta) := pair.value;
      if delta <= 0 { return Ok([]); }
      if unmounted { return Ok([]); }
      var listed, sends := Callback(breaker, cfg, calls.list);
      if listed.Err? {
        if listed.error == HttpStatus(404) {
          unmounted := true;
          return Ok([]);
        }
        return Err(Client(listed.error));
      }
      trace.Note(Listed);
      var quests := listed.value;
      result := BumpEach(breaker, trace, cfg, quests, unit, delta, calls);
    }

    /** The loop of the evaluation. */
    method BumpEach(breaker: CircuitBreaker, trace: Trace, cfg: Settings, quests: seq<Quest>, unit: string, delta: int,
                    calls: Calls)
      returns (result: Result<seq<Action>, Fault>)
      requires breaker.Valid()
      modifies breaker, trace
      ensures breaker.Valid()
      ensures var p := BumpAll(breaker.config, cfg, Idle(old(breaker.State())), quests, unit, delta, calls);
              && breaker.State() == p.state
              && result == (if p.fault.Some? then Err(p.fault.value) else Ok(p.actions))
              && trace.effects == old(trace.effects) + BumpEffects(p.returned)
    {
      var actions: seq<Action> := [];
      ghost var returned: seq<string> := [];
      var asked := 0;
      ghost var start := Idle(breaker.State());
      for i := 0 to |quests|
        invariant breaker.Valid()
        invariant BumpAll(breaker.config, cfg, start, quests[..i], unit, delta, calls) ==
                  Progress(breaker.State(), returned, asked, actions, None)
        invariant trace.effects == old(trace.effects) + BumpEffects(returned)
      {
        var quest := quests[i];
        FaultSticks(breaker.config, cfg, start, quests, i + 1, unit, delta, calls);
        assert quests[..i + 1][..i] == quests[..i];
        if quest.status != "active" { continue; }
        if quest.unit != unit { continue; }
        if quest.id.None? || quest.current.None? { return Err(Malformed); }
        var updated, sends := Callback(breaker, cfg, calls.Bump(asked));
        asked := asked + 1;
        if updated.Err? { return Err(Client(updated.error)); }
        Joined(old(trace.effects), BumpEffects(returned), [Bumped(quest.id.value)]);
        OneMoreBump(returned, quest.id.value);
        trace.Note(Bumped(quest.id.value));
        returned := returned + [quest.id.value];
        if updated.value.current.None? { return Err(Malformed); }
        actions := actions + [Action(quest.id.value, unit, delta, quest.current.value, updated.value.current.value,
                                     quest.status, updated.value.StatusOr(quest.status))];
      }
      assert quests[..|quests|] == quests;
      return Ok(actions);
    }
  }

  lemma NoEffects(before: seq<Effect>)
    ensures BumpEffects([]) == [] && before + [] == before
  {
  }

  lemma OneMoreBump(ids: seq<string>, id: string)
    ensures BumpEffects(ids + [id]) == BumpEffects(ids) + [Bumped(id)]
  {
  }

  /** Once something has been raised, the rest of the listing changes nothing. */
  lemma {:induction false} FaultSticks(c: Config, cfg: Settings, p: Progress, quests: seq<Quest>, n: nat, unit: string,
                                       delta: int, calls: Calls)
    requires n <= |quests|
    ensures BumpAll(c, cfg, p, quests[..n], unit, delta, calls).fault.Some? ==>
              BumpAll(c, cfg, p, quests, unit, delta, calls) == BumpAll(c, cfg, p, quests[..n], unit, delta, calls)
    decreases |quests|
  {
    if n == |quests| {
      assert quests[..n] == quests;
    } else {
      var init := quests[..|quests| - 1];
      assert init[..n] == quests[..n];
      FaultSticks(c, cfg, p, init, n, unit, delta, calls);
    }
  }

  // ---- Exactly the matching quests, once each, in order ----

  function Ids(quests: seq<Quest>): seq<string> {
    seq(|quests|, i requires 0 <= i < |quests| => if quests[i].id.Some? then quests[i].id.value else "")
  }

  function ActionIds(actions: seq<Action>): seq<string> {
    seq(|actions|, i requires 0 <= i < |actions| => actions[i].questId)
  }

  /** What a run of the loop over a listing has done. */
  ghost predicate InStep(p: Progress, matching: seq<Quest>, unit: string, delta: int) {
    && |p.actions| <= |matching|
    && ActionIds(p.actions) == Ids(matching[..|p.actions|])
    && (forall a :: a in p.actions ==> a.unit == unit && a.delta == delta)
    && (p.fault.None? ==> |p.actions| == |matching| && p.returned == ActionIds(p.actions) && p.asked == |matching|)
    && (p.fault.Some? ==>
          && |p.actions| < |matching|
          && (p.returned == ActionIds(p.actions) ||
              (p.fault == Some(Malformed) && p.returned == Ids(matching[..|p.actions| + 1])))
          && |p.returned| <= p.asked <= |p.actions| + 1)
  }

  /** A loop that ends normally has bumped exactly the active quests of the unit, once each, in
      listing order. One that fails at the k-th of them has bumped and recorded exactly the first
      k - 1; only when the reply itself cannot be read has the k-th been bumped too. */
  lemma {:induction false} BumpsMatchExactly(c: Config, cfg: Settings, s: Snapshot, quests: seq<Quest>, unit: string,
                                             delta: int, calls: Calls)
    ensures InStep(BumpAll(c, cfg, Idle(s), quests, unit, delta, calls), Matching(quests, unit), unit, delta)
    decreases |quests|
  {
    if quests == [] {
    } else {
      var init, q := quests[..|quests| - 1], quests[|quests| - 1];
      var before := BumpAll(c, cfg, Idle(s), init, unit, delta, calls);
      BumpsMatchExactly(c, cfg, s, init, unit, delta, calls);
      if Matches(q, unit) {
        var matching := Matching(init, unit);
        assert (matching + [q])[..|before.actions|] == matching[..|before.actions|];
        if before.fault.Some? {
          assert (matching + [q])[..|before.actions| + 1] == matching[..|before.actions| + 1];
        } else {
          BumpOneInStep(c, cfg, before, q, unit, delta, calls, matching);
        }
      }
    }
  }

  lemma BumpOneInStep(c: Config, cfg: Settings, p: Progress, q: Quest, unit: string, delta: int, calls: Calls,
                      matching: seq<Quest>)
    requires p.fault.None? && InStep(p, matching, unit, delta)
    ensures InStep(BumpOne(c, cfg, p, q, unit, delta, calls), matching + [q], unit, delta)
  {
    var more := matching + [q];
    assert more[..|matching|] == matching && matching[..|matching|] == matching && more[..|more|] == more;
    assert q.id.Some? ==> Ids(more) == Ids(matching) + [q.id.value];
    var after := BumpOne(c, cfg, p, q, unit, delta, calls);
    if |after.actions| > |p.actions| {
      assert ActionIds(after.actions) == ActionIds(p.actions) + [q.id.value];
    }
  }

  /** The evaluation of one event, read off its listing. */
  lemma EvaluationExact(c: Config, cfg: Settings, latch: bool, s: Snapshot, e: Event, calls: Calls)
    ensures var run := Evaluate(c, cfg, latch, s, e, calls);
            && (run.listing.Some? <==> Asks(latch, e))
            && (run.listing.Some? && run.listing.value.Ok? ==>
                  var matching := Matching(run.listing.value.value, UnitAndDelta(e).value.0);
                  && InStep(run.bumping, matching, UnitAndDelta(e).value.0, UnitAndDelta(e).value.1)
                  && (run.result.Ok? ==> run.bumping.returned == Ids(matching)))
            && (run.listing.None? || run.listing.value.Err? ==> run.bumping.asked == 0 && run.bumping.returned == [])
  {
    if Asks(latch, e) {
      var list := Perform(c, cfg, s, calls.list);
      if list.result.Ok? {
        var (unit, delta) := UnitAndDelta(e).value;
        BumpsMatchExactly(c, cfg, list.state, list.result.value, unit, delta, calls);
        var m := Matching(list.result.value, UnitAndDelta(e).value.0);
        assert m[..|m|] == m;
      }
    }
  }

  // ---- By type of event ----

  /** The places in a listing of the active quests of a unit, in order. */
  function ActiveIn(quests: seq<Quest>, unit: string): seq<nat> {
    if quests == [] then []
    else
      var q := quests[|quests| - 1];
      ActiveIn(quests[..|quests| - 1], unit) +
      if q.status == "active" && q.unit == unit then [|quests| - 1] else []
  }

  lemma {:induction false} MatchingIsActive(quests: seq<Quest>, unit: string)
    ensures var places, matching := ActiveIn(quests, unit), Matching(quests, unit);
            && |places| == |matching|
            && forall k :: 0 <= k < |places| ==> places[k] < |quests| && quests[places[k]] == matching[k]
    decreases |quests|
  {
    if |quests| == 0 {
    } else {
      var init := quests[..|quests| - 1];
      MatchingIsActive(init, unit);
      assert forall i :: 0 <= i < |init| ==> init[i] == quests[i];
    }
  }

  /** Those are increasing, and exactly the quests that are active and of the unit. */
  lemma {:induction false} ActiveInExact(quests: seq<Quest>, unit: string)
    ensures var places := ActiveIn(quests, unit);
            && (forall j, k :: 0 <= j < k < |places| ==> places[j] < places[k])
            && (forall i :: i in places <==>
                  0 <= i < |quests| && quests[i].status == "active" && quests[i].unit == unit)
    decreases |quests|
  {
    if |quests| == 0 {
    } else {
      var init := quests[..|quests| - 1];
      ActiveInExact(init, unit);
      MatchingIsActive(init, unit);
      assert forall i :: 0 <= i < |init| ==> init[i] == quests[i];
    }
  }

  /** The JSON body of the reply that settles a call. */
  function Body<T>(cfg: Settings, call: Call<T>): Option<T> {
    var last := call.env.At(SendCount(call.env, cfg.MaxAttempts()) - 1).reply;
    if last.Response? then last.json else None
  }

  lemma PerformBody<T>(c: Config, cfg: Settings, s: Snapshot, call: Call<T>)
    ensures Perform(c, cfg, s, call).result.Ok? ==> Body(cfg, call) == Some(Perform(c, cfg, s, call).result.value)
  {
  }

  /** The record of the k-th bump: the quest's id, the unit and delta, the progress listed and the progress
      replied, and the status, which stays active unless the reply names one. */
  ghost predicate Recorded(a: Action, cfg: Settings, calls: Calls, k: nat, q: Quest, unit: string, delta: int) {
    var reply := Body(cfg, calls.Bump(k));
    && q.id.Some? && q.current.Some? && reply.Some? && reply.value.current.Some?
    && a == Action(q.id.value, unit, delta, q.current.value, reply.value.current.value, "active",
                   if reply.value.status.Some? then reply.value.status.value else "active")
  }

  ghost predicate AllRecorded(p: Progress, cfg: Settings, calls: Calls, matching: seq<Quest>, unit: string,
                              delta: int) {
    && |p.actions| <= |matching|
    && forall k :: 0 <= k < |p.actions| ==> Recorded(p.actions[k], cfg, calls, k, matching[k], unit, delta)
  }

  lemma BumpOneRecorded(c: Config, cfg: Settings, p: Progress, q: Quest, unit: string, delta: int, calls: Calls,
                        matching: seq<Quest>)
    requires p.fault.None? && InStep(p, matching, unit, delta) && AllRecorded(p, cfg, calls, matching, unit, delta)
    requires q.status == "active"
    ensures AllRecorded(BumpOne(c, cfg, p, q, unit, delta, calls), cfg, calls, matching + [q], unit, delta)
  {
    PerformBody(c, cfg, p.state, calls.Bump(p.asked));
    assert (matching + [q])[|matching|] == q;
  }

  lemma {:induction false} BumpsRecorded(c: Config, cfg: Settings, s: Snapshot, quests: seq<Quest>, unit: string,
                                         delta: int, calls: Calls)
    ensures AllRecorded(BumpAll(c, cfg, Idle(s), quests, unit, delta, calls), cfg, calls, Matching(quests, unit),
                        unit, delta)
    decreases |quests|
  {
    if |quests| == 0 {
    } else {
      var init, q := quests[..|quests| - 1], quests[|quests| - 1];
      var before := BumpAll(c, cfg, Idle(s), init, unit, delta, calls);
      BumpsRecorded(c, cfg, s, init, unit, delta, calls);
      BumpsMatchExactly(c, cfg, s, init, unit, delta, calls);
      if Matches(q, unit) && before.fault.None? {
        BumpOneRecorded(c, cfg, before, q, unit, delta, calls, Matching(init, unit));
      }
    }
  }

  /** The evaluation makes no call: it lists nothing, bumps nothing and leaves the breaker as it was. */
  predicate Silent(run: Evaluation, s: Snapshot) {
    run.listing.None? && run.result == Ok([]) && run.bumping.returned == [] && run.bumping.asked == 0 && run.state == s
  }

  /** The evaluation advances quests of a unit by a delta: silent if the delta is not positive or the latch
      is set; otherwise it lists, ends quietly on a 404, raises any other error of the listing, and on a
      normal end has bumped and recorded exactly the active quests of the unit, once each and in the
      order of the listing. */
  ghost predicate Advances(run: Evaluation, latch: bool, c: Config, cfg: Settings, s: Snapshot, calls: Calls,
                           unit: string, delta: int) {
    if delta <= 0 || latch then Silent(run, s)
    else
      && run.listing == Some(Perform(c, cfg, s, calls.list).result)
      && (run.listing.value.Err? ==>
            && run.bumping.returned == [] && run.bumping.asked == 0
            && run.latch == (run.listing.value.error == HttpStatus(404))
            && run.result == if run.latch then Ok([]) else Err(Client(run.listing.value.error)))
      && (run.listing.value.Ok? ==> !run.latch)
      && (run.listing.value.Ok? && run.result.Ok? ==>
            var quests := run.listing.value.value;
            var places := ActiveIn(quests, unit);
            && |run.bumping.returned| == |run.result.value| == |places|
            && forall k :: 0 <= k < |places| ==>
                 && places[k] < |quests| && quests[places[k]].id == Some(run.bumping.returned[k])
                 && Recorded(run.result.value[k], cfg, calls, k, quests[places[k]], unit, delta))
  }

  /** Which quests an event advances: an award the XP quests by its amount, a lesson that is no test-out the
      lesson quests by one, reviews the card quests by their count, a friendship the friend quests by
      one; a test-out, an ad and a subscription none. */
  lemma EvaluationByType(c: Config, cfg: Settings, latch: bool, s: Snapshot, e: Event, calls: Calls)
    ensures var run := Evaluate(c, cfg, latch, s, e, calls);
            match e
            case XpAwarded(_, amount, _, _, _) => Advances(run, latch, c, cfg, s, calls, "XP", amount)
            case LessonCompleted(_, isTestOut) =>
              if isTestOut then Silent(run, s) else Advances(run, latch, c, cfg, s, calls, "lessons", 1)
            case ReviewCompleted(_, count) => Advances(run, latch, c, cfg, s, calls, "cards", count)
            case FriendAdded(_, _) => Advances(run, latch, c, cfg, s, calls, "friends", 1)
            case AdWatched(_) => Silent(run, s)
            case SubscriptionChanged(_) => Silent(run, s)
  {
    if Asks(latch, e) {
      EvaluationAdvances(c, cfg, s, e, calls);
    }
  }

  lemma EvaluationAdvances(c: Config, cfg: Settings, s: Snapshot, e: Event, calls: Calls)
    requires Asks(false, e)
    ensures var (unit, delta) := UnitAndDelta(e).value;
            Advances(Evaluate(c, cfg, false, s, e, calls), false, c, cfg, s, calls, unit, delta)
  {
    var (unit, delta) := UnitAndDelta(e).value;
    var list := Perform(c, cfg, s, calls.list);
    if list.result.Ok? {
      BumpsMatchExactly(c, cfg, list.state, list.result.value, unit, delta, calls);
      BumpsRecorded(c, cfg, list.state, list.result.value, unit, delta, calls);
      MatchingIsActive(list.result.value, unit);
    }
  }

  // ---- The latch over runs ----

  datatype Turn = Turn(event: Event, calls: Calls)

  datatype Process = Process(latch: bool, state: Snapshot)

  function AfterTurn(c: Config, cfg: Settings, p: Process, t: Turn): Process {
    var run := Evaluate(c, cfg, p.latch, p.state, t.event, t.calls);
    Process(run.latch, run.state)
  }

  function AfterTurns(c: Config, cfg: Settings, p: Process, turns: seq<Turn>): Process {
    if turns == [] then p
    else AfterTurn(c, cfg, AfterTurns(c, cfg, p, turns[..|turns| - 1]), turns[|turns| - 1])
  }

  /** The evaluation of the i-th event of a run. */
  function RunAt(c: Config, cfg: Settings, p: Process, turns: seq<Turn>, i: nat): Evaluation
    requires i < |turns|
  {
    var before := AfterTurns(c, cfg, p, turns[..i]);
    Evaluate(c, cfg, before.latch, before.state, turns[i].event, turns[i].calls)
  }

  /** The i-th event's listing met a 404. */
  predicate Met404(c: Config, cfg: Settings, s: Snapshot, turns: seq<Turn>, i: nat)
    requires i < |turns|
  {
    RunAt(c, cfg, Process(false, s), turns, i).listing == Some(Err(HttpStatus(404)))
  }

  lemma Met404Prefix(c: Config, cfg: Settings, s: Snapshot, turns: seq<Turn>, n: nat, i: nat)
    requires i < n <= |turns|
    ensures Met404(c, cfg, s, turns[..n], i) <==> Met404(c, cfg, s, turns, i)
  {
    assert turns[..n][..i] == turns[..i];
  }

  ghost predicate SomeMet404(c: Config, cfg: Settings, s: Snapshot, turns: seq<Turn>) {
    exists i :: 0 <= i < |turns| && Met404(c, cfg, s, turns, i)
  }

  lemma SomeMet404Step(c: Config, cfg: Settings, s: Snapshot, turns: seq<Turn>, n: nat)
    requires |turns| == n + 1
    ensures SomeMet404(c, cfg, s, turns) <==> SomeMet404(c, cfg, s, turns[..n]) || Met404(c, cfg, s, turns, n)
  {
    forall i | 0 <= i < n ensures Met404(c, cfg, s, turns[..n], i) <==> Met404(c, cfg, s, turns, i) {
      Met404Prefix(c, cfg, s, turns, n, i);
    }
    if SomeMet404(c, cfg, s, turns[..n]) {
      var i :| 0 <= i < n && Met404(c, cfg, s, turns[..n], i);
      assert Met404(c, cfg, s, turns, i);
    }
  }

  /** The latch of a process is set exactly when some event's listing has met a 404. */
  lemma {:induction false} LatchIffListing404(c: Config, cfg: Settings, s: Snapshot, turns: seq<Turn>)
    ensures AfterTurns(c, cfg, Process(false, s), turns).latch <==> SomeMet404(c, cfg, s, turns)
    decreases |turns|
  {
    if |turns| == 0 {
    } else {
      var n := |turns| - 1;
      LatchIffListing404(c, cfg, s, turns[..n]);
      SomeMet404Step(c, cfg, s, turns, n);
      LatchIsSticky(c, cfg, s, turns, n);
    }
  }

  lemma {:induction false} LatchIsSticky(c: Config, cfg: Settings, s: Snapshot, turns: seq<Turn>, n: nat)
    requires |turns| == n + 1
    ensures AfterTurns(c, cfg, Process(false, s), turns).latch <==>
            AfterTurns(c, cfg, Process(false, s), turns[..n]).latch || Met404(c, cfg, s, turns, n)
  {
    LatchStep(c, cfg, AfterTurns(c, cfg, Process(false, s), turns[..n]), turns[n]);
  }

  lemma LatchStep(c: Config, cfg: Settings, p: Process, t: Turn)
    ensures AfterTurn(c, cfg, p, t).latch <==>
            p.latch || Evaluate(c, cfg, p.latch, p.state, t.event, t.calls).listing == Some(Err(HttpStatus(404)))
  {
  }

  /** Once the latch is set it stays set, and no later event asks for anything. */
  lemma {:induction false} LatchSilences(c: Config, cfg: Settings, p: Process, turns: seq<Turn>, i: nat, j: nat)
    requires i <= j <= |turns| && AfterTurns(c, cfg, p, turns[..i]).latch
    ensures AfterTurns(c, cfg, p, turns[..j]) == AfterTurns(c, cfg, p, turns[..i])
    ensures j < |turns| ==> RunAt(c, cfg, p, turns, j).listing.None? && RunAt(c, cfg, p, turns, j).bumping.asked == 0
    decreases j
  {
    if i == j {
    } else {
      LatchSilences(c, cfg, p, turns, i, j - 1);
      assert turns[..j][..j - 1] == turns[..j - 1];
    }
  }
}
