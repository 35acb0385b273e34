/** The batch loop of the Lambda (app/handler.py): parse, log, dispatch, log, and report the
    messages that failed. */
module Handler {
  import opened Prelude
  import opened Events
  import opened Messages
  import JsonText
  import Utf8

  datatype Record = Record(messageId: Option<string>, body: Option<string>)

  /** What dispatching an event gives: action records as JSON, or an exception. */
  datatype Verdict = Returned(outcomes: string) | Raised(error: string)

  /** A record, what `parse_event` makes of its body, and what the outside contributes to its
      turn: the clock, the text of a validation error, and what its handler would do. */
  datatype Turn = Turn(record: Record, parsed: ParseOutcome, receivedAt: string, ttl: int, invalidBecause: string,
                       verdict: Verdict)

  /** The turn's outcome is the one `parse_event` gives for the body. */
  ghost predicate Arrives(t: Turn, python: Runtime, validate: string -> Option<Event>) {
    t.parsed == ParseEvent(Body(t.record), python, validate)
  }

  datatype Status = Received | Succeeded | Failed

  /** A call on the event log. */
  datatype LogCall =
    | Save(id: string, userId: string, eventType: string, payload: string, receivedAt: string, ttl: int)
    | Update(id: string, status: Status, error: Option<string>, outcomes: string)

  /** What the loop does, in order: it asks the log, or hands an event to its handler. */
  datatype Act = Logging(call: LogCall) | Dispatching(event: Event)

  /** The acts so far, kept by the calls that perform them. */
  class Journal {
    ghost var acts: seq<Act>

    constructor ()
      ensures acts == []
    {
      acts := [];
    }

    ghost method Note(act: Act)
      modifies this
      ensures acts == old(acts) + [act]
    {
      acts := acts + [act];
    }
  }

  /** The handlers as the loop sees them: each event they are given, and what comes of it. */
  class Dispatcher {
    var dispatched: seq<Event>

    constructor ()
      ensures dispatched == []
    {
      dispatched := [];
    }

    /** `_dispatch` of an event whose handler ends in the verdict. */
    method Dispatch(journal: Journal, event: Event, verdict: Verdict) returns (result: Verdict)
      modifies this, journal
      ensures result == verdict && dispatched == old(dispatched) + [event]
      ensures journal.acts == old(journal.acts) + [Dispatching(event)]
    {
      dispatched := dispatched + [event];
      journal.Note(Dispatching(event));
      return verdict;
    }
  }

  /** The event-log backend as the loop sees it: it takes each call or raises. */
  class EventsRepo {
    /** The calls, by number, at which it raises. */
    const refusals: set<nat>
    var asked: nat
    var taken: seq<LogCall>

    constructor (refusals: set<nat>)
      ensures this.refusals == refusals && asked == 0 && taken == []
    {
      this.refusals := refusals;
      asked, taken := 0, [];
    }

    method Perform(journal: Journal, call: LogCall) returns (ok: bool)
      modifies this, journal
      ensures journal.acts == old(journal.acts) + [Logging(call)]
      ensures asked == old(asked) + 1 && ok == (old(asked) !in refusals)
      ensures taken == Log(refusals, old(asked), old(taken), [call])
    {
      ok := asked !in refusals;
      if ok { taken := taken + [call]; }
      asked := asked + 1;
      journal.Note(Logging(call));
    }
  }

  /** The calls a repo has taken after being asked some more, in order. */
  function Log(refusals: set<nat>, asked: nat, taken: seq<LogCall>, calls: seq<LogCall>): seq<LogCall> {
    if calls == [] then taken
    else
      var n := |calls| - 1;
      Log(refusals, asked, taken, calls[..n]) + if asked + n in refusals then [] else [calls[n]]
  }

  function MessageId(r: Record): string { if r.messageId.Some? then r.messageId.value else "<unknown>" }

  function Body(r: Record): string { if r.body.None? || r.body.value == "" then "{}" else r.body.value }

  function TypeName(e: Event): string {
    match e
    case XpAwarded(_, _, _, _, _) => "xp_awarded"
    case LessonCompleted(_, _) => "lesson_completed"
    case ReviewCompleted(_, _) => "review_completed"
    case FriendAdded(_, _) => "friend_added"
    case AdWatched(_) => "ad_watched"
    case SubscriptionChanged(_) => "subscription_changed"
  }

  /** The message is to be retried. */
  predicate Fails(t: Turn) {
    match t.parsed
    case Accepted(_) => t.verdict.Raised?
    case Invalid => true
    case Escapes => false
  }

  /** The log calls of a turn. */
  function LogCalls(t: Turn): seq<LogCall> {
    var id, body := MessageId(t.record), Body(t.record);
    match t.parsed
    case Accepted(e) =>
      [Save(id, e.userId, TypeName(e), body, t.receivedAt, t.ttl),
       match t.verdict
       case Returned(outcomes) => Update(id, Succeeded, None, outcomes)
       case Raised(error) => Update(id, Failed, Some(error), "[]")]
    case Invalid =>
      [Save(id, "<unparsed>", "<unparsed>", body, t.receivedAt, t.ttl),
       Update(id, Failed, Some(t.invalidBecause), "[]")]
    case Escapes => []
  }

  function AllLogCalls(turns: seq<Turn>): seq<LogCall> {
    if turns == [] then [] else AllLogCalls(turns[..|turns| - 1]) + LogCalls(turns[|turns| - 1])
  }

  /** The acts of a turn: an event that parses is handed over between its save and its update. */
  function ActsOf(t: Turn, logged: bool): seq<Act> {
    match t.parsed
    case Accepted(e) =>
      if logged then [Logging(LogCalls(t)[0]), Dispatching(e), Logging(LogCalls(t)[1])] else [Dispatching(e)]
    case Invalid => if logged then [Logging(LogCalls(t)[0]), Logging(LogCalls(t)[1])] else []
    case Escapes => []
  }

  function AllActs(turns: seq<Turn>, logged: bool): seq<Act> {
    if turns == [] then [] else AllActs(turns[..|turns| - 1], logged) + ActsOf(turns[|turns| - 1], logged)
  }

  /** The events of the turns that parse, in order. */
  function EventsIn(turns: seq<Turn>): seq<Event> {
    if turns == [] then []
    else EventsIn(turns[..|turns| - 1]) +
         if Dispatches(turns[|turns| - 1]) then [turns[|turns| - 1].parsed.event] else []
  }

  /** The numbers of the turns with a property, in order. */
  function Indices(turns: seq<Turn>, has: Turn -> bool): seq<nat> {
    if turns == [] then []
    else Indices(turns[..|turns| - 1], has) + if has(turns[|turns| - 1]) then [|turns| - 1] else []
  }

  /** The turn's event reaches its handler. */
  predicate Dispatches(t: Turn) { t.parsed.Accepted? }

  function FailureIds(turns: seq<Turn>): seq<string> {
    if turns == [] then []
    else FailureIds(turns[..|turns| - 1]) +
         if Fails(turns[|turns| - 1]) then [MessageId(turns[|turns| - 1].record)] else []
  }

  /** The turns before the first whose parse escapes. */
  function Reached(turns: seq<Turn>): (n: nat)
    ensures n <= |turns|
    ensures forall i :: 0 <= i < n ==> !turns[i].parsed.Escapes?
    ensures n < |turns| ==> turns[n].parsed.Escapes?
    decreases |turns|
  {
    if turns == [] then 0
    else
      var n := Reached(turns[..|turns| - 1]);
      if n < |turns| - 1 then n
      else if turns[|turns| - 1].parsed.Escapes? then n else n + 1
  }

  /** The invocation responds with the ids to retry, or is brought down by an escaping parse. */
  datatype Outcome = Response(failures: seq<string>) | Crashed

  function Batch(turns: seq<Turn>): Outcome {
    if Reached(turns) < |turns| then Crashed else Response(FailureIds(turns))
  }

  /** `lambda_handler`. Whatever log backend is configured, and whichever of its calls fail, the
      outcome and the dispatches depend on the records alone; and each event is handed over after its
      save and before its update. */
  method LambdaHandler(turns: seq<Turn>, repo: EventsRepo?, dispatcher: Dispatcher, journal: Journal)
    returns (outcome: Outcome)
    modifies repo, dispatcher, journal
    ensures outcome == Batch(turns)
    ensures dispatcher.dispatched == old(dispatcher.dispatched) + EventsIn(turns[..Reached(turns)])
    ensures journal.acts == old(journal.acts) + AllActs(turns[..Reached(turns)], repo != null)
    ensures repo != null ==>
              Logged(repo.refusals, old(repo.asked), old(repo.taken), turns[..Reached(turns)], repo.asked, repo.taken)
  {
    var failures: seq<string> := [];
    for i := 0 to |turns|
      invariant forall j :: 0 <= j < i ==> !turns[j].parsed.Escapes?
      invariant failures == FailureIds(turns[..i])
      invariant dispatcher.dispatched == old(dispatcher.dispatched) + EventsIn(turns[..i])
      invariant journal.acts == old(journal.acts) + AllActs(turns[..i], repo != null)
      invariant repo != null ==>
                  Logged(repo.refusals, old(repo.asked), old(repo.taken), turns[..i], repo.asked, repo.taken)
    {
      var turn := turns[i];
      if turn.parsed.Escapes? {
        return Crashed;
      }
      OneMoreTurn(turns, i, repo != null, old(dispatcher.dispatched), old(journal.acts));
      if repo != null { LoggedStep(repo.refusals, old(repo.asked), old(repo.taken), turns, i, repo.asked, repo.taken); }
      var failed := HandleRecord(turn, repo, dispatcher, journal);
      if failed {
        failures := failures + [MessageId(turn.record)];
      }
    }
    assert turns[..|turns|] == turns;
    return Response(failures);
  }

  lemma {:induction false} OneMoreTurn(turns: seq<Turn>, i: nat, logged: bool, events: seq<Event>, acts: seq<Act>)
    requires i < |turns|
    ensures FailureIds(turns[..i + 1]) ==
            FailureIds(turns[..i]) + if Fails(turns[i]) then [MessageId(turns[i].record)] else []
    ensures events + EventsIn(turns[..i + 1]) ==
            events + EventsIn(turns[..i]) + if Dispatches(turns[i]) then [turns[i].parsed.event] else []
    ensures acts + AllActs(turns[..i + 1], logged) == acts + AllActs(turns[..i], logged) + ActsOf(turns[i], logged)
  {
    assert turns[..i + 1][..i] == turns[..i];
  }

  /** The log has been asked all the calls of the turns, and has taken those it did not refuse. */
  ghost predicate Logged(refusals: set<nat>, asked: nat, taken: seq<LogCall>, turns: seq<Turn>, asked': nat,
                         taken': seq<LogCall>) {
    var calls := AllLogCalls(turns);
    asked' == asked + |calls| && taken' == Log(refusals, asked, taken, calls)
  }

  lemma {:induction false} LoggedStep(refusals: set<nat>, asked: nat, taken: seq<LogCall>, turns: seq<Turn>, i: nat,
                                      asked': nat, taken': seq<LogCall>)
    requires i < |turns| && Logged(refusals, asked, taken, turns[..i], asked', taken')
    ensures var calls := LogCalls(turns[i]);
            Logged(refusals, asked, taken, turns[..i + 1], asked' + |calls|, Log(refusals, asked', taken', calls))
  {
    assert turns[..i + 1][..i] == turns[..i];
    LogConcat(refusals, asked, taken, AllLogCalls(turns[..i]), LogCalls(turns[i]));
  }

  /** One record that does not escape: logged, dispatched if it parsed, and logged again. */
  method HandleRecord(turn: Turn, repo: EventsRepo?, dispatcher: Dispatcher, journal: Journal) returns (failed: bool)
    requires !turn.parsed.Escapes?
    modifies repo, dispatcher, journal
    ensures failed == Fails(turn)
    ensures dispatcher.dispatched == old(dispatcher.dispatched) + if Dispatches(turn) then [turn.parsed.event] else []
    ensures journal.acts == old(journal.acts) + ActsOf(turn, repo != null)
    ensures repo != null ==>
              && repo.asked == old(repo.asked) + |LogCalls(turn)|
              && repo.taken == Log(repo.refusals, old(repo.asked), old(repo.taken), LogCalls(turn))
  {
    var id, body := MessageId(turn.record), Body(turn.record);
    if repo != null { TwoCalls(repo.refusals, repo.asked, repo.taken, LogCalls(turn)); }
    if turn.parsed.Invalid? {
      SafeLog(repo, journal, Save(id, "<unparsed>", "<unparsed>", body, turn.receivedAt, turn.ttl));
      SafeLog(repo, journal, Update(id, Failed, Some(turn.invalidBecause), "[]"));
      return true;
    }
    var event := turn.parsed.event;
    SafeLog(repo, journal, Save(id, event.userId, TypeName(event), body, turn.receivedAt, turn.ttl));
    var status, errorMsg: Option<string>, outcomes := Succeeded, None, "[]";
    var verdict := dispatcher.Dispatch(journal, event, turn.verdict);
    match verdict {
      case Returned(result) => outcomes := result;
      case Raised(error) =>
        status := Failed;
        errorMsg := Some(error);
    }
    SafeLog(repo, journal, Update(id, status, errorMsg, outcomes));
    return status == Failed;
  }

  /** `_safe_save` and `_safe_update_status`: what the repo raises is swallowed. */
  method SafeLog(repo: EventsRepo?, journal: Journal, call: LogCall)
    modifies repo, journal
    ensures journal.acts == old(journal.acts) + if repo != null then [Logging(call)] else []
    ensures repo != null ==>
              repo.asked == old(repo.asked) + 1
              && repo.taken == Log(repo.refusals, old(repo.asked), old(repo.taken), [call])
  {
    if repo == null { return; }
    var ok := repo.Perform(journal, call);
  }

  lemma TwoCalls(refusals: set<nat>, asked: nat, taken: seq<LogCall>, calls: seq<LogCall>)
    requires |calls| == 2
    ensures Log(refusals, asked + 1, Log(refusals, asked, taken, [calls[0]]), [calls[1]]) ==
            Log(refusals, asked, taken, calls)
  {
    assert calls == [calls[0]] + [calls[1]];
    LogConcat(refusals, asked, taken, [calls[0]], [calls[1]]);
  }

  lemma {:induction false} LogConcat(refusals: set<nat>, asked: nat, taken: seq<LogCall>, first: seq<LogCall>,
                                     second: seq<LogCall>)
    ensures Log(refusals, asked, taken, first + second) ==
            Log(refusals, asked + |first|, Log(refusals, asked, taken, first), second)
    decreases |second|
  {
    if second == [] {
      assert first + second == first;
    } else {
      var n := |second| - 1;
      assert (first + second)[..|first| + n] == first + second[..n];
      LogConcat(refusals, asked, taken, first, second[..n]);
    }
  }

  // ---- Exactness ----

  ghost predicate Increasing(s: seq<nat>) { forall i, j :: 0 <= i < j < |s| ==> s[i] < s[j] }

  lemma {:induction false} IndicesSound(turns: seq<Turn>, has: Turn -> bool)
    ensures var found := Indices(turns, has);
            Increasing(found) && forall k :: 0 <= k < |found| ==> found[k] < |turns| && has(turns[found[k]])
    decreases |turns|
  {
    if turns == [] {
    } else {
      var init := turns[..|turns| - 1];
      IndicesSound(init, has);
      assert forall i :: 0 <= i < |init| ==> init[i] == turns[i];
    }
  }

  lemma {:induction false} IndicesComplete(turns: seq<Turn>, has: Turn -> bool, i: nat)
    requires i < |turns| && has(turns[i])
    ensures i in Indices(turns, has)
    decreases |turns|
  {
    if i == |turns| - 1 {
    } else {
      IndicesComplete(turns[..|turns| - 1], has, i);
    }
  }

  /** The indices are the increasing list of exactly the turns with the property. */
  lemma {:induction false} IndicesExact(turns: seq<Turn>, has: Turn -> bool)
    ensures Increasing(Indices(turns, has))
    ensures forall i :: i in Indices(turns, has) <==> 0 <= i < |turns| && has(turns[i])
  {
    IndicesSound(turns, has);
    forall i | 0 <= i < |turns| && has(turns[i]) ensures i in Indices(turns, has) {
      IndicesComplete(turns, has, i);
    }
  }

  lemma {:induction false} FailureIdsByIndex(turns: seq<Turn>)
    ensures var bad, ids := Indices(turns, Fails), FailureIds(turns);
            && |ids| == |bad|
            && forall k :: 0 <= k < |bad| ==> bad[k] < |turns| && ids[k] == MessageId(turns[bad[k]].record)
    decreases |turns|
  {
    if turns == [] {
    } else {
      var init := turns[..|turns| - 1];
      FailureIdsByIndex(init);
      assert forall i :: 0 <= i < |init| ==> init[i] == turns[i];
    }
  }

  /** The failures are, in order, exactly the ids of the records whose parse was invalid or whose
      handler raised. */
  lemma {:induction false} FailuresExact(turns: seq<Turn>)
    ensures var bad, ids := Indices(turns, Fails), FailureIds(turns);
            && Increasing(bad)
            && (forall i :: i in bad <==>
                  0 <= i < |turns|
                  && (turns[i].parsed.Invalid? || (turns[i].parsed.Accepted? && turns[i].verdict.Raised?)))
            && |ids| == |bad|
            && (forall k :: 0 <= k < |bad| ==> bad[k] < |turns| && ids[k] == MessageId(turns[bad[k]].record))
  {
    IndicesExact(turns, Fails);
    FailureIdsByIndex(turns);
  }

  lemma {:induction false} EventsByIndex(turns: seq<Turn>)
    ensures var found, events := Indices(turns, Dispatches), EventsIn(turns);
            && |events| == |found|
            && forall k :: 0 <= k < |found| ==>
                 found[k] < |turns| && turns[found[k]].parsed == Accepted(events[k])
    decreases |turns|
  {
    if |turns| == 0 {
    } else {
      var init := turns[..|turns| - 1];
      EventsByIndex(init);
      assert forall i :: 0 <= i < |init| ==> init[i] == turns[i];
    }
  }

  /** Each record that parses is dispatched once, in order, and no other is: the events handed over are
      those of exactly the records that parse, by increasing number. */
  lemma {:induction false} DispatchExact(turns: seq<Turn>)
    ensures var found, events := Indices(turns, Dispatches), EventsIn(turns);
            && Increasing(found)
            && (forall i :: i in found <==> 0 <= i < |turns| && turns[i].parsed.Accepted?)
            && |events| == |found|
            && (forall k :: 0 <= k < |found| ==> found[k] < |turns| && turns[found[k]].parsed == Accepted(events[k]))
  {
    IndicesExact(turns, Dispatches);
    EventsByIndex(turns);
  }

  /** The event fails: its parse was invalid, or its handler raised. */
  lemma FailsExactly(t: Turn)
    ensures Fails(t) <==> t.parsed.Invalid? || (t.parsed.Accepted? && t.verdict.Raised?)
  {
  }

  /** The names of the six types, as the wire has them. */
  lemma TypeNames(e: Event)
    ensures e.XpAwarded? ==> TypeName(e) == "xp_awarded"
    ensures e.LessonCompleted? ==> TypeName(e) == "lesson_completed"
    ensures e.ReviewCompleted? ==> TypeName(e) == "review_completed"
    ensures e.FriendAdded? ==> TypeName(e) == "friend_added"
    ensures e.AdWatched? ==> TypeName(e) == "ad_watched"
    ensures e.SubscriptionChanged? ==> TypeName(e) == "subscription_changed"
  {
  }

  /** What a turn writes to the log: nothing if its parse escapes, and otherwise one save and one update
      under the record's id, the update saying how the turn ended. */
  lemma LogCallsExactly(t: Turn)
    ensures var id := if t.record.messageId.Some? then t.record.messageId.value else "<unknown>";
            var body := if t.record.body.None? || t.record.body.value == "" then "{}" else t.record.body.value;
            && (t.parsed.Escapes? ==> LogCalls(t) == [])
            && (t.parsed.Invalid? ==>
                  LogCalls(t) == [Save(id, "<unparsed>", "<unparsed>", body, t.receivedAt, t.ttl),
                                  Update(id, Failed, Some(t.invalidBecause), "[]")])
            && (forall e :: t.parsed == Accepted(e) ==>
                  && |LogCalls(t)| == 2
                  && LogCalls(t)[0] == Save(id, e.userId, TypeName(e), body, t.receivedAt, t.ttl)
                  && (t.verdict.Returned? ==> LogCalls(t)[1] == Update(id, Succeeded, None, t.verdict.outcomes))
                  && (t.verdict.Raised? ==> LogCalls(t)[1] == Update(id, Failed, Some(t.verdict.error), "[]")))
  {
  }

  function LogsIn(acts: seq<Act>): seq<LogCall> {
    if acts == [] then []
    else LogsIn(acts[..|acts| - 1]) + if acts[|acts| - 1].Logging? then [acts[|acts| - 1].call] else []
  }

  function HandedIn(acts: seq<Act>): seq<Event> {
    if acts == [] then []
    else HandedIn(acts[..|acts| - 1]) + if acts[|acts| - 1].Dispatching? then [acts[|acts| - 1].event] else []
  }

  lemma {:induction false} ActsConcat(a: seq<Act>, b: seq<Act>)
    ensures LogsIn(a + b) == LogsIn(a) + LogsIn(b) && HandedIn(a + b) == HandedIn(a) + HandedIn(b)
    decreases |b|
  {
    if |b| == 0 {
      assert a + b == a;
    } else {
      assert (a + b)[..|a + b| - 1] == a + b[..|b| - 1];
      ActsConcat(a, b[..|b| - 1]);
    }
  }

  lemma ActsOfTurn(t: Turn)
    ensures LogsIn(ActsOf(t, true)) == LogCalls(t)
    ensures HandedIn(ActsOf(t, true)) == if Dispatches(t) then [t.parsed.event] else []
  {
    if !t.parsed.Escapes? {
      var calls := LogCalls(t);
      if t.parsed.Accepted? {
        ThreeActs(calls[0], Dispatching(t.parsed.event), calls[1]);
      } else {
        TwoActs(calls[0], calls[1]);
      }
      assert calls == [calls[0], calls[1]];
    }
  }

  lemma TwoActs(save: LogCall, update: LogCall)
    ensures LogsIn([Logging(save), Logging(update)]) == [save, update]
    ensures HandedIn([Logging(save), Logging(update)]) == []
  {
    assert [Logging(save), Logging(update)] == [Logging(save)] + [Logging(update)];
    ActsConcat([Logging(save)], [Logging(update)]);
    OneAct(Logging(save));
    OneAct(Logging(update));
  }

  lemma ThreeActs(save: LogCall, between: Act, update: LogCall)
    requires between.Dispatching?
    ensures LogsIn([Logging(save), between, Logging(update)]) == [save, update]
    ensures HandedIn([Logging(save), between, Logging(update)]) == [between.event]
  {
    assert [Logging(save), between, Logging(update)] == ([Logging(save)] + [between]) + [Logging(update)];
    ActsConcat([Logging(save)] + [between], [Logging(update)]);
    ActsConcat([Logging(save)], [between]);
    OneAct(Logging(save));
    OneAct(between);
    OneAct(Logging(update));
  }

  lemma OneAct(act: Act)
    ensures LogsIn([act]) == (if act.Logging? then [act.call] else [])
    ensures HandedIn([act]) == if act.Dispatching? then [act.event] else []
  {
    assert [act][..0] == [];
  }

  /** The acts hold all log calls and all dispatches, each in order. */
  lemma {:induction false} ActsExact(turns: seq<Turn>)
    ensures LogsIn(AllActs(turns, true)) == AllLogCalls(turns) && HandedIn(AllActs(turns, true)) == EventsIn(turns)
    decreases |turns|
  {
    if |turns| == 0 {
    } else {
      ActsExact(turns[..|turns| - 1]);
      ActsConcat(AllActs(turns[..|turns| - 1], true), ActsOf(turns[|turns| - 1], true));
      ActsOfTurn(turns[|turns| - 1]);
    }
  }

  /** The turn's record has the id, or none when the id is "<unknown>", and did not parse or has a handler that
      raised. */
  ghost predicate FailsAs(t: Turn, id: string) {
    && (t.record.messageId == Some(id) || (t.record.messageId.None? && id == "<unknown>"))
    && (t.parsed.Invalid? || (t.parsed.Accepted? && t.verdict.Raised?))
  }

  /** The acts around a dispatch: the turn's save just before it, and its update just after. */
  ghost predicate Surrounded(acts: seq<Act>, p: nat, t: Turn) {
    var id := if t.record.messageId.Some? then t.record.messageId.value else "<unknown>";
    && 0 < p < |acts| - 1 && t.parsed.Accepted? && acts[p] == Dispatching(t.parsed.event)
    && acts[p - 1].Logging? && acts[p - 1].call.Save? && acts[p - 1].call.id == id
    && acts[p + 1].Logging? && acts[p + 1].call.Update? && acts[p + 1].call.id == id
  }

  lemma SurroundedInFront(acts: seq<Act>, after: seq<Act>, p: nat, t: Turn)
    requires Surrounded(acts, p, t)
    ensures Surrounded(acts + after, p, t)
  {
  }

  lemma SurroundedAtBack(before: seq<Act>, acts: seq<Act>, p: nat, t: Turn)
    requires Surrounded(acts, p, t)
    ensures Surrounded(before + acts, |before| + p, t)
  {
    var all, k := before + acts, |before| + p;
    assert all[k] == acts[p] && all[k - 1] == acts[p - 1] && all[k + 1] == acts[p + 1];
  }

  lemma TurnSurrounds(t: Turn, p: nat)
    requires p < |ActsOf(t, true)| && ActsOf(t, true)[p].Dispatching?
    ensures Surrounded(ActsOf(t, true), p, t)
  {
  }

  /** With a log, every event is handed over just after its own save and just before its own update. */
  lemma {:induction false} DispatchBetween(turns: seq<Turn>, p: nat)
    requires p < |AllActs(turns, true)| && AllActs(turns, true)[p].Dispatching?
    ensures exists i :: 0 <= i < |turns| && Surrounded(AllActs(turns, true), p, turns[i])
    decreases |turns|
  {
    var n := |turns| - 1;
    var before, last := AllActs(turns[..n], true), ActsOf(turns[n], true);
    assert AllActs(turns, true) == before + last;
    if p < |before| {
      DispatchBetween(turns[..n], p);
      var i :| 0 <= i < n && Surrounded(before, p, turns[..n][i]);
      SurroundedInFront(before, last, p, turns[i]);
    } else {
      TurnSurrounds(turns[n], p - |before|);
      SurroundedAtBack(before, last, p - |before|, turns[n]);
    }
  }

  /** An id is reported exactly when some record with it fails. */
  lemma {:induction false} ReportedExactly(turns: seq<Turn>, id: string)
    ensures id in FailureIds(turns) <==>
            exists i :: 0 <= i < |turns| && FailsAs(turns[i], id)
  {
    FailuresExact(turns);
    var bad, ids := Indices(turns, Fails), FailureIds(turns);
    if id in ids {
      var k :| 0 <= k < |ids| && ids[k] == id;
      assert bad[k] in bad;
    }
    if i :| 0 <= i < |turns| && FailsAs(turns[i], id) {
      assert i in bad;
      var k :| 0 <= k < |bad| && bad[k] == i;
      assert ids[k] == id;
    }
  }

  // ---- Batches from the wire ----

  /** The two turns differ in their bodies only, one carrying the wire form of the other's, which
      is the JSON of an object that is no envelope; both nest within the limits. */
  ghost predicate SameButWrapped(wire: Turn, bare: Turn, ms: JsonText.Members, lim: JsonText.Limits) {
    && bare.record.body.Some? && bare.record.body.value != ""
    && Carries(ms, bare.record.body.value, lim) && BareObject(bare.record.body.value, lim)
    && var body := ToBase64(JsonText.Print(JsonText.Obj(ms)));
       wire == bare.(record := Record(bare.record.messageId, Some(body)), parsed := wire.parsed)
  }

  /** The outcome of a batch depends on its ids, parse outcomes and verdicts only. */
  lemma {:induction false} SameOutcome(turns: seq<Turn>, others: seq<Turn>)
    requires |turns| == |others|
    requires forall i :: 0 <= i < |turns| ==>
               && turns[i].parsed == others[i].parsed && turns[i].verdict == others[i].verdict
               && turns[i].record.messageId == others[i].record.messageId
    ensures Reached(turns) == Reached(others) && FailureIds(turns) == FailureIds(others)
    decreases |turns|
  {
    if turns == [] {
    } else {
      SameOutcome(turns[..|turns| - 1], others[..|turns| - 1]);
    }
  }

  /** A batch of enveloped messages has the same outcome as the batch of bare ones, and no record
      of either brings the invocation down. */
  lemma {:induction false} WireBatchAsBare(wire: seq<Turn>, bare: seq<Turn>, envelopes: seq<JsonText.Members>,
                        python: Runtime, validate: string -> Option<Event>)
    requires |wire| == |bare| == |envelopes| && ReadsUtf8(python)
    requires forall i :: 0 <= i < |wire| ==>
               Arrives(wire[i], python, validate) && Arrives(bare[i], python, validate)
               && SameButWrapped(wire[i], bare[i], envelopes[i], python.limits)
    ensures Batch(wire) == Batch(bare) == Response(FailureIds(bare))
  {
    forall i | 0 <= i < |wire| ensures wire[i].parsed == bare[i].parsed != Escapes {
      WireTurnAsBare(wire[i], bare[i], envelopes[i], python, validate);
    }
    SameOutcome(wire, bare);
  }

  lemma WireTurnAsBare(wire: Turn, bare: Turn, ms: JsonText.Members, python: Runtime, validate: string -> Option<Event>)
    requires ReadsUtf8(python) && Arrives(wire, python, validate) && Arrives(bare, python, validate)
             && SameButWrapped(wire, bare, ms, python.limits)
    ensures wire.parsed == bare.parsed != Escapes
  {
    WireParsesAsBare(ms, bare.record.body.value, python, validate);
    WireNotEmpty(JsonText.Obj(ms), python.limits);
  }

  lemma {:induction false} WireNotEmpty(v: JsonText.Json, lim: JsonText.Limits)
    requires JsonText.WellFormed(v, lim)
    ensures ToBase64(JsonText.Print(v)) != ""
  {
    var text := JsonText.Print(v);
    JsonText.FirstChar(v, lim);
    assert Utf8.EncodeScalar(text[0]) != [];
    assert Utf8.Encode(text) != [];
  }
}
