/** The life of a published event: the main queue, batches handed to the Lambda
    (app/handler.py), redelivery, the dead-letter queue after three receives, and the replay script
    (scripts/dlq-replay.py), with a crash possible between any two steps. */
module Delivery {
  import opened Prelude
  import opened Events
  import Messages
  import opened Handler
  import CircuitBreaking
  import CoreClient
  import EventLog
  import XpAwarded
  import Replay

  /** What stays fixed over a run. */
  datatype Deployment = Deployment(python: Messages.Runtime, validate: string -> Option<Event>,
                                   breaker: CircuitBreaking.Config, client: CoreClient.Settings)

  const MAX_RECEIVES := 3
  const BATCH_SIZE := 10

  /** A message put on the main queue; `event` numbers the published event it is a copy of. */
  datatype Sent = Sent(id: string, event: nat, body: string)

  /** One receive of a message, by number. */
  datatype Ticket = Ticket(message: nat, receive: nat)

  /** An invocation at work on its batch, with the turns it has completed. */
  datatype Invocation = Invocation(batch: seq<Ticket>, turns: seq<Turn>)

  /** A replay at work on the matching messages of one receive: the effects it has performed. */
  datatype Script = Script(chosen: seq<nat>, effects: nat)

  /** A record handed to the handler: its turn and, for an `xp_awarded` event, the delivery, which
      starts from any process state whatever. */
  datatype Attempt = Attempt(ticket: Ticket, turn: Turn, xp: XpAwarded.Delivery)

  /** Messages are numbered in the order in which they were put on the main queue, and keep their
      number when moved to the dead-letter queue. */
  datatype System = System(
    bodies: seq<string>,            // the published events
    sent: seq<Sent>,                // every message ever put on the main queue
    receives: seq<nat>,             // how often each was received there
    main: set<nat>,                 // messages in the main queue
    hidden: set<nat>,               // those of them not visible for now
    dead: set<nat>,                 // messages in the dead-letter queue
    running: map<nat, Invocation>,
    scripts: map<nat, Script>,
    done: set<nat>,                 // events a message of which was deleted from the main queue
    history: seq<Attempt>)

  const EMPTY := System([], [], [], {}, {}, {}, map[], map[], {}, [])

  datatype Step =
    | Publish(body: string, id: string)
    | Receive(invocation: nat, messages: seq<nat>)
    | Process(invocation: nat, turn: Turn, xp: XpAwarded.Delivery)
    | Kill(invocation: nat, turn: Turn, xp: XpAwarded.Delivery)  // the process dies in a handler
    | Crash(invocation: nat)                                     // it dies between handlers, or a parse escapes
    | Finish(invocation: nat, deleted: set<nat>)                 // it responds; what the response lets go is deleted
    | Reappear(message: nat)
    | Redrive(message: nat)
    | Take(script: nat, messages: seq<nat>, needle: Option<string>)
    | Move(script: nat, id: string)                              // the script's next send or delete
    | Stop(script: nat)                                          // it ends, or dies at whatever it was doing

  function RecordOf(m: Sent): Record { Record(Some(m.id), Some(m.body)) }

  /** The attempt is what the batch loop and the handler make of the message. */
  ghost predicate Genuine(d: Deployment, m: Sent, a: Attempt) {
    && a.turn.record == RecordOf(m) && EventLog.ReadsClock(a.turn)
    && Arrives(a.turn, d.python, d.validate) && !a.turn.parsed.Escapes?
    && (a.turn.parsed.Accepted? && a.turn.parsed.event.XpAwarded? && a.xp.killedAfter.None? ==>
          (a.turn.verdict.Returned? <==>
             XpAwarded.Handle(d.breaker, d.client, a.xp.local, a.turn.parsed.event, a.xp.world).result.Ok?))
  }

  /** The attempt ran to the end with its message parsed and its handler returning normally. */
  predicate Succeeds(a: Attempt) {
    a.xp.killedAfter.None? && a.turn.parsed.Accepted? && a.turn.verdict.Returned?
  }

  /** The messages a response lets go: those whose id it does not list. */
  function Acknowledged(s: System, run: Invocation): set<nat>
    requires forall i :: 0 <= i < |run.batch| ==> run.batch[i].message < |s.sent|
  {
    set i | 0 <= i < |run.batch| && s.sent[run.batch[i].message].id !in FailureIds(run.turns) :: run.batch[i].message
  }

  predicate FreshId(s: System, id: string) { forall k :: 0 <= k < |s.sent| ==> s.sent[k].id != id }

  predicate Distinct(ks: seq<nat>) { forall i, j :: 0 <= i < j < |ks| ==> ks[i] != ks[j] }

  /** The messages of a receive that the filter lets through, in order. */
  function Chosen(s: System, messages: seq<nat>, needle: Option<string>): (r: seq<nat>)
    requires forall i :: 0 <= i < |messages| ==> messages[i] < |s.sent|
    ensures forall i :: 0 <= i < |r| ==> r[i] in messages
  {
    if messages == [] then []
    else
      Chosen(s, messages[..|messages| - 1], needle) +
      if Replay.Matches(s.sent[messages[|messages| - 1]].body, needle) then [messages[|messages| - 1]] else []
  }

  /** The next record of a running invocation. */
  predicate AtRecord(s: System, v: nat) {
    v in s.running && |s.running[v].turns| < |s.running[v].batch|
  }

  function NextTicket(s: System, v: nat): Ticket
    requires AtRecord(s, v)
  {
    s.running[v].batch[|s.running[v].turns|]
  }

  ghost predicate Enabled(d: Deployment, s: System, step: Step)
    requires WellNumbered(s)
  {
    match step
    case Publish(_, id) => FreshId(s, id)
    case Receive(v, ks) =>
      && v !in s.running && 1 <= |ks| <= BATCH_SIZE && Distinct(ks)
      && forall i :: 0 <= i < |ks| ==> ks[i] in s.main - s.hidden && s.receives[ks[i]] < MAX_RECEIVES
    case Process(v, turn, xp) =>
      && AtRecord(s, v) && xp.killedAfter.None?
      && Genuine(d, s.sent[NextTicket(s, v).message], Attempt(NextTicket(s, v), turn, xp))
    case Kill(v, turn, xp) =>
      && AtRecord(s, v) && xp.killedAfter.Some?
      && Genuine(d, s.sent[NextTicket(s, v).message], Attempt(NextTicket(s, v), turn, xp))
    case Crash(v) => v in s.running
    case Finish(v, deleted) =>
      && v in s.running && |s.running[v].turns| == |s.running[v].batch|
      && Batch(s.running[v].turns).Response? && deleted <= Acknowledged(s, s.running[v]) * s.main
    case Reappear(k) => k in s.hidden
    case Redrive(k) => k in s.main - s.hidden && s.receives[k] >= MAX_RECEIVES
    case Take(q, ks, _) => q !in s.scripts && forall i :: 0 <= i < |ks| ==> ks[i] in s.dead
    case Move(q, id) => q in s.scripts && s.scripts[q].effects < 2 * |s.scripts[q].chosen| && FreshId(s, id)
    case Stop(q) => q in s.scripts
  }

  /** Every number names a message, or an event, that exists. */
  predicate WellNumbered(s: System) {
    && |s.receives| == |s.sent|
    && (forall k :: 0 <= k < |s.sent| ==> s.sent[k].event < |s.bodies|)
    && (forall k :: k in s.main ==> k < |s.sent|) && (forall k :: k in s.dead ==> k < |s.sent|)
    && (forall v, i :: v in s.running && 0 <= i < |s.running[v].batch| ==> s.running[v].batch[i].message < |s.sent|)
    && (forall q, i :: q in s.scripts && 0 <= i < |s.scripts[q].chosen| ==> s.scripts[q].chosen[i] < |s.sent|)
    && (forall h :: 0 <= h < |s.history| ==> s.history[h].ticket.message < |s.sent|)
  }

  function Add(s: System, m: Sent): System {
    s.(sent := s.sent + [m], receives := s.receives + [0], main := s.main + {|s.sent|})
  }

  function Tickets(s: System, ks: seq<nat>): seq<Ticket>
    requires forall i :: 0 <= i < |ks| ==> ks[i] < |s.receives|
  {
    seq(|ks|, i requires 0 <= i < |ks| => Ticket(ks[i], s.receives[ks[i]] + 1))
  }

  function AfterReceive(s: System, ks: seq<nat>): seq<nat> {
    seq(|s.receives|, k requires 0 <= k < |s.receives| => s.receives[k] + if k in ks then 1 else 0)
  }

  function Forget(s: System, v: nat): System { s.(running := s.running - {v}) }

  function EventsOf(s: System, ks: set<nat>): set<nat>
    requires forall k :: k in ks ==> k < |s.sent|
  {
    set k | k in ks :: s.sent[k].event
  }

  function Receiving(s: System, v: nat, ks: seq<nat>): System
    requires forall i :: 0 <= i < |ks| ==> ks[i] < |s.receives|
  {
    s.(receives := AfterReceive(s, ks), hidden := s.hidden + (set k | k in ks),
       running := s.running[v := Invocation(Tickets(s, ks), [])])
  }

  function Processing(s: System, v: nat, turn: Turn, xp: XpAwarded.Delivery): System
    requires AtRecord(s, v)
  {
    s.(running := s.running[v := s.running[v].(turns := s.running[v].turns + [turn])],
       history := s.history + [Attempt(NextTicket(s, v), turn, xp)])
  }

  function Finishing(s: System, v: nat, deleted: set<nat>): System
    requires forall k :: k in deleted ==> k < |s.sent|
  {
    Forget(s, v).(main := s.main - deleted, done := s.done + EventsOf(s, deleted))
  }

  /** The next effect of a script: the send of a copy, or the delete of what has been copied. */
  function Effecting(s: System, q: nat, id: string): System
    requires q in s.scripts && s.scripts[q].effects < 2 * |s.scripts[q].chosen|
    requires forall i :: 0 <= i < |s.scripts[q].chosen| ==> s.scripts[q].chosen[i] < |s.sent|
  {
    var script := s.scripts[q];
    var k := script.chosen[script.effects / 2];
    var moved := s.(scripts := s.scripts[q := script.(effects := script.effects + 1)]);
    if script.effects % 2 == 0 then Add(moved, Sent(id, s.sent[k].event, s.sent[k].body))
    else moved.(dead := s.dead - {k})
  }

  function Next(d: Deployment, s: System, step: Step): System
    requires WellNumbered(s) && Enabled(d, s, step)
  {
    match step
    case Publish(body, id) => Add(s, Sent(id, |s.bodies|, body)).(bodies := s.bodies + [body])
    case Receive(v, ks) => Receiving(s, v, ks)
    case Process(v, turn, xp) => Processing(s, v, turn, xp)
    case Kill(v, turn, xp) => Forget(s, v).(history := s.history + [Attempt(NextTicket(s, v), turn, xp)])
    case Crash(v) => Forget(s, v)
    case Finish(v, deleted) => Finishing(s, v, deleted)
    case Reappear(k) => s.(hidden := s.hidden - {k})
    case Redrive(k) => s.(main := s.main - {k}, dead := s.dead + {k})
    case Take(q, ks, needle) => s.(scripts := s.scripts[q := Script(Chosen(s, ks, needle), 0)])
    case Move(q, id) => Effecting(s, q, id)
    case Stop(q) => s.(scripts := s.scripts - {q})
  }

  /** The message a step puts on the main queue, if any. */
  function Added(s: System, step: Step): Option<Sent>
    requires WellNumbered(s)
  {
    match step
    case Publish(body, id) => Some(Sent(id, |s.bodies|, body))
    case Move(q, id) =>
      if q in s.scripts && s.scripts[q].effects < 2 * |s.scripts[q].chosen| && s.scripts[q].effects % 2 == 0 then
        var k := s.scripts[q].chosen[s.scripts[q].effects / 2];
        Some(Sent(id, s.sent[k].event, s.sent[k].body))
      else None
    case _ => None
  }

  /** How the record of what was published and sent grows. */
  lemma SentStep(d: Deployment, s: System, step: Step)
    requires WellNumbered(s) && Enabled(d, s, step)
    ensures var s', m := Next(d, s, step), Added(s, step);
            && s'.sent == (if m.Some? then s.sent + [m.value] else s.sent) && |s'.receives| == |s'.sent|
            && s'.bodies == (if step.Publish? then s.bodies + [step.body] else s.bodies)
            && (m.Some? ==> FreshId(s, m.value.id) && m.value.event < |s'.bodies|)
  {
  }

  lemma QueuesStep(d: Deployment, s: System, step: Step)
    requires WellNumbered(s) && Enabled(d, s, step)
    ensures var s' := Next(d, s, step);
            && s'.main + s'.dead <= s.main + s.dead + (if Added(s, step).Some? then {|s.sent|} else {})
            && (forall h :: 0 <= h < |s'.history| ==> s'.history[h].ticket.message < |s.sent|)
  {
  }

  lemma RunsStep(d: Deployment, s: System, step: Step)
    requires WellNumbered(s) && Enabled(d, s, step)
    ensures var s' := Next(d, s, step);
            forall v, i :: v in s'.running && 0 <= i < |s'.running[v].batch| ==>
              s'.running[v].batch[i].message < |s.sent|
  {
  }

  lemma ScriptsStep(d: Deployment, s: System, step: Step)
    requires WellNumbered(s) && Enabled(d, s, step)
    ensures var s' := Next(d, s, step);
            forall q, i :: q in s'.scripts && 0 <= i < |s'.scripts[q].chosen| ==> s'.scripts[q].chosen[i] < |s.sent|
  {
  }

  lemma StaysWellNumbered(d: Deployment, s: System, step: Step)
    requires WellNumbered(s) && Enabled(d, s, step)
    ensures WellNumbered(Next(d, s, step))
  {
    SentStep(d, s, step);
    QueuesStep(d, s, step);
    RunsStep(d, s, step);
    ScriptsStep(d, s, step);
    StillWellNumbered(s, Next(d, s, step), Added(s, step));
  }

  lemma StillWellNumbered(s: System, s': System, m: Option<Sent>)
    requires WellNumbered(s)
    requires s'.sent == (if m.Some? then s.sent + [m.value] else s.sent) && |s'.receives| == |s'.sent|
    requires s.bodies <= s'.bodies && (m.Some? ==> m.value.event < |s'.bodies|)
    requires s'.main + s'.dead <= s.main + s.dead + if m.Some? then {|s.sent|} else {}
    requires forall h :: 0 <= h < |s'.history| ==> s'.history[h].ticket.message < |s.sent|
    requires forall v, i :: v in s'.running && 0 <= i < |s'.running[v].batch| ==>
               s'.running[v].batch[i].message < |s.sent|
    requires forall q, i :: q in s'.scripts && 0 <= i < |s'.scripts[q].chosen| ==> s'.scripts[q].chosen[i] < |s.sent|
    ensures WellNumbered(s')
  {
  }

  // ---- The script's steps are the replay loop's ----

  function MsgOf(m: Sent): Replay.Msg { Replay.Msg(m.id, m.body, m.id) }

  function MsgsOf(s: System, ks: seq<nat>): seq<Replay.Msg>
    requires forall i :: 0 <= i < |ks| ==> ks[i] < |s.sent|
  {
    seq(|ks|, i requires 0 <= i < |ks| => MsgOf(s.sent[ks[i]]))
  }

  lemma {:induction false} ChosenIsSelect(s: System, ks: seq<nat>, needle: Option<string>)
    requires forall i :: 0 <= i < |ks| ==> ks[i] < |s.sent|
    ensures forall i :: 0 <= i < |Chosen(s, ks, needle)| ==> Chosen(s, ks, needle)[i] < |s.sent|
    ensures MsgsOf(s, Chosen(s, ks, needle)) == Replay.Select(MsgsOf(s, ks), needle)
    decreases |ks|
  {
    if |ks| == 0 {
    } else {
      var init := ks[..|ks| - 1];
      ChosenIsSelect(s, init, needle);
      assert MsgsOf(s, ks) == MsgsOf(s, init) + [MsgOf(s.sent[ks[|ks| - 1]])];
      Replay.SelectStep(MsgsOf(s, init), MsgOf(s.sent[ks[|ks| - 1]]), needle);
    }
  }

  /** A script's effects so far are the first effects of a pass of the replay loop over what it
      received, and its next step is the next of them. */
  lemma MoveIsReplays(s: System, script: Script)
    requires script.effects < 2 * |script.chosen|
    requires forall i :: 0 <= i < |script.chosen| ==> script.chosen[i] < |s.sent|
    ensures var moves := Replay.Moves(MsgsOf(s, script.chosen));
            var m := s.sent[script.chosen[script.effects / 2]];
            && |moves| == 2 * |script.chosen|
            && moves[script.effects] == if script.effects % 2 == 0 then Replay.Send(m.body) else Replay.Delete(m.id)
  {
    var msgs, n := MsgsOf(s, script.chosen), script.effects / 2;
    var moves := Replay.Moves(msgs);
    Replay.MovesPrefix(msgs, n);
    Replay.MovesPrefix(msgs, n + 1);
    Replay.MovesAppend(msgs[..n], msgs[n]);
    assert msgs[..n + 1] == msgs[..n] + [msgs[n]];
    Replay.MovesLength(msgs[..n]);
    assert moves[..2 * n + 2] == Replay.Moves(msgs[..n]) + [Replay.Send(msgs[n].body), Replay.Delete(msgs[n].handle)];
    assert moves[script.effects] == moves[..2 * n + 2][script.effects];
  }

  // ---- No message is lost ----

  predicate Alive(s: System, k: nat) { k in s.main || k in s.dead }

  /** The event is done, or some copy of it put on the queue later than `after` is in one of the
      two queues. */
  ghost predicate Safe(s: System, n: nat, after: int) {
    n in s.done || exists k :: 0 <= k < |s.sent| && after < k && s.sent[k].event == n && Alive(s, k)
  }

  ghost predicate NoneLost(s: System) { forall n :: 0 <= n < |s.bodies| ==> Safe(s, n, -1) }

  predicate MidMove(s: System, q: nat) {
    q in s.scripts && s.scripts[q].effects % 2 == 1 && s.scripts[q].effects < 2 * |s.scripts[q].chosen|
  }

  function Moving(s: System, q: nat): nat
    requires MidMove(s, q)
  {
    s.scripts[q].chosen[s.scripts[q].effects / 2]
  }

  /** Between a script's send and its delete there is a later copy of what it is about to delete,
      or the event is done. Later copies, not merely other ones: two scripts holding each other's
      copies must not count on them both. */
  ghost predicate MovesCovered(s: System)
    requires WellNumbered(s)
  {
    forall q :: MidMove(s, q) ==> Safe(s, s.sent[Moving(s, q)].event, Moving(s, q))
  }

  lemma SafeStep(d: Deployment, s: System, step: Step, n: nat, after: int)
    requires WellNumbered(s) && Enabled(d, s, step) && MovesCovered(s) && Safe(s, n, after)
    ensures Safe(Next(d, s, step), n, after)
  {
    var s' := Next(d, s, step);
    assert s.sent <= s'.sent && s.done <= s'.done;
    if n !in s.done {
      var k :| 0 <= k < |s.sent| && after < k && s.sent[k].event == n && Alive(s, k);
      if Alive(s', k) {
        assert s'.sent[k].event == n;
      } else if step.Move? {
        assert MidMove(s, step.script) && Moving(s, step.script) == k;
        LaterCopy(s, n, k, s');
      } else {
        assert k in step.deleted && n in EventsOf(s, step.deleted);
      }
    }
  }

  /** A later copy outlives the deletion of an earlier one. */
  lemma LaterCopy(s: System, n: nat, k: nat, s': System)
    requires Safe(s, n, k) && n !in s.done && k < |s.sent|
    requires s'.sent == s.sent && s'.main == s.main && s'.dead == s.dead - {k}
    ensures forall after :: after < k ==> Safe(s', n, after)
  {
    var later :| k < later < |s.sent| && s.sent[later].event == n && Alive(s, later);
    assert Alive(s', later) && s'.sent[later].event == n;
  }

  lemma AddedIsSafe(s: System, m: Sent, after: int)
    requires after < |s.sent|
    ensures Safe(Add(s, m), m.event, after)
  {
    var s' := Add(s, m);
    assert s'.sent[|s.sent|] == m && Alive(s', |s.sent|);
  }

  lemma NoneLostStep(d: Deployment, s: System, step: Step)
    requires WellNumbered(s) && Enabled(d, s, step) && NoneLost(s) && MovesCovered(s)
    ensures NoneLost(Next(d, s, step))
  {
    var s' := Next(d, s, step);
    forall n | 0 <= n < |s'.bodies| ensures Safe(s', n, -1) {
      if n < |s.bodies| {
        SafeStep(d, s, step, n, -1);
      } else {
        AddedIsSafe(s, s'.sent[|s.sent|], -1);
      }
    }
  }

  /** A script is half way through a move either because it was, or because it has just sent a
      copy of what it moves. */
  lemma MidMoveStep(d: Deployment, s: System, step: Step, q: nat)
    requires WellNumbered(s) && Enabled(d, s, step) && MidMove(Next(d, s, step), q)
    ensures var s' := Next(d, s, step);
            var k := Moving(s', q);
            && k < |s.sent|
            && ((MidMove(s, q) && Moving(s, q) == k)
                || (Added(s, step).Some? && Added(s, step).value.event == s.sent[k].event
                    && |s.sent| in s'.main && |s'.sent| == |s.sent| + 1))
  {
  }

  lemma MovesCoveredStep(d: Deployment, s: System, step: Step)
    requires WellNumbered(s) && Enabled(d, s, step) && MovesCovered(s) && WellNumbered(Next(d, s, step))
    ensures MovesCovered(Next(d, s, step))
  {
    var s' := Next(d, s, step);
    SentStep(d, s, step);
    forall q | MidMove(s', q) ensures Safe(s', s'.sent[Moving(s', q)].event, Moving(s', q)) {
      var k := Moving(s', q);
      MidMoveStep(d, s, step, q);
      assert s'.sent[k] == s.sent[k];
      if MidMove(s, q) && Moving(s, q) == k {
        SafeStep(d, s, step, s.sent[k].event, k);
      } else {
        assert s'.sent[|s.sent|].event == s.sent[k].event && Alive(s', |s.sent|);
      }
    }
  }

  // ---- Copies, ids and turns ----

  /** Every copy of an event has its body, byte for byte, and no two messages share an id. */
  ghost predicate CopiesFaithful(s: System)
    requires WellNumbered(s)
  {
    && (forall k :: 0 <= k < |s.sent| ==> s.sent[k].body == s.bodies[s.sent[k].event])
    && (forall j, k :: 0 <= j < k < |s.sent| ==> s.sent[j].id != s.sent[k].id)
  }

  lemma CopiesFaithfulStep(d: Deployment, s: System, step: Step)
    requires WellNumbered(s) && Enabled(d, s, step) && CopiesFaithful(s) && WellNumbered(Next(d, s, step))
    ensures CopiesFaithful(Next(d, s, step))
  {
    SentStep(d, s, step);
    var s', m := Next(d, s, step), Added(s, step);
    if m.Some? {
      assert m.value.body == s'.bodies[m.value.event];
      StillFaithful(s, s', m.value);
    }
  }

  lemma StillFaithful(s: System, s': System, m: Sent)
    requires WellNumbered(s) && CopiesFaithful(s) && WellNumbered(s') && FreshId(s, m.id)
    requires s'.sent == s.sent + [m] && s.bodies <= s'.bodies && m.event < |s'.bodies| && m.body == s'.bodies[m.event]
    ensures CopiesFaithful(s')
  {
  }

  ghost predicate HistoryGenuine(d: Deployment, s: System)
    requires WellNumbered(s)
  {
    forall h :: 0 <= h < |s.history| ==> Genuine(d, s.sent[s.history[h].ticket.message], s.history[h])
  }

  lemma HistoryGenuineGrows(d: Deployment, s: System, s': System)
    requires WellNumbered(s) && WellNumbered(s') && HistoryGenuine(d, s)
    requires s.sent <= s'.sent && s'.history == s.history
    ensures HistoryGenuine(d, s')
  {
  }

  lemma HistoryGenuineAppended(d: Deployment, s: System, s': System, a: Attempt)
    requires WellNumbered(s) && WellNumbered(s') && HistoryGenuine(d, s)
    requires s'.sent == s.sent && s'.history == s.history + [a] && a.ticket.message < |s.sent|
    requires Genuine(d, s.sent[a.ticket.message], a)
    ensures HistoryGenuine(d, s')
  {
  }

  lemma HistoryGenuineStep(d: Deployment, s: System, step: Step)
    requires WellNumbered(s) && Enabled(d, s, step) && HistoryGenuine(d, s) && WellNumbered(Next(d, s, step))
    ensures HistoryGenuine(d, Next(d, s, step))
  {
    SentStep(d, s, step);
    match step
    case Process(v, turn, xp) =>
      HistoryGenuineAppended(d, s, Next(d, s, step), Attempt(NextTicket(s, v), turn, xp));
    case Kill(v, turn, xp) => HistoryGenuineAppended(d, s, Next(d, s, step), Attempt(NextTicket(s, v), turn, xp));
    case _ => HistoryGenuineGrows(d, s, Next(d, s, step));
  }

  /** Every attempt of the history is on a record of its message, and its parse did not escape. */
  ghost predicate HistoryEnds(s: System)
    requires WellNumbered(s)
  {
    forall h :: 0 <= h < |s.history| ==>
      && s.history[h].turn.record == RecordOf(s.sent[s.history[h].ticket.message])
      && !s.history[h].turn.parsed.Escapes?
  }

  lemma GenuineEnds(d: Deployment, s: System)
    requires WellNumbered(s) && HistoryGenuine(d, s)
    ensures HistoryEnds(s)
  {
    forall h | 0 <= h < |s.history|
      ensures s.history[h].turn.record == RecordOf(s.sent[s.history[h].ticket.message])
      ensures !s.history[h].turn.parsed.Escapes?
    {
      assert Genuine(d, s.sent[s.history[h].ticket.message], s.history[h]);
    }
  }

  /** The history holds the turn, completed, for the ticket. */
  ghost predicate Recorded(s: System, ticket: Ticket, turn: Turn) {
    exists h :: 0 <= h < |s.history| && s.history[h].ticket == ticket && s.history[h].turn == turn
                && s.history[h].xp.killedAfter.None?
  }

  ghost predicate TurnsRecorded(s: System, run: Invocation) {
    && |run.turns| <= |run.batch|
    && forall i :: 0 <= i < |run.turns| ==> Recorded(s, run.batch[i], run.turns[i])
  }

  ghost predicate RunsRecorded(s: System) { forall v :: v in s.running ==> TurnsRecorded(s, s.running[v]) }

  lemma RecordedGrows(s: System, s': System, ticket: Ticket, turn: Turn)
    requires s.history <= s'.history && Recorded(s, ticket, turn)
    ensures Recorded(s', ticket, turn)
  {
    var h :| 0 <= h < |s.history| && s.history[h].ticket == ticket && s.history[h].turn == turn
        && s.history[h].xp.killedAfter.None?;
    assert s'.history[h] == s.history[h];
  }

  /** A running invocation is as it was, new, or one turn further. */
  lemma RunStep(d: Deployment, s: System, step: Step, v: nat)
    requires WellNumbered(s) && Enabled(d, s, step) && v in Next(d, s, step).running
    ensures var s' := Next(d, s, step);
            && s.history <= s'.history
            && ((v in s.running && s'.running[v] == s.running[v])
                || |s'.running[v].turns| == 0
                || (AtRecord(s, v) && step.Process? && step.xp.killedAfter.None?
                    && s'.running[v] == s.running[v].(turns := s.running[v].turns + [step.turn])
                    && s'.history == s.history + [Attempt(NextTicket(s, v), step.turn, step.xp)]))
  {
  }

  lemma TurnsRecordedOn(s: System, s': System, run: Invocation, turn: Turn, xp: XpAwarded.Delivery)
    requires TurnsRecorded(s, run) && |run.turns| < |run.batch| && xp.killedAfter.None?
    requires s'.history == s.history + [Attempt(run.batch[|run.turns|], turn, xp)]
    ensures TurnsRecorded(s', run.(turns := run.turns + [turn]))
  {
    assert s'.history[|s.history|].ticket == run.batch[|run.turns|];
    TurnsRecordedGrow(s, s', run);
  }

  lemma TurnsRecordedGrow(s: System, s': System, run: Invocation)
    requires TurnsRecorded(s, run) && s.history <= s'.history
    ensures TurnsRecorded(s', run)
  {
    forall i | 0 <= i < |run.turns| ensures Recorded(s', run.batch[i], run.turns[i]) {
      RecordedGrows(s, s', run.batch[i], run.turns[i]);
    }
  }

  lemma RunsRecordedStep(d: Deployment, s: System, step: Step)
    requires WellNumbered(s) && Enabled(d, s, step) && RunsRecorded(s)
    ensures RunsRecorded(Next(d, s, step))
  {
    var s' := Next(d, s, step);
    forall v | v in s'.running ensures TurnsRecorded(s', s'.running[v]) {
      RunStep(d, s, step, v);
      if v in s.running && s'.running[v] == s.running[v] {
        TurnsRecordedGrow(s, s', s.running[v]);
      } else if |s'.running[v].turns| > 0 {
        TurnsRecordedOn(s, s', s.running[v], step.turn, step.xp);
      }
    }
  }

  // ---- Done means handled ----

  /** Some attempt on the event parsed it and its handler returned normally. */
  ghost predicate Handled(s: System, n: nat)
    requires WellNumbered(s)
  {
    exists h :: 0 <= h < |s.history| && s.sent[s.history[h].ticket.message].event == n && Succeeds(s.history[h])
  }

  ghost predicate DoneIsHandled(s: System)
    requires WellNumbered(s)
  {
    forall n :: n in s.done ==> Handled(s, n)
  }

  lemma HandledGrows(s: System, s': System, n: nat)
    requires WellNumbered(s) && WellNumbered(s') && s.sent <= s'.sent && s.history <= s'.history && Handled(s, n)
    ensures Handled(s', n)
  {
    var h :| 0 <= h < |s.history| && s.sent[s.history[h].ticket.message].event == n && Succeeds(s.history[h]);
    assert s'.history[h] == s.history[h];
  }

  /** A message a response lets go was handled. */
  lemma AcknowledgedIsHandled(s: System, run: Invocation, k: nat)
    requires WellNumbered(s) && HistoryEnds(s) && TurnsRecorded(s, run) && |run.turns| == |run.batch|
    requires forall i :: 0 <= i < |run.batch| ==> run.batch[i].message < |s.sent|
    requires k in Acknowledged(s, run)
    ensures Handled(s, s.sent[k].event)
  {
    var i :| 0 <= i < |run.batch| && run.batch[i].message == k && s.sent[k].id !in FailureIds(run.turns);
    assert Recorded(s, run.batch[i], run.turns[i]);
    var h :| 0 <= h < |s.history| && s.history[h].ticket == run.batch[i] && s.history[h].turn == run.turns[i]
             && s.history[h].xp.killedAfter.None?;
    assert s.history[h].turn.record == RecordOf(s.sent[k]);
    ReportedExactly(run.turns, s.sent[k].id);
    assert !Fails(run.turns[i]);
  }

  lemma HistoryGrows(d: Deployment, s: System, step: Step)
    requires WellNumbered(s) && Enabled(d, s, step)
    ensures s.history <= Next(d, s, step).history && s.sent <= Next(d, s, step).sent
  {
  }

  lemma NewlyDone(d: Deployment, s: System, step: Step, n: nat)
    requires WellNumbered(s) && Enabled(d, s, step) && HistoryEnds(s) && RunsRecorded(s)
    requires n in Next(d, s, step).done && n !in s.done
    ensures Handled(s, n)
  {
    var k :| k in step.deleted && s.sent[k].event == n;
    assert TurnsRecorded(s, s.running[step.invocation]);
    AcknowledgedIsHandled(s, s.running[step.invocation], k);
  }

  lemma DoneIsHandledStep(d: Deployment, s: System, step: Step)
    requires WellNumbered(s) && Enabled(d, s, step) && WellNumbered(Next(d, s, step))
    requires HistoryEnds(s) && RunsRecorded(s) && DoneIsHandled(s)
    ensures DoneIsHandled(Next(d, s, step))
  {
    var s' := Next(d, s, step);
    HistoryGrows(d, s, step);
    forall n | n in s'.done ensures Handled(s', n) {
      if n !in s.done { NewlyDone(d, s, step, n); }
      HandledGrows(s, s', n);
    }
  }
}
