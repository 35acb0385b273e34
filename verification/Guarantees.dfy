/** What holds over every run of the delivery machine: no message lost, three attempts a copy at
    most, and bounds on the effects of an `xp_awarded` event however often it is redelivered. */
module Guarantees {
  import opened Prelude
  import opened Events
  import opened Handler
  import opened Delivery
  import opened Effects
  import XpAwarded
  import Reprocessing
  import Ledger
  import Messages

  /** The state after some steps from the empty system; None if a step was not enabled. */
  ghost function Exec(d: Deployment, steps: seq<Step>): (r: Option<System>)
    ensures r.Some? ==> WellNumbered(r.value)
  {
    if steps == [] then Some(EMPTY)
    else
      var before := Exec(d, steps[..|steps| - 1]);
      var step := steps[|steps| - 1];
      if before.None? || !Enabled(d, before.value, step) then None
      else StaysWellNumbered(d, before.value, step); Some(Next(d, before.value, step))
  }

  // ---- Receives and attempts ----

  /** A message is received three times at most, and all three before it can be dead-lettered. */
  ghost predicate ReceivesBounded(s: System)
    requires WellNumbered(s)
  {
    && (forall k :: 0 <= k < |s.receives| ==> s.receives[k] <= MAX_RECEIVES)
    && (forall k :: k in s.dead ==> s.receives[k] == MAX_RECEIVES)
  }

  lemma ReceivesBoundedStep(d: Deployment, s: System, step: Step)
    requires WellNumbered(s) && Enabled(d, s, step) && ReceivesBounded(s) && WellNumbered(Next(d, s, step))
    ensures ReceivesBounded(Next(d, s, step))
  {
    var s' := Next(d, s, step);
    assert forall k :: k in s'.dead ==> k < |s.sent|;
  }

  predicate Issued(s: System, t: Ticket) {
    t.message < |s.receives| && 1 <= t.receive <= s.receives[t.message]
  }

  /** Tickets number the receives made so far. */
  ghost predicate TicketsIssued(s: System) {
    && (forall v, i :: v in s.running && 0 <= i < |s.running[v].batch| ==> Issued(s, s.running[v].batch[i]))
    && (forall h :: 0 <= h < |s.history| ==> Issued(s, s.history[h].ticket))
  }

  lemma ReceivesGrow(d: Deployment, s: System, step: Step)
    requires WellNumbered(s) && Enabled(d, s, step)
    ensures var s' := Next(d, s, step);
            |s.receives| <= |s'.receives| && forall k :: 0 <= k < |s.receives| ==> s.receives[k] <= s'.receives[k]
  {
  }

  lemma BatchIssued(d: Deployment, s: System, step: Step, v: nat, i: nat)
    requires WellNumbered(s) && Enabled(d, s, step) && TicketsIssued(s)
    requires v in Next(d, s, step).running && i < |Next(d, s, step).running[v].batch|
    ensures Issued(Next(d, s, step), Next(d, s, step).running[v].batch[i])
  {
    ReceivesGrow(d, s, step);
    RunOrigin(d, s, step, v);
    var batch := Next(d, s, step).running[v].batch;
    if v in s.running && batch == s.running[v].batch {
      assert Issued(s, s.running[v].batch[i]);
    } else {
      assert batch[i].message in step.messages;
    }
  }

  lemma HistoryIssued(d: Deployment, s: System, step: Step, h: nat)
    requires WellNumbered(s) && Enabled(d, s, step) && TicketsIssued(s) && h < |Next(d, s, step).history|
    ensures Issued(Next(d, s, step), Next(d, s, step).history[h].ticket)
  {
    ReceivesGrow(d, s, step);
    HistoryStep(d, s, step);
    if h < |s.history| {
      assert Issued(s, s.history[h].ticket);
    } else {
      assert Issued(s, NextTicket(s, Attempted(s, step).value));
    }
  }

  lemma TicketsIssuedStep(d: Deployment, s: System, step: Step)
    requires WellNumbered(s) && Enabled(d, s, step) && TicketsIssued(s)
    ensures TicketsIssued(Next(d, s, step))
  {
    var s' := Next(d, s, step);
    forall v, i | v in s'.running && 0 <= i < |s'.running[v].batch| ensures Issued(s', s'.running[v].batch[i]) {
      BatchIssued(d, s, step, v, i);
    }
    forall h | 0 <= h < |s'.history| ensures Issued(s', s'.history[h].ticket) {
      HistoryIssued(d, s, step, h);
    }
  }

  /** A running invocation has the batch it had, or has just received one. */
  lemma RunOrigin(d: Deployment, s: System, step: Step, v: nat)
    requires WellNumbered(s) && Enabled(d, s, step) && v in Next(d, s, step).running
    ensures var s' := Next(d, s, step);
            || (v in s.running && s'.running[v].batch == s.running[v].batch
                && |s.running[v].turns| <= |s'.running[v].turns|)
            || (step.Receive? && v == step.invocation && v !in s.running
                && s'.running[v] == Invocation(Tickets(s, step.messages), [])
                && s'.receives == AfterReceive(s, step.messages) && s'.history == s.history)
  {
  }

  /** No receive is handed out twice. */
  ghost predicate BatchesDisjoint(s: System) {
    forall v, w, i, j ::
      v in s.running && w in s.running && 0 <= i < |s.running[v].batch| && 0 <= j < |s.running[w].batch| ==>
      s.running[v].batch[i] != s.running[w].batch[j] || (v == w && i == j)
  }

  lemma BatchesDisjointStep(d: Deployment, s: System, step: Step)
    requires WellNumbered(s) && Enabled(d, s, step) && TicketsIssued(s) && BatchesDisjoint(s)
    ensures BatchesDisjoint(Next(d, s, step))
  {
    var s' := Next(d, s, step);
    forall v, w, i, j |
      v in s'.running && w in s'.running && 0 <= i < |s'.running[v].batch| && 0 <= j < |s'.running[w].batch|
      ensures s'.running[v].batch[i] != s'.running[w].batch[j] || (v == w && i == j)
    {
      RunOrigin(d, s, step, v);
      RunOrigin(d, s, step, w);
    }
  }

  ghost predicate Unrepeated(attempts: seq<Attempt>) {
    forall g, h :: 0 <= g < h < |attempts| ==> attempts[g].ticket != attempts[h].ticket
  }

  /** No receive is attempted twice, nor again by the invocation it is waiting in. */
  ghost predicate AttemptsOnce(s: System) {
    && Unrepeated(s.history)
    && (forall v, i, h :: v in s.running && |s.running[v].turns| <= i < |s.running[v].batch| && 0 <= h < |s.history| ==>
          s.running[v].batch[i] != s.history[h].ticket)
  }

  /** The ticket a step attempts, if any. */
  function Attempted(s: System, step: Step): Option<nat> {
    match step
    case Process(v, _, _) => Some(v)
    case Kill(v, _, _) => Some(v)
    case _ => None
  }

  lemma HistoryStep(d: Deployment, s: System, step: Step)
    requires WellNumbered(s) && Enabled(d, s, step)
    ensures var s', v := Next(d, s, step), Attempted(s, step);
            if v.None? then s'.history == s.history
            else
              && AtRecord(s, v.value) && |s'.history| == |s.history| + 1 && s.history <= s'.history
              && s'.history[|s.history|].ticket == NextTicket(s, v.value)
              && (v.value in s'.running ==> |s'.running[v.value].turns| == |s.running[v.value].turns| + 1)
  {
  }

  lemma StillUnrepeated(history: seq<Attempt>, longer: seq<Attempt>)
    requires Unrepeated(history) && history <= longer && |longer| == |history| + 1
    requires forall h :: 0 <= h < |history| ==> history[h].ticket != longer[|history|].ticket
    ensures Unrepeated(longer)
  {
  }

  lemma StillWaiting(d: Deployment, s: System, step: Step, v: nat, i: nat, h: nat)
    requires WellNumbered(s) && Enabled(d, s, step) && TicketsIssued(s) && BatchesDisjoint(s) && AttemptsOnce(s)
    requires v in Next(d, s, step).running && h < |Next(d, s, step).history|
    requires |Next(d, s, step).running[v].turns| <= i < |Next(d, s, step).running[v].batch|
    ensures Next(d, s, step).running[v].batch[i] != Next(d, s, step).history[h].ticket
  {
    HistoryStep(d, s, step);
    RunOrigin(d, s, step, v);
    if h < |s.history| { assert Next(d, s, step).history[h] == s.history[h]; }
  }

  lemma AttemptsOnceStep(d: Deployment, s: System, step: Step)
    requires WellNumbered(s) && Enabled(d, s, step) && TicketsIssued(s) && BatchesDisjoint(s) && AttemptsOnce(s)
    ensures AttemptsOnce(Next(d, s, step))
  {
    var s' := Next(d, s, step);
    HistoryStep(d, s, step);
    if Attempted(s, step).Some? { StillUnrepeated(s.history, s'.history); }
    forall v, i, h | v in s'.running && |s'.running[v].turns| <= i < |s'.running[v].batch| && 0 <= h < |s'.history|
      ensures s'.running[v].batch[i] != s'.history[h].ticket
    {
      StillWaiting(d, s, step, v, i, h);
    }
  }

  // ---- Every run ----

  /** Everything kept by every step. */
  ghost predicate Invariant(d: Deployment, s: System) {
    && WellNumbered(s) && NoneLost(s) && MovesCovered(s) && CopiesFaithful(s)
    && HistoryGenuine(d, s) && RunsRecorded(s) && DoneIsHandled(s)
    && ReceivesBounded(s) && TicketsIssued(s) && BatchesDisjoint(s) && AttemptsOnce(s)
  }

  lemma InvariantStep(d: Deployment, s: System, step: Step)
    requires Invariant(d, s) && Enabled(d, s, step)
    ensures Invariant(d, Next(d, s, step))
  {
    StaysWellNumbered(d, s, step);
    NoneLostStep(d, s, step);
    MovesCoveredStep(d, s, step);
    CopiesFaithfulStep(d, s, step);
    HistoryGenuineStep(d, s, step);
    RunsRecordedStep(d, s, step);
    GenuineEnds(d, s);
    DoneIsHandledStep(d, s, step);
    ReceivesBoundedStep(d, s, step);
    TicketsIssuedStep(d, s, step);
    BatchesDisjointStep(d, s, step);
    AttemptsOnceStep(d, s, step);
  }

  lemma {:induction false} RunInvariant(d: Deployment, steps: seq<Step>)
    requires Exec(d, steps).Some?
    ensures Invariant(d, Exec(d, steps).value)
    decreases |steps|
  {
    if steps == [] {
    } else {
      RunInvariant(d, steps[..|steps| - 1]);
      InvariantStep(d, Exec(d, steps[..|steps| - 1]).value, steps[|steps| - 1]);
    }
  }

  /** Some copy of the event, with its body intact, is in a queue. */
  ghost predicate Held(s: System, queue: set<nat>, n: nat)
    requires n < |s.bodies|
  {
    exists k :: 0 <= k < |s.sent| && k in queue && s.sent[k].event == n && s.sent[k].body == s.bodies[n]
  }

  /** In every run, whatever is redelivered, dead-lettered, replayed or killed, each published event
      is in the main queue, in the dead-letter queue, or done; it is done only if some attempt
      parsed it and its handler returned normally; and it is dead-lettered only after three
      receives. */
  lemma {:induction false} NoMessageIsLost(d: Deployment, steps: seq<Step>, n: nat)
    requires Exec(d, steps).Some? && n < |Exec(d, steps).value.bodies|
    ensures var s := Exec(d, steps).value;
            && (Held(s, s.main, n) || Held(s, s.dead, n) || n in s.done)
            && (n in s.done ==> Handled(s, n))
            && (forall k :: k in s.dead ==> s.receives[k] == 3)
  {
    RunInvariant(d, steps);
    var s := Exec(d, steps).value;
    assert Safe(s, n, -1);
    if n !in s.done {
      var k :| 0 <= k < |s.sent| && -1 < k && s.sent[k].event == n && Alive(s, k);
      assert s.sent[k].body == s.bodies[n];
    }
  }

  // ---- How often an event is attempted ----

  /** The attempts on an event, in order. */
  function AttemptsOn(sent: seq<Sent>, history: seq<Attempt>, n: nat): seq<Attempt> {
    if history == [] then []
    else
      var a := history[|history| - 1];
      AttemptsOn(sent, history[..|history| - 1], n) +
      if a.ticket.message < |sent| && sent[a.ticket.message].event == n then [a] else []
  }

  function TicketsOf(attempts: seq<Attempt>): set<Ticket> { set i | 0 <= i < |attempts| :: attempts[i].ticket }

  function CopiesOf(sent: seq<Sent>, n: nat): set<nat> { set k | 0 <= k < |sent| && sent[k].event == n }

  lemma {:induction false} AttemptsOnExact(sent: seq<Sent>, history: seq<Attempt>, n: nat)
    ensures forall a :: a in AttemptsOn(sent, history, n) <==>
                        a in history && a.ticket.message < |sent| && sent[a.ticket.message].event == n
    decreases |history|
  {
    if history == [] {
    } else {
      AttemptsOnExact(sent, history[..|history| - 1], n);
      assert history == history[..|history| - 1] + [history[|history| - 1]];
    }
  }

  lemma OneMoreTicket(attempts: seq<Attempt>, a: Attempt)
    ensures TicketsOf(attempts + [a]) == TicketsOf(attempts) + {a.ticket}
  {
    var all := attempts + [a];
    forall t | t in TicketsOf(attempts) + {a.ticket} ensures t in TicketsOf(all) {
      if t == a.ticket {
        assert all[|attempts|].ticket == t;
      } else {
        var i :| 0 <= i < |attempts| && attempts[i].ticket == t;
        assert all[i].ticket == t;
      }
    }
  }

  lemma {:induction false} CountTickets(attempts: seq<Attempt>)
    requires Unrepeated(attempts)
    ensures |attempts| == |TicketsOf(attempts)|
    decreases |attempts|
  {
    if attempts == [] {
    } else {
      var init, a := attempts[..|attempts| - 1], attempts[|attempts| - 1];
      CountTickets(init);
      OneMoreTicket(init, a);
      assert attempts == init + [a];
      assert a.ticket !in TicketsOf(init);
    }
  }

  lemma {:induction false} AttemptsUnrepeated(sent: seq<Sent>, history: seq<Attempt>, n: nat)
    requires Unrepeated(history)
    ensures Unrepeated(AttemptsOn(sent, history, n))
    decreases |history|
  {
    if history == [] {
    } else {
      var init, a := history[..|history| - 1], history[|history| - 1];
      AttemptsUnrepeated(sent, init, n);
      AttemptsOnExact(sent, init, n);
      var before := AttemptsOn(sent, init, n);
      forall i | 0 <= i < |before| ensures before[i].ticket != a.ticket {
        assert before[i] in before;
      }
    }
  }

  /** The tickets there can be for some messages. */
  function AllTickets(ks: set<nat>): set<Ticket> {
    set k, r | k in ks && r in {1, 2, 3} :: Ticket(k, r)
  }

  lemma {:induction false} AllTicketsCount(ks: set<nat>)
    ensures |AllTickets(ks)| <= MAX_RECEIVES * |ks|
    decreases |ks|
  {
    if ks != {} {
      var k :| k in ks;
      AllTicketsCount(ks - {k});
      assert AllTickets(ks) == AllTickets(ks - {k}) + {Ticket(k, 1), Ticket(k, 2), Ticket(k, 3)};
    } else {
      assert AllTickets(ks) == {};
    }
  }

  lemma SubsetCount<T>(a: set<T>, b: set<T>)
    requires a <= b
    ensures |a| <= |b|
  {
    assert b == a + (b - a);
  }

  lemma {:induction false} TicketsWithin(s: System, n: nat)
    requires WellNumbered(s) && ReceivesBounded(s) && TicketsIssued(s)
    ensures TicketsOf(AttemptsOn(s.sent, s.history, n)) <= AllTickets(CopiesOf(s.sent, n))
  {
    var attempts := AttemptsOn(s.sent, s.history, n);
    AttemptsOnExact(s.sent, s.history, n);
    forall t | t in TicketsOf(attempts) ensures t in AllTickets(CopiesOf(s.sent, n)) {
      var i :| 0 <= i < |attempts| && attempts[i].ticket == t;
      assert attempts[i] in s.history;
      assert Issued(s, t);
    }
  }

  /** An event is attempted at most three times for each copy of it put on the main queue. */
  lemma {:induction false} AttemptsBound(d: Deployment, s: System, n: nat)
    requires Invariant(d, s)
    ensures |AttemptsOn(s.sent, s.history, n)| <= 3 * |CopiesOf(s.sent, n)|
  {
    TicketsWithin(s, n);
    AttemptsUnrepeated(s.sent, s.history, n);
    CountTickets(AttemptsOn(s.sent, s.history, n));
    SubsetCount(TicketsOf(AttemptsOn(s.sent, s.history, n)), AllTickets(CopiesOf(s.sent, n)));
    AllTicketsCount(CopiesOf(s.sent, n));
  }

  /** How often the replay script has put a copy of the event back. */
  ghost function Resent(d: Deployment, steps: seq<Step>, n: nat): nat
    requires Exec(d, steps).Some?
  {
    if steps == [] then 0
    else
      var s, step := Exec(d, steps[..|steps| - 1]).value, steps[|steps| - 1];
      Resent(d, steps[..|steps| - 1], n) +
      if step.Move? && Added(s, step).Some? && Added(s, step).value.event == n then 1 else 0
  }

  lemma {:induction false} CopiesCounted(d: Deployment, steps: seq<Step>, n: nat)
    requires Exec(d, steps).Some?
    ensures var s := Exec(d, steps).value;
            |CopiesOf(s.sent, n)| == Resent(d, steps, n) + if n < |s.bodies| then 1 else 0
    decreases |steps|
  {
    if steps == [] {
    } else {
      var s, step := Exec(d, steps[..|steps| - 1]).value, steps[|steps| - 1];
      CopiesCounted(d, steps[..|steps| - 1], n);
      SentStep(d, s, step);
      var m := Added(s, step);
      if m.Some? { OneMoreCopy(s.sent, m.value, n); }
    }
  }

  lemma OneMoreCopy(sent: seq<Sent>, m: Sent, n: nat)
    ensures |CopiesOf(sent + [m], n)| == |CopiesOf(sent, n)| + if m.event == n then 1 else 0
  {
    assert CopiesOf(sent + [m], n) == CopiesOf(sent, n) + if m.event == n then {|sent|} else {};
  }

  // ---- The effects of an xp_awarded event over a run ----

  function XpOf(attempts: seq<Attempt>): seq<XpAwarded.Delivery> {
    seq(|attempts|, i requires 0 <= i < |attempts| => attempts[i].xp)
  }

  /** The body parses as the event. */
  ghost predicate ParsesAs(d: Deployment, body: string, e: Event) {
    Messages.ParseEvent(Body(Record(None, Some(body))), d.python, d.validate) == Messages.Accepted(e)
  }

  lemma SucceedsIsAcked(d: Deployment, m: Sent, a: Attempt, e: Event)
    requires Genuine(d, m, a) && Succeeds(a) && ParsesAs(d, m.body, e) && e.XpAwarded?
    ensures XpAwarded.Acked(d.breaker, d.client, e, a.xp)
  {
  }

  /** An attempt in the history is among those on its event. */
  lemma AttemptIndex(sent: seq<Sent>, history: seq<Attempt>, h: nat) returns (i: nat)
    requires h < |history| && history[h].ticket.message < |sent|
    ensures var attempts := AttemptsOn(sent, history, sent[history[h].ticket.message].event);
            i < |attempts| && attempts[i] == history[h]
  {
    var attempts := AttemptsOn(sent, history, sent[history[h].ticket.message].event);
    AttemptsOnExact(sent, history, sent[history[h].ticket.message].event);
    assert history[h] in attempts;
    i :| 0 <= i < |attempts| && attempts[i] == history[h];
  }

  /** A handled event has an attempt that succeeded. */
  lemma SucceededAttempt(d: Deployment, s: System, n: nat) returns (h: nat)
    requires WellNumbered(s) && HistoryGenuine(d, s) && CopiesFaithful(s) && Handled(s, n) && n < |s.bodies|
    ensures h < |s.history| && s.history[h].ticket.message < |s.sent|
    ensures var m := s.sent[s.history[h].ticket.message];
            m.event == n && m.body == s.bodies[n] && Genuine(d, m, s.history[h]) && Succeeds(s.history[h])
  {
    h :| 0 <= h < |s.history| && s.sent[s.history[h].ticket.message].event == n && Succeeds(s.history[h]);
  }

  /** A done event was acknowledged by one of its deliveries. */
  lemma DoneIsAcked(d: Deployment, s: System, n: nat, e: Event) returns (i: nat)
    requires WellNumbered(s) && HistoryGenuine(d, s) && CopiesFaithful(s) && DoneIsHandled(s)
    requires n in s.done && n < |s.bodies| && ParsesAs(d, s.bodies[n], e) && e.XpAwarded?
    ensures var ds := XpOf(AttemptsOn(s.sent, s.history, n));
            i < |ds| && XpAwarded.Acked(d.breaker, d.client, e, ds[i])
  {
    var h := SucceededAttempt(d, s, n);
    i := AttemptIndex(s.sent, s.history, h);
    SucceedsIsAcked(d, s.sent[s.history[h].ticket.message], s.history[h], e);
  }

  /** In every run, an `xp_awarded` event that must be credited: monthly writes never exceed weekly
      writes, nor weekly writes credits, nor credits attempts, nor attempts three for the published
      message and three for each time it is replayed; the credit requests sent are at most the
      maximum number of attempts of each; and once the event is done it has been credited. */
  lemma {:induction false} XpEffectsOverRun(d: Deployment, steps: seq<Step>, n: nat, e: Event)
    requires Exec(d, steps).Some? && n < |Exec(d, steps).value.bodies|
    requires ParsesAs(d, Exec(d, steps).value.bodies[n], e) && e.XpAwarded?
    requires e.source != Lesson && e.amount > 0
    ensures var s := Exec(d, steps).value;
            var ds := XpOf(AttemptsOn(s.sent, s.history, n));
            var credits := XpAwarded.Total(d.breaker, d.client, e, ds, Credited);
            && XpAwarded.Total(d.breaker, d.client, e, ds, WroteMonthly)
               <= XpAwarded.Total(d.breaker, d.client, e, ds, WroteWeekly)
               <= credits <= |ds| <= 3 * (1 + Resent(d, steps, n))
            && XpAwarded.CreditSends(d.breaker, d.client, e, ds) <= |ds| * d.client.MaxAttempts()
            && (n in s.done ==> credits >= 1)
  {
    RunInvariant(d, steps);
    var s := Exec(d, steps).value;
    var ds := XpOf(AttemptsOn(s.sent, s.history, n));
    XpAwarded.RedeliveryCounts(d.breaker, d.client, e, ds);
    XpAwarded.CreditSendsBound(d.breaker, d.client, e, ds);
    AttemptsBound(d, s, n);
    CopiesCounted(d, steps, n);
    if n in s.done {
      var i := DoneIsAcked(d, s, n, e);
      XpAwarded.AckedIsCredited(d.breaker, d.client, e, ds, i);
    }
  }

  /** In every run, an event from a lesson or without an amount is never credited. */
  lemma {:induction false} NeverCreditedOverRun(d: Deployment, steps: seq<Step>, n: nat, e: Event)
    requires Exec(d, steps).Some? && n < |Exec(d, steps).value.bodies|
    requires ParsesAs(d, Exec(d, steps).value.bodies[n], e) && e.XpAwarded?
    requires e.source == Lesson || e.amount == 0
    ensures var s := Exec(d, steps).value;
            var ds := XpOf(AttemptsOn(s.sent, s.history, n));
            && XpAwarded.Total(d.breaker, d.client, e, ds, Credited) == 0
            && XpAwarded.CreditSends(d.breaker, d.client, e, ds) == 0
  {
    var s := Exec(d, steps).value;
    XpAwarded.NeverCredited(d.breaker, d.client, e, XpOf(AttemptsOn(s.sent, s.history, n)));
  }

  /** In every run, every attempt on an event that parses is on that event: no attempt finds another
      event, or none, in one of its copies. */
  lemma {:induction false} AttemptsSeeTheEvent(d: Deployment, steps: seq<Step>, n: nat, e: Event)
    requires Exec(d, steps).Some? && n < |Exec(d, steps).value.bodies|
    requires ParsesAs(d, Exec(d, steps).value.bodies[n], e)
    ensures var s := Exec(d, steps).value;
            forall a :: a in AttemptsOn(s.sent, s.history, n) ==> a.turn.parsed == Messages.Accepted(e)
  {
    RunInvariant(d, steps);
    var s := Exec(d, steps).value;
    AttemptsOnExact(s.sent, s.history, n);
    forall a | a in AttemptsOn(s.sent, s.history, n) ensures a.turn.parsed == Messages.Accepted(e) {
      var h :| 0 <= h < |s.history| && s.history[h] == a;
      assert Genuine(d, s.sent[a.ticket.message], s.history[h]);
    }
  }

  /** In every run, an event that must be credited is credited once for each attempt whose credit call
      goes through; a done one exactly once if and only if no two of its attempts have theirs go
      through. */
  lemma {:induction false} CreditsOverRun(d: Deployment, steps: seq<Step>, n: nat, e: Event)
    requires Exec(d, steps).Some? && n < |Exec(d, steps).value.bodies|
    requires ParsesAs(d, Exec(d, steps).value.bodies[n], e) && e.XpAwarded?
    requires e.source != Lesson && e.amount > 0
    ensures var s := Exec(d, steps).value;
            var ds := XpOf(AttemptsOn(s.sent, s.history, n));
            var credits := XpAwarded.Total(d.breaker, d.client, e, ds, Credited);
            && credits == Reprocessing.Returning(d.breaker, d.client, ds)
            && (n in s.done ==> (credits == 1 <==> Reprocessing.AtMostOneReturns(d.breaker, d.client, ds)))
  {
    RunInvariant(d, steps);
    var s := Exec(d, steps).value;
    var ds := XpOf(AttemptsOn(s.sent, s.history, n));
    Reprocessing.CreditsCounted(d.breaker, d.client, e, ds);
    if n in s.done {
      var i := DoneIsAcked(d, s, n, e);
      Reprocessing.CreditedOnce(d.breaker, d.client, e, ds, i);
    }
  }

  /** In every run, an `xp_awarded` event bumps a quest at most as often as its attempts list it; if
      no listing repeats it, at most three times for the published message and for each replay. */
  lemma {:induction false} BumpsOverRun(d: Deployment, steps: seq<Step>, n: nat, e: Event, q: string)
    requires Exec(d, steps).Some? && n < |Exec(d, steps).value.bodies|
    requires ParsesAs(d, Exec(d, steps).value.bodies[n], e) && e.XpAwarded?
    ensures var s := Exec(d, steps).value;
            var ds := XpOf(AttemptsOn(s.sent, s.history, n));
            var bumps := XpAwarded.Total(d.breaker, d.client, e, ds, Bumped(q));
            && bumps <= Reprocessing.Listings(d.breaker, d.client, e, ds, q)
            && (Reprocessing.ListedOnce(d.breaker, d.client, e, ds, q) ==>
                 bumps <= 3 * (1 + Resent(d, steps, n)))
  {
    RunInvariant(d, steps);
    var s := Exec(d, steps).value;
    Reprocessing.BumpsBound(d.breaker, d.client, e, XpOf(AttemptsOn(s.sent, s.history, n)), q);
    AttemptsBound(d, s, n);
    CopiesCounted(d, steps, n);
  }

  // ---- The leaderboard over a run ----

  /** An attempt as the leaderboard table sees it, if it is on an `xp_awarded` event: with the writes
      that took hold before it ended or was killed. */
  function OnTable(d: Deployment, a: Attempt): seq<Ledger.Attempt> {
    if a.turn.parsed.Accepted? && a.turn.parsed.event.XpAwarded?
    then [Reprocessing.Seen(d.breaker, d.client, a.turn.parsed.event, a.xp)] else []
  }

  function TableAttempts(d: Deployment, history: seq<Attempt>): seq<Ledger.Attempt> {
    if history == [] then []
    else TableAttempts(d, history[..|history| - 1]) + OnTable(d, history[|history| - 1])
  }

  /** The amount an attempt left in the weekly bucket alone: its weekly write took hold, and then it
      was refused the monthly one or killed before it. */
  ghost function LeftBehind(d: Deployment, a: Attempt, lang: string, user: string): int {
    if a.turn.parsed.Accepted? && a.turn.parsed.event.XpAwarded? then
      var e := a.turn.parsed.event;
      var done := XpAwarded.Happened(d.breaker, d.client, e, a.xp);
      var half := WroteWeekly in done && WroteMonthly !in done;
      if Ledger.Language(e) == lang && e.userId == user && half then e.amount else 0
    else 0
  }

  ghost function AllLeftBehind(d: Deployment, history: seq<Attempt>, lang: string, user: string): int {
    if history == [] then 0
    else
      AllLeftBehind(d, history[..|history| - 1], lang, user) + LeftBehind(d, history[|history| - 1], lang, user)
  }

  lemma {:induction false} StrandedIsLeftBehind(d: Deployment, history: seq<Attempt>, lang: string, user: string)
    ensures Ledger.AllStranded(TableAttempts(d, history), lang, user) == AllLeftBehind(d, history, lang, user)
    decreases |history|
  {
    if |history| == 0 {
    } else {
      var init, a := history[..|history| - 1], history[|history| - 1];
      StrandedIsLeftBehind(d, init, lang, user);
      OneMoreOnTable(d, TableAttempts(d, init), a, lang, user);
    }
  }

  lemma {:induction false} OneMoreOnTable(d: Deployment, before: seq<Ledger.Attempt>, a: Attempt, lang: string,
                                          user: string)
    ensures Ledger.AllStranded(before + OnTable(d, a), lang, user) ==
            Ledger.AllStranded(before, lang, user) + LeftBehind(d, a, lang, user)
  {
    if a.turn.parsed.Accepted? && a.turn.parsed.event.XpAwarded? {
      SeenIsLeftBehind(d, a, lang, user);
      Ledger.OneMoreStranded(before, Reprocessing.Seen(d.breaker, d.client, a.turn.parsed.event, a.xp), lang, user);
    } else {
      assert before + [] == before;
    }
  }

  lemma SeenIsLeftBehind(d: Deployment, a: Attempt, lang: string, user: string)
    requires a.turn.parsed.Accepted? && a.turn.parsed.event.XpAwarded?
    ensures Ledger.Stranded(Reprocessing.Seen(d.breaker, d.client, a.turn.parsed.event, a.xp), lang, user) ==
            LeftBehind(d, a, lang, user)
  {
    Reprocessing.SeenWrites(d.breaker, d.client, a.turn.parsed.event, a.xp);
  }

  /** In every run, for every language and user, the weekly items together exceed the monthly ones by
      exactly the amounts of the attempts that wrote the one and not the other, crashes included, and
      are never less; however the writes of overlapping invocations interleave. */
  lemma {:induction false} ConservationOverRun(d: Deployment, steps: seq<Step>, writes: seq<Ledger.Write>,
                                               lang: string, user: string)
    requires Exec(d, steps).Some?
    requires multiset(writes) == multiset(Ledger.AllWrites(TableAttempts(d, Exec(d, steps).value.history)))
    ensures var history, items := Exec(d, steps).value.history, Ledger.PutAll(map[], writes);
            var weekly, monthly := Ledger.WeeklyItems(lang, user), Ledger.MonthlyItems(lang, user);
            && Ledger.Total(items, weekly) - Ledger.Total(items, monthly) == AllLeftBehind(d, history, lang, user)
            && AllLeftBehind(d, history, lang, user) >= 0
  {
    var history := Exec(d, steps).value.history;
    Ledger.AttemptsConfluent(map[], TableAttempts(d, history), writes);
    StrandedIsLeftBehind(d, history, lang, user);
    Ledger.Conservation(TableAttempts(d, history), lang, user);
  }
}
