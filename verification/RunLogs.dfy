/** What the two event logs hold over the runs of the delivery machine. */
module RunLogs {
  import opened Handler
  import opened EventLog
  import opened Delivery
  import opened Guarantees
  import Mirror

  /** The calls an attempt makes on the log: its save, and its update unless it dies in the handler. */
  function CallsOf(a: Attempt): seq<LogCall> {
    if a.turn.parsed.Escapes? then []
    else if a.xp.killedAfter.Some? then [SaveOf(a.turn)] else [SaveOf(a.turn), UpdateOf(a.turn)]
  }

  predicate NoneEscapes(history: seq<Attempt>) {
    forall h :: 0 <= h < |history| ==> !history[h].turn.parsed.Escapes?
  }

  /** The calls of a run's attempts, in order. */
  function AllCalls(history: seq<Attempt>): seq<LogCall> {
    if history == [] then [] else AllCalls(history[..|history| - 1]) + CallsOf(history[|history| - 1])
  }

  ghost predicate AllReadClock(history: seq<Attempt>) {
    forall h :: 0 <= h < |history| ==> ReadsClock(history[h].turn)
  }

  lemma {:induction false} CallsHashFree(history: seq<Attempt>)
    requires NoneEscapes(history) && AllReadClock(history)
    ensures HashFreeSaves(AllCalls(history))
    decreases |history|
  {
    if |history| == 0 {
    } else {
      var init, a := history[..|history| - 1], history[|history| - 1];
      CallsHashFree(init);
      Mirror.ClockHashFree(a.turn);
      Mirror.HashFreeConcat(AllCalls(init), CallsOf(a));
    }
  }

  lemma SavedConcat(calls: seq<LogCall>, more: seq<LogCall>)
    ensures Saved(calls + more) == Saved(calls) + Saved(more)
  {
    var all := calls + more;
    assert forall i :: 0 <= i < |calls| ==> all[i] == calls[i];
    assert forall i :: 0 <= i < |more| ==> all[|calls| + i] == more[i];
    assert Saved(all) <= Saved(calls) + Saved(more);
  }

  lemma OneSaved(a: Attempt)
    requires !a.turn.parsed.Escapes?
    ensures Saved(CallsOf(a)) == {MessageId(a.turn.record)}
  {
    assert CallsOf(a)[0].Save?;
  }

  function IdsAttempted(history: seq<Attempt>): set<string> {
    set h | 0 <= h < |history| :: MessageId(history[h].turn.record)
  }

  lemma {:induction false} SavedByRun(history: seq<Attempt>)
    requires NoneEscapes(history)
    ensures Saved(AllCalls(history)) == IdsAttempted(history)
    decreases |history|
  {
    if |history| == 0 {
    } else {
      var init, a := history[..|history| - 1], history[|history| - 1];
      SavedByRun(init);
      SavedConcat(AllCalls(init), CallsOf(a));
      OneSaved(a);
      OneMoreAttempted(history);
    }
  }

  lemma OneMoreAttempted(history: seq<Attempt>)
    requires |history| > 0
    ensures IdsAttempted(history) ==
            IdsAttempted(history[..|history| - 1]) + {MessageId(history[|history| - 1].turn.record)}
  {
    var init := history[..|history| - 1];
    assert forall h :: 0 <= h < |init| ==> init[h] == history[h];
  }

  lemma {:induction false} TakenSaved(refusals: set<nat>, calls: seq<LogCall>)
    ensures Saved(Log(refusals, 0, [], calls)) <= Saved(calls)
    ensures refusals == {} ==> Log(refusals, 0, [], calls) == calls
    decreases |calls|
  {
    if |calls| == 0 {
    } else {
      var n := |calls| - 1;
      TakenSaved(refusals, calls[..n]);
      assert calls == calls[..n] + [calls[n]];
      SavedConcat(calls[..n], [calls[n]]);
      SavedConcat(Log(refusals, 0, [], calls[..n]), if n in refusals then [] else [calls[n]]);
    }
  }

  lemma {:induction false} HistoryFacts(d: Deployment, steps: seq<Step>)
    requires Exec(d, steps).Some?
    ensures NoneEscapes(Exec(d, steps).value.history) && AllReadClock(Exec(d, steps).value.history)
    ensures var s := Exec(d, steps).value;
            forall h :: 0 <= h < |s.history| ==>
              s.history[h].ticket.message < |s.sent|
              && MessageId(s.history[h].turn.record) == s.sent[s.history[h].ticket.message].id
  {
    RunInvariant(d, steps);
    var s := Exec(d, steps).value;
    forall h | 0 <= h < |s.history|
      ensures !s.history[h].turn.parsed.Escapes? && ReadsClock(s.history[h].turn)
      ensures MessageId(s.history[h].turn.record) == s.sent[s.history[h].ticket.message].id
    {
      assert Genuine(d, s.sent[s.history[h].ticket.message], s.history[h]);
    }
  }

  /** The ids of the messages a run has attempted. */
  function AttemptedMessages(s: System): set<string>
    requires WellNumbered(s)
  {
    set h | 0 <= h < |s.history| :: s.sent[s.history[h].ticket.message].id
  }

  /** The same over any history of attempts that end in their handler and have read the clock. */
  lemma {:induction false} LogsOfHistory(history: seq<Attempt>, refusals: set<nat>, states: seq<Items>)
    requires NoneEscapes(history) && AllReadClock(history)
    requires DynamoRun(states, Log(refusals, 0, [], AllCalls(history)))
    ensures var taken := Log(refusals, 0, [], AllCalls(history));
            && SqliteRun(map[], taken).Keys <= IdsAttempted(history)
            && (refusals == {} ==> SqliteRun(map[], taken).Keys == IdsAttempted(history))
            && (Mirrors(SqliteRun(map[], taken), states[|taken|]) <==> forall id :: Mirror.Alike(taken, id))
  {
    var calls := AllCalls(history);
    CallsHashFree(history);
    Mirror.TakenHashFree(refusals, calls);
    Mirror.MirrorsIffAlike(Log(refusals, 0, [], calls), states);
    SavedByRun(history);
    TakenSaved(refusals, calls);
    SqliteIds(Log(refusals, 0, [], calls));
  }

  lemma {:induction false} AttemptedIds(d: Deployment, steps: seq<Step>)
    requires Exec(d, steps).Some?
    ensures AttemptedMessages(Exec(d, steps).value) == IdsAttempted(Exec(d, steps).value.history)
  {
    HistoryFacts(d, steps);
    var s := Exec(d, steps).value;
    assert forall h :: 0 <= h < |s.history| ==>
        MessageId(s.history[h].turn.record) == s.sent[s.history[h].ticket.message].id;
  }

  /** In every run, whatever calls the log refuses and whichever items the index yields: SQLite holds
      rows for attempted messages only, one each, and for all of them if no call is refused; and the two
      logs end as mirrors if and only if, for each id, its saves that were taken are alike. */
  lemma {:induction false} LogsOverRun(d: Deployment, steps: seq<Step>, refusals: set<nat>, states: seq<Items>)
    requires Exec(d, steps).Some?
    requires DynamoRun(states, Log(refusals, 0, [], AllCalls(Exec(d, steps).value.history)))
    ensures var s := Exec(d, steps).value;
            var taken := Log(refusals, 0, [], AllCalls(s.history));
            && SqliteRun(map[], taken).Keys <= AttemptedMessages(s)
            && (refusals == {} ==> SqliteRun(map[], taken).Keys == AttemptedMessages(s))
            && (Mirrors(SqliteRun(map[], taken), states[|taken|]) <==> forall id :: Mirror.Alike(taken, id))
  {
    HistoryFacts(d, steps);
    AttemptedIds(d, steps);
    LogsOfHistory(Exec(d, steps).value.history, refusals, states);
  }
}
