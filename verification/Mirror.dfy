/** When the DynamoDB backend ends as a mirror of the SQLite one (app/db/dynamo/events.py), over any
    histories of log calls, and over all those the batch loop makes, redeliveries included. */
module Mirror {
  import opened Prelude
  import opened Handler
  import opened Buckets
  import opened EventLog
  import Calendar
  import Messages

  // ---- What a history leaves in DynamoDB ----

  predicate IsSave(c: LogCall, id: string) { c.Save? && c.id == id }

  /** The keys a history saves an id at. */
  function SaveKeys(calls: seq<LogCall>, id: string): set<Key> {
    if calls == [] then {}
    else
      var c := calls[|calls| - 1];
      SaveKeys(calls[..|calls| - 1], id) + if IsSave(c, id) then {KeyOf(id, FreshRow(c))} else {}
  }

  /** The row of the latest save of an id, with the updates since. */
  function LatestRow(calls: seq<LogCall>, id: string): Option<Row> {
    if calls == [] then None
    else
      var c, before := calls[|calls| - 1], LatestRow(calls[..|calls| - 1], id);
      if c.id != id then before
      else if c.Save? then Some(FreshRow(c))
      else if before.Some? then Some(Updated(before.value, c)) else None
  }

  /** Every item is at the key of its own row. */
  ghost predicate KeyedByRow(items: Items) {
    forall k :: k in items ==> HashFree(items[k].row.receivedAt) && k == KeyOf(items[k].id, items[k].row)
  }

  /** The id's items are at exactly the keys it was saved at; a single one holds its latest row. */
  ghost predicate Keeps(calls: seq<LogCall>, items: Items, id: string) {
    && Indexed(items, id) == SaveKeys(calls, id)
    && forall k :: SaveKeys(calls, id) == {k} ==>
         LatestRow(calls, id).Some? && items[k] == Item(id, LatestRow(calls, id).value)
  }

  lemma {:induction false} CallAppended(calls: seq<LogCall>, c: LogCall, id: string)
    ensures SaveKeys(calls + [c], id) == SaveKeys(calls, id) + if IsSave(c, id) then {KeyOf(id, FreshRow(c))} else {}
    ensures var before := LatestRow(calls, id);
            LatestRow(calls + [c], id) ==
            if c.id != id then before
            else if c.Save? then Some(FreshRow(c))
            else if before.Some? then Some(Updated(before.value, c)) else None
  {
    assert (calls + [c])[..|calls|] == calls;
  }

  lemma {:induction false} SavedHasRow(calls: seq<LogCall>, id: string)
    ensures SaveKeys(calls, id) != {} <==> LatestRow(calls, id).Some?
    decreases |calls|
  {
    if |calls| == 0 {
    } else {
      SavedHasRow(calls[..|calls| - 1], id);
    }
  }

  lemma StepKeyed(items: Items, c: LogCall, items': Items)
    requires KeyedByRow(items) && DynamoStep(items, c, items') && (c.Save? ==> HashFree(c.receivedAt))
    ensures KeyedByRow(items')
  {
  }

  lemma SaveKeeps(calls: seq<LogCall>, items: Items, c: LogCall, items': Items, id: string)
    requires c.Save? && HashFree(c.receivedAt) && KeyedByRow(items) && Keeps(calls, items, id)
    requires DynamoStep(items, c, items')
    ensures Keeps(calls + [c], items', id)
  {
    var k := KeyOf(c.id, FreshRow(c));
    CallAppended(calls, c, id);
    if k in items { KeyInjective(items[k].id, items[k].row, c.id, FreshRow(c)); }
  }

  lemma UpdateKeeps(calls: seq<LogCall>, items: Items, c: LogCall, items': Items, id: string)
    requires c.Update? && KeyedByRow(items) && Keeps(calls, items, id) && DynamoStep(items, c, items')
    ensures Keeps(calls + [c], items', id)
  {
    CallAppended(calls, c, id);
    SavedHasRow(calls, id);
    if Indexed(items, c.id) != {} {
      var k :| k in Indexed(items, c.id) && items' == items[k := Item(c.id, Updated(items[k].row, c))];
      assert Indexed(items', id) == Indexed(items, id);
    }
  }

  /** After any history, whichever items the index yields. */
  lemma {:induction false} RunKeeps(calls: seq<LogCall>, states: seq<Items>)
    requires HashFreeSaves(calls) && DynamoRun(states, calls)
    ensures KeyedByRow(states[|calls|]) && forall id :: Keeps(calls, states[|calls|], id)
    decreases |calls|
  {
    if |calls| == 0 {
      assert calls == [] && states[0] == map[];
    } else {
      var n := |calls| - 1;
      RunKeeps(calls[..n], states[..n + 1]);
      assert calls == calls[..n] + [calls[n]];
      StepKeyed(states[n], calls[n], states[n + 1]);
      LastKeeps(calls[..n], calls[n], calls, states[n], states[n + 1]);
    }
  }

  lemma OneKeeps(calls: seq<LogCall>, c: LogCall, all: seq<LogCall>, items: Items, items': Items, id: string)
    requires all == calls + [c] && (c.Save? ==> HashFree(c.receivedAt)) && KeyedByRow(items)
    requires Keeps(calls, items, id) && DynamoStep(items, c, items')
    ensures Keeps(all, items', id)
  {
    if c.Save? {
      SaveKeeps(calls, items, c, items', id);
    } else {
      UpdateKeeps(calls, items, c, items', id);
    }
  }

  lemma LastKeeps(calls: seq<LogCall>, c: LogCall, all: seq<LogCall>, items: Items, items': Items)
    requires all == calls + [c] && (c.Save? ==> HashFree(c.receivedAt)) && DynamoStep(items, c, items')
    requires KeyedByRow(items) && forall id :: Keeps(calls, items, id)
    ensures forall id :: Keeps(all, items', id)
  {
    forall id ensures Keeps(all, items', id) {
      assert Keeps(calls, items, id);
      OneKeeps(calls, c, all, items, items', id);
    }
  }

  // ---- Against what it leaves in SQLite ----

  /** The message has one item, at the key its row has in SQLite, holding that row. */
  ghost predicate Agrees(rows: Rows, items: Items, id: string) {
    if id !in rows then Indexed(items, id) == {}
    else
      var k := KeyOf(id, rows[id]);
      Indexed(items, id) == {k} && items[k].row == rows[id]
  }

  /** The tables mirror each other exactly when they agree on every message. */
  lemma MirrorsByMessage(rows: Rows, items: Items)
    requires KeyedByRow(items)
    ensures Mirrors(rows, items) <==> forall id :: Agrees(rows, items, id)
  {
    if Mirrors(rows, items) {
      forall id ensures Agrees(rows, items, id) { IndexedOne(rows, items, id); }
    }
    if forall id :: Agrees(rows, items, id) {
      forall id | id in rows ensures KeyOf(id, rows[id]) in items && items[KeyOf(id, rows[id])] == Item(id, rows[id]) {
        assert Agrees(rows, items, id);
        assert KeyOf(id, rows[id]) in Indexed(items, id);
      }
      forall k | k in items ensures items[k].id in rows && items[k].row == rows[items[k].id] {
        assert Agrees(rows, items, items[k].id);
        assert k in Indexed(items, items[k].id);
      }
    }
  }

  /** There is one key at the most. */
  ghost predicate Single(keys: set<Key>) { forall j, k :: j in keys && k in keys ==> j == k }

  /** All saves of the id are at one key, and its latest row is the row it should have: the first save
      with the latest update since. */
  ghost predicate Alike(calls: seq<LogCall>, id: string) {
    && Single(SaveKeys(calls, id))
    && LatestRow(calls, id) == ExpectedRow(calls, id)
  }

  lemma {:induction false} ExpectedKey(calls: seq<LogCall>, id: string)
    ensures ExpectedRow(calls, id).Some? <==> SaveKeys(calls, id) != {}
    ensures ExpectedRow(calls, id).Some? ==> KeyOf(id, ExpectedRow(calls, id).value) in SaveKeys(calls, id)
    decreases |calls|
  {
    FirstSaveCorrect(calls, id);
    if FirstSave(calls, id) < |calls| {
      SaveKeyIn(calls, id, FirstSave(calls, id));
    } else {
      NeverSaved(calls, id);
    }
  }

  lemma {:induction false} SaveKeyIn(calls: seq<LogCall>, id: string, i: nat)
    requires i < |calls| && IsSave(calls[i], id)
    ensures KeyOf(id, FreshRow(calls[i])) in SaveKeys(calls, id)
    decreases |calls|
  {
    if i == |calls| - 1 {
    } else {
      SaveKeyIn(calls[..|calls| - 1], id, i);
    }
  }

  lemma {:induction false} NeverSaved(calls: seq<LogCall>, id: string)
    requires forall i :: 0 <= i < |calls| ==> !IsSave(calls[i], id)
    ensures SaveKeys(calls, id) == {}
    decreases |calls|
  {
    if |calls| == 0 {
    } else {
      NeverSaved(calls[..|calls| - 1], id);
    }
  }

  /** On one id the tables agree exactly when its saves are alike. */
  lemma {:induction false} AgreesIffAlike(calls: seq<LogCall>, items: Items, id: string)
    requires Keeps(calls, items, id)
    ensures Agrees(SqliteRun(map[], calls), items, id) <==> Alike(calls, id)
  {
    SqliteSummary(calls, id);
    ExpectedKey(calls, id);
    SavedHasRow(calls, id);
    if ExpectedRow(calls, id).Some? {
      var k := KeyOf(id, ExpectedRow(calls, id).value);
      OnlyKey(SaveKeys(calls, id), k);
    }
  }

  lemma OnlyKey(keys: set<Key>, k: Key)
    requires k in keys
    ensures keys == {k} <==> Single(keys)
  {
    if Single(keys) {
      forall i | i in keys ensures i == k { }
    }
  }

  /** The exact condition, over every history of log calls, whichever items the index yields: DynamoDB
      ends as a mirror of SQLite if and only if each id was saved at one key and its latest save, as
      updated since, is its first save, as updated since. */
  lemma {:induction false} MirrorsIffAlike(calls: seq<LogCall>, states: seq<Items>)
    requires HashFreeSaves(calls) && DynamoRun(states, calls)
    ensures Mirrors(SqliteRun(map[], calls), states[|calls|]) <==> forall id :: Alike(calls, id)
  {
    var rows, items := SqliteRun(map[], calls), states[|calls|];
    RunKeeps(calls, states);
    MirrorsByMessage(rows, items);
    forall id ensures Agrees(rows, items, id) <==> Alike(calls, id) { AgreesIffAlike(calls, items, id); }
  }

  // ---- The histories the batch loop makes ----

  /** The deliveries end in their handler or are rejected. */
  predicate NoEscapes(turns: seq<Turn>) { forall i :: 0 <= i < |turns| ==> !turns[i].parsed.Escapes? }

  /** They do, and each has read the clock. */
  ghost predicate Plain(turns: seq<Turn>) {
    NoEscapes(turns) && forall i :: 0 <= i < |turns| ==> ReadsClock(turns[i])
  }

  lemma HashFreeConcat(calls: seq<LogCall>, more: seq<LogCall>)
    requires HashFreeSaves(calls) && HashFreeSaves(more)
    ensures HashFreeSaves(calls + more)
  {
  }

  lemma {:induction false} PlainHashFree(turns: seq<Turn>)
    requires Plain(turns)
    ensures HashFreeSaves(AllLogCalls(turns))
    decreases |turns|
  {
    if |turns| == 0 {
    } else {
      PlainHashFree(turns[..|turns| - 1]);
      TurnSaves(turns[|turns| - 1]);
      HashFreeConcat(AllLogCalls(turns[..|turns| - 1]), LogCalls(turns[|turns| - 1]));
    }
  }

  lemma {:induction false} TakenHashFree(refusals: set<nat>, calls: seq<LogCall>)
    requires HashFreeSaves(calls)
    ensures HashFreeSaves(Log(refusals, 0, [], calls))
    decreases |calls|
  {
    if |calls| == 0 {
    } else {
      var n := |calls| - 1;
      TakenHashFree(refusals, calls[..n]);
      HashFreeConcat(Log(refusals, 0, [], calls[..n]), if n in refusals then [] else [calls[n]]);
    }
  }

  /** The same condition over what the log takes of the batch loop's calls: redeliveries, crashes of the
      log at any calls, and any yields of the index. */
  lemma {:induction false} MirrorsIffTakenAlike(turns: seq<Turn>, refusals: set<nat>, states: seq<Items>)
    requires Plain(turns) && DynamoRun(states, Log(refusals, 0, [], AllLogCalls(turns)))
    ensures var taken := Log(refusals, 0, [], AllLogCalls(turns));
            Mirrors(SqliteRun(map[], taken), states[|taken|]) <==> forall id :: Alike(taken, id)
  {
    PlainHashFree(turns);
    TakenHashFree(refusals, AllLogCalls(turns));
    MirrorsIffAlike(Log(refusals, 0, [], AllLogCalls(turns)), states);
  }

  // ---- When every call is taken ----

  function SavedRow(t: Turn): Row
    requires !t.parsed.Escapes?
  {
    FreshRow(SaveOf(t))
  }

  /** The key a delivery's save puts its item at. */
  function SavedKey(t: Turn): Key
    requires !t.parsed.Escapes?
  {
    KeyOf(MessageId(t.record), SavedRow(t))
  }

  /** All deliveries save at the first one's key. */
  ghost predicate SameKeys(turns: seq<Turn>, id: string)
    requires Plain(turns)
  {
    DeliveriesBound(turns, id);
    var ds := Deliveries(turns, id);
    forall k :: 0 <= k < |ds| ==> SavedKey(turns[ds[k]]) == SavedKey(turns[ds[0]])
  }

  /** Every delivery of the message saves at the key the first one did, and the last saves the very
      row the first did: the same user, type, payload, time and expiry. */
  ghost predicate Repeats(turns: seq<Turn>, id: string)
    requires Plain(turns)
  {
    DeliveriesBound(turns, id);
    var ds := Deliveries(turns, id);
    |ds| > 0 ==> SameKeys(turns, id) && SavedRow(turns[ds[|ds| - 1]]) == SavedRow(turns[ds[0]])
  }

  lemma {:induction false} LastTwoCalls(turns: seq<Turn>)
    requires |turns| > 0 && !turns[|turns| - 1].parsed.Escapes?
    ensures var t := turns[|turns| - 1];
            AllLogCalls(turns) == AllLogCalls(turns[..|turns| - 1]) + [SaveOf(t)] + [UpdateOf(t)]
  {
    assert LogCalls(turns[|turns| - 1]) == [SaveOf(turns[|turns| - 1])] + [UpdateOf(turns[|turns| - 1])];
  }

  /** One more delivery saves at its key, and leaves its row if it is the id's. */
  lemma OneMoreTurnSaved(turns: seq<Turn>, id: string)
    requires |turns| > 0 && !turns[|turns| - 1].parsed.Escapes?
    ensures var t, before, after := turns[|turns| - 1], AllLogCalls(turns[..|turns| - 1]), AllLogCalls(turns);
            && SaveKeys(after, id) == SaveKeys(before, id) + (if MessageId(t.record) == id then {SavedKey(t)} else {})
            && LatestRow(after, id) ==
               if MessageId(t.record) == id then Some(Updated(SavedRow(t), UpdateOf(t))) else LatestRow(before, id)
  {
    var t, before := turns[|turns| - 1], AllLogCalls(turns[..|turns| - 1]);
    LastTwoCalls(turns);
    CallAppended(before, SaveOf(t), id);
    CallAppended(before + [SaveOf(t)], UpdateOf(t), id);
  }

  /** What a message's last delivery leaves. */
  function LastRow(turns: seq<Turn>, ds: seq<nat>): Option<Row>
    requires NoEscapes(turns) && forall k :: 0 <= k < |ds| ==> ds[k] < |turns|
  {
    if |ds| == 0 then None else Some(Updated(SavedRow(turns[ds[|ds| - 1]]), UpdateOf(turns[ds[|ds| - 1]])))
  }

  ghost predicate LatestIsLast(turns: seq<Turn>, id: string)
    requires NoEscapes(turns)
  {
    DeliveriesBound(turns, id);
    LatestRow(AllLogCalls(turns), id) == LastRow(turns, Deliveries(turns, id))
  }

  /** The latest row of a message is what its last delivery leaves. */
  lemma {:induction false} LatestDelivery(turns: seq<Turn>, id: string)
    requires NoEscapes(turns)
    ensures LatestIsLast(turns, id)
    decreases |turns|
  {
    if |turns| == 0 {
      NoLatest(turns, id);
    } else {
      LatestDelivery(turns[..|turns| - 1], id);
      OneMoreLatest(turns[..|turns| - 1], turns[|turns| - 1], turns, id);
    }
  }

  lemma {:induction false} NoLatest(turns: seq<Turn>, id: string)
    requires |turns| == 0
    ensures LatestIsLast(turns, id)
  {
  }

  lemma {:induction false} OneMoreLatest(turns: seq<Turn>, t: Turn, all: seq<Turn>, id: string)
    requires all == turns + [t] && NoEscapes(turns) && NoEscapes(all) && LatestIsLast(turns, id)
    ensures LatestIsLast(all, id)
  {
    assert all[|turns|] == t && all[..|turns|] == turns;
    OneMoreTurnSaved(all, id);
    DeliveriesStep(turns, t, id);
    DeliveriesBound(turns, id);
    LastRowOf(turns, t, all, Deliveries(turns, id), Deliveries(all, id), MessageId(t.record) == id);
  }

  lemma LastRowOf(turns: seq<Turn>, t: Turn, all: seq<Turn>, ds: seq<nat>, ds': seq<nat>, mine: bool)
    requires all == turns + [t] && NoEscapes(turns) && NoEscapes(all) && !t.parsed.Escapes?
    requires (forall k :: 0 <= k < |ds| ==> ds[k] < |turns|) && ds' == ds + if mine then [|turns|] else []
    ensures forall k :: 0 <= k < |ds'| ==> ds'[k] < |all|
    ensures LastRow(all, ds') == if mine then Some(Updated(SavedRow(t), UpdateOf(t))) else LastRow(turns, ds)
  {
    if mine { assert ds'[|ds|] == |turns|; }
  }

  lemma {:induction false} KeyOfTurn(turns: seq<Turn>, id: string, i: nat)
    requires NoEscapes(turns) && i < |turns| && MessageId(turns[i].record) == id
    ensures SavedKey(turns[i]) in SaveKeys(AllLogCalls(turns), id)
    decreases |turns|
  {
    OneMoreTurnSaved(turns, id);
    if i == |turns| - 1 {
    } else {
      KeyOfTurn(turns[..|turns| - 1], id, i);
    }
  }

  lemma {:induction false} TurnOfKey(turns: seq<Turn>, id: string, k: Key) returns (i: nat)
    requires NoEscapes(turns) && k in SaveKeys(AllLogCalls(turns), id)
    ensures i < |turns| && MessageId(turns[i].record) == id && SavedKey(turns[i]) == k
    decreases |turns|
  {
    var n := |turns| - 1;
    OneMoreTurnSaved(turns, id);
    if MessageId(turns[n].record) == id && SavedKey(turns[n]) == k {
      i := n;
    } else {
      i := TurnOfKey(turns[..n], id, k);
    }
  }

  /** The deliveries save at one key exactly when it is the first one's. */
  lemma {:induction false} OneKey(turns: seq<Turn>, id: string)
    requires Plain(turns)
    ensures SameKeys(turns, id) <==> Single(SaveKeys(AllLogCalls(turns), id))
  {
    var keys := SaveKeys(AllLogCalls(turns), id);
    if SameKeys(turns, id) {
      forall j, k | j in keys && k in keys ensures j == k {
        FirstKey(turns, id, j);
        FirstKey(turns, id, k);
      }
    }
    if Single(keys) { KeysSame(turns, id, keys); }
  }

  lemma {:induction false} KeysSame(turns: seq<Turn>, id: string, keys: set<Key>)
    requires Plain(turns) && keys == SaveKeys(AllLogCalls(turns), id) && Single(keys)
    ensures SameKeys(turns, id)
  {
    DeliveredKeys(turns, id);
  }

  lemma {:induction false} DeliveredKeys(turns: seq<Turn>, id: string)
    requires Plain(turns)
    ensures forall k :: 0 <= k < |Deliveries(turns, id)| ==>
              && Deliveries(turns, id)[k] < |turns|
              && SavedKey(turns[Deliveries(turns, id)[k]]) in SaveKeys(AllLogCalls(turns), id)
  {
    DeliveriesBound(turns, id);
    forall k | 0 <= k < |Deliveries(turns, id)|
      ensures SavedKey(turns[Deliveries(turns, id)[k]]) in SaveKeys(AllLogCalls(turns), id)
    {
      KeyOfTurn(turns, id, Deliveries(turns, id)[k]);
    }
  }

  lemma {:induction false} FirstKey(turns: seq<Turn>, id: string, key: Key)
    requires Plain(turns) && SameKeys(turns, id) && key in SaveKeys(AllLogCalls(turns), id)
    ensures |Deliveries(turns, id)| > 0 && Deliveries(turns, id)[0] < |turns|
    ensures key == SavedKey(turns[Deliveries(turns, id)[0]])
  {
    var i := TurnOfKey(turns, id, key);
    var k := DeliveryAt(turns, id, i);
    DeliveriesBound(turns, id);
    assert SavedKey(turns[Deliveries(turns, id)[k]]) == SavedKey(turns[Deliveries(turns, id)[0]]);
  }

  /** The same update makes the same row of two saves exactly when they save the same. */
  lemma SameAfterUpdate(save: LogCall, other: LogCall, u: LogCall)
    requires save.Save? && other.Save? && u.Update?
    ensures Updated(FreshRow(save), u) == Updated(FreshRow(other), u) <==> FreshRow(save) == FreshRow(other)
  {
  }

  lemma SameRows(turns: seq<Turn>, ds: seq<nat>)
    requires NoEscapes(turns) && forall k :: 0 <= k < |ds| ==> ds[k] < |turns|
    ensures LastRow(turns, ds) == RowAfter(turns, ds) <==>
            (|ds| > 0 ==> SavedRow(turns[ds[|ds| - 1]]) == SavedRow(turns[ds[0]]))
  {
    if |ds| > 0 {
      SameAfterUpdate(SaveOf(turns[ds[|ds| - 1]]), SaveOf(turns[ds[0]]), UpdateOf(turns[ds[|ds| - 1]]));
    }
  }

  lemma {:induction false} AlikeIffRepeats(turns: seq<Turn>, id: string)
    requires Plain(turns)
    ensures Alike(AllLogCalls(turns), id) <==> Repeats(turns, id)
  {
    LatestDelivery(turns, id);
    ExpectedDelivery(turns, id);
    SameRows(turns, Deliveries(turns, id));
    OneKey(turns, id);
    if |Deliveries(turns, id)| == 0 { assert SameKeys(turns, id); }
  }

  lemma {:induction false} ExpectedDelivery(turns: seq<Turn>, id: string)
    requires Plain(turns)
    ensures forall k :: 0 <= k < |Deliveries(turns, id)| ==> Deliveries(turns, id)[k] < |turns|
    ensures ExpectedRow(AllLogCalls(turns), id) == RowAfter(turns, Deliveries(turns, id))
  {
    DeliveriesBound(turns, id);
    RedeliverySummary(turns, id);
    SqliteSummary(AllLogCalls(turns), id);
  }

  /** Over all histories the batch loop makes, redeliveries included, with every call taken and
      whichever items the index yields, DynamoDB ends as a mirror of SQLite if and only if every
      message's redeliveries save at the first delivery's key and the last of them saves the row the
      first did. */
  lemma {:induction false} MirrorsIffRepeats(turns: seq<Turn>, states: seq<Items>)
    requires Plain(turns) && DynamoRun(states, AllLogCalls(turns))
    ensures Mirrors(SqliteRun(map[], AllLogCalls(turns)), states[|states| - 1]) <==> forall id :: Repeats(turns, id)
  {
    PlainHashFree(turns);
    MirrorsIffAlike(AllLogCalls(turns), states);
    forall id ensures Alike(AllLogCalls(turns), id) <==> Repeats(turns, id) { AlikeIffRepeats(turns, id); }
  }

  lemma ClockHashFree(t: Turn)
    requires ReadsClock(t)
    ensures HashFree(t.receivedAt)
  {
    var now: Instant :| IsInstant(now) && t.receivedAt == IsoFormat(now);
    IsoFormatHashFree(now);
  }

  lemma DeliveryAt(turns: seq<Turn>, id: string, i: nat) returns (k: nat)
    requires i < |turns| && MessageId(turns[i].record) == id
    ensures k < |Deliveries(turns, id)| && Deliveries(turns, id)[k] == i
  {
    IndicesExact(turns, Carrying(id));
    assert i in Deliveries(turns, id);
    k :| 0 <= k < |Deliveries(turns, id)| && Deliveries(turns, id)[k] == i;
  }

  /** A message delivered twice at different clock readings parts the tables for good. */
  lemma {:induction false} DeliveredLaterParts(turns: seq<Turn>, states: seq<Items>, i: nat, j: nat)
    requires Plain(turns) && DynamoRun(states, AllLogCalls(turns)) && i < |turns| && j < |turns|
    requires MessageId(turns[i].record) == MessageId(turns[j].record) && turns[i].receivedAt != turns[j].receivedAt
    ensures !Mirrors(SqliteRun(map[], AllLogCalls(turns)), states[|states| - 1])
  {
    var id := MessageId(turns[i].record);
    MirrorsIffRepeats(turns, states);
    ClockHashFree(turns[i]);
    ClockHashFree(turns[j]);
    if Repeats(turns, id) {
      SameKeyTwice(turns, id, i);
      SameKeyTwice(turns, id, j);
      KeyInjective(id, SavedRow(turns[i]), id, SavedRow(turns[j]));
    }
  }

  lemma SameKeyTwice(turns: seq<Turn>, id: string, i: nat)
    requires Plain(turns) && Repeats(turns, id) && i < |turns| && MessageId(turns[i].record) == id
    ensures |Deliveries(turns, id)| > 0 && Deliveries(turns, id)[0] < |turns|
    ensures SavedKey(turns[i]) == SavedKey(turns[Deliveries(turns, id)[0]])
  {
    var k := DeliveryAt(turns, id, i);
    DeliveriesBound(turns, id);
    assert SavedKey(turns[Deliveries(turns, id)[k]]) == SavedKey(turns[Deliveries(turns, id)[0]]);
  }

  const MIDNIGHT := Instant(Calendar.Date(2026, 1, 1), 0, 0)

  const SOON := MIDNIGHT.(micro := 1)

  /** A rejected message, received at some time. */
  function Rejected(at: Instant): Turn
    requires IsInstant(at)
  {
    Turn(Record(Some("m-1"), Some("[]")), Messages.Invalid, IsoFormat(at), 0, "", Returned("[]"))
  }

  lemma RejectedReadsClock(at: Instant)
    requires IsInstant(at)
    ensures ReadsClock(Rejected(at)) && Rejected(at).receivedAt == IsoFormat(at)
            && MessageId(Rejected(at).record) == "m-1"
  {
  }

  lemma MicrosLonger()
    ensures |IsoFormat(MIDNIGHT)| < |IsoFormat(SOON)|
  {
  }

  lemma RedeliveredPair(one: Turn, two: Turn, states: seq<Items>)
    requires !one.parsed.Escapes? && !two.parsed.Escapes? && ReadsClock(one) && ReadsClock(two)
    requires MessageId(one.record) == MessageId(two.record) && one.receivedAt != two.receivedAt
    requires DynamoRun(states, AllLogCalls([one, two]))
    ensures !Mirrors(SqliteRun(map[], AllLogCalls([one, two])), states[|states| - 1])
  {
    DeliveredLaterParts([one, two], states, 0, 1);
  }

  /** A history on which the backends part: one rejected message, redelivered a microsecond later. */
  lemma RedeliveredOnce(states: seq<Items>)
    requires DynamoRun(states, AllLogCalls([Rejected(MIDNIGHT), Rejected(SOON)]))
    ensures !Mirrors(SqliteRun(map[], AllLogCalls([Rejected(MIDNIGHT), Rejected(SOON)])), states[|states| - 1])
  {
    MicrosLonger();
    RejectedReadsClock(MIDNIGHT);
    RejectedReadsClock(SOON);
    RedeliveredPair(Rejected(MIDNIGHT), Rejected(SOON), states);
  }
}
