/** The two event-log backends (app/db/sqlite/events.py, app/db/dynamo/events.py): tables updated
    in place, and when the second mirrors the first. */
module EventLog {
  import opened Prelude
  import opened Handler
  import opened Buckets

  /** The columns of a row besides its id. */
  datatype Row = Row(userId: string, eventType: string, payload: string, receivedAt: string, ttl: int,
                     status: Status, error: Option<string>, outcomes: string)

  function FreshRow(c: LogCall): Row
    requires c.Save?
  {
    Row(c.userId, c.eventType, c.payload, c.receivedAt, c.ttl, Received, None, "[]")
  }

  function Updated(r: Row, c: LogCall): Row
    requires c.Update?
  {
    r.(status := c.status, error := c.error, outcomes := c.outcomes)
  }

  // ---- SQLite ----

  type Rows = map<string, Row>

  /** One call: an insert that meets the primary key raises and is rolled back; an update of a
      missing id touches no row. */
  function SqliteStep(rows: Rows, c: LogCall): Rows {
    match c
    case Save(id, _, _, _, _, _) => if id in rows then rows else rows[id := FreshRow(c)]
    case Update(id, _, _, _) => if id in rows then rows[id := Updated(rows[id], c)] else rows
  }

  function SqliteRun(rows: Rows, calls: seq<LogCall>): Rows {
    if calls == [] then rows else SqliteStep(SqliteRun(rows, calls[..|calls| - 1]), calls[|calls| - 1])
  }

  class SqliteRepo {
    var rows: Rows

    constructor ()
      ensures rows == map[]
    {
      rows := map[];
    }

    method Save(c: LogCall) returns (ok: bool)
      requires c.Save?
      modifies this
      ensures rows == SqliteStep(old(rows), c) && ok == (c.id !in old(rows))
      ensures rows == if c.id in old(rows) then old(rows)
                      else old(rows)[c.id := Row(c.userId, c.eventType, c.payload, c.receivedAt, c.ttl, Received, None,
                                                 "[]")]
    {
      if c.id in rows { return false; }
      rows := rows[c.id := FreshRow(c)];
      return true;
    }

    method UpdateStatus(c: LogCall)
      requires c.Update?
      modifies this
      ensures rows == SqliteStep(old(rows), c) && rows.Keys == old(rows).Keys
      ensures forall id :: id in rows ==>
                rows[id] == if id != c.id then old(rows)[id]
                            else old(rows)[id].(status := c.status, error := c.error, outcomes := c.outcomes)
    {
      if c.id in rows { rows := rows[c.id := Updated(rows[c.id], c)]; }
    }
  }

  // ---- DynamoDB ----

  datatype Item = Item(id: string, row: Row)

  type Key = (string, string)

  type Items = map<Key, Item>

  function Pk(userId: string): string { "USER#" + userId }

  function Sk(receivedAt: string, id: string): string { "EVENT#" + receivedAt + "#" + id }

  function KeyOf(id: string, r: Row): Key { (Pk(r.userId), Sk(r.receivedAt, id)) }

  /** The keys an up-to-date id index holds for an id. */
  function Indexed(items: Items, id: string): set<Key> { set k | k in items && items[k].id == id }

  /** One call: a put overwrites whatever is at the key; an update changes one item of the id,
      whichever the index yields, if there is any. */
  ghost predicate DynamoStep(items: Items, c: LogCall, items': Items) {
    match c
    case Save(id, _, _, _, _, _) => items' == items[KeyOf(id, FreshRow(c)) := Item(id, FreshRow(c))]
    case Update(id, _, _, _) =>
      if Indexed(items, id) == {} then items' == items
      else exists k :: k in Indexed(items, id) && items' == items[k := Item(id, Updated(items[k].row, c))]
  }

  /** The states of a table as it takes some calls. */
  ghost predicate DynamoRun(states: seq<Items>, calls: seq<LogCall>) {
    && |states| == |calls| + 1 && states[0] == map[]
    && forall i :: 0 <= i < |calls| ==> DynamoStep(states[i], calls[i], states[i + 1])
  }

  class DynamoRepo {
    var items: Items

    constructor ()
      ensures items == map[]
    {
      items := map[];
    }

    method Save(c: LogCall)
      requires c.Save?
      modifies this
      ensures DynamoStep(old(items), c, items)
      ensures items == old(items)[("USER#" + c.userId, "EVENT#" + c.receivedAt + "#" + c.id) :=
                Item(c.id, Row(c.userId, c.eventType, c.payload, c.receivedAt, c.ttl, Received, None, "[]"))]
    {
      items := items[KeyOf(c.id, FreshRow(c)) := Item(c.id, FreshRow(c))];
    }

    method UpdateStatus(c: LogCall)
      requires c.Update?
      modifies this
      ensures DynamoStep(old(items), c, items)
      ensures (forall k :: k in old(items) ==> old(items)[k].id != c.id) ==> items == old(items)
      ensures (exists k :: k in old(items) && old(items)[k].id == c.id) ==>
                exists k :: k in old(items) && old(items)[k].id == c.id
                            && items == old(items)[k := Item(c.id, old(items)[k].row.(
                                                      status := c.status, error := c.error, outcomes := c.outcomes))]
    {
      var found := Indexed(items, c.id);
      assert forall k :: k in items && items[k].id == c.id ==> k in found;
      if found == {} { return; }
      var base :| base in found;
      items := items[base := Item(c.id, Updated(items[base].row, c))];
    }
  }

  // ---- What a history leaves in SQLite ----

  /** The first save of an id, by number. */
  function FirstSave(calls: seq<LogCall>, id: string): (i: nat)
    ensures i <= |calls|
  {
    if calls == [] then 0
    else
      var i := FirstSave(calls[..|calls| - 1], id);
      if i < |calls| - 1 then i
      else if calls[|calls| - 1].Save? && calls[|calls| - 1].id == id then i else i + 1
  }

  /** The last update of an id after a place in the history. */
  function LastUpdate(calls: seq<LogCall>, id: string, after: nat): Option<LogCall>
  {
    if |calls| <= after then None
    else if calls[|calls| - 1].Update? && calls[|calls| - 1].id == id then Some(calls[|calls| - 1])
    else LastUpdate(calls[..|calls| - 1], id, after)
  }

  lemma {:induction false} FirstSaveCorrect(calls: seq<LogCall>, id: string)
    ensures var i := FirstSave(calls, id);
            && (i < |calls| ==> calls[i].Save? && calls[i].id == id)
            && (forall j :: 0 <= j < i ==> !(calls[j].Save? && calls[j].id == id))
    decreases |calls|
  {
    if calls == [] {
    } else {
      var init := calls[..|calls| - 1];
      FirstSaveCorrect(init, id);
      assert forall j :: 0 <= j < |init| ==> init[j] == calls[j];
    }
  }

  lemma {:induction false} LastUpdateIsUpdate(calls: seq<LogCall>, id: string, after: nat)
    ensures LastUpdate(calls, id, after).Some? ==>
              LastUpdate(calls, id, after).value.Update? && LastUpdate(calls, id, after).value.id == id
    decreases |calls|
  {
    if |calls| > after { LastUpdateIsUpdate(calls[..|calls| - 1], id, after); }
  }

  /** The row a history should have left for an id: the identity of its first delivery, and the
      status of its latest update since. */
  function ExpectedRow(calls: seq<LogCall>, id: string): Option<Row> {
    var i := FirstSave(calls, id);
    FirstSaveCorrect(calls, id);
    if i == |calls| then None
    else
      var last := LastUpdate(calls, id, i);
      LastUpdateIsUpdate(calls, id, i);
      Some(if last.None? then FreshRow(calls[i]) else Updated(FreshRow(calls[i]), last.value))
  }

  /** After any history, redeliveries included, SQLite holds one row per saved id, with the identity
      of the first delivery and the status of the latest. */
  lemma {:induction false} SqliteSummary(calls: seq<LogCall>, id: string)
    ensures (if id in SqliteRun(map[], calls) then Some(SqliteRun(map[], calls)[id]) else None) ==
            ExpectedRow(calls, id)
    decreases |calls|
  {
    if calls == [] {
    } else {
      var init, last := calls[..|calls| - 1], calls[|calls| - 1];
      SqliteSummary(init, id);
      FirstSaveCorrect(init, id);
      FirstSaveCorrect(calls, id);
      var i := FirstSave(init, id);
      if i < |init| {
        assert FirstSave(calls, id) == i && calls[i] == init[i];
      } else if last.Save? && last.id == id {
        assert LastUpdate(calls, id, i).None?;
      }
    }
  }

  // ---- When DynamoDB mirrors it ----

  /** The same rows: one item per id, at the key its row determines. */
  ghost predicate Mirrors(rows: Rows, items: Items) {
    && (forall id :: id in rows ==> KeyOf(id, rows[id]) in items && items[KeyOf(id, rows[id])] == Item(id, rows[id]))
    && (forall k :: k in items ==>
          items[k].id in rows && items[k].row == rows[items[k].id] && k == KeyOf(items[k].id, items[k].row))
  }

  predicate HashFree(s: string) { '#' !in s }

  ghost predicate HashFreeRows(rows: Rows) { forall id :: id in rows ==> HashFree(rows[id].receivedAt) }

  /** The composite key determines the id, because a timestamp contains no `#`. */
  lemma KeyInjective(id: string, r: Row, id': string, r': Row)
    requires HashFree(r.receivedAt) && HashFree(r'.receivedAt) && KeyOf(id, r) == KeyOf(id', r')
    ensures id == id' && r.userId == r'.userId && r.receivedAt == r'.receivedAt
  {
    PrefixSplit("USER#", r.userId, r'.userId);
    assert Sk(r.receivedAt, id) == "EVENT#" + (r.receivedAt + "#" + id);
    assert Sk(r'.receivedAt, id') == "EVENT#" + (r'.receivedAt + "#" + id');
    PrefixSplit("EVENT#", r.receivedAt + "#" + id, r'.receivedAt + "#" + id');
    HashSplit(r.receivedAt, id, r'.receivedAt, id');
  }

  lemma HashSplit(a: string, x: string, b: string, y: string)
    requires HashFree(a) && HashFree(b) && a + "#" + x == b + "#" + y
    ensures a == b && x == y
  {
    var s := a + "#" + x;
    assert s[|a|] == '#' && s[|b|] == '#';
    assert forall i :: 0 <= i < |a| ==> s[i] == a[i] && s[i] != '#';
    assert forall i :: 0 <= i < |b| ==> s[i] == b[i] && s[i] != '#';
    assert |a| == |b|;
    assert a == s[..|a|] && b == s[..|b|];
    assert x == s[|a| + 1..] && y == s[|b| + 1..];
  }

  /** Under the mirror, the index yields exactly the item of the id. */
  lemma IndexedOne(rows: Rows, items: Items, id: string)
    requires Mirrors(rows, items)
    ensures Indexed(items, id) == if id in rows then {KeyOf(id, rows[id])} else {}
  {
  }

  /** A call that does not save an id already present keeps the mirror. */
  lemma StepMirrors(rows: Rows, items: Items, c: LogCall, items': Items)
    requires Mirrors(rows, items) && HashFreeRows(rows) && DynamoStep(items, c, items')
    requires c.Save? ==> c.id !in rows && HashFree(c.receivedAt)
    ensures Mirrors(SqliteStep(rows, c), items') && HashFreeRows(SqliteStep(rows, c))
  {
    var rows' := SqliteStep(rows, c);
    if c.Save? {
      forall id | id in rows ensures KeyOf(id, rows[id]) != KeyOf(c.id, FreshRow(c)) {
        if KeyOf(id, rows[id]) == KeyOf(c.id, FreshRow(c)) { KeyInjective(id, rows[id], c.id, FreshRow(c)); }
      }
    } else {
      IndexedOne(rows, items, c.id);
      if c.id in rows {
        var k := KeyOf(c.id, rows[c.id]);
        assert items' == items[k := Item(c.id, Updated(items[k].row, c))];
      }
    }
  }

  /** The ids a history saves. */
  function Saved(calls: seq<LogCall>): set<string> { set i | 0 <= i < |calls| && calls[i].Save? :: calls[i].id }

  /** No id is saved twice. */
  ghost predicate SavesOnce(calls: seq<LogCall>) {
    forall i, j :: 0 <= i < j < |calls| && calls[i].Save? && calls[j].Save? ==> calls[i].id != calls[j].id
  }

  ghost predicate HashFreeSaves(calls: seq<LogCall>) {
    forall i :: 0 <= i < |calls| && calls[i].Save? ==> HashFree(calls[i].receivedAt)
  }

  lemma {:induction false} SqliteIds(calls: seq<LogCall>)
    ensures SqliteRun(map[], calls).Keys == Saved(calls)
    decreases |calls|
  {
    if calls == [] {
    } else {
      var init := calls[..|calls| - 1];
      SqliteIds(init);
      assert forall i :: 0 <= i < |init| ==> init[i] == calls[i];
      var last := calls[|calls| - 1];
      assert Saved(calls) == Saved(init) + if last.Save? then {last.id} else {};
    }
  }

  /** On every history that saves no id twice, whatever it updates and whichever item the index
      yields, the second table ends as a mirror of the first. */
  lemma {:induction false} RunMirrors(states: seq<Items>, calls: seq<LogCall>)
    requires DynamoRun(states, calls) && SavesOnce(calls) && HashFreeSaves(calls)
    ensures Mirrors(SqliteRun(map[], calls), states[|calls|]) && HashFreeRows(SqliteRun(map[], calls))
    decreases |calls|
  {
    if calls == [] {
    } else {
      var n := |calls| - 1;
      RunMirrors(states[..n + 1], calls[..n]);
      SqliteIds(calls[..n]);
      StepMirrors(SqliteRun(map[], calls[..n]), states[n], calls[n], states[n + 1]);
    }
  }

  /** Saving an id again, which SQLite refuses, keeps the mirror exactly when the row it writes is
      the row that is there: the side condition is needed, not merely convenient. */
  lemma SavedTwice(rows: Rows, items: Items, c: LogCall, items': Items)
    requires Mirrors(rows, items) && HashFreeRows(rows) && DynamoStep(items, c, items')
    requires c.Save? && c.id in rows && HashFree(c.receivedAt)
    ensures Mirrors(SqliteStep(rows, c), items') <==> FreshRow(c) == rows[c.id]
  {
    var k, k' := KeyOf(c.id, rows[c.id]), KeyOf(c.id, FreshRow(c));
    assert items' == items[k' := Item(c.id, FreshRow(c))];
    if FreshRow(c) == rows[c.id] {
      assert items' == items;
    } else if k != k' {
      assert items'[k'].id == c.id && items'[k'].row != rows[c.id];
    } else {
      assert items'[k].row != rows[c.id];
    }
  }

  // ---- The histories the batch loop makes ----

  /** `datetime.isoformat` of an aware UTC instant. */
  function IsoFormat(t: Instant): string
    requires IsInstant(t)
  {
    Padded(t.date.year, 4) + "-" + Padded(t.date.month, 2) + "-" + Padded(t.date.day, 2) + "T"
    + Padded(t.second / 3600, 2) + ":" + Padded(t.second / 60 % 60, 2) + ":" + Padded(t.second % 60, 2)
    + (if t.micro == 0 then "" else "." + Padded(t.micro, 6)) + "+00:00"
  }

  lemma {:induction false} PaddedHashFree(n: nat, width: nat)
    ensures HashFree(Padded(n, width))
    decreases n, width
  {
    if n >= 10 || width > 1 { PaddedHashFree(n / 10, if width == 0 then 0 else width - 1); }
  }

  lemma IsoFormatHashFree(t: Instant)
    requires IsInstant(t)
    ensures HashFree(IsoFormat(t))
  {
    PaddedHashFree(t.date.year, 4);
    PaddedHashFree(t.date.month, 2);
    PaddedHashFree(t.date.day, 2);
    PaddedHashFree(t.second / 3600, 2);
    PaddedHashFree(t.second / 60 % 60, 2);
    PaddedHashFree(t.second % 60, 2);
    PaddedHashFree(t.micro, 6);
  }

  /** Digits, six of them for the microseconds. */
  lemma {:induction false} SixDigits(n: nat)
    requires n < 1000000
    ensures |Padded(n, 6)| == 6 && Decimal(Padded(n, 6)) == n && AllDigits(Padded(n, 6))
  {
    PaddedIsDecimal(n, 6);
    PaddedStep(n, 6);
    PaddedStep(n / 10, 5);
    PaddedFour(n / 10 / 10);
  }

  /** The timestamp of an instant, digit by digit; the microseconds are there only if there are any. */
  lemma IsoFormatExactly(t: Instant, h: nat, m: nat, s: nat)
    requires IsInstant(t) && m < 60 && s < 60 && t.second == h * 3600 + m * 60 + s
    ensures var y, mo, d := t.date.year, t.date.month, t.date.day;
            IsoFormat(t) ==
            [Digit(y / 1000), Digit(y / 100), Digit(y / 10), Digit(y)] + "-" + [Digit(mo / 10), Digit(mo)] + "-"
            + [Digit(d / 10), Digit(d)] + "T" + [Digit(h / 10), Digit(h)] + ":" + [Digit(m / 10), Digit(m)] + ":"
            + [Digit(s / 10), Digit(s)] + (if t.micro == 0 then "" else "." + Padded(t.micro, 6)) + "+00:00"
    ensures |Padded(t.micro, 6)| == 6 && Decimal(Padded(t.micro, 6)) == t.micro && AllDigits(Padded(t.micro, 6))
  {
    PaddedFour(t.date.year);
    PaddedTwo(t.date.month);
    PaddedTwo(t.date.day);
    ClockFields(t.second, h, m, s);
    PaddedTwo(h);
    PaddedTwo(m);
    PaddedTwo(s);
    SixDigits(t.micro);
  }

  lemma ClockFields(second: nat, h: nat, m: nat, s: nat)
    requires m < 60 && s < 60 && second == h * 3600 + m * 60 + s && second < 86400
    ensures second / 3600 == h && second / 60 % 60 == m && second % 60 == s && h < 24
  {
    assert second / 60 == h * 60 + m;
  }

  ghost predicate ReadsClock(turn: Turn) { exists t :: IsInstant(t) && turn.receivedAt == IsoFormat(t) }

  /** Each turn reads the clock, and no two records carry the same id. */
  ghost predicate FreshDeliveries(turns: seq<Turn>) {
    && (forall i :: 0 <= i < |turns| ==> ReadsClock(turns[i]))
    && (forall i, j :: 0 <= i < j < |turns| ==> MessageId(turns[i].record) != MessageId(turns[j].record))
  }

  function IdsOf(turns: seq<Turn>): set<string> { set i | 0 <= i < |turns| :: MessageId(turns[i].record) }

  /** Some calls that save an id at most once, added to calls that do not save it. */
  lemma SavesConcat(calls: seq<LogCall>, added: seq<LogCall>, id: string)
    requires SavesOnce(calls) && HashFreeSaves(calls) && SavesOnce(added) && HashFreeSaves(added)
    requires id !in Saved(calls) && Saved(added) <= {id}
    ensures SavesOnce(calls + added) && HashFreeSaves(calls + added)
            && Saved(calls + added) == Saved(calls) + Saved(added)
  {
    var all := calls + added;
    assert forall k :: 0 <= k < |calls| ==> all[k] == calls[k];
    assert forall k :: 0 <= k < |added| ==> all[|calls| + k] == added[k];
    assert forall k :: 0 <= k < |calls| && calls[k].Save? ==> calls[k].id in Saved(calls);
    assert forall k :: 0 <= k < |added| && added[k].Save? ==> added[k].id in Saved(added);
    assert forall k :: |calls| <= k < |all| && all[k].Save? ==> all[k].id == id;
    assert Saved(all) <= Saved(calls) + Saved(added);
  }

  lemma TurnSaves(t: Turn)
    requires ReadsClock(t)
    ensures SavesOnce(LogCalls(t)) && HashFreeSaves(LogCalls(t)) && Saved(LogCalls(t)) <= {MessageId(t.record)}
  {
    var now :| IsInstant(now) && t.receivedAt == IsoFormat(now);
    IsoFormatHashFree(now);
  }

  lemma IdsInit(turns: seq<Turn>)
    requires turns != []
    ensures IdsOf(turns) == IdsOf(turns[..|turns| - 1]) + {MessageId(turns[|turns| - 1].record)}
  {
    var init := turns[..|turns| - 1];
    assert forall i :: 0 <= i < |init| ==> init[i] == turns[i];
  }

  lemma FreshInit(turns: seq<Turn>)
    requires FreshDeliveries(turns) && turns != []
    ensures FreshDeliveries(turns[..|turns| - 1])
    ensures MessageId(turns[|turns| - 1].record) !in IdsOf(turns[..|turns| - 1])
  {
    var init := turns[..|turns| - 1];
    assert forall i :: 0 <= i < |init| ==> init[i] == turns[i];
  }

  lemma {:induction false} SavedByTurns(turns: seq<Turn>)
    requires FreshDeliveries(turns)
    ensures SavesOnce(AllLogCalls(turns)) && HashFreeSaves(AllLogCalls(turns))
            && Saved(AllLogCalls(turns)) <= IdsOf(turns)
    decreases |turns|
  {
    if turns == [] {
    } else {
      var init, last := turns[..|turns| - 1], turns[|turns| - 1];
      FreshInit(turns);
      IdsInit(turns);
      SavedByTurns(init);
      TurnSaves(last);
      SavesConcat(AllLogCalls(init), LogCalls(last), MessageId(last.record));
    }
  }

  /** What a log that refuses some calls takes keeps to the same conditions. */
  lemma {:induction false} TakenSavesOnce(refusals: set<nat>, calls: seq<LogCall>)
    requires SavesOnce(calls) && HashFreeSaves(calls)
    ensures var taken := Log(refusals, 0, [], calls);
            && SavesOnce(taken) && HashFreeSaves(taken) && Saved(taken) <= Saved(calls)
    decreases |calls|
  {
    if calls == [] {
    } else {
      var n := |calls| - 1;
      var init := calls[..n];
      TakenSavesOnce(refusals, init);
      assert forall i :: 0 <= i < |init| ==> init[i] == calls[i];
      var before, taken := Log(refusals, 0, [], init), Log(refusals, 0, [], calls);
      assert forall i :: 0 <= i < |before| && before[i].Save? ==> before[i].id in Saved(before);
    }
  }

  /** Fed by the batch loop over messages delivered once each, with whatever calls the log drops,
      the two backends end with the same rows. */
  lemma {:induction false} BackendsAgree(turns: seq<Turn>, refusals: set<nat>, states: seq<Items>)
    requires FreshDeliveries(turns)
    requires DynamoRun(states, Log(refusals, 0, [], AllLogCalls(turns)))
    ensures var taken := Log(refusals, 0, [], AllLogCalls(turns));
            Mirrors(SqliteRun(map[], taken), states[|taken|])
  {
    SavedByTurns(turns);
    TakenSavesOnce(refusals, AllLogCalls(turns));
    RunMirrors(states, Log(refusals, 0, [], AllLogCalls(turns)));
  }

  /** Between the save and the update of a redelivery the two always differ: SQLite keeps its row with
      its status, and DynamoDB has put a fresh item over it or beside it. */
  lemma RedeliveryParts(rows: Rows, items: Items, c: LogCall, items': Items)
    requires Mirrors(rows, items) && HashFreeRows(rows) && DynamoStep(items, c, items')
    requires c.Save? && c.id in rows && HashFree(c.receivedAt) && rows[c.id].status != Received
    ensures !Mirrors(SqliteStep(rows, c), items') && SqliteStep(rows, c) == rows
  {
    SavedTwice(rows, items, c, items');
  }

  // ---- What redeliveries leave in SQLite ----

  function Carrying(id: string): Turn -> bool { (t: Turn) => MessageId(t.record) == id }

  /** The deliveries of a message, in order. */
  function Deliveries(turns: seq<Turn>, id: string): seq<nat> { Indices(turns, Carrying(id)) }

  function RowOf(rows: Rows, id: string): Option<Row> { if id in rows then Some(rows[id]) else None }

  lemma {:induction false} SqliteTwo(calls: seq<LogCall>, one: LogCall, two: LogCall)
    ensures SqliteRun(map[], calls + [one, two]) == SqliteStep(SqliteStep(SqliteRun(map[], calls), one), two)
  {
    var all := calls + [one, two];
    assert all[..|calls| + 1] == calls + [one];
    assert (calls + [one])[..|calls|] == calls;
  }

  /** The two log calls of a turn that does not escape. */
  function SaveOf(t: Turn): (c: LogCall)
    requires !t.parsed.Escapes?
    ensures c.Save? && c.id == MessageId(t.record)
  {
    LogCalls(t)[0]
  }

  function UpdateOf(t: Turn): (c: LogCall)
    requires !t.parsed.Escapes?
    ensures c.Update? && c.id == MessageId(t.record)
  {
    LogCalls(t)[1]
  }

  lemma {:induction false} TurnRow(turns: seq<Turn>, t: Turn, id: string)
    requires !t.parsed.Escapes?
    ensures var before := RowOf(SqliteRun(map[], AllLogCalls(turns)), id);
            RowOf(SqliteRun(map[], AllLogCalls(turns + [t])), id) ==
            if MessageId(t.record) != id then before
            else Some(Updated(if before.Some? then before.value else FreshRow(SaveOf(t)), UpdateOf(t)))
  {
    assert (turns + [t])[..|turns|] == turns;
    assert LogCalls(t) == [SaveOf(t), UpdateOf(t)];
    SqliteTwo(AllLogCalls(turns), SaveOf(t), UpdateOf(t));
  }

  /** The row a message's deliveries should leave: saved as in the first of them, with the status,
      error and outcomes of the last. */
  function RowAfter(turns: seq<Turn>, ds: seq<nat>): Option<Row>
    requires forall i :: 0 <= i < |turns| ==> !turns[i].parsed.Escapes?
    requires forall k :: 0 <= k < |ds| ==> ds[k] < |turns|
  {
    if |ds| == 0 then None
    else Some(Updated(FreshRow(SaveOf(turns[ds[0]])), UpdateOf(turns[ds[|ds| - 1]])))
  }

  lemma RowAfterStep(turns: seq<Turn>, ds: seq<nat>, t: Turn)
    requires forall i :: 0 <= i < |turns| ==> !turns[i].parsed.Escapes?
    requires forall k :: 0 <= k < |ds| ==> ds[k] < |turns|
    requires !t.parsed.Escapes?
    ensures RowAfter(turns + [t], ds) == RowAfter(turns, ds)
    ensures RowAfter(turns + [t], ds + [|turns|]) ==
            Some(Updated(if |ds| > 0 then RowAfter(turns, ds).value else FreshRow(SaveOf(t)), UpdateOf(t)))
  {
    assert forall i :: 0 <= i < |turns| ==> (turns + [t])[i] == turns[i];
  }

  lemma DeliveriesStep(turns: seq<Turn>, t: Turn, id: string)
    ensures Deliveries(turns + [t], id) == Deliveries(turns, id) + if MessageId(t.record) == id then [|turns|] else []
  {
    assert (turns + [t])[..|turns|] == turns;
  }

  lemma DeliveriesBound(turns: seq<Turn>, id: string)
    ensures forall k :: 0 <= k < |Deliveries(turns, id)| ==>
              Deliveries(turns, id)[k] < |turns| && MessageId(turns[Deliveries(turns, id)[k]].record) == id
  {
    IndicesSound(turns, Carrying(id));
    assert forall t :: Carrying(id)(t) ==> MessageId(t.record) == id;
  }

  ghost predicate Summarised(turns: seq<Turn>, id: string)
    requires forall i :: 0 <= i < |turns| ==> !turns[i].parsed.Escapes?
  {
    && (forall k :: 0 <= k < |Deliveries(turns, id)| ==> Deliveries(turns, id)[k] < |turns|)
    && RowOf(SqliteRun(map[], AllLogCalls(turns)), id) == RowAfter(turns, Deliveries(turns, id))
  }

  /** After any deliveries of any messages, redeliveries included, with no call failing but the
      duplicate saves, SQLite holds one row per delivered id: saved as in its first delivery, with
      the status, error and outcomes of its latest. */
  lemma {:induction false} RedeliverySummary(turns: seq<Turn>, id: string)
    requires forall i :: 0 <= i < |turns| ==> !turns[i].parsed.Escapes?
    ensures Summarised(turns, id)
    decreases |turns|
  {
    if |turns| == 0 {
      NoDeliveries(turns, id);
    } else {
      var init, last := turns[..|turns| - 1], turns[|turns| - 1];
      RedeliverySummary(init, id);
      OneMoreDelivery(init, last, turns, id);
    }
  }

  lemma NoDeliveries(turns: seq<Turn>, id: string)
    requires |turns| == 0
    ensures Summarised(turns, id)
  {
  }

  lemma OneMoreDelivery(turns: seq<Turn>, t: Turn, all: seq<Turn>, id: string)
    requires all == turns + [t] && !t.parsed.Escapes? && forall i :: 0 <= i < |turns| ==> !turns[i].parsed.Escapes?
    requires Summarised(turns, id)
    ensures Summarised(all, id)
  {
    DeliveriesBound(all, id);
    TurnRow(turns, t, id);
    DeliveriesStep(turns, t, id);
    RowAfterStep(turns, Deliveries(turns, id), t);
  }

  /** The id a record goes by. */
  ghost predicate GoesBy(r: Record, id: string) {
    r.messageId == Some(id) || (r.messageId.None? && id == "<unknown>")
  }

  /** What is in the row of a message first delivered in one turn and last in another: what the first
      turn saved, with how the last one ended. */
  ghost predicate RowSays(r: Row, first: Turn, last: Turn) {
    && r.payload == (if first.record.body.None? || first.record.body.value == "" then "{}" else first.record.body.value)
    && r.receivedAt == first.receivedAt && r.ttl == first.ttl
    && (first.parsed.Invalid? ==> r.userId == "<unparsed>" && r.eventType == "<unparsed>")
    && (first.parsed.Accepted? ==> r.userId == first.parsed.event.userId && r.eventType == TypeName(first.parsed.event))
    && (last.parsed.Invalid? ==> (r.status, r.error, r.outcomes) == (Failed, Some(last.invalidBecause), "[]"))
    && (last.parsed.Accepted? && last.verdict.Raised? ==>
          (r.status, r.error, r.outcomes) == (Failed, Some(last.verdict.error), "[]"))
    && (last.parsed.Accepted? && last.verdict.Returned? ==>
          (r.status, r.error, r.outcomes) == (Succeeded, None, last.verdict.outcomes))
  }

  lemma UpdatedSays(first: Turn, last: Turn)
    requires !first.parsed.Escapes? && !last.parsed.Escapes?
    ensures RowSays(Updated(FreshRow(SaveOf(first)), UpdateOf(last)), first, last)
  {
  }

  /** The row of a message delivered first as number `i` and last as number `j`, column by column. */
  lemma {:induction false} RowContents(turns: seq<Turn>, id: string, i: nat, j: nat)
    requires forall k :: 0 <= k < |turns| ==> !turns[k].parsed.Escapes?
    requires i <= j < |turns| && GoesBy(turns[i].record, id) && GoesBy(turns[j].record, id)
    requires forall k :: 0 <= k < |turns| && GoesBy(turns[k].record, id) ==> i <= k <= j
    ensures id in SqliteRun(map[], AllLogCalls(turns))
            && RowSays(SqliteRun(map[], AllLogCalls(turns))[id], turns[i], turns[j])
  {
    RedeliverySummary(turns, id);
    DeliveryEnds(turns, id, i, j);
    UpdatedSays(turns[i], turns[j]);
  }

  lemma DeliveryEnds(turns: seq<Turn>, id: string, i: nat, j: nat)
    requires i <= j < |turns| && GoesBy(turns[i].record, id) && GoesBy(turns[j].record, id)
    requires forall k :: 0 <= k < |turns| && GoesBy(turns[k].record, id) ==> i <= k <= j
    ensures var ds := Deliveries(turns, id);
            |ds| > 0 && ds[0] == i && ds[|ds| - 1] == j
  {
    var ds := Deliveries(turns, id);
    IndicesExact(turns, Carrying(id));
    assert i in ds && j in ds;
    var a :| 0 <= a < |ds| && ds[a] == i;
    var b :| 0 <= b < |ds| && ds[b] == j;
    assert ds[0] in ds && ds[|ds| - 1] in ds;
  }
}
