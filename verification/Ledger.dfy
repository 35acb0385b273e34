/** The leaderboard table and the two writes of an event (app/leaderboard/updater.py). */
module Ledger {
  import opened Prelude
  import opened Events
  import opened Calendar
  import opened Buckets
  import opened Effects

  type Key = (string, string)

  datatype Item = Item(xp: int, ttl: int)

  type Items = map<Key, Item>

  datatype Write = Write(key: Key, amount: int, ttl: int)

  /** `ADD xp :amount SET ttl = :ttl` on one item, creating it at zero. */
  function Put(items: Items, w: Write): Items {
    items[w.key := Item((if w.key in items then items[w.key].xp else 0) + w.amount, w.ttl)]
  }

  function PutAll(items: Items, ws: seq<Write>): Items
    decreases |ws|
  {
    if ws == [] then items else PutAll(Put(items, ws[0]), ws[1..])
  }

  function WriteTo(b: Bucket, user: string, amount: int): Write {
    Write((PartitionKey(b.key), SortKey(user)), amount, b.ttl)
  }

  datatype Scope = Weekly | Monthly

  datatype Action = Action(bucket: string, added: int, scope: Scope)

  datatype Fault = DateOverflow | WriteFailed

  function Language(e: Event): string
    requires e.XpAwarded?
  {
    Strip(if e.languageId.Some? then e.languageId.value else "")
  }

  /** Whether the event is for the leaderboard at all. */
  predicate Ranked(e: Event)
    requires e.XpAwarded?
  {
    e.amount > 0 && e.optIn && Language(e) != ""
  }

  /** The event names a language that is more than space. */
  predicate NamesLanguage(e: Event)
    requires e.XpAwarded?
  {
    e.languageId.Some? && exists i :: 0 <= i < |e.languageId.value| && !IsSpace(e.languageId.value[i])
  }

  /** The events for the leaderboard: an amount, no opting out, and a language. */
  lemma RankedExactly(e: Event)
    requires e.XpAwarded?
    ensures Ranked(e) <==> e.amount > 0 && e.optIn && NamesLanguage(e)
  {
  }

  /** The writes an event asks for, in order; None where the bucket arithmetic raises. */
  function Plan(e: Event, now: Instant): Option<seq<Write>>
    requires e.XpAwarded? && IsInstant(now)
  {
    if !Ranked(e) then Some([])
    else
      var weekly, monthly := WeeklyBucket(Language(e), now), MonthlyBucket(Language(e), now);
      if weekly.None? || monthly.None? then None
      else Some([WriteTo(weekly.value, e.userId, e.amount), WriteTo(monthly.value, e.userId, e.amount)])
  }

  /** The table's answers to the two writes. */
  datatype Answers = Answers(weekly: bool, monthly: bool)

  /** The writes that take effect: up to the first the table refuses. */
  function Performed(plan: Option<seq<Write>>, a: Answers): seq<Write> {
    if plan.None? || |plan.value| < 2 || !a.weekly then []
    else if !a.monthly then plan.value[..1] else plan.value
  }

  /** What `update_leaderboard` returns or raises. */
  function Outcome(plan: Option<seq<Write>>, a: Answers): Result<nat, Fault> {
    if plan.None? then Err(DateOverflow)
    else if plan.value == [] then Ok(0)
    else if !a.weekly || !a.monthly then Err(WriteFailed) else Ok(2)
  }

  /** The action records of an event whose writes all succeed. */
  function Actions(e: Event, now: Instant): seq<Action>
    requires e.XpAwarded? && IsInstant(now) && Plan(e, now).Some?
  {
    if !Ranked(e) then []
    else [Action(WeeklyBucket(Language(e), now).value.key, e.amount, Weekly),
          Action(MonthlyBucket(Language(e), now).value.key, e.amount, Monthly)]
  }

  lemma {:induction false} PutAllShort(items: Items, v: Write, w: Write)
    ensures PutAll(items, []) == items
    ensures PutAll(items, [v]) == Put(items, v)
    ensures PutAll(items, [v, w]) == Put(Put(items, v), w)
  {
    assert [v][1..] == [] && [v, w][1..] == [w] && [w][1..] == [];
    assert PutAll(items, [v, w]) == PutAll(Put(items, v), [w]);
    assert PutAll(Put(items, v), [w]) == PutAll(Put(Put(items, v), w), []);
  }

  class LeaderboardTable {
    var items: Items

    constructor ()
      ensures items == map[]
    {
      items := map[];
    }

    /** `_add_xp`: one `update_item` call, which the table takes or refuses. */
    method AddXp(trace: Trace, bucket: string, user: string, amount: int, ttl: int, taken: bool, ghost written: Effect)
      returns (ok: bool)
      modifies this, trace
      ensures ok == taken
      ensures taken ==>
                var key := ("BUCKET#" + bucket, "USER#" + user);
                items == old(items)[key := Item(amount + if key in old(items) then old(items)[key].xp else 0, ttl)]
      ensures !taken ==> items == old(items)
      ensures trace.effects == old(trace.effects) + if taken then [written] else []
      ensures items == if taken then Put(old(items), WriteTo(Bucket(bucket, ttl), user, amount)) else old(items)
    {
      if !taken { return false; }
      var key := (PartitionKey(bucket), SortKey(user));
      var xp := if key in items then items[key].xp else 0;
      items := items[key := Item(xp + amount, ttl)];
      trace.Note(written);
      return true;
    }

    method UpdateLeaderboard(trace: Trace, e: Event, now: Instant, a: Answers) returns (r: Result<seq<Action>, Fault>)
      requires e.XpAwarded? && IsInstant(now)
      modifies this, trace
      ensures trace.effects == old(trace.effects) + WriteEffects(|Performed(Plan(e, now), a)|)
      ensures items == PutAll(old(items), Performed(Plan(e, now), a))
      ensures r.Ok? <==> Outcome(Plan(e, now), a).Ok?
      ensures r.Err? ==> r.error == Outcome(Plan(e, now), a).error
      ensures r.Ok? ==> r.value == Actions(e, now)
    {
      if e.amount <= 0 { return Ok([]); }
      if !e.optIn { return Ok([]); }
      var lang := Language(e);
      if lang == "" { return Ok([]); }
      var weekly, monthly := WeeklyBucket(lang, now), MonthlyBucket(lang, now);
      if weekly.None? || monthly.None? { return Err(DateOverflow); }
      PutAllShort(items, WriteTo(weekly.value, e.userId, e.amount), WriteTo(monthly.value, e.userId, e.amount));
      ghost var plan := Plan(e, now).value;
      assert plan[..1] == [WriteTo(weekly.value, e.userId, e.amount)];
      var actions: seq<Action> := [];
      var ok := AddXp(trace, weekly.value.key, e.userId, e.amount, weekly.value.ttl, a.weekly, WroteWeekly);
      if !ok { return Err(WriteFailed); }
      actions := actions + [Action(weekly.value.key, e.amount, Weekly)];
      ok := AddXp(trace, monthly.value.key, e.userId, e.amount, monthly.value.ttl, a.monthly, WroteMonthly);
      if !ok { return Err(WriteFailed); }
      actions := actions + [Action(monthly.value.key, e.amount, Monthly)];
      return Ok(actions);
    }
  }

  // ---- The two writes, written out ----

  /** What `update_leaderboard` does with an event: nothing for one without an amount, one whose user
      has opted out or one without a language; otherwise the weekly write and then the monthly one,
      each of the amount, to the user's item of the bucket, unless the dates overflow, and stopping at
      a write the table refuses. */
  lemma LeaderboardExactly(e: Event, now: Instant, a: Answers)
    requires e.XpAwarded? && IsInstant(now)
    ensures var plan, lang := Plan(e, now), Language(e);
            var weekly, monthly := WeeklyBucket(lang, now), MonthlyBucket(lang, now);
            if e.amount == 0 || !e.optIn || !NamesLanguage(e) then
              && plan == Some([]) && Performed(plan, a) == [] && Outcome(plan, a).Ok? && Actions(e, now) == []
            else if weekly.None? || monthly.None? then
              && plan == None && Performed(plan, a) == [] && Outcome(plan, a) == Err(DateOverflow)
            else
              var w := Write(("BUCKET#" + weekly.value.key, "USER#" + e.userId), e.amount, weekly.value.ttl);
              var m := Write(("BUCKET#" + monthly.value.key, "USER#" + e.userId), e.amount, monthly.value.ttl);
              && plan == Some([w, m])
              && Performed(plan, a) == (if !a.weekly then [] else if !a.monthly then [w] else [w, m])
              && (Outcome(plan, a).Ok? <==> a.weekly && a.monthly)
              && (Outcome(plan, a).Err? ==> Outcome(plan, a).error == WriteFailed)
              && Actions(e, now) ==
                 [Action(weekly.value.key, e.amount, Weekly), Action(monthly.value.key, e.amount, Monthly)]
  {
    RankedExactly(e);
  }

  /** The amounts written to an item. */
  function SumFor(ws: seq<Write>, k: Key): int {
    if ws == [] then 0
    else SumFor(ws[..|ws| - 1], k) + if ws[|ws| - 1].key == k then ws[|ws| - 1].amount else 0
  }

  /** The expiry of the latest write to an item. */
  function LatestTtl(ws: seq<Write>, k: Key): Option<int> {
    if ws == [] then None
    else if ws[|ws| - 1].key == k then Some(ws[|ws| - 1].ttl) else LatestTtl(ws[..|ws| - 1], k)
  }

  /** An item holds the sum of the amounts written to it, and the expiry last written; there is an item
      where something was written and nowhere else. */
  lemma {:induction false} ItemsExactly(ws: seq<Write>, k: Key)
    ensures var items := PutAll(map[], ws);
            if LatestTtl(ws, k).None? then k !in items && SumFor(ws, k) == 0
            else k in items && items[k] == Item(SumFor(ws, k), LatestTtl(ws, k).value)
    decreases |ws|
  {
    if |ws| == 0 {
    } else {
      var init, w := ws[..|ws| - 1], ws[|ws| - 1];
      ItemsExactly(init, k);
      assert ws == init + [w];
      PutAllConcat(map[], init, [w]);
      PutAllShort(PutAll(map[], init), w, w);
    }
  }

  // ---- Confluence ----

  /** A write some event could have caused. */
  ghost predicate Genuine(w: Write) {
    exists lang: string, now: Instant, user: string :: IsInstant(now) && WrittenAt(w, lang, now, user)
  }

  ghost predicate WrittenAt(w: Write, lang: string, now: Instant, user: string)
    requires IsInstant(now)
  {
    || (WeeklyBucket(lang, now).Some? && w == WriteTo(WeeklyBucket(lang, now).value, user, w.amount))
    || (MonthlyBucket(lang, now).Some? && w == WriteTo(MonthlyBucket(lang, now).value, user, w.amount))
  }

  /** An event's writes are genuine. */
  lemma PlanIsGenuine(e: Event, now: Instant)
    requires e.XpAwarded? && IsInstant(now)
    ensures Plan(e, now).Some? ==> forall w :: w in Plan(e, now).value ==> Genuine(w)
  {
    if Plan(e, now).Some? && Plan(e, now).value != [] {
      var ws := Plan(e, now).value;
      assert WrittenAt(ws[0], Language(e), now, e.userId) && WrittenAt(ws[1], Language(e), now, e.userId);
    }
  }

  lemma WeeklyKeyTtl(lang: string, now: Instant, lang': string, now': Instant)
    requires IsInstant(now) && IsInstant(now')
    requires WeeklyBucket(lang, now).Some? && WeeklyBucket(lang', now').Some?
    ensures WeeklyBucket(lang, now).value.key == WeeklyBucket(lang', now').value.key ==>
              WeeklyBucket(lang, now).value.ttl == WeeklyBucket(lang', now').value.ttl
  {
    IsoYearFits(now);
    IsoYearFits(now');
    if WeeklyBucket(lang, now).value.key == WeeklyBucket(lang', now').value.key {
      WeeklyKeyInjective(lang, IsoCalendar(now.date), lang', IsoCalendar(now'.date));
    }
  }

  lemma MonthlyKeyTtl(lang: string, now: Instant, lang': string, now': Instant)
    requires IsInstant(now) && IsInstant(now')
    requires MonthlyBucket(lang, now).Some? && MonthlyBucket(lang', now').Some?
    ensures MonthlyBucket(lang, now).value.key == MonthlyBucket(lang', now').value.key ==>
              MonthlyBucket(lang, now).value.ttl == MonthlyBucket(lang', now').value.ttl
  {
    if MonthlyBucket(lang, now).value.key == MonthlyBucket(lang', now').value.key {
      MonthlyKeyInjective(lang, Month(now.date.year, now.date.month), lang', Month(now'.date.year, now'.date.month));
    }
  }

  /** The expiry is determined by the bucket: genuine writes to one item agree on it. */
  lemma TtlDetermined(v: Write, w: Write)
    requires Genuine(v) && Genuine(w) && v.key.0 == w.key.0
    ensures v.ttl == w.ttl
  {
    var lang, now, user :| IsInstant(now) && WrittenAt(v, lang, now, user);
    var lang', now', user' :| IsInstant(now') && WrittenAt(w, lang', now', user');
    var week, week' := WeeklyBucket(lang, now), WeeklyBucket(lang', now');
    var month, month' := MonthlyBucket(lang, now), MonthlyBucket(lang', now');
    if week.Some? && v == WriteTo(week.value, user, v.amount) {
      if week'.Some? && w == WriteTo(week'.value, user', w.amount) {
        PrefixSplit("BUCKET#", week.value.key, week'.value.key);
        WeeklyKeyTtl(lang, now, lang', now');
      } else {
        WeeklyNeverMonthly(lang, now, lang', now');
      }
    } else if week'.Some? && w == WriteTo(week'.value, user', w.amount) {
      WeeklyNeverMonthly(lang', now', lang, now);
    } else {
      PrefixSplit("BUCKET#", month.value.key, month'.value.key);
      MonthlyKeyTtl(lang, now, lang', now');
    }
  }

  lemma PutsCommute(items: Items, v: Write, w: Write)
    requires v.key == w.key ==> v.ttl == w.ttl
    ensures Put(Put(items, v), w) == Put(Put(items, w), v)
  {
  }

  /** A write may be made first instead of after a run of others. */
  lemma {:induction false} PutFirst(items: Items, ws: seq<Write>, w: Write)
    requires Genuine(w) && forall v :: v in ws ==> Genuine(v)
    ensures PutAll(items, ws + [w]) == PutAll(Put(items, w), ws)
    decreases |ws|
  {
    if ws == [] {
      assert ws + [w] == [w] && [w][1..] == [];
    } else {
      assert (ws + [w])[1..] == ws[1..] + [w];
      PutFirst(Put(items, ws[0]), ws[1..], w);
      if ws[0].key == w.key { TtlDetermined(ws[0], w); }
      PutsCommute(items, ws[0], w);
    }
  }

  lemma {:induction false} PutAllConcat(items: Items, vs: seq<Write>, ws: seq<Write>)
    ensures PutAll(items, vs + ws) == PutAll(PutAll(items, vs), ws)
    decreases |vs|
  {
    if vs == [] {
      assert vs + ws == ws;
    } else {
      assert (vs + ws)[1..] == vs[1..] + ws;
      PutAllConcat(Put(items, vs[0]), vs[1..], ws);
    }
  }

  lemma {:induction false} MoveToFront(items: Items, ws: seq<Write>, i: nat)
    requires i < |ws| && forall w :: w in ws ==> Genuine(w)
    ensures PutAll(items, ws) == PutAll(Put(items, ws[i]), ws[..i] + ws[i + 1..])
  {
    assert ws == (ws[..i] + [ws[i]]) + ws[i + 1..];
    PutAllConcat(items, ws[..i] + [ws[i]], ws[i + 1..]);
    PutFirst(items, ws[..i], ws[i]);
    PutAllConcat(Put(items, ws[i]), ws[..i], ws[i + 1..]);
  }

  lemma RemoveOne(vs: seq<Write>, ws: seq<Write>, i: nat)
    requires vs != [] && i < |ws| && ws[i] == vs[0] && multiset(vs) == multiset(ws)
    ensures multiset(vs[1..]) == multiset(ws[..i] + ws[i + 1..])
  {
    assert vs == [vs[0]] + vs[1..];
    assert ws == ws[..i] + [ws[i]] + ws[i + 1..];
    assert multiset(vs[1..]) == multiset(vs) - multiset{vs[0]};
  }

  /** Any order of the same successful writes gives the same ledger. */
  lemma {:induction false} Confluence(items: Items, vs: seq<Write>, ws: seq<Write>)
    requires multiset(vs) == multiset(ws) && forall w :: w in multiset(ws) ==> Genuine(w)
    ensures PutAll(items, vs) == PutAll(items, ws)
    decreases |vs|
  {
    if vs == [] {
      assert |multiset(ws)| == 0;
    } else {
      assert vs[0] in multiset(ws);
      var i :| 0 <= i < |ws| && ws[i] == vs[0];
      MoveToFront(items, ws, i);
      RemoveOne(vs, ws, i);
      forall w | w in multiset(ws[..i] + ws[i + 1..]) ensures Genuine(w) { assert w in multiset(ws); }
      Confluence(Put(items, vs[0]), vs[1..], ws[..i] + ws[i + 1..]);
    }
  }

  // ---- Conservation ----

  ghost predicate IsWeeklyItem(k: Key, lang: string, user: string) {
    k.1 == SortKey(user) && exists w :: FourDigitWeek(w) && k.0 == PartitionKey(WeeklyKey(lang, w))
  }

  ghost predicate IsMonthlyItem(k: Key, lang: string, user: string) {
    k.1 == SortKey(user) && exists m :: FourDigitMonth(m) && k.0 == PartitionKey(MonthlyKey(lang, m))
  }

  /** The XP held by the items of `items` whose keys are in `keys`. */
  ghost function Total(items: Items, keys: iset<Key>): int
    decreases |items|
  {
    if items == map[] then 0
    else
      var k :| k in items;
      (if k in keys then items[k].xp else 0) + Total(items - {k}, keys)
  }

  lemma {:induction false} TotalWithout(items: Items, keys: iset<Key>, k: Key)
    requires k in items
    ensures Total(items, keys) == (if k in keys then items[k].xp else 0) + Total(items - {k}, keys)
    decreases |items|
  {
    var j :| j in items && Total(items, keys) == (if j in keys then items[j].xp else 0) + Total(items - {j}, keys);
    if j != k {
      TotalWithout(items - {j}, keys, k);
      TotalWithout(items - {k}, keys, j);
      assert items - {j} - {k} == items - {k} - {j};
    }
  }

  /** A write adds its amount to the totals its key belongs to, and to no other. */
  lemma {:induction false} TotalPut(items: Items, keys: iset<Key>, w: Write)
    ensures Total(Put(items, w), keys) == Total(items, keys) + if w.key in keys then w.amount else 0
  {
    TotalWithout(Put(items, w), keys, w.key);
    assert Put(items, w) - {w.key} == items - {w.key};
    if w.key in items {
      TotalWithout(items, keys, w.key);
    } else {
      assert items - {w.key} == items;
    }
  }

  /** One processing of an event against the table. */
  datatype AnyAttempt = Attempt(event: Event, now: Instant, answers: Answers)

  type Attempt = a: AnyAttempt | a.event.XpAwarded? && IsInstant(a.now)
    witness Attempt(XpAwarded("", 0, Lesson, None, false), Instant(Date(1, 1, 1), 0, 0), Answers(true, true))

  ghost function AfterAttempts(items: Items, attempts: seq<Attempt>): Items
  {
    if attempts == [] then items
    else
      var init, last := attempts[..|attempts| - 1], attempts[|attempts| - 1];
      PutAll(AfterAttempts(items, init), Performed(Plan(last.event, last.now), last.answers))
  }

  // ---- Confluence of attempts ----

  /** The writes of the attempts that took hold, attempt by attempt. */
  ghost function AllWrites(attempts: seq<Attempt>): seq<Write>
  {
    if attempts == [] then []
    else
      var last := attempts[|attempts| - 1];
      AllWrites(attempts[..|attempts| - 1]) + Performed(Plan(last.event, last.now), last.answers)
  }

  lemma PerformedAreGenuine(a: Attempt)
    ensures forall w :: w in Performed(Plan(a.event, a.now), a.answers) ==> Genuine(w)
  {
    if Plan(a.event, a.now).Some? { PlanIsGenuine(a.event, a.now); }
  }

  lemma {:induction false} AttemptsAreWrites(items: Items, attempts: seq<Attempt>)
    ensures AfterAttempts(items, attempts) == PutAll(items, AllWrites(attempts))
    ensures forall w :: w in AllWrites(attempts) ==> Genuine(w)
    decreases |attempts|
  {
    if attempts == [] {
    } else {
      var init, last := attempts[..|attempts| - 1], attempts[|attempts| - 1];
      AttemptsAreWrites(items, init);
      PerformedAreGenuine(last);
      PutAllConcat(items, AllWrites(init), Performed(Plan(last.event, last.now), last.answers));
    }
  }

  /** The successful writes of any attempts, interleaved in any order whatever, leave the table that
      the attempts leave one after the other. */
  lemma {:induction false} AttemptsConfluent(items: Items, attempts: seq<Attempt>, ws: seq<Write>)
    requires multiset(ws) == multiset(AllWrites(attempts))
    ensures PutAll(items, ws) == AfterAttempts(items, attempts)
  {
    AttemptsAreWrites(items, attempts);
    forall w | w in multiset(AllWrites(attempts)) ensures Genuine(w) { assert w in AllWrites(attempts); }
    Confluence(items, ws, AllWrites(attempts));
  }

  // ---- Conservation of attempts ----

  /** The amount an attempt leaves in the weekly item alone: its own, when the table took the
      weekly write and refused the monthly one. */
  ghost function Stranded(a: Attempt, lang: string, user: string): int
  {
    if Ranked(a.event) && Plan(a.event, a.now).Some? && Language(a.event) == lang && a.event.userId == user
       && a.answers.weekly && !a.answers.monthly
    then a.event.amount else 0
  }

  ghost function AllStranded(attempts: seq<Attempt>, lang: string, user: string): int
  {
    if attempts == [] then 0
    else AllStranded(attempts[..|attempts| - 1], lang, user) + Stranded(attempts[|attempts| - 1], lang, user)
  }

  lemma {:induction false} OneMoreStranded(attempts: seq<Attempt>, a: Attempt, lang: string, user: string)
    ensures AllStranded(attempts + [a], lang, user) == AllStranded(attempts, lang, user) + Stranded(a, lang, user)
  {
    assert (attempts + [a])[..|attempts|] == attempts;
  }

  ghost function WeeklyItems(lang: string, user: string): iset<Key> {
    iset k: Key | IsWeeklyItem(k, lang, user)
  }

  ghost function MonthlyItems(lang: string, user: string): iset<Key> {
    iset k: Key | IsMonthlyItem(k, lang, user)
  }

  /** A planned write belongs to the weekly or monthly items of its own language and user only. */
  lemma PlanMembership(e: Event, now: Instant, lang: string, user: string)
    requires e.XpAwarded? && IsInstant(now) && Plan(e, now).Some? && Plan(e, now).value != []
    ensures var ws, mine := Plan(e, now).value, Language(e) == lang && e.userId == user;
            && |ws| == 2
            && (ws[0].key in WeeklyItems(lang, user) <==> mine) && ws[0].key !in MonthlyItems(lang, user)
            && (ws[1].key in MonthlyItems(lang, user) <==> mine) && ws[1].key !in WeeklyItems(lang, user)
  {
    WeeklyMembership(e, now, lang, user);
    MonthlyMembership(e, now, lang, user);
  }

  lemma WeeklyMembership(e: Event, now: Instant, lang: string, user: string)
    requires e.XpAwarded? && IsInstant(now) && WeeklyBucket(Language(e), now).Some?
    ensures var k := WriteTo(WeeklyBucket(Language(e), now).value, e.userId, e.amount).key;
            && (IsWeeklyItem(k, lang, user) <==> Language(e) == lang && e.userId == user)
            && !IsMonthlyItem(k, lang, user)
  {
    var mine, week := Language(e), IsoCalendar(now.date);
    IsoYearFits(now);
    PrefixSplit("USER#", e.userId, user);
    forall w | FourDigitWeek(w) && PartitionKey(WeeklyKey(mine, week)) == PartitionKey(WeeklyKey(lang, w))
      ensures mine == lang
    {
      PrefixSplit("BUCKET#", WeeklyKey(mine, week), WeeklyKey(lang, w));
      WeeklyKeyInjective(mine, week, lang, w);
    }
    forall m | FourDigitMonth(m) ensures PartitionKey(WeeklyKey(mine, week)) != PartitionKey(MonthlyKey(lang, m)) {
      PrefixSplit("BUCKET#", WeeklyKey(mine, week), MonthlyKey(lang, m));
      WeeklyKeyNotMonthly(mine, week, lang, m);
    }
  }

  lemma MonthlyMembership(e: Event, now: Instant, lang: string, user: string)
    requires e.XpAwarded? && IsInstant(now) && MonthlyBucket(Language(e), now).Some?
    ensures var k := WriteTo(MonthlyBucket(Language(e), now).value, e.userId, e.amount).key;
            && (IsMonthlyItem(k, lang, user) <==> Language(e) == lang && e.userId == user)
            && !IsWeeklyItem(k, lang, user)
  {
    var mine, month := Language(e), Month(now.date.year, now.date.month);
    PrefixSplit("USER#", e.userId, user);
    forall m | FourDigitMonth(m) && PartitionKey(MonthlyKey(mine, month)) == PartitionKey(MonthlyKey(lang, m))
      ensures mine == lang
    {
      PrefixSplit("BUCKET#", MonthlyKey(mine, month), MonthlyKey(lang, m));
      MonthlyKeyInjective(mine, month, lang, m);
    }
    forall w | FourDigitWeek(w) ensures PartitionKey(MonthlyKey(mine, month)) != PartitionKey(WeeklyKey(lang, w)) {
      PrefixSplit("BUCKET#", MonthlyKey(mine, month), WeeklyKey(lang, w));
      WeeklyKeyNotMonthly(lang, w, mine, month);
    }
  }

  lemma {:induction false} AttemptConserves(items: Items, a: Attempt, lang: string, user: string)
    ensures var after := PutAll(items, Performed(Plan(a.event, a.now), a.answers));
            Total(after, WeeklyItems(lang, user)) - Total(after, MonthlyItems(lang, user)) ==
            Total(items, WeeklyItems(lang, user)) - Total(items, MonthlyItems(lang, user)) + Stranded(a, lang, user)
  {
    var plan := Plan(a.event, a.now);
    if plan.Some? && plan.value != [] && a.answers.weekly {
      PlanMembership(a.event, a.now, lang, user);
      var v, w := plan.value[0], plan.value[1];
      PutAllShort(items, v, w);
      assert plan.value == [v, w] && plan.value[..1] == [v];
      TotalPut(items, WeeklyItems(lang, user), v);
      TotalPut(items, MonthlyItems(lang, user), v);
      TotalPut(Put(items, v), WeeklyItems(lang, user), w);
      TotalPut(Put(items, v), MonthlyItems(lang, user), w);
    }
  }

  /** Conservation: for every language and user, the weekly items together exceed the monthly
      items by exactly the amounts of the attempts that failed between the two writes. */
  lemma {:induction false} Conservation(attempts: seq<Attempt>, lang: string, user: string)
    ensures var items := AfterAttempts(map[], attempts);
            && Total(items, WeeklyItems(lang, user)) - Total(items, MonthlyItems(lang, user)) ==
               AllStranded(attempts, lang, user)
            && AllStranded(attempts, lang, user) >= 0
  {
    if attempts == [] {
    } else {
      var init, last := attempts[..|attempts| - 1], attempts[|attempts| - 1];
      Conservation(init, lang, user);
      AttemptConserves(AfterAttempts(map[], init), last, lang, user);
    }
  }
}
