/** Moving messages from the dead-letter queue back to the main queue (scripts/dlq-replay.py). */
module Replay {
  import opened Prelude
  import Buckets

  datatype Msg = Msg(id: string, body: string, handle: string)

  /** What a pass does to the queues. */
  datatype Effect = Send(body: string) | Delete(handle: string)

  /** How many messages each receive of a pass is willing to serve. */
  datatype Chunks = Chunks(sizes: seq<nat>, rest: nat) {
    function At(k: nat): nat { if k < |sizes| then sizes[k] else rest }

    /** A receive comes back empty only when there is nothing left to serve. */
    predicate EmptyMeansDrained() { rest >= 1 && forall k :: 0 <= k < |sizes| ==> sizes[k] >= 1 }
  }

  /** A receive: how much of the stream had been served before it, and how many messages it asked for. */
  datatype Request = Request(at: nat, limit: int)

  const RECEIVE_BATCH := 10
  const PREVIEW_LIMIT := 20

  /** The SQS client during one pass. `stream` is every message the pass could be served, in
      order, repeats included; each receive takes the next few. */
  class Sqs {
    const stream: seq<Msg>
    const chunks: Chunks
    var position: nat
    var requests: seq<Request>
    var effects: seq<Effect>

    constructor (stream: seq<Msg>, chunks: Chunks)
      ensures this.stream == stream && this.chunks == chunks
      ensures position == 0 && requests == [] && effects == []
    {
      this.stream, this.chunks := stream, chunks;
      position, requests, effects := 0, [], [];
    }

    ghost predicate Valid()
      reads this
    {
      position <= |stream|
    }

    method ReceiveMessage(limit: nat) returns (batch: seq<Msg>)
      requires Valid()
      modifies this`position, this`requests
      ensures Valid() && requests == old(requests) + [Request(old(position), limit)]
      ensures position == old(position) + |batch| && batch == stream[old(position)..position]
      ensures |batch| == Min(limit, Min(chunks.At(|old(requests)|), |stream| - old(position)))
    {
      var n := Min(limit, Min(chunks.At(|requests|), |stream| - position));
      requests := requests + [Request(position, limit)];
      batch := stream[position..position + n];
      position := position + n;
    }

    method SendMessage(body: string)
      modifies this`effects
      ensures effects == old(effects) + [Send(body)]
    {
      effects := effects + [Send(body)];
    }

    method DeleteMessage(handle: string)
      modifies this`effects
      ensures effects == old(effects) + [Delete(handle)]
    {
      effects := effects + [Delete(handle)];
    }
  }

  predicate Contains(hay: string, needle: string) {
    exists i :: 0 <= i <= |hay| - |needle| && OccursAt(hay, needle, i)
  }

  predicate OccursAt(hay: string, needle: string, i: int)
    requires 0 <= i <= |hay| - |needle|
  {
    hay[i..i + |needle|] == needle
  }

  predicate Matches(body: string, needle: Option<string>) { needle.None? || Contains(body, needle.value) }

  /** The messages the filter lets through, in order. */
  function Select(msgs: seq<Msg>, needle: Option<string>): seq<Msg> {
    if msgs == [] then []
    else Select(msgs[..|msgs| - 1], needle) +
         if Matches(msgs[|msgs| - 1].body, needle) then [msgs[|msgs| - 1]] else []
  }

  /** Each message sent to the destination, and only then deleted. */
  function Moves(msgs: seq<Msg>): seq<Effect> {
    if msgs == [] then []
    else Moves(msgs[..|msgs| - 1]) + [Send(msgs[|msgs| - 1].body), Delete(msgs[|msgs| - 1].handle)]
  }

  datatype Preview = Preview(id: string, body: string)

  function Previews(msgs: seq<Msg>): seq<Preview> {
    seq(|msgs|, i requires 0 <= i < |msgs| => Preview(msgs[i].id, msgs[i].body))
  }

  datatype ReplayResult = ReplayResult(scanned: nat, matched: nat, moved: nat, skipped: int, previews: seq<Preview>,
                                       dryRun: bool)

  /** What a pass reports after receiving `served`. */
  function Report(served: seq<Msg>, needle: Option<string>, apply: bool, previewLimit: nat): ReplayResult {
    var matches := Select(served, needle);
    ReplayResult(|served|, |matches|, if apply then |matches| else 0, |served| - |matches|,
                 Previews(matches[..Min(|matches|, previewLimit)]), !apply)
  }

  /** A receive asked for as many messages as may still match, and for no more than 10. */
  ghost predicate AsksFor(r: Request, stream: seq<Msg>, start: nat, max: int, needle: Option<string>) {
    start <= r.at <= |stream| && r.limit == Min(10, max - |Select(stream[start..r.at], needle)|) >= 1
  }

  /** So did every receive made since `before`. */
  ghost predicate AskedRightly(before: seq<Request>, requests: seq<Request>, stream: seq<Msg>, start: nat, max: int,
                               needle: Option<string>) {
    |before| <= |requests|
    && forall k :: |before| <= k < |requests| ==> AsksFor(requests[k], stream, start, max, needle)
  }

  lemma AskStep(before: seq<Request>, requests: seq<Request>, r: Request, stream: seq<Msg>, start: nat, max: int,
                needle: Option<string>)
    requires AskedRightly(before, requests, stream, start, max, needle) && AsksFor(r, stream, start, max, needle)
    ensures AskedRightly(before, requests + [r], stream, start, max, needle)
  {
  }

  /** `replay`. For any receive behaviour: every receive asks for what may still match and at most 10, no received
      message is abandoned, no more than the maximum match, and applying sends and then deletes
      each match in order. When an empty receive means drained, the pass ends short of the maximum
      only with everything served. */
  method Replay(sqs: Sqs, max: int, needle: Option<string>, apply: bool, previewLimit: nat)
    returns (result: ReplayResult)
    requires sqs.Valid()
    modifies sqs
    ensures sqs.Valid() && sqs.position >= old(sqs.position)
    ensures var served := sqs.stream[old(sqs.position)..sqs.position];
            && result == Report(served, needle, apply, previewLimit)
            && sqs.effects == After(old(sqs.effects), served, needle, apply)
    ensures result.matched <= Max(0, max)
    ensures AskedRightly(old(sqs.requests), sqs.requests, sqs.stream, old(sqs.position), max, needle)
    ensures sqs.chunks.EmptyMeansDrained() && result.matched < max ==> sqs.position == |sqs.stream|
  {
    result := ReplayResult(0, 0, 0, 0, [], !apply);
    ghost var start := sqs.position;
    EmptyReport(sqs.stream, start, sqs.effects, needle, apply, previewLimit);
    while result.matched < max
      invariant sqs.Valid() && start <= sqs.position && result.matched <= Max(0, max)
      invariant result == Report(sqs.stream[start..sqs.position], needle, apply, previewLimit)
      invariant sqs.effects == After(old(sqs.effects), sqs.stream[start..sqs.position], needle, apply)
      invariant AskedRightly(old(sqs.requests), sqs.requests, sqs.stream, start, max, needle)
      decreases |sqs.stream| - sqs.position
    {
      var remaining := max - result.matched;
      ghost var from := sqs.position;
      AskStep(old(sqs.requests), sqs.requests, Request(from, Min(RECEIVE_BATCH, remaining)), sqs.stream, start, max,
              needle);
      var messages := sqs.ReceiveMessage(Min(RECEIVE_BATCH, remaining));
      if |messages| == 0 {
        break;
      }
      ServeStep(sqs.stream, start, from, sqs.position, old(sqs.effects), needle, apply);
      result := HandleMessages(sqs, messages, result, max, needle, apply, previewLimit, sqs.stream[start..from]);
    }
  }

  lemma EmptyReport(stream: seq<Msg>, start: nat, effects: seq<Effect>, needle: Option<string>, apply: bool,
                    previewLimit: nat)
    requires start <= |stream|
    ensures Report(stream[start..start], needle, apply, previewLimit) == ReplayResult(0, 0, 0, 0, [], !apply)
    ensures After(effects, stream[start..start], needle, apply) == effects
  {
    assert stream[start..start] == [];
  }

  lemma ServeStep(stream: seq<Msg>, start: nat, from: nat, to: nat, effects: seq<Effect>, needle: Option<string>,
                  apply: bool)
    requires start <= from <= to <= |stream|
    ensures stream[start..to] == stream[start..from] + stream[from..to]
    ensures After(effects, stream[start..to], needle, apply) ==
            After(After(effects, stream[start..from], needle, apply), stream[from..to], needle, apply)
  {
    assert stream[start..to] == stream[start..from] + stream[from..to];
    SelectConcat(stream[start..from], stream[from..to], needle);
    MovesConcat(Select(stream[start..from], needle), Select(stream[from..to], needle));
  }

  /** The inner loop over one receive. Its break never abandons a received message, because no
      more were asked for than may still match. */
  method HandleMessages(sqs: Sqs, messages: seq<Msg>, before: ReplayResult, max: int, needle: Option<string>,
                        apply: bool, previewLimit: nat, ghost served: seq<Msg>)
    returns (result: ReplayResult)
    requires before == Report(served, needle, apply, previewLimit) && before.matched + |messages| <= max
    modifies sqs`effects
    ensures result == Report(served + messages, needle, apply, previewLimit) && result.matched <= max
    ensures sqs.effects == After(old(sqs.effects), messages, needle, apply)
  {
    result := before;
    NothingYet(served, messages, sqs.effects, needle, apply);
    for i := 0 to |messages|
      invariant result.matched <= before.matched + i
      invariant result == Report(served + messages[..i], needle, apply, previewLimit)
      invariant sqs.effects == After(old(sqs.effects), messages[..i], needle, apply)
    {
      OneMessage(served, messages, i, old(sqs.effects), needle, apply, previewLimit);
      result := HandleMessage(sqs, messages[i], result, needle, apply, previewLimit);
      if result.matched >= max {
        assert i + 1 == |messages|;
        break;
      }
    }
    assert messages[..|messages|] == messages;
  }

  /** The effects after a pass has handled some more messages. */
  function After(effects: seq<Effect>, served: seq<Msg>, needle: Option<string>, apply: bool): seq<Effect> {
    effects + if apply then Moves(Select(served, needle)) else []
  }

  /** The effects of handling one message. */
  function EffectsOf(msg: Msg, needle: Option<string>, apply: bool): seq<Effect> {
    if apply && Matches(msg.body, needle) then [Send(msg.body), Delete(msg.handle)] else []
  }

  lemma NothingYet(served: seq<Msg>, messages: seq<Msg>, effects: seq<Effect>, needle: Option<string>, apply: bool)
    ensures served + messages[..0] == served && After(effects, messages[..0], needle, apply) == effects
  {
    assert messages[..0] == [];
  }

  lemma OneMessage(served: seq<Msg>, messages: seq<Msg>, i: nat, effects: seq<Effect>, needle: Option<string>,
                   apply: bool, previewLimit: nat)
    requires i < |messages|
    ensures Report(served + messages[..i + 1], needle, apply, previewLimit) ==
            Counted(Report(served + messages[..i], needle, apply, previewLimit),
                    messages[i], needle, apply, previewLimit)
    ensures After(effects, messages[..i + 1], needle, apply) ==
            After(effects, messages[..i], needle, apply) + EffectsOf(messages[i], needle, apply)
  {
    assert messages[..i + 1] == messages[..i] + [messages[i]];
    assert served + messages[..i + 1] == (served + messages[..i]) + [messages[i]];
    ReportStep(served + messages[..i], messages[i], needle, apply, previewLimit);
    MovesStep(messages[..i], messages[i], needle);
    Regroup(effects, Moves(Select(messages[..i], needle)), EffectsOf(messages[i], needle, apply));
  }

  lemma Regroup(a: seq<Effect>, b: seq<Effect>, c: seq<Effect>)
    ensures a + (b + c) == (a + b) + c && a + [] == a
  {
  }

  /** One received message. */
  method HandleMessage(sqs: Sqs, msg: Msg, before: ReplayResult, needle: Option<string>, apply: bool, previewLimit: nat)
    returns (result: ReplayResult)
    modifies sqs`effects
    ensures result == Counted(before, msg, needle, apply, previewLimit)
    ensures sqs.effects == old(sqs.effects) + EffectsOf(msg, needle, apply)
  {
    result := before.(scanned := before.scanned + 1);
    if !Matches(msg.body, needle) {
      result := result.(skipped := result.skipped + 1);
      return;
    }
    result := result.(matched := result.matched + 1);
    if |result.previews| < previewLimit {
      result := result.(previews := result.previews + [Preview(msg.id, msg.body)]);
    }
    if apply {
      sqs.SendMessage(msg.body);
      sqs.DeleteMessage(msg.handle);
      result := result.(moved := result.moved + 1);
    }
  }

  /** A report with one more message counted in. */
  function Counted(r: ReplayResult, msg: Msg, needle: Option<string>, apply: bool, previewLimit: nat): ReplayResult {
    if !Matches(msg.body, needle) then r.(scanned := r.scanned + 1, skipped := r.skipped + 1)
    else
      r.(scanned := r.scanned + 1, matched := r.matched + 1, moved := r.moved + if apply then 1 else 0,
         previews := r.previews + if |r.previews| < previewLimit then [Preview(msg.id, msg.body)] else [])
  }

  lemma {:induction false} SelectBound(msgs: seq<Msg>, needle: Option<string>)
    ensures |Select(msgs, needle)| <= |msgs|
    decreases |msgs|
  {
    if msgs == [] {
    } else {
      SelectBound(msgs[..|msgs| - 1], needle);
    }
  }

  lemma {:induction false} SelectStep(served: seq<Msg>, msg: Msg, needle: Option<string>)
    ensures Select(served + [msg], needle) == Select(served, needle) + if Matches(msg.body, needle) then [msg] else []
  {
    assert (served + [msg])[..|served|] == served;
  }

  lemma ReportStep(served: seq<Msg>, msg: Msg, needle: Option<string>, apply: bool, previewLimit: nat)
    ensures Report(served + [msg], needle, apply, previewLimit) ==
            Counted(Report(served, needle, apply, previewLimit), msg, needle, apply, previewLimit)
  {
    SelectStep(served, msg, needle);
    PreviewsStep(Select(served, needle), msg, previewLimit);
  }

  /** The first `limit` previews, with one more match. */
  lemma PreviewsStep(matches: seq<Msg>, msg: Msg, limit: nat)
    ensures var before := Previews(matches[..Min(|matches|, limit)]);
            Previews((matches + [msg])[..Min(|matches| + 1, limit)]) ==
            before + if |before| < limit then [Preview(msg.id, msg.body)] else []
  {
    if |matches| < limit {
      assert matches[..|matches|] == matches && (matches + [msg])[..|matches| + 1] == matches + [msg];
    } else {
      assert (matches + [msg])[..limit] == matches[..limit];
    }
  }

  lemma {:induction false} MovesStep(served: seq<Msg>, msg: Msg, needle: Option<string>)
    ensures Moves(Select(served + [msg], needle)) ==
            Moves(Select(served, needle)) +
            if Matches(msg.body, needle) then [Send(msg.body), Delete(msg.handle)] else []
  {
    SelectStep(served, msg, needle);
    if Matches(msg.body, needle) {
      MovesAppend(Select(served, needle), msg);
    } else {
      assert Select(served, needle) + [] == Select(served, needle);
    }
  }

  lemma {:induction false} MovesAppend(msgs: seq<Msg>, m: Msg)
    ensures Moves(msgs + [m]) == Moves(msgs) + [Send(m.body), Delete(m.handle)]
  {
    assert (msgs + [m])[..|msgs|] == msgs;
  }

  lemma {:induction false} MovesConcat(first: seq<Msg>, second: seq<Msg>)
    ensures Moves(first + second) == Moves(first) + Moves(second)
    decreases |second|
  {
    if second == [] {
      assert first + second == first;
    } else {
      var init := second[..|second| - 1];
      assert (first + second)[..|first + second| - 1] == first + init;
      MovesConcat(first, init);
    }
  }

  lemma {:induction false} SelectConcat(first: seq<Msg>, second: seq<Msg>, needle: Option<string>)
    ensures Select(first + second, needle) == Select(first, needle) + Select(second, needle)
    decreases |second|
  {
    if second == [] {
      assert first + second == first;
    } else {
      var init, last := second[..|second| - 1], second[|second| - 1];
      assert first + second == (first + init) + [last];
      SelectConcat(first, init, needle);
      SelectStep(first + init, last, needle);
      SelectStep(init, last, needle);
      assert second == init + [last];
    }
  }

  /** The prediction: a pass over a stream it ends short of the maximum only by serving it all
      matches the smaller of the maximum and the number of matching messages. */
  lemma {:induction false} PassCount(stream: seq<Msg>, end: nat, needle: Option<string>, max: int)
    requires end <= |stream|
    requires |Select(stream[..end], needle)| <= Max(0, max)
    requires |Select(stream[..end], needle)| < max ==> end == |stream|
    ensures |Select(stream[..end], needle)| == Min(Max(0, max), |Select(stream, needle)|)
  {
    assert stream == stream[..end] + stream[end..];
    SelectConcat(stream[..end], stream[end..], needle);
  }

  /** What a report says about the messages served: every one was scanned, and either matched or
      was skipped; the previews are the first matches. */
  lemma {:induction false} Accounting(served: seq<Msg>, needle: Option<string>, apply: bool, previewLimit: nat)
    ensures var r := Report(served, needle, apply, previewLimit);
            && r.scanned == |served| == r.matched + r.skipped
            && r.moved == (if apply then r.matched else 0)
            && |r.previews| == Min(r.matched, previewLimit)
            && (forall k :: 0 <= k < |r.previews| ==>
                  r.previews[k] == Preview(Select(served, needle)[k].id, Select(served, needle)[k].body))
            && r.skipped >= 0 && r.dryRun == !apply
  {
    SelectBound(served, needle);
  }

  /** A text contains another when it is that other with something before and something after. */
  lemma ContainsExact(hay: string, needle: string)
    ensures Contains(hay, needle) <==> exists a, b :: hay == a + needle + b
  {
    if Contains(hay, needle) {
      var i :| 0 <= i <= |hay| - |needle| && OccursAt(hay, needle, i);
      assert hay == hay[..i] + needle + hay[i + |needle|..];
    }
    if a, b :| hay == a + needle + b {
      assert OccursAt(hay, needle, |a|);
    }
  }

  /** The filter lets a body through when there is no filter, or the body contains it. */
  ghost predicate LetThrough(body: string, needle: Option<string>) {
    needle.None? || exists a, b :: body == a + needle.value + b
  }

  lemma MatchesExact(body: string, needle: Option<string>)
    ensures Matches(body, needle) <==> LetThrough(body, needle)
  {
    if needle.Some? { ContainsExact(body, needle.value); }
  }

  /** The selection keeps exactly the matching messages, with their multiplicity. */
  lemma {:induction false} SelectExact(served: seq<Msg>, needle: Option<string>, m: Msg)
    ensures multiset(Select(served, needle))[m] == if LetThrough(m.body, needle) then multiset(served)[m] else 0
    decreases |served|
  {
    MatchesExact(m.body, needle);
    if served == [] {
    } else {
      SelectExact(served[..|served| - 1], needle, m);
      assert served == served[..|served| - 1] + [served[|served| - 1]];
    }
  }

  /** It keeps them in order: the places it takes are increasing, and are those of all that match. */
  lemma {:induction false} SelectInOrder(served: seq<Msg>, needle: Option<string>) returns (at: seq<nat>)
    ensures |at| == |Select(served, needle)| && (forall i, j :: 0 <= i < j < |at| ==> at[i] < at[j])
    ensures forall k :: 0 <= k < |at| ==> at[k] < |served| && served[at[k]] == Select(served, needle)[k]
    ensures forall i :: 0 <= i < |served| ==> (i in at <==> LetThrough(served[i].body, needle))
    decreases |served|
  {
    if |served| == 0 {
      return [];
    } else {
      var n := |served| - 1;
      at := SelectInOrder(served[..n], needle);
      MatchesExact(served[n].body, needle);
      assert n !in at;
      if Matches(served[n].body, needle) { at := at + [n]; }
    }
  }

  /** Each message is sent, and then deleted, in order. */
  lemma {:induction false} MovesExact(msgs: seq<Msg>, k: nat)
    requires k < |msgs|
    ensures |Moves(msgs)| == 2 * |msgs|
    ensures Moves(msgs)[2 * k] == Send(msgs[k].body) && Moves(msgs)[2 * k + 1] == Delete(msgs[k].handle)
    decreases |msgs|
  {
    MovesLength(msgs);
    MovesLength(msgs[..|msgs| - 1]);
    if k < |msgs| - 1 { MovesExact(msgs[..|msgs| - 1], k); }
  }

  // ---- Crash safety ----

  /** The bodies sent, and the handles deleted, by a run of effects. */
  function Sent(effects: seq<Effect>): multiset<string> {
    if effects == [] then multiset{}
    else Sent(effects[..|effects| - 1]) +
         if effects[|effects| - 1].Send? then multiset{effects[|effects| - 1].body} else multiset{}
  }

  function Deleted(effects: seq<Effect>): seq<string> {
    if effects == [] then []
    else Deleted(effects[..|effects| - 1]) +
         if effects[|effects| - 1].Delete? then [effects[|effects| - 1].handle] else []
  }

  /** The bodies of deleted messages of a queue. */
  function Bodies(queue: map<string, string>, handles: seq<string>): multiset<string> {
    if handles == [] then multiset{}
    else Bodies(queue, handles[..|handles| - 1]) +
         if handles[|handles| - 1] in queue then multiset{queue[handles[|handles| - 1]]} else multiset{}
  }

  /** The messages come from the queue. */
  ghost predicate FromQueue(msgs: seq<Msg>, queue: map<string, string>) {
    forall i :: 0 <= i < |msgs| ==> msgs[i].handle in queue && queue[msgs[i].handle] == msgs[i].body
  }

  lemma {:induction false} MovesLength(msgs: seq<Msg>)
    ensures |Moves(msgs)| == 2 * |msgs|
  {
    if msgs == [] {
    } else {
      MovesLength(msgs[..|msgs| - 1]);
    }
  }

  /** Whole moves cut after an even or an odd number of effects. */
  lemma {:induction false} MovesPrefix(msgs: seq<Msg>, n: nat)
    requires n <= |msgs|
    ensures |Moves(msgs)| == 2 * |msgs|
    ensures Moves(msgs)[..2 * n] == Moves(msgs[..n])
    ensures n < |msgs| ==> Moves(msgs)[..2 * n + 1] == Moves(msgs[..n]) + [Send(msgs[n].body)]
    decreases |msgs|
  {
    MovesLength(msgs);
    if n == |msgs| {
      assert msgs[..n] == msgs && Moves(msgs)[..2 * n] == Moves(msgs);
    } else {
      var init := msgs[..|msgs| - 1];
      MovesLength(init);
      MovesPrefix(init, n);
      assert init[..n] == msgs[..n];
      assert Moves(msgs)[..2 * n] == Moves(init)[..2 * n];
      if n < |init| {
        assert Moves(msgs)[..2 * n + 1] == Moves(init)[..2 * n + 1];
      } else {
        assert init[..n] == init && Moves(init)[..2 * n] == Moves(init);
      }
    }
  }

  lemma {:induction false} EffectsStep(effects: seq<Effect>, e: Effect)
    ensures Sent(effects + [e]) == Sent(effects) + if e.Send? then multiset{e.body} else multiset{}
    ensures Deleted(effects + [e]) == Deleted(effects) + if e.Delete? then [e.handle] else []
  {
    assert (effects + [e])[..|effects|] == effects;
  }

  lemma {:induction false} BodiesStep(queue: map<string, string>, handles: seq<string>, h: string)
    ensures Bodies(queue, handles + [h]) ==
            Bodies(queue, handles) + if h in queue then multiset{queue[h]} else multiset{}
  {
    assert (handles + [h])[..|handles|] == handles;
  }

  /** One more move sends one body and deletes its message. */
  lemma {:induction false} MoveStep(effects: seq<Effect>, m: Msg, queue: map<string, string>)
    requires m.handle in queue && queue[m.handle] == m.body
    ensures var after := effects + [Send(m.body), Delete(m.handle)];
            && Sent(after) == Sent(effects) + multiset{m.body}
            && Deleted(after) == Deleted(effects) + [m.handle]
            && Bodies(queue, Deleted(after)) == Bodies(queue, Deleted(effects)) + multiset{m.body}
  {
    TwoEffects(effects, m);
    BodiesStep(queue, Deleted(effects), m.handle);
  }

  lemma {:induction false} TwoEffects(effects: seq<Effect>, m: Msg)
    ensures Sent(effects + [Send(m.body), Delete(m.handle)]) == Sent(effects) + multiset{m.body}
    ensures Deleted(effects + [Send(m.body), Delete(m.handle)]) == Deleted(effects) + [m.handle]
  {
    assert effects + [Send(m.body), Delete(m.handle)] == (effects + [Send(m.body)]) + [Delete(m.handle)];
    EffectsStep(effects, Send(m.body));
    EffectsStep(effects + [Send(m.body)], Delete(m.handle));
    assert Deleted(effects) + [] == Deleted(effects);
  }

  /** Whole moves send exactly what they delete. */
  lemma {:induction false} WholeMoves(msgs: seq<Msg>, queue: map<string, string>)
    requires FromQueue(msgs, queue)
    ensures Sent(Moves(msgs)) == Bodies(queue, Deleted(Moves(msgs)))
    ensures |Deleted(Moves(msgs))| == |Sent(Moves(msgs))|
    decreases |msgs|
  {
    if msgs == [] {
    } else {
      WholeMoves(msgs[..|msgs| - 1], queue);
      MoveStep(Moves(msgs[..|msgs| - 1]), msgs[|msgs| - 1], queue);
    }
  }

  /** A pass killed after any number of effects has lost nothing: everything it has deleted it
      has sent, body for body, sends exceed deletes by one at most, and so each message of the
      queue is still there or its body has been sent. At the end the two are equal. */
  lemma {:induction false} CrashSafe(msgs: seq<Msg>, queue: map<string, string>, k: nat)
    requires FromQueue(msgs, queue) && k <= |Moves(msgs)|
    ensures var done := Moves(msgs)[..k];
            && Bodies(queue, Deleted(done)) <= Sent(done)
            && |Deleted(done)| <= |Sent(done)| <= |Deleted(done)| + 1
            && (forall h :: h in queue ==> h !in Deleted(done) || queue[h] in Sent(done))
            && (k == |Moves(msgs)| ==> Bodies(queue, Deleted(done)) == Sent(done))
  {
    var done := Moves(msgs)[..k];
    MovesLength(msgs);
    CutMoves(msgs, queue, k / 2);
    assert k == 2 * (k / 2) || k == 2 * (k / 2) + 1;
    assert Covered(done, queue, if k == 2 * (k / 2) then 0 else 1);
    forall h | h in queue && h in Deleted(done) ensures queue[h] in Sent(done) {
      BodyOfDeleted(queue, Deleted(done), h);
    }
  }

  /** The sends of some effects cover their deletes, with `ahead` sends to spare. */
  ghost predicate Covered(effects: seq<Effect>, queue: map<string, string>, ahead: nat) {
    && Bodies(queue, Deleted(effects)) <= Sent(effects)
    && |Sent(effects)| == |Deleted(effects)| + ahead
    && (ahead == 0 ==> Bodies(queue, Deleted(effects)) == Sent(effects))
  }

  lemma OneSendAhead(effects: seq<Effect>, queue: map<string, string>, body: string)
    requires Covered(effects, queue, 0)
    ensures Covered(effects + [Send(body)], queue, 1)
  {
    EffectsStep(effects, Send(body));
    assert Deleted(effects) + [] == Deleted(effects);
  }

  lemma {:induction false} CutMoves(msgs: seq<Msg>, queue: map<string, string>, n: nat)
    requires FromQueue(msgs, queue) && n <= |msgs| && |Moves(msgs)| == 2 * |msgs|
    ensures Covered(Moves(msgs)[..2 * n], queue, 0)
    ensures n < |msgs| ==> Covered(Moves(msgs)[..2 * n + 1], queue, 1)
  {
    MovesPrefix(msgs, n);
    WholeMoves(msgs[..n], queue);
    if n < |msgs| { OneSendAhead(Moves(msgs[..n]), queue, msgs[n].body); }
  }

  lemma {:induction false} BodyOfDeleted(queue: map<string, string>, handles: seq<string>, h: string)
    requires h in handles && h in queue
    ensures queue[h] in Bodies(queue, handles)
    decreases |handles|
  {
    if h != handles[|handles| - 1] { BodyOfDeleted(queue, handles[..|handles| - 1], h); }
  }

  // ---- Preview, then apply ----

  lemma {:induction false} SelectPermutation(msgs: seq<Msg>, others: seq<Msg>, needle: Option<string>)
    requires multiset(msgs) == multiset(others)
    ensures multiset(Select(msgs, needle)) == multiset(Select(others, needle))
    ensures |Select(msgs, needle)| == |Select(others, needle)|
  {
    forall m: Msg ensures multiset(Select(msgs, needle))[m] == multiset(Select(others, needle))[m] {
      SelectExact(msgs, needle, m);
      SelectExact(others, needle, m);
    }
    assert |Select(msgs, needle)| == |multiset(Select(msgs, needle))|;
    assert |Select(others, needle)| == |multiset(Select(others, needle))|;
  }

  /** Two passes over the same queue, each serving each message once and until drained. */
  ghost predicate SamePass(one: Sqs, other: Sqs) {
    && multiset(one.stream) == multiset(other.stream)
    && one.chunks.EmptyMeansDrained() && other.chunks.EmptyMeansDrained()
  }

  datatype Exit = DryRun | NothingToMove | Aborted | Moved(count: nat)

  /** `main`: a preview pass, and then, if asked to and confirmed, an apply pass. What is shown is the
      report on what the preview received, and what is counted as moved is what the apply pass sent and
      deleted. When both passes serve each message of the same queue once and an empty receive means
      drained, that is exactly as many as the preview showed: the matching messages, up to the
      maximum. */
  method RunScript(preview: Sqs, again: Sqs, max: int, needle: Option<string>, apply: bool, yes: bool, answer: string)
    returns (exit: Exit, shown: ReplayResult)
    requires preview != again && preview.Valid() && again.Valid() && preview.position == again.position == 0
    modifies preview, again
    ensures preview.Valid() && again.Valid()
    ensures preview.effects == old(preview.effects)
    ensures shown == Report(preview.stream[..preview.position], needle, false, 20)
    ensures exit.DryRun? <==> !apply
    ensures exit.NothingToMove? <==> apply && shown.matched == 0
    ensures exit.Aborted? <==> apply && shown.matched > 0 && !yes && Buckets.Strip(answer) != "yes"
    ensures !exit.Moved? ==> again.effects == old(again.effects) && again.position == 0
    ensures exit.Moved? ==>
              && again.effects == After(old(again.effects), again.stream[..again.position], needle, true)
              && exit.count == |Select(again.stream[..again.position], needle)| <= Max(0, max)
    ensures preview.chunks.EmptyMeansDrained() ==> shown.matched == Min(Max(0, max), |Select(preview.stream, needle)|)
    ensures exit.Moved? && SamePass(preview, again) ==> exit.count == shown.matched
  {
    shown := Replay(preview, max, needle, false, PREVIEW_LIMIT);
    assert preview.stream[0..preview.position] == preview.stream[..preview.position];
    if preview.chunks.EmptyMeansDrained() { PassCount(preview.stream, preview.position, needle, max); }
    if !apply { return DryRun, shown; }
    if shown.matched == 0 { return NothingToMove, shown; }
    if !yes && Buckets.Strip(answer) != "yes" { return Aborted, shown; }
    var applied := Replay(again, max, needle, true, PREVIEW_LIMIT);
    assert again.stream[0..again.position] == again.stream[..again.position];
    if SamePass(preview, again) {
      SelectPermutation(preview.stream, again.stream, needle);
      PassCount(again.stream, again.position, needle, max);
    }
    return Moved(applied.moved), shown;
  }
}
