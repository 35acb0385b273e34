/** What handling an event does to the outside, and the record of it in the order it happens. */
module Effects {
  /** An effect that took hold: the credit, a leaderboard write, the reading of the quests, a bump. */
  datatype Effect = Credited | WroteWeekly | WroteMonthly | Listed | Bumped(questId: string)

  /** The effects since the process started, kept by the calls that cause them. */
  class Trace {
    ghost var effects: seq<Effect>

    constructor ()
      ensures effects == []
    {
      effects := [];
    }

    ghost method Note(x: Effect)
      modifies this
      ensures effects == old(effects) + [x]
    {
      effects := effects + [x];
    }
  }

  function BumpEffects(ids: seq<string>): seq<Effect> {
    seq(|ids|, i requires 0 <= i < |ids| => Bumped(ids[i]))
  }

  function WriteEffects(writes: nat): seq<Effect> {
    if writes == 0 then [] else if writes == 1 then [WroteWeekly] else [WroteWeekly, WroteMonthly]
  }

  /** Effects regrouped by the stage that caused them. */
  lemma Joined(before: seq<Effect>, first: seq<Effect>, second: seq<Effect>)
    ensures (before + first) + second == before + (first + second) && first + [] == first
  {
  }
}
