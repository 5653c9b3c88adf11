// The episode automaton (app/domain/episodes.py, app/episodes/machine.py).
module Episodes {
  import opened Base
  import opened Domain
  import opened Facts
  import opened Rules

  // A (rule, subject) pair: the unit the engine evaluates and the key of the active-episode index.
  datatype Pair = Pair(rule: string, subject: string)

  // Episodes of one pair are numbered in creation order; pair and number stand for the generated id.
  datatype EpisodeId = EpisodeId(pair: Pair, ordinal: nat)

  datatype EpisodeState = Clear | Pending | Open

  datatype Transition = Opened | Reminder | Resolved

  datatype Episode = Episode(id: EpisodeId, state: EpisodeState, firstTrueAt: Option<Time>, openedAt: Option<Time>,
                             closedAt: Option<Time>, lastNotifiedAt: Option<Time>, notifySeq: nat,
                             suppressed: nat, stale: bool, staleSince: Option<Time>)
  {
    // The check run whenever a row is loaded; copies made by the automaton skip it.
    predicate Valid() {
      && (state.Pending? ==> firstTrueAt.Some?)
      && (state.Open? ==> openedAt.Some? && lastNotifiedAt.Some?)
      && (stale ==> state.Open? && staleSince.Some?)
    }

    predicate Active() {
      state.Pending? || state.Open?
    }
  }

  datatype AdvanceError = WrongRule | WrongSubject | Incomplete

  datatype Advanced = Moved(episode: Episode, transitions: seq<Transition>) | Refused(error: AdvanceError)

  function NewEpisode(id: EpisodeId, state: EpisodeState, firstTrueAt: Option<Time>, openedAt: Option<Time>): Episode {
    Episode(id, state, firstTrueAt, openedAt, None, openedAt, 0, 0, false, None)
  }

  function Suppress(e: Episode): Episode {
    e.(suppressed := e.suppressed + 1)
  }

  function Thaw(e: Episode): Episode {
    e.(stale := false, staleSince := None)
  }

  function FromClear(prior: Option<Episode>, matched: bool, now: Time, rule: Rule, newId: EpisodeId): Advanced {
    if !matched then
      Moved(if prior.Some? then prior.value else NewEpisode(newId, Clear, None, None), [])
    else if rule.forDurationSec == 0 then
      Moved(NewEpisode(newId, Open, Some(now), Some(now)), [Opened])
    else
      Moved(NewEpisode(newId, Pending, Some(now), None), [])
  }

  function FromPending(e: Episode, matched: bool, now: Time, rule: Rule): Advanced {
    if e.firstTrueAt.None? then Refused(Incomplete)
    else if !matched then Moved(e.(state := Clear, firstTrueAt := None), [])
    else if now - e.firstTrueAt.value < rule.forDurationSec * SECOND then Moved(Suppress(e), [])
    else Moved(e.(state := Open, openedAt := Some(now), lastNotifiedAt := Some(now), notifySeq := 0), [Opened])
  }

  // Some fact the rule depends on is among the missing ones.
  predicate Unfounded(rule: Rule, missing: seq<FactName>) {
    exists f | f in missing :: f in Declared(rule.conditions)
  }

  function FromOpen(e: Episode, matched: bool, now: Time, rule: Rule, missing: seq<FactName>): Advanced {
    if !matched then
      if Unfounded(rule, missing) then
        Moved(e.(stale := true, staleSince := if e.stale then e.staleSince else Some(now)), [])
      else
        Moved(Thaw(e).(state := Clear, closedAt := Some(now)), [Resolved])
    else if rule.cooldownSec == 0 then Moved(Suppress(Thaw(e)), [])
    else if e.lastNotifiedAt.None? then Refused(Incomplete)
    else if now - e.lastNotifiedAt.value < rule.cooldownSec * SECOND then Moved(Suppress(Thaw(e)), [])
    else Moved(Thaw(e).(notifySeq := e.notifySeq + 1, lastNotifiedAt := Some(now)), [Reminder])
  }

  function Advance(prior: Option<Episode>, matched: bool, now: Time, rule: Rule, newId: EpisodeId,
                   missing: seq<FactName>): Advanced
  {
    if prior.Some? && prior.value.id.pair.rule != newId.pair.rule then Refused(WrongRule)
    else if prior.Some? && prior.value.id.pair.subject != newId.pair.subject then Refused(WrongSubject)
    else if prior.None? || prior.value.state.Clear? then FromClear(prior, matched, now, rule, newId)
    else if prior.value.state.Pending? then FromPending(prior.value, matched, now, rule)
    else FromOpen(prior.value, matched, now, rule, missing)
  }
}
