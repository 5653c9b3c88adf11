// One evaluation's transaction on the rows of one pair (app/engine/engine.py, app/storage/sqlite/episodes.py,
// app/storage/sqlite/notifications.py, app/routing/dispatcher.py), and what it keeps.
module Incidents {
  import opened Base
  import opened Domain
  import opened Facts
  import opened Rules
  import opened Episodes

  datatype Notification = Notification(episode: EpisodeId, transition: Transition, occurrence: nat,
                                       recipientKind: RecipientKind, recipientTarget: string,
                                       body: seq<Shown>, facts: Snapshot, at: Time)

  // The columns of the notification table's unique index.
  datatype NoteKey = NoteKey(episode: EpisodeId, transition: Transition, occurrence: nat)

  function KeyOf(n: Notification): NoteKey {
    NoteKey(n.episode, n.transition, n.occurrence)
  }

  // An episode row with the notification rows that reference it, in insertion order.
  datatype Incident = Incident(episode: Episode, notes: seq<Notification>)

  // What evaluating the pair at an instant reported.
  datatype Reading = Reading(now: Time, matched: bool, missing: seq<FactName>, facts: Snapshot, body: seq<Shown>)

  /* ---------- The tables' operations on one pair ---------- */

  // Position of a pending or open row.
  function ActiveAt(incs: seq<Incident>): (at: Option<nat>)
    ensures at.Some? ==> at.value < |incs| && incs[at.value].episode.Active()
    ensures at.None? ==> forall i | 0 <= i < |incs| :: !incs[i].episode.Active()
  {
    if incs == [] then None
    else if incs[|incs| - 1].episode.Active() then Some(|incs| - 1)
    else ActiveAt(incs[..|incs| - 1])
  }

  function GetActive(incs: seq<Incident>): Option<Episode> {
    var at := ActiveAt(incs);
    if at.Some? then Some(incs[at.value].episode) else None
  }

  // INSERT; None when the unique index on active rows rejects it.
  function CreateRow(incs: seq<Incident>, e: Episode): Option<seq<Incident>> {
    if e.Active() && ActiveAt(incs).Some? then None else Some(incs + [Incident(e, [])])
  }

  // UPDATE ... WHERE id.
  function UpdateRow(incs: seq<Incident>, e: Episode): seq<Incident> {
    var i := e.id.ordinal;
    if i < |incs| then incs[i := incs[i].(episode := e)] else incs
  }

  predicate HasKey(notes: seq<Notification>, k: NoteKey) {
    exists i | 0 <= i < |notes| :: KeyOf(notes[i]) == k
  }

  // INSERT ... ON CONFLICT DO NOTHING, and whether a row was inserted; None when the episode does not exist.
  function InsertIfAbsent(incs: seq<Incident>, n: Notification): Option<(seq<Incident>, bool)> {
    var i := n.episode.ordinal;
    if i >= |incs| then None
    else if HasKey(incs[i].notes, KeyOf(n)) then Some((incs, false))
    else Some((incs[i := incs[i].(notes := incs[i].notes + [n])], true))
  }

  function RecipientTarget(rule: Rule, subject: string): string
    requires RecipientAccepted(rule)
  {
    match rule.recipient.kind
    case Author => rule.createdBy
    case SubjectAgent => subject
    case Channel => rule.recipient.target.value
  }

  function NoteFor(rule: Rule, e: Episode, subject: string, tr: Transition, reading: Reading): Notification
    requires RecipientAccepted(rule)
  {
    Notification(e.id, tr, if tr.Reminder? then e.notifySeq else 0, rule.recipient.kind,
                 RecipientTarget(rule, subject), reading.body, reading.facts, reading.now)
  }

  datatype Outcome = Outcome(incidents: seq<Incident>, transitions: seq<Transition>, sends: seq<Notification>)

  // One notification row per transition; a send is queued only for a row that was inserted.
  function Notify(rule: Rule, pair: Pair, incs: seq<Incident>, e: Episode, trs: seq<Transition>,
                  reading: Reading): Option<(seq<Incident>, seq<Notification>)>
    requires RecipientAccepted(rule)
    decreases |trs|
  {
    if trs == [] then Some((incs, []))
    else
      var n := NoteFor(rule, e, pair.subject, trs[0], reading);
      var inserted := InsertIfAbsent(incs, n);
      if inserted.None? then None
      else
        var rest := Notify(rule, pair, inserted.value.0, e, trs[1..], reading);
        if rest.None? then None
        else Some((rest.value.0, (if inserted.value.1 then [n] else []) + rest.value.1))
  }

  // The episode half of the transaction.
  function WriteEpisode(incs: seq<Incident>, e: Episode): Option<seq<Incident>> {
    if ActiveAt(incs).None? then
      if e.state.Clear? then Some(incs) else CreateRow(incs, e)
    else Some(UpdateRow(incs, e))
  }

  // One evaluation of a pair: reload the active row, advance, write episode and notifications together.
  // None when anything raises, in which case nothing is written.
  function StepPair(rule: Rule, pair: Pair, incs: seq<Incident>, reading: Reading): Option<Outcome>
    requires RecipientAccepted(rule)
  {
    var prior := GetActive(incs);
    if prior.Some? && !prior.value.Valid() then None
    else
      match Advance(prior, reading.matched, reading.now, rule, EpisodeId(pair, |incs|), reading.missing)
      case Refused(_) => None
      case Moved(e, trs) =>
        var written := WriteEpisode(incs, e);
        if written.None? then None
        else
          var notified := Notify(rule, pair, written.value, e, trs, reading);
          if notified.None? then None
          else Some(Outcome(notified.value.0, trs, notified.value.1))
  }

  function CloseRow(e: Episode, now: Time): Episode {
    e.(state := Clear, closedAt := Some(now))
  }

  function CloseOne(inc: Incident, now: Time): Incident {
    if inc.episode.Active() then inc.(episode := CloseRow(inc.episode, now)) else inc
  }

  // Disabling a rule closes its active rows without a notification.
  function ClosePair(incs: seq<Incident>, now: Time): (r: seq<Incident>)
    ensures |r| == |incs| && forall i | 0 <= i < |incs| :: r[i] == CloseOne(incs[i], now)
  {
    seq(|incs|, i requires 0 <= i < |incs| => CloseOne(incs[i], now))
  }

  /* ---------- What every reachable pair satisfies ---------- */

  // Key of the i-th notification of an episode that has sent k reminders.
  function ScriptKey(id: EpisodeId, i: nat, k: nat): NoteKey {
    if i == 0 then NoteKey(id, Opened, 0)
    else if i <= k then NoteKey(id, Reminder, i)
    else NoteKey(id, Resolved, 0)
  }

  // An opened episode's rows are OPENED/0, REMINDER/1..notifySeq and then at most one RESOLVED/0, the reminders
  // at least a cooldown apart, starting at openedAt and last notified at lastNotifiedAt.
  ghost predicate NotesFit(rule: Rule, inc: Incident)
    requires inc.episode.openedAt.Some?
  {
    var e, notes, k := inc.episode, inc.notes, inc.episode.notifySeq;
    && (|notes| == k + 1 || (|notes| == k + 2 && e.state.Clear? && e.closedAt == Some(notes[k + 1].at)))
    && (forall i | 0 <= i < |notes| :: KeyOf(notes[i]) == ScriptKey(e.id, i, k))
    && notes[0].at == e.openedAt.value
    && e.lastNotifiedAt == Some(notes[k].at)
    && (forall i | 0 < i <= k :: notes[i].at - notes[i - 1].at >= rule.cooldownSec * SECOND)
    && (k > 0 ==> rule.cooldownSec > 0)
  }

  ghost predicate RowFits(rule: Rule, inc: Incident) {
    var e := inc.episode;
    && (e.Active() ==> e.Valid())
    && (e.Active() ==> e.closedAt.None?)
    && (e.state.Pending? ==> !e.stale && rule.forDurationSec > 0)
    && (e.state.Open? ==> e.openedAt.Some?)
    && (if e.openedAt.Some? then !e.state.Pending? && NotesFit(rule, inc)
        else e.notifySeq == 0 && e.lastNotifiedAt.None? && inc.notes == [])
  }

  // At most the last row is active, rows carry their own position as id, and every row fits.
  ghost predicate PairFits(rule: Rule, pair: Pair, incs: seq<Incident>) {
    && (forall i | 0 <= i < |incs| :: incs[i].episode.id == EpisodeId(pair, i))
    && (forall i | 0 <= i < |incs| - 1 :: !incs[i].episode.Active())
    && (forall i | 0 <= i < |incs| :: RowFits(rule, incs[i]))
  }

  lemma ActiveIsLast(rule: Rule, pair: Pair, incs: seq<Incident>)
    requires PairFits(rule, pair, incs)
    ensures ActiveAt(incs) == if incs != [] && incs[|incs| - 1].episode.Active() then Some(|incs| - 1) else None
  {
  }

  // An incident after a step: its episode row replaced, new notification rows appended.
  function Renew(inc: Incident, e: Episode, sends: seq<Notification>): Incident {
    Incident(e, inc.notes + sends)
  }

  // The notifications of an advance that emitted at most one transition.
  function NotesOf(rule: Rule, subject: string, m: Advanced, reading: Reading): seq<Notification>
    requires RecipientAccepted(rule) && m.Moved?
  {
    if m.transitions == [] then [] else [NoteFor(rule, m.episode, subject, m.transitions[0], reading)]
  }

  lemma PendingRowSurvives(rule: Rule, subject: string, inc: Incident, reading: Reading)
    requires RecipientAccepted(rule) && RowFits(rule, inc) && inc.episode.state.Pending?
    ensures var m := FromPending(inc.episode, reading.matched, reading.now, rule);
      && m.Moved? && m.episode.id == inc.episode.id && |m.transitions| <= 1
      && RowFits(rule, Renew(inc, m.episode, NotesOf(rule, subject, m, reading)))
  {
    var m := FromPending(inc.episode, reading.matched, reading.now, rule);
    assert inc.notes == [];
    if m.transitions == [] {
      assert Renew(inc, m.episode, []).notes == [];
    } else {
      assert NotesOf(rule, subject, m, reading) == [NoteFor(rule, m.episode, subject, Opened, reading)];
    }
  }

  lemma OpenRowSurvives(rule: Rule, subject: string, inc: Incident, reading: Reading)
    requires RecipientAccepted(rule) && RowFits(rule, inc) && inc.episode.state.Open?
    ensures var m := FromOpen(inc.episode, reading.matched, reading.now, rule, reading.missing);
      && m.Moved? && m.episode.id == inc.episode.id && |m.transitions| <= 1
      && (m.transitions != [] ==> !HasKey(inc.notes, KeyOf(NotesOf(rule, subject, m, reading)[0])))
      && RowFits(rule, Renew(inc, m.episode, NotesOf(rule, subject, m, reading)))
  {
    var m := FromOpen(inc.episode, reading.matched, reading.now, rule, reading.missing);
    var e, k, renewed := inc.episode, inc.episode.notifySeq, Renew(inc, m.episode, NotesOf(rule, subject, m, reading));
    assert NotesFit(rule, inc) && |inc.notes| == k + 1;
    if m.transitions == [] {
      assert renewed.notes == inc.notes;
      assert NotesFit(rule, renewed);
    } else {
      var note := NoteFor(rule, m.episode, subject, m.transitions[0], reading);
      assert renewed.notes == inc.notes + [note];
      forall i | 0 <= i < |renewed.notes|
        ensures KeyOf(renewed.notes[i]) == ScriptKey(e.id, i, m.episode.notifySeq)
      {
        if i < |inc.notes| { assert renewed.notes[i] == inc.notes[i]; }
      }
      assert NotesFit(rule, renewed);
    }
  }

  lemma RowSurvives(rule: Rule, subject: string, inc: Incident, reading: Reading)
    requires RecipientAccepted(rule) && RowFits(rule, inc) && inc.episode.Active()
    ensures var m := Advance(Some(inc.episode), reading.matched, reading.now, rule, inc.episode.id, reading.missing);
      && m.Moved? && m.episode.id == inc.episode.id && |m.transitions| <= 1
      && (m.transitions != [] ==> !HasKey(inc.notes, KeyOf(NotesOf(rule, subject, m, reading)[0])))
      && RowFits(rule, Renew(inc, m.episode, NotesOf(rule, subject, m, reading)))
  {
    if inc.episode.state.Pending? {
      PendingRowSurvives(rule, subject, inc, reading);
      assert inc.notes == [];
    } else {
      OpenRowSurvives(rule, subject, inc, reading);
    }
  }

  lemma NewRowFits(rule: Rule, subject: string, id: EpisodeId, reading: Reading)
    requires RecipientAccepted(rule) && reading.matched
    ensures var m := Advance(None, true, reading.now, rule, id, reading.missing);
      && m.Moved? && m.episode.id == id && m.episode.Active() && |m.transitions| <= 1
      && RowFits(rule, Incident(m.episode, NotesOf(rule, subject, m, reading)))
  {
  }

  // The advance that StepPair makes.
  function AdvanceOf(rule: Rule, pair: Pair, incs: seq<Incident>, reading: Reading): Advanced {
    Advance(GetActive(incs), reading.matched, reading.now, rule, EpisodeId(pair, |incs|), reading.missing)
  }

  lemma NotifyAtMostOne(rule: Rule, pair: Pair, incs: seq<Incident>, e: Episode, trs: seq<Transition>, reading: Reading)
    requires RecipientAccepted(rule) && |trs| <= 1 && e.id.ordinal < |incs|
    requires trs != [] ==> !HasKey(incs[e.id.ordinal].notes, KeyOf(NoteFor(rule, e, pair.subject, trs[0], reading)))
    ensures var sends := NotesOf(rule, pair.subject, Moved(e, trs), reading);
      var i := e.id.ordinal;
      Notify(rule, pair, incs, e, trs, reading)
      == Some((incs[i := incs[i].(notes := incs[i].notes + sends)], sends))
  {
    var i := e.id.ordinal;
    if trs == [] {
      assert incs[i].notes + [] == incs[i].notes;
      assert incs[i := incs[i]] == incs;
    } else {
      var n := NoteFor(rule, e, pair.subject, trs[0], reading);
      var after := incs[i := incs[i].(notes := incs[i].notes + [n])];
      assert InsertIfAbsent(incs, n) == Some((after, true));
      assert trs[1..] == [];
      assert Notify(rule, pair, after, e, trs[1..], reading) == Some((after, []));
      assert [n] + [] == [n];
    }
  }

  // One evaluation in closed form: nothing, a new last row, or the last row renewed. It never raises, the unique
  // index on active rows never rejects the insert, and every transition becomes an inserted row and a send.
  lemma StepShape(rule: Rule, pair: Pair, incs: seq<Incident>, reading: Reading)
    requires RecipientAccepted(rule) && PairFits(rule, pair, incs)
    ensures var s := StepPair(rule, pair, incs, reading);
      var m := AdvanceOf(rule, pair, incs, reading);
      && s.Some? && m.Moved? && |m.transitions| <= 1 && s.value.transitions == m.transitions
      && s.value.sends == NotesOf(rule, pair.subject, m, reading)
      && s.value.incidents == (
        if GetActive(incs).Some? then incs[..|incs| - 1] + [Renew(incs[|incs| - 1], m.episode, s.value.sends)]
        else if reading.matched then incs + [Incident(m.episode, s.value.sends)]
        else incs)
  {
    hide RowFits, FromOpen, FromPending, ActiveAt, Notify, NoteFor, UpdateRow;
    ActiveIsLast(rule, pair, incs);
    var prior, m := GetActive(incs), AdvanceOf(rule, pair, incs, reading);
    if prior.Some? {
      var n := |incs| - 1;
      ActiveRowLoads(rule, pair, incs, n);
      RowSurvives(rule, pair.subject, incs[n], reading);
      assert prior.value == incs[n].episode && prior.value.id == EpisodeId(pair, n);
      assert m == Advance(prior, reading.matched, reading.now, rule, prior.value.id, reading.missing);
      var written := incs[n := incs[n].(episode := m.episode)];
      assert UpdateRow(incs, m.episode) == written by { UpdateLast(incs, m.episode); }
      NotifyAtMostOne(rule, pair, written, m.episode, m.transitions, reading);
    } else if reading.matched {
      var n := |incs|;
      NewRowFits(rule, pair.subject, EpisodeId(pair, n), reading);
      assert !HasKey([], KeyOf(NoteFor(rule, m.episode, pair.subject, Opened, reading)));
      var written := incs + [Incident(m.episode, [])];
      assert WriteEpisode(incs, m.episode) == Some(written);
      NotifyAtMostOne(rule, pair, written, m.episode, m.transitions, reading);
      var sends := NotesOf(rule, pair.subject, m, reading);
      assert [] + sends == sends;
      assert written[n := Incident(m.episode, sends)] == incs + [Incident(m.episode, sends)];
    } else {
      NotifyNothing(rule, pair, incs, m.episode, reading);
    }
  }

  lemma NotifyNothing(rule: Rule, pair: Pair, incs: seq<Incident>, e: Episode, reading: Reading)
    requires RecipientAccepted(rule)
    ensures Notify(rule, pair, incs, e, [], reading) == Some((incs, []))
  {
  }

  lemma ActiveRowLoads(rule: Rule, pair: Pair, incs: seq<Incident>, i: nat)
    requires PairFits(rule, pair, incs) && i < |incs|
    ensures incs[i].episode.Active() ==> incs[i].episode.Valid()
  {
    assert RowFits(rule, incs[i]);
  }

  lemma UpdateLast(incs: seq<Incident>, e: Episode)
    requires e.id.ordinal < |incs|
    ensures UpdateRow(incs, e) == incs[e.id.ordinal := incs[e.id.ordinal].(episode := e)]
  {
  }

  lemma ExtendPair(rule: Rule, pair: Pair, incs: seq<Incident>, inc: Incident)
    requires PairFits(rule, pair, incs) && ActiveAt(incs).None?
    requires RowFits(rule, inc) && inc.episode.id == EpisodeId(pair, |incs|)
    ensures PairFits(rule, pair, incs + [inc])
  {
    hide RowFits;
    assert forall i | 0 <= i < |incs| :: (incs + [inc])[i] == incs[i];
  }

  lemma ReplaceLast(rule: Rule, pair: Pair, incs: seq<Incident>, inc: Incident)
    requires PairFits(rule, pair, incs) && incs != []
    requires RowFits(rule, inc) && inc.episode.id == EpisodeId(pair, |incs| - 1)
    ensures PairFits(rule, pair, incs[..|incs| - 1] + [inc])
  {
    hide RowFits;
    var n := |incs| - 1;
    assert forall i | 0 <= i < n :: (incs[..n] + [inc])[i] == incs[i];
  }

  // Evaluation keeps every reachable pair in order.
  lemma StepKeepsPair(rule: Rule, pair: Pair, incs: seq<Incident>, reading: Reading)
    requires RecipientAccepted(rule) && PairFits(rule, pair, incs)
    ensures StepPair(rule, pair, incs, reading).Some?
    ensures PairFits(rule, pair, StepPair(rule, pair, incs, reading).value.incidents)
  {
    hide StepPair, PairFits, RowFits;
    StepShape(rule, pair, incs, reading);
    ActiveIsLast(rule, pair, incs);
    var m := AdvanceOf(rule, pair, incs, reading);
    var sends := NotesOf(rule, pair.subject, m, reading);
    if GetActive(incs).Some? {
      var n := |incs| - 1;
      RowAt(rule, pair, incs, n);
      RowSurvives(rule, pair.subject, incs[n], reading);
      ReplaceLast(rule, pair, incs, Renew(incs[n], m.episode, sends));
    } else if reading.matched {
      NewRowFits(rule, pair.subject, EpisodeId(pair, |incs|), reading);
      ExtendPair(rule, pair, incs, Incident(m.episode, sends));
    }
  }

  lemma RowAt(rule: Rule, pair: Pair, incs: seq<Incident>, i: nat)
    requires PairFits(rule, pair, incs) && i < |incs|
    ensures RowFits(rule, incs[i]) && incs[i].episode.id == EpisodeId(pair, i)
  {
  }

  // So does closing silently.
  lemma CloseKeepsPair(rule: Rule, pair: Pair, incs: seq<Incident>, now: Time)
    requires PairFits(rule, pair, incs)
    ensures PairFits(rule, pair, ClosePair(incs, now))
    ensures ActiveAt(ClosePair(incs, now)).None?
  {
    var closed := ClosePair(incs, now);
    forall i | 0 <= i < |incs| ensures RowFits(rule, closed[i]) {
      assert RowFits(rule, incs[i]);
      assert closed[i] == CloseOne(incs[i], now);
    }
  }
}
