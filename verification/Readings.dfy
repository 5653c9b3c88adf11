// What an evaluation reads, and what it then does, told from the rule's conditions and the subject's row
// (app/engine/engine.py:138-180).
module Readings {
  import opened Base
  import opened Domain
  import opened Facts
  import opened Rules
  import opened Evaluation
  import opened Episodes
  import opened Incidents
  import opened Engine

  // The subject's stored row, of the kind the rule is about.
  predicate RowIs(t: Tables, kind: SubjectType, id: string, s: SubjectState) {
    match kind
    case Queue => id in t.queues && s == QueueRow(t.queues[id])
    case Agent => id in t.agents && s == AgentRow(t.agents[id])
  }

  // The rule is enabled and the subject has this row.
  predicate Stored(t: Tables, p: Pair, s: SubjectState) {
    p.rule in t.rules && t.rules[p.rule].enabled && RowIs(t, t.rules[p.rule].rule.subjectType, p.subject, s)
  }

  predicate AllHold(rule: Rule, s: SubjectState, now: Time) {
    forall i | 0 <= i < |rule.conditions| :: Holds(rule.conditions[i], s, now)
  }

  // The reading of a rule on a row: it matches when every condition holds; it carries the declared facts at their
  // values, the missing ones among them, and the message with every placeholder filled in.
  ghost predicate ReadsAs(rule: Rule, subject: string, s: SubjectState, now: Time, r: Reading) {
    && r.now == now
    && (r.matched <==> AllHold(rule, s, now))
    && (forall f :: f in r.missing <==> f in Declared(rule.conditions) && ValueOf(f, s, now).Missing?)
    && r.facts == (map f | f in Declared(rule.conditions) :: ValueOf(f, s, now))
    && |r.body| == |rule.template|
    && forall i | 0 <= i < |r.body| :: Shows(r.body[i], rule.template[i], subject, r.facts)
  }

  // On good tables an enabled rule with a subject row is read, and reads as its conditions say.
  lemma ReadingMeans(t: Tables, p: Pair, now: Time, s: SubjectState)
    requires Good(t) && Stored(t, p, s)
    ensures var r := ReadingFor(t, p, now);
      r.Some? && r.value.0 == t.rules[p.rule].rule && ReadsAs(r.value.0, p.subject, s, now, r.value.1)
  {
    hide EvaluateAll, Render, PairFits, Holds, ValueOf;
    var rule := t.rules[p.rule].rule;
    assert KindOf(s) == rule.subjectType;
    TypeSoundness(rule, s, now, p.subject);
    EvaluateMeaning(rule.conditions, s, now);
    RenderTotal(rule.template, p.subject, Evaluate(rule, s, now).value.snapshot);
  }

  // Otherwise nothing is read, written or sent.
  lemma UnreadIff(t: Tables, p: Pair, now: Time)
    requires Good(t)
    ensures ReadingFor(t, p, now).None? <==>
      p.rule !in t.rules || !t.rules[p.rule].enabled
      || forall s :: !RowIs(t, t.rules[p.rule].rule.subjectType, p.subject, s)
    ensures ReadingFor(t, p, now).None? ==> EvalPair(t, p, now) == Outcome(RowsOf(t.ledger, p), [], [])
  {
    if p.rule in t.rules && t.rules[p.rule].enabled {
      var state := StateFor(t, t.rules[p.rule].rule.subjectType, p.subject);
      if state.Some? {
        assert RowIs(t, t.rules[p.rule].rule.subjectType, p.subject, state.value);
        ReadingMeans(t, p, now, state.value);
      }
      hide EvaluateAll, Render, Good;
      assert state.None? ==> forall s :: !RowIs(t, t.rules[p.rule].rule.subjectType, p.subject, s);
    }
  }

  // The rows end in a new one, opened at the instant with one notification, which is sent.
  ghost predicate OpensNow(before: seq<Incident>, o: Outcome, now: Time) {
    && o.transitions == [Opened] && |o.sends| == 1 && |o.incidents| == |before| + 1
    && o.incidents[..|before|] == before
    && o.incidents[|before|].notes == o.sends && o.sends[0].transition.Opened? && o.sends[0].at == now
    && o.incidents[|before|].episode.state.Open? && o.incidents[|before|].episode.openedAt == Some(now)
  }

  // The rows end in a new one, pending since the instant; nothing is sent.
  ghost predicate WaitsNow(before: seq<Incident>, o: Outcome, now: Time) {
    && o.transitions == [] && o.sends == [] && |o.incidents| == |before| + 1
    && o.incidents[..|before|] == before
    && o.incidents[|before|].episode.state.Pending? && o.incidents[|before|].episode.firstTrueAt == Some(now)
  }

  lemma FreshStep(rule: Rule, p: Pair, rows: seq<Incident>, reading: Reading)
    requires RecipientAccepted(rule) && PairFits(rule, p, rows) && ActiveAt(rows).None?
    ensures var step := StepPair(rule, p, rows, reading);
      && step.Some?
      && (!reading.matched ==> step.value == Outcome(rows, [], []))
      && (reading.matched && rule.forDurationSec == 0 ==> OpensNow(rows, step.value, reading.now))
      && (reading.matched && rule.forDurationSec > 0 ==> WaitsNow(rows, step.value, reading.now))
  {
    hide StepPair, PairFits, ActiveAt;
    StepShape(rule, p, rows, reading);
  }

  // With no active row, an evaluation opens an episode, or starts its clock when there is a for-duration, if and only
  // if every condition holds; otherwise it does nothing.
  lemma EvaluationOpensIff(t: Tables, p: Pair, now: Time, s: SubjectState)
    requires Good(t) && Stored(t, p, s)
    requires ActiveAt(RowsOf(t.ledger, p)).None?
    ensures var rule, rows, o := t.rules[p.rule].rule, RowsOf(t.ledger, p), EvalPair(t, p, now);
      && (AllHold(rule, s, now) && rule.forDurationSec == 0 <==> OpensNow(rows, o, now))
      && (AllHold(rule, s, now) && rule.forDurationSec > 0 <==> WaitsNow(rows, o, now))
      && (!AllHold(rule, s, now) <==> o == Outcome(rows, [], []))
  {
    hide ReadingFor, StepPair, PairFits, AllHold, ReadsAs;
    ReadingMeans(t, p, now, s);
    ReadsMatched(t.rules[p.rule].rule, p.subject, s, now, ReadingFor(t, p, now).value.1);
    RowsFit(t, p);
    FreshStep(t.rules[p.rule].rule, p, RowsOf(t.ledger, p), ReadingFor(t, p, now).value.1);
    hide Good;
  }

  lemma ReadsMatched(rule: Rule, subject: string, s: SubjectState, now: Time, r: Reading)
    requires ReadsAs(rule, subject, s, now, r)
    ensures r.now == now && (r.matched <==> AllHold(rule, s, now))
  {
  }

  // Some fact the rule declares cannot be computed.
  ghost predicate SomeMissing(rule: Rule, s: SubjectState, now: Time) {
    exists f :: f in Declared(rule.conditions) && ValueOf(f, s, now).Missing?
  }

  // What becomes of a pending or open episode, from the conditions, the row and the clock.
  ghost predicate Becomes(rule: Rule, s: SubjectState, now: Time, e: Episode, f: Episode, trs: seq<Transition>)
    requires e.Active() && e.Valid()
  {
    if e.state.Pending? then
      if !AllHold(rule, s, now) then f == e.(state := Clear, firstTrueAt := None) && trs == []
      else if now - e.firstTrueAt.value >= rule.forDurationSec * SECOND then
        f == e.(state := Open, openedAt := Some(now), lastNotifiedAt := Some(now), notifySeq := 0) && trs == [Opened]
      else f == e.(suppressed := e.suppressed + 1) && trs == []
    else if AllHold(rule, s, now) then
      if rule.cooldownSec > 0 && now - e.lastNotifiedAt.value >= rule.cooldownSec * SECOND then
        f == e.(notifySeq := e.notifySeq + 1, lastNotifiedAt := Some(now), stale := false, staleSince := None)
        && trs == [Reminder]
      else f == e.(suppressed := e.suppressed + 1, stale := false, staleSince := None) && trs == []
    else if SomeMissing(rule, s, now) then
      f == e.(stale := true, staleSince := if e.stale then e.staleSince else Some(now)) && trs == []
    else
      f == e.(state := Clear, closedAt := Some(now), stale := false, staleSince := None) && trs == [Resolved]
  }

  lemma UnfoundedMeans(rule: Rule, subject: string, s: SubjectState, now: Time, r: Reading)
    requires ReadsAs(rule, subject, s, now, r)
    ensures Unfounded(rule, r.missing) <==> SomeMissing(rule, s, now)
  {
  }

  lemma ActiveStep(rule: Rule, p: Pair, rows: seq<Incident>, s: SubjectState, reading: Reading)
    requires RecipientAccepted(rule) && PairFits(rule, p, rows) && ActiveAt(rows).Some?
    requires ReadsAs(rule, p.subject, s, reading.now, reading)
    ensures var step, k := StepPair(rule, p, rows, reading), |rows| - 1;
      && step.Some? && k >= 0 && rows[k].episode.Valid() && rows[k].episode.Active()
      && |step.value.incidents| == |rows| && step.value.incidents[..k] == rows[..k]
      && Becomes(rule, s, reading.now, rows[k].episode, step.value.incidents[k].episode, step.value.transitions)
  {
    hide StepPair, ActiveAt, NotesFit, AllHold, SomeMissing, Unfounded;
    StepShape(rule, p, rows, reading);
    ActiveIsLast(rule, p, rows);
    RowAt(rule, p, rows, |rows| - 1);
    UnfoundedMeans(rule, p.subject, s, reading.now, reading);
    ReadsMatched(rule, p.subject, s, reading.now, reading);
    hide PairFits, ReadsAs;
  }

  // One evaluation of a pair with an active episode: only that episode's row changes, as the conditions, the row's
  // values and the clock say.
  lemma EvaluationOfActive(t: Tables, p: Pair, now: Time, s: SubjectState)
    requires Good(t) && Stored(t, p, s)
    requires ActiveAt(RowsOf(t.ledger, p)).Some?
    ensures var rows, o, k := RowsOf(t.ledger, p), EvalPair(t, p, now), |RowsOf(t.ledger, p)| - 1;
      && k >= 0 && rows[k].episode.Valid() && rows[k].episode.Active()
      && |o.incidents| == |rows| && o.incidents[..k] == rows[..k]
      && Becomes(t.rules[p.rule].rule, s, now, rows[k].episode, o.incidents[k].episode, o.transitions)
  {
    hide ReadingFor, StepPair, PairFits, ReadsAs, Becomes;
    ReadingMeans(t, p, now, s);
    ReadsMatched(t.rules[p.rule].rule, p.subject, s, now, ReadingFor(t, p, now).value.1);
    RowsFit(t, p);
    ActiveStep(t.rules[p.rule].rule, p, RowsOf(t.ledger, p), s, ReadingFor(t, p, now).value.1);
    hide Good;
  }

  // What an evaluation of a stored row makes of the pair's rows, and the transitions it reports.
  ghost predicate Evaluates(rule: Rule, rows: seq<Incident>, s: SubjectState, now: Time, after: seq<Incident>,
                            trs: seq<Transition>)
  {
    if ActiveAt(rows).Some? then
      var k := |rows| - 1;
      && k >= 0 && rows[k].episode.Valid() && rows[k].episode.Active()
      && |after| == |rows| && after[..k] == rows[..k]
      && Becomes(rule, s, now, rows[k].episode, after[k].episode, trs)
    else if AllHold(rule, s, now) then
      && |after| == |rows| + 1 && after[..|rows|] == rows
      && var e := after[|rows|].episode;
         if rule.forDurationSec == 0 then trs == [Opened] && e.state.Open? && e.openedAt == Some(now)
         else trs == [] && e.state.Pending? && e.firstTrueAt == Some(now)
    else after == rows && trs == []
  }

  lemma EvaluationMeans(t: Tables, p: Pair, now: Time, s: SubjectState)
    requires Good(t) && Stored(t, p, s)
    ensures Evaluates(t.rules[p.rule].rule, RowsOf(t.ledger, p), s, now,
                      EvalPair(t, p, now).incidents, EvalPair(t, p, now).transitions)
  {
    hide EvalPair, Becomes, AllHold, Good;
    if ActiveAt(RowsOf(t.ledger, p)).Some? {
      EvaluationOfActive(t, p, now, s);
    } else {
      EvaluationOpensIff(t, p, now, s);
    }
  }

  // Everything an evaluation sends carries its instant, the facts at their values and the filled-in message.
  lemma SendsSay(t: Tables, p: Pair, now: Time, s: SubjectState, n: Notification)
    requires Good(t) && Stored(t, p, s)
    requires n in EvalPair(t, p, now).sends
    ensures var rule := t.rules[p.rule].rule;
      && n.at == now && n.facts == (map f | f in Declared(rule.conditions) :: ValueOf(f, s, now))
      && |n.body| == |rule.template|
      && forall i | 0 <= i < |n.body| :: Shows(n.body[i], rule.template[i], p.subject, n.facts)
  {
    hide ReadingFor, StepPair, PairFits, AllHold;
    ReadingMeans(t, p, now, s);
    RowsFit(t, p);
    var reading := ReadingFor(t, p, now).value;
    StepShape(reading.0, p, RowsOf(t.ledger, p), reading.1);
    hide Advance, Good;
  }
}
