// Who an event and a tick evaluate, and at which instant, told from the tables and the line alone
// (app/scheduling/scan.py, app/scheduling/selectors.py, app/ingest/pipeline.py, app/engine/engine.py:205-222).
module Triggers {
  import opened Base
  import opened Domain
  import opened Facts
  import opened Rules
  import opened Evaluation
  import opened Episodes
  import opened Incidents
  import opened Engine
  import opened Ingest
  import opened Readings
  import opened Scheduling

  /* ---------- Selectors ---------- */

  // A list of ids selects exactly those, stored or not; otherwise a queue rule selects every stored queue, and an agent
  // rule every stored agent, or those sharing a queue with the wanted ones.
  lemma SelectedMeans(t: Tables, rule: Rule, id: string)
    ensures rule.selector.Ids? ==> (id in Selected(t, rule) <==> id in rule.selector.ids)
    ensures rule.subjectType.Queue? && !rule.selector.Ids? ==> (id in Selected(t, rule) <==> id in t.queues)
    ensures rule.subjectType.Agent? && rule.selector.All? ==> (id in Selected(t, rule) <==> id in t.agents)
    ensures rule.subjectType.Agent? && rule.selector.QueueMembership? ==>
      (id in Selected(t, rule) <==>
         id in t.agents && exists q :: q in rule.selector.queueIds && q in t.agents[id].queueIds)
  {
  }

  /* ---------- Ticks ---------- */

  // Some condition has a duration or an age on its left-hand side.
  predicate ClockOnLeft(rule: Rule) {
    exists i | 0 <= i < |rule.conditions| :: var f := rule.conditions[i].fact;
      f.CurrentStateDurationSec? || f.AdherenceViolationDurationSec? || f.SnapshotAgeSec?
  }

  // The pair has a pending or open row.
  predicate HasOpenOrPending(t: Tables, p: Pair) {
    p in t.ledger && exists i | 0 <= i < |t.ledger[p]| ::
      var e := t.ledger[p][i].episode; e.state.Pending? || e.state.Open?
  }

  lemma ActiveRowMeans(t: Tables, p: Pair)
    ensures HasOpenOrPending(t, p) <==> p in ActivePairs(t)
    ensures HasOpenOrPending(t, p) <==> HasActive(t, p)
  {
    if p in t.ledger && ActiveAt(t.ledger[p]).Some? {
      assert t.ledger[p][ActiveAt(t.ledger[p]).value].episode.Active();
    }
  }

  // A tick evaluates the pairs with a pending or open row, and the subjects selected by the enabled rules with a
  // duration or an age on the left of some condition; no others.
  lemma DueMeans(t: Tables, p: Pair)
    ensures p in DueSet(t) <==>
      || HasOpenOrPending(t, p)
      || (p.rule in t.rules && t.rules[p.rule].enabled && ClockOnLeft(t.rules[p.rule].rule)
          && p.subject in Selected(t, t.rules[p.rule].rule))
  {
    ActiveRowMeans(t, p);
    if p.rule in t.rules {
      var cs := t.rules[p.rule].rule.conditions;
      if c :| c in cs && TimeDerived(c.fact) {
        var i :| 0 <= i < |cs| && cs[i] == c;
      }
      if i :| 0 <= i < |cs| && TimeDerived(cs[i].fact) {
        assert cs[i] in cs;
      }
    }
  }

  // The full scan evaluates the subjects selected by every enabled rule.
  lemma FullMeans(t: Tables, p: Pair)
    ensures p in FullSet(t) <==>
      || HasOpenOrPending(t, p)
      || (p.rule in t.rules && t.rules[p.rule].enabled && p.subject in Selected(t, t.rules[p.rule].rule))
  {
    ActiveRowMeans(t, p);
  }

  /* ---------- Events ---------- */

  // A change of a subject evaluates it under the enabled rules of its kind that select it.
  lemma AffectedMeans(t: Tables, ref: SubjectRef, p: Pair)
    ensures p in Affected(t, ref) <==>
      && p.subject == ref.id && p.rule in t.rules && t.rules[p.rule].enabled
      && t.rules[p.rule].rule.subjectType == ref.kind && ref.id in Selected(t, t.rules[p.rule].rule)
  {
  }

  lemma EventRows(t: Tables, ref: SubjectRef, now: Time, p: Pair)
    ensures RowsOf(OnEvent(t, ref, now).t.ledger, p)
         == if p in Affected(t, ref) then EvalPair(t, p, now).incidents else RowsOf(t.ledger, p)
  {
    hide EvalPair, RunEvals, Affected, RowsOf;
    var ps := OrderOf(Affected(t, ref));
    RunEvalsRows(t, ps, now, ByEvent, p);
    assert p in ps <==> p in Elements(ps);
  }

  // A subject outside the ids a rule lists keeps its rows under that rule, whatever changes.
  lemma UnlistedSubjectsKeepRows(t: Tables, ref: SubjectRef, now: Time, p: Pair)
    requires p.rule in t.rules && t.rules[p.rule].rule.selector.Ids?
    requires p.subject !in t.rules[p.rule].rule.selector.ids
    ensures RowsOf(OnEvent(t, ref, now).t.ledger, p) == RowsOf(t.ledger, p)
  {
    SelectedMeans(t, t.rules[p.rule].rule, ref.id);
    AffectedMeans(t, ref, p);
    EventRows(t, ref, now, p);
  }

  // Each trigger counts its evaluations under its own name.
  lemma TriggersCount(t: Tables, ref: SubjectRef, now: Time, name: Counter)
    ensures Count(OnEvent(t, ref, now).t.counters, name)
         == Count(t.counters, name) + if name.EvaluationsEvent? then |Affected(t, ref)| else 0
    ensures Count(OnTick(t, now).t.counters, name)
         == Count(t.counters, name) + if name.EvaluationsDue? then |DueSet(t)| else 0
  {
    hide RunEvals, Affected, DueSet;
    var affected, due := OrderOf(Affected(t, ref)), OrderOf(DueSet(t));
    RunEvalsFrame(t, affected, now, ByEvent);
    RunEvalsFrame(t, due, now, ByTick);
    DistinctLength(affected);
    DistinctLength(due);
  }

  /* ---------- Disabling ---------- */

  // Disabling switches the rule off and counts a version; the rows of its pairs that were pending or open are closed at
  // the instant, keeping everything else, and no other row changes.
  lemma DisablingMeans(t: Tables, id: string, now: Time, p: Pair)
    requires id in t.rules
    ensures var after, record := DisableRule(t, id, now), t.rules[id];
      && after.Some?
      && after.value.rules == t.rules[id := RuleRecord(record.rule, false, record.version + 1)]
      && after.value == t.(rules := after.value.rules, ledger := after.value.ledger)
      && (p in after.value.ledger <==> p in t.ledger)
      && (p.rule != id ==> RowsOf(after.value.ledger, p) == RowsOf(t.ledger, p))
    ensures var rows, later := RowsOf(t.ledger, p), RowsOf(DisableRule(t, id, now).value.ledger, p);
      && |later| == |rows|
      && forall i | 0 <= i < |rows| && p.rule == id ::
           var e := rows[i].episode;
           later[i] == if e.state.Clear? then rows[i]
                       else Incident(e.(state := Clear, closedAt := Some(now)), rows[i].notes)
  {
  }

  /* ---------- Instants ---------- */

  lemma EvaluationSendsAt(t: Tables, p: Pair, now: Time)
    requires Good(t)
    ensures forall n | n in EvalPair(t, p, now).sends :: n.at == now
  {
    hide StepPair, PairFits, Advance;
    var reading := ReadingFor(t, p, now);
    if reading.Some? {
      RowsFit(t, p);
      StepShape(reading.value.0, p, RowsOf(t.ledger, p), reading.value.1);
    }
  }

  lemma {:induction false} EvaluationsSendAt(t: Tables, ps: seq<Pair>, now: Time, trigger: Trigger)
    requires Good(t)
    ensures forall n | n in RunEvals(t, ps, now, trigger).sends :: n.at == now
    decreases |ps|
  {
    hide EvalPair, Good;
    if ps != [] {
      EvaluationSendsAt(t, ps[0], now);
      EvaluateKeepsGood(t, ps[0], now, trigger);
      EvaluationsSendAt(EvaluateRule(t, ps[0], now, trigger).t, ps[1..], now, trigger);
    }
  }

  // A tick sends at its own instant.
  lemma TickSendsAt(t: Tables, now: Time)
    requires Good(t)
    ensures forall n | n in OnTick(t, now).sends :: n.at == now
  {
    EvaluationsSendAt(t, OrderOf(DueSet(t)), now, ByTick);
  }

  // An event's row, if its subject has one, is newer than it.
  predicate Overtaken(t: Tables, e: Event) {
    if e.QueueSnapshot? then e.queueId in t.queues && e.ts < t.queues[e.queueId].lastEventTs
    else e.agentId in t.agents && e.ts < t.agents[e.agentId].lastEventTs
  }

  // The line carries an event that changes its subject: valid, not logged before, not overtaken.
  predicate Changes(t: Tables, line: Line) {
    line.parsed.Some? && line.parsed.value.eventId !in t.log && !Overtaken(t, line.parsed.value)
  }

  // Such a line is admitted for evaluation at its event's own timestamp; no other is.
  lemma ChangesAt(t: Tables, line: Line)
    ensures Classify(t, line).Projected? <==> Changes(t, line)
    ensures Changes(t, line) ==>
      line.parsed.Some? && Classify(t, line) == Projected(SubjectOf(line.parsed.value), line.parsed.value.ts)
  {
  }

  // Whatever a line makes the engine send carries the event's own timestamp, wherever the clock is.
  lemma ArrivalSendsAt(t: Tables, line: Line, seqNo: nat)
    requires Good(t)
    ensures forall n | n in IngestLine(t, line, seqNo).sends :: line.parsed.Some? && n.at == line.parsed.value.ts
  {
    hide Good, Admit, RunEvals, Affected, Classify;
    ChangesAt(t, line);
    if Changes(t, line) {
      var ref, at := SubjectOf(line.parsed.value), line.parsed.value.ts;
      AdmitStaysGood(t, line, seqNo);
      EvaluationsSendAt(Admit(t, line, seqNo), OrderOf(Affected(Admit(t, line, seqNo), ref)), at, ByEvent);
    }
  }

  lemma AdmitStaysGood(t: Tables, line: Line, n: nat)
    requires Good(t)
    ensures Good(Admit(t, line, n))
  {
    hide CountersAfter, LogAfter, Classify, QueuesAfter, AgentsAfter, PairFits, Accepted;
  }

  lemma AdmitLeavesEpisodes(t: Tables, line: Line, n: nat)
    ensures Admit(t, line, n).ledger == t.ledger && Admit(t, line, n).rules == t.rules
  {
  }

  // A line that is invalid, logged before or overtaken evaluates nothing.
  lemma OtherLinesEvaluateNothing(t: Tables, line: Line, seqNo: nat)
    requires !Changes(t, line)
    ensures IngestLine(t, line, seqNo).sends == [] && IngestLine(t, line, seqNo).t.ledger == t.ledger
  {
    hide Admit, Classify;
    ChangesAt(t, line);
    AdmitLeavesEpisodes(t, line, seqNo);
  }

  // A line that changes its subject evaluates it, under each enabled rule of its kind that selects it, on the row the
  // event leaves and at the event's timestamp; the other pairs keep their rows.
  lemma ArrivalEvaluates(t: Tables, line: Line, seqNo: nat, p: Pair, s: SubjectState)
    requires Good(t) && Changes(t, line) && p.subject == SubjectOf(line.parsed.value).id
    requires var after, ref := Admit(t, line, seqNo), SubjectOf(line.parsed.value);
      && Stored(after, p, s) && after.rules[p.rule].rule.subjectType == ref.kind
      && ref.id in Selected(after, after.rules[p.rule].rule)
    ensures exists trs :: Evaluates(t.rules[p.rule].rule, RowsOf(t.ledger, p), s, line.parsed.value.ts,
                                    RowsOf(IngestLine(t, line, seqNo).t.ledger, p), trs)
  {
    hide Good, Admit, EvalPair, Affected, Selected, Classify, Changes, RowsOf, Evaluates, Stored, RunEvals;
    ChangesAt(t, line);
    var after, ref, at := Admit(t, line, seqNo), SubjectOf(line.parsed.value), line.parsed.value.ts;
    AdmitStaysGood(t, line, seqNo);
    AdmitLeavesEpisodes(t, line, seqNo);
    StoredMeans(after, p, s);
    AffectedMeans(after, ref, p);
    EventRows(after, ref, at, p);
    EvaluationMeans(after, p, at, s);
    assert Evaluates(t.rules[p.rule].rule, RowsOf(t.ledger, p), s, at,
                     RowsOf(IngestLine(t, line, seqNo).t.ledger, p), EvalPair(after, p, at).transitions);
  }

  lemma StoredMeans(t: Tables, p: Pair, s: SubjectState)
    requires Stored(t, p, s)
    ensures p.rule in t.rules && t.rules[p.rule].enabled
  {
  }

  // In particular a rule without for-duration opens, with no active row before, exactly when its conditions hold on the
  // new row at the event's timestamp, and that is the instant it opens at.
  lemma ArrivalOpensIff(t: Tables, line: Line, seqNo: nat, p: Pair, s: SubjectState)
    requires Good(t) && Changes(t, line) && p.subject == SubjectOf(line.parsed.value).id
    requires var after, ref := Admit(t, line, seqNo), SubjectOf(line.parsed.value);
      && Stored(after, p, s) && after.rules[p.rule].rule.subjectType == ref.kind
      && ref.id in Selected(after, after.rules[p.rule].rule)
    requires ActiveAt(RowsOf(t.ledger, p)).None? && t.rules[p.rule].rule.forDurationSec == 0
    ensures var rows, later := RowsOf(t.ledger, p), RowsOf(IngestLine(t, line, seqNo).t.ledger, p);
      var at := line.parsed.value.ts;
      if AllHold(t.rules[p.rule].rule, s, at) then
        && |later| == |rows| + 1 && later[..|rows|] == rows
        && later[|rows|].episode.state.Open? && later[|rows|].episode.openedAt == Some(at)
      else later == rows
  {
    ArrivalEvaluates(t, line, seqNo, p, s);
    hide Admit, IngestLine, AllHold, Good, ActiveAt, Becomes;
  }

  // The row a changing event leaves: a queue's is the snapshot's, an agent's the projection on the row before.
  lemma RowAfterArrival(t: Tables, line: Line, seqNo: nat)
    requires Changes(t, line)
    ensures var e, after := line.parsed.value, Admit(t, line, seqNo);
      if e.QueueSnapshot? then RowIs(after, Queue, e.queueId, QueueRow(ApplySnapshot(None, e)))
      else RowIs(after, Agent, e.agentId, AgentRow(ApplyAgentEvent(PriorAgent(t, e.agentId), e)))
  {
    hide CountersAfter, LogAfter, ApplyAgentEvent;
    ChangesAt(t, line);
  }
}
