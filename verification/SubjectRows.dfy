// What a subject's row remembers of its events and what its facts then report. An agent's row keeps the last state
// change, the last adherence check and the last queue list that were not overtaken, each independent of the others
// (app/projection, app/evaluation/facts_agent.py, app/evaluation/facts_queue.py).
module SubjectRows {
  import opened Base
  import opened Domain
  import opened Facts
  import opened Rules
  import opened Comparisons
  import opened Evaluation
  import opened Engine
  import opened Ingest

  // The two kinds of agent events.
  datatype Kind = Change | Check

  predicate Is(e: Event, kind: Kind) {
    if kind.Change? then e.AgentStateChange? else e.AdherenceCheck?
  }

  function Last(es: seq<Event>, kind: Kind): (e: Option<Event>)
    ensures e.Some? ==> Is(e.value, kind) && e.value in es
  {
    if es == [] then None
    else if Is(es[|es| - 1], kind) then Some(es[|es| - 1])
    else Last(es[..|es| - 1], kind)
  }

  // The row agrees with its events: no adherence check touches the current state or when it was entered, no state
  // change touches the violation, and whatever came last gives the queues and the watermark.
  ghost predicate Remembers(a: AgentState, es: seq<Event>)
    requires es != [] && forall i | 0 <= i < |es| :: !es[i].QueueSnapshot?
  {
    var change, check, last := Last(es, Change), Last(es, Check), es[|es| - 1];
    && a.currentState == (if change.Some? then Some(NormalizeAgentState(change.value.newState)) else None)
    && a.stateEnteredAt == (if change.Some? then Some(change.value.ts) else None)
    && a.violationActive == (check.Some? && check.value.inViolation)
    && a.violationStartedAt ==
         (if check.Some? && check.value.inViolation then check.value.violationStartedAt else None)
    && a.violationStartSource == (if a.violationStartedAt.Some? then FromEvent else UnknownSource)
    && a.queueIds == (if last.queueIds.Some? then last.queueIds.value else [])
    && a.lastEventTs == last.ts
    && a.agentId == es[0].agentId
  }

  lemma {:induction false} AgentRowRemembers(es: seq<Event>)
    requires es != [] && forall i | 0 <= i < |es| :: !es[i].QueueSnapshot?
    ensures Fold(es).Some? && Fold(es).value.AgentRow? && Remembers(Fold(es).value.a, es)
  {
    hide Remembers, ApplyEvent, Last;
    var k := |es| - 1;
    assert forall i | 0 <= i < k :: es[..k][i] == es[i];
    if k == 0 {
      FirstRecord(es[0], es);
      assert Fold(es[..0]) == None;
    } else {
      AgentRowRemembers(es[..k]);
      NextRecord(Fold(es[..k]).value.a, es[..k], es);
    }
  }

  lemma FirstRecord(e: Event, es: seq<Event>)
    requires es == [e] && !e.QueueSnapshot?
    ensures ApplyEvent(None, e).AgentRow? && Remembers(ApplyEvent(None, e).a, es)
  {
  }

  lemma NextRecord(a: AgentState, front: seq<Event>, es: seq<Event>)
    requires |es| > 1 && front == es[..|es| - 1]
    requires forall i | 0 <= i < |es| :: !es[i].QueueSnapshot?
    requires (forall i | 0 <= i < |front| :: !front[i].QueueSnapshot?) && Remembers(a, front)
    ensures var row := ApplyEvent(Some(AgentRow(a)), es[|es| - 1]); row.AgentRow? && Remembers(row.a, es)
  {
    hide NormalizeAgentState;
  }

  lemma {:induction false} RecordsBelong(es: seq<Event>, e: Event)
    ensures e in Records(es) ==> e in es
  {
    if es != [] { RecordsBelong(es[..|es| - 1], e); }
  }

  // After any input, an agent's row is what its first-write events that were not overtaken say.
  lemma AgentRowAfterIngest(t: Tables, lines: seq<Line>, n: nat, id: string)
    requires NothingIngested(t)
    ensures var agents, own := AdmitAll(t, lines, n).agents, AgentRecords(lines, id);
      && (forall i | 0 <= i < |own| :: !own[i].QueueSnapshot?)
      && (id in agents <==> own != [])
      && (id in agents ==> Remembers(agents[id], own))
  {
    IngestIsAFold(t, lines, n);
    var after, ref := AdmitAll(t, lines, n), SubjectRef(Agent, id);
    var all, own := Concerning(FirstWrites(lines), ref), AgentRecords(lines, id);
    forall i | 0 <= i < |own| ensures !own[i].QueueSnapshot? {
      RecordsBelong(all, own[i]);
      ConcerningMembers(FirstWrites(lines), ref, own[i]);
    }
    assert RowInStep(StateFor(after, ref.kind, ref.id), all);
    if own != [] { AgentRowRemembers(own); }
  }

  // The agent's first-write events that were not older than an earlier one.
  ghost function AgentRecords(lines: seq<Line>, id: string): seq<Event> {
    Records(Concerning(FirstWrites(lines), SubjectRef(Agent, id)))
  }

  // An adherence check is counted as a disagreement exactly when it contradicts the last state change that was not
  // overtaken.
  lemma DisagreementMeaning(t: Tables, lines: seq<Line>, n: nat, e: Event)
    requires NothingIngested(t) && e.AdherenceCheck?
    ensures var change := Last(AgentRecords(lines, e.agentId), Change);
      Disagrees(AdmitAll(t, lines, n), e)
      <==> change.Some? && NormalizeAgentState(change.value.newState) != NormalizeAgentState(e.actualState)
  {
    AgentRowAfterIngest(t, lines, n, e.agentId);
  }

  // What an agent's facts report: the state and its duration from the last state change, the violation from the last
  // check. A violation whose start the check did not give has no duration, however long ago the check was.
  ghost predicate FactsReport(a: AgentState, es: seq<Event>, now: Time) {
    var change, check, row := Last(es, Change), Last(es, Check), AgentRow(a);
    && ValueOf(CurrentState, row, now)
       == (if change.Some? then Text(NormalizeAgentState(change.value.newState)) else Missing)
    && ValueOf(CurrentStateDurationSec, row, now)
       == (if change.Some? then Num(Seconds(now - change.value.ts)) else Missing)
    && ValueOf(InAdherenceViolation, row, now) == Flag(check.Some? && check.value.inViolation)
    && ValueOf(AdherenceViolationDurationSec, row, now)
       == (if check.Some? && check.value.inViolation && check.value.violationStartedAt.Some?
           then Num(Seconds(now - check.value.violationStartedAt.value)) else Missing)
  }

  lemma RememberedFacts(a: AgentState, es: seq<Event>, now: Time)
    requires es != [] && forall i | 0 <= i < |es| :: !es[i].QueueSnapshot?
    requires Remembers(a, es)
    ensures FactsReport(a, es, now)
  {
    hide NormalizeAgentState, Last;
  }

  // So they do after any input.
  lemma AgentFactsAfterIngest(t: Tables, lines: seq<Line>, n: nat, id: string, now: Time)
    requires NothingIngested(t) && id in AdmitAll(t, lines, n).agents
    ensures FactsReport(AdmitAll(t, lines, n).agents[id], AgentRecords(lines, id), now)
  {
    hide Remembers, FactsReport, AgentRecords;
    AgentRowAfterIngest(t, lines, n, id);
    RememberedFacts(AdmitAll(t, lines, n).agents[id], AgentRecords(lines, id), now);
  }

  // Of any stored agent row, ingested or not: the state facts are missing without the column they read, the violation
  // flag never is, and the violation's duration is known only with a start from a known source.
  lemma AgentFactsOfAnyRow(a: AgentState, now: Time)
    ensures var row := AgentRow(a);
      && (ValueOf(CurrentState, row, now).Missing? <==> a.currentState == None)
      && (ValueOf(CurrentStateDurationSec, row, now).Missing? <==> a.stateEnteredAt == None)
      && ValueOf(InAdherenceViolation, row, now) == Flag(a.violationActive)
      && (ValueOf(AdherenceViolationDurationSec, row, now).Missing?
          <==> a.violationStartSource == UnknownSource || a.violationStartedAt == None)
  {
  }

  // Of any stored queue row: a fact is missing exactly without the column it reads; the SLA risk also without a target
  // other than zero; the age never is.
  lemma QueueFactsOfAnyRow(q: QueueState, now: Time)
    ensures var row := QueueRow(q);
      && (ValueOf(TicketsWaiting, row, now).Missing? <==> q.ticketsWaiting == None)
      && (ValueOf(LongestWaitSec, row, now).Missing? <==> q.longestWaitSec == None)
      && (ValueOf(SlaTargetSec, row, now).Missing? <==> q.slaTargetSec == None)
      && (ValueOf(AgentsAvailable, row, now).Missing? <==> q.agentsAvailable == None)
      && (ValueOf(AgentsOnCall, row, now).Missing? <==> q.agentsOnCall == None)
      && (ValueOf(VolumeLast15m, row, now).Missing? <==> q.volumeLast15m == None)
      && (ValueOf(VolumeForecastNext15m, row, now).Missing? <==> q.volumeForecastNext15m == None)
      && (ValueOf(SlaRiskPct, row, now).Missing?
          <==> q.longestWaitSec == None || q.slaTargetSec == None || q.slaTargetSec == Some(0))
      && ValueOf(SnapshotAgeSec, row, now) == Num(Seconds(now - q.lastEventTs))
  {
  }

  // The six state names stand for themselves; any other reads as unknown.
  lemma NormalizationMeans(raw: string)
    ensures NormalizeAgentState(raw) ==
      if raw == "available" || raw == "on_call" || raw == "on_break" || raw == "in_meeting" || raw == "offline"
      then raw else "unknown"
  {
  }

  // After any input, "current_state eq x" holds of an agent exactly when its last state change that was not overtaken
  // reads as x, and "neq x" exactly when it reads as something else.
  lemma CurrentStateHolds(t: Tables, lines: seq<Line>, n: nat, id: string, x: string, now: Time)
    requires NothingIngested(t) && id in AdmitAll(t, lines, n).agents
    ensures var row := AgentRow(AdmitAll(t, lines, n).agents[id]);
      var change := Last(AgentRecords(lines, id), Change);
      && (Holds(Condition(CurrentState, Eq, Literal(Text(x))), row, now)
          <==> change.Some? && NormalizeAgentState(change.value.newState) == x)
      && (Holds(Condition(CurrentState, Neq, Literal(Text(x))), row, now)
          <==> change.Some? && NormalizeAgentState(change.value.newState) != x)
  {
    AgentFactsAfterIngest(t, lines, n, id, now);
    hide AdmitAll, AgentRecords, Last, NormalizeAgentState, Extract, ValueOf;
    var v := ValueOf(CurrentState, AgentRow(AdmitAll(t, lines, n).agents[id]), now);
    if v.Text? { EqualityMeans(v, Text(x)); }
  }

  // After a snapshot every fact of its queue is known but two: the forecast when the snapshot had none, and the SLA
  // risk when its target is zero. The snapshot's age is the time since it.
  lemma QueueFactsAfterSnapshot(prev: Option<QueueState>, e: Event, f: FactName, now: Time)
    requires e.QueueSnapshot? && Registered(Queue, f).Some?
    ensures var row := QueueRow(ApplySnapshot(prev, e));
      && (ValueOf(f, row, now).Missing? <==>
            (f.VolumeForecastNext15m? && e.volumeForecastNext15m.None?) || (f.SlaRiskPct? && e.slaTargetSec == 0))
      && (f.TicketsWaiting? ==> ValueOf(f, row, now) == Num(e.ticketsWaiting as real))
      && (f.LongestWaitSec? ==> ValueOf(f, row, now) == Num(e.longestWaitSec as real))
      && (f.SlaTargetSec? ==> ValueOf(f, row, now) == Num(e.slaTargetSec as real))
      && (f.AgentsAvailable? ==> ValueOf(f, row, now) == Num(e.agentsAvailable as real))
      && (f.AgentsOnCall? ==> ValueOf(f, row, now) == Num(e.agentsOnCall as real))
      && (f.VolumeLast15m? ==> ValueOf(f, row, now) == Num(e.volumeLast15m as real))
      && (f.VolumeForecastNext15m? && e.volumeForecastNext15m.Some? ==>
            ValueOf(f, row, now) == Num(e.volumeForecastNext15m.value as real))
      && (f.SnapshotAgeSec? ==> ValueOf(f, row, now) == Num(Seconds(now - e.ts)))
      && (f.SlaRiskPct? && e.slaTargetSec != 0 ==>
            ValueOf(f, row, now).n * e.slaTargetSec as real == e.longestWaitSec as real)
  {
    if f.SlaRiskPct? && e.slaTargetSec != 0 {
      assert e.slaTargetSec as real != 0.0;
    }
  }
}
