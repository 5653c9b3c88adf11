// Events as they arrive and subject rows as they are stored
// (app/domain/events.py, app/domain/subjects.py, app/ingest/normalize.py), and the projection
// functions from one to the other (app/projection/agent.py, app/projection/queue.py).
module Domain {
  import opened Base

  datatype SubjectType = Queue | Agent

  datatype SubjectRef = SubjectRef(kind: SubjectType, id: string)

  datatype Event =
    | QueueSnapshot(eventId: string, ts: Time, queueId: string, ticketsWaiting: int, longestWaitSec: int,
                    slaTargetSec: int, agentsAvailable: int, agentsOnCall: int, volumeLast15m: int,
                    volumeForecastNext15m: Option<int>)
    | AgentStateChange(eventId: string, ts: Time, agentId: string, queueIds: Option<seq<string>>,
                       previousState: Option<string>, previousStateDurationSec: Option<int>, newState: string)
    | AdherenceCheck(eventId: string, ts: Time, agentId: string, queueIds: Option<seq<string>>,
                     scheduledState: string, actualState: string, inViolation: bool,
                     violationStartedAt: Option<Time>)

  function SubjectOf(e: Event): SubjectRef {
    match e
    case QueueSnapshot(_, _, q, _, _, _, _, _, _, _) => SubjectRef(Queue, q)
    case AgentStateChange(_, _, a, _, _, _, _) => SubjectRef(Agent, a)
    case AdherenceCheck(_, _, a, _, _, _, _, _) => SubjectRef(Agent, a)
  }

  datatype QueueState = QueueState(queueId: string, ticketsWaiting: Option<int>, longestWaitSec: Option<int>,
                                   slaTargetSec: Option<int>, agentsAvailable: Option<int>,
                                   agentsOnCall: Option<int>, volumeLast15m: Option<int>,
                                   volumeForecastNext15m: Option<int>, lastEventTs: Time)

  datatype ViolationSource = FromEvent | Observed | UnknownSource

  datatype AgentState = AgentState(agentId: string, currentState: Option<string>, stateEnteredAt: Option<Time>,
                                   queueIds: seq<string>, violationActive: bool,
                                   violationStartedAt: Option<Time>, violationStartSource: ViolationSource,
                                   lastEventTs: Time)

  const KNOWN_AGENT_STATES: set<string> := {"available", "on_call", "on_break", "in_meeting", "offline", "unknown"}

  function NormalizeAgentState(raw: string): string {
    if raw in KNOWN_AGENT_STATES then raw else "unknown"
  }

  function NormalizeQueueIds(raw: Option<seq<string>>): seq<string> {
    if raw.Some? then raw.value else []
  }

  // A snapshot is the whole state of its queue: the previous row plays no part.
  function ApplySnapshot(prev: Option<QueueState>, e: Event): QueueState
    requires e.QueueSnapshot?
  {
    QueueState(e.queueId, Some(e.ticketsWaiting), Some(e.longestWaitSec), Some(e.slaTargetSec),
               Some(e.agentsAvailable), Some(e.agentsOnCall), Some(e.volumeLast15m),
               e.volumeForecastNext15m, e.ts)
  }

  function AgentBase(prev: Option<AgentState>, agentId: string, ts: Time): AgentState {
    if prev.Some? then prev.value
    else AgentState(agentId, None, None, [], false, None, UnknownSource, ts)
  }

  function ApplyStateChange(prev: Option<AgentState>, e: Event): AgentState
    requires e.AgentStateChange?
  {
    AgentBase(prev, e.agentId, e.ts).(
      currentState := Some(NormalizeAgentState(e.newState)),
      stateEnteredAt := Some(e.ts),
      queueIds := NormalizeQueueIds(e.queueIds),
      lastEventTs := e.ts)
  }

  function ApplyAdherence(prev: Option<AgentState>, e: Event): AgentState
    requires e.AdherenceCheck?
  {
    var updated := AgentBase(prev, e.agentId, e.ts).(
      queueIds := NormalizeQueueIds(e.queueIds), lastEventTs := e.ts);
    if !e.inViolation then
      updated.(violationActive := false, violationStartedAt := None, violationStartSource := UnknownSource)
    else if e.violationStartedAt.Some? then
      updated.(violationActive := true, violationStartedAt := e.violationStartedAt,
               violationStartSource := FromEvent)
    else
      updated.(violationActive := true, violationStartedAt := None, violationStartSource := UnknownSource)
  }

  function ApplyAgentEvent(prev: Option<AgentState>, e: Event): AgentState
    requires !e.QueueSnapshot?
  {
    if e.AdherenceCheck? then ApplyAdherence(prev, e) else ApplyStateChange(prev, e)
  }

  // An adherence check contradicts the last state change on record.
  predicate StateDisagreement(prev: Option<AgentState>, e: Event)
    requires e.AdherenceCheck?
  {
    prev.Some? && prev.value.currentState.Some?
    && NormalizeAgentState(e.actualState) != prev.value.currentState.value
  }

  // The row the engine evaluates: one of the two tables' rows.
  datatype SubjectState = QueueRow(q: QueueState) | AgentRow(a: AgentState)

  function KindOf(s: SubjectState): SubjectType {
    if s.QueueRow? then Queue else Agent
  }
}
