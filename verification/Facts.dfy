// The facts a rule can mention and how each is read off a subject row at an instant
// (app/domain/facts.py, app/evaluation/facts_agent.py, app/evaluation/facts_queue.py, app/evaluation/registry.py).
module Facts {
  import opened Base
  import opened Domain

  // Names a rule may write. Any name that is not one of the thirteen is Unregistered.
  datatype FactName =
    | CurrentState | CurrentStateDurationSec | InAdherenceViolation | AdherenceViolationDurationSec
    | TicketsWaiting | LongestWaitSec | SlaTargetSec | AgentsAvailable | AgentsOnCall
    | VolumeLast15m | VolumeForecastNext15m | SnapshotAgeSec | SlaRiskPct
    | Unregistered(name: string)

  datatype ValueType = Number | Boolean | Str

  // Missing is the sentinel for "cannot be computed", distinct from every real value.
  // Items occurs only as a literal written in a rule.
  datatype Value = Missing | Num(n: real) | Flag(b: bool) | Text(s: string) | Items(items: seq<Value>)

  datatype FactSpec = FactSpec(name: FactName, kind: SubjectType, valueType: ValueType)

  const QUEUE_FACTS: seq<FactSpec> := [
    FactSpec(TicketsWaiting, Queue, Number), FactSpec(LongestWaitSec, Queue, Number),
    FactSpec(SlaTargetSec, Queue, Number), FactSpec(AgentsAvailable, Queue, Number),
    FactSpec(AgentsOnCall, Queue, Number), FactSpec(VolumeLast15m, Queue, Number),
    FactSpec(VolumeForecastNext15m, Queue, Number), FactSpec(SnapshotAgeSec, Queue, Number),
    FactSpec(SlaRiskPct, Queue, Number)]

  const AGENT_FACTS: seq<FactSpec> := [
    FactSpec(CurrentState, Agent, Str), FactSpec(CurrentStateDurationSec, Agent, Number),
    FactSpec(InAdherenceViolation, Agent, Boolean), FactSpec(AdherenceViolationDurationSec, Agent, Number)]

  // The lookup the built registry answers (see RegistryAnswersRegistered).
  function Registered(kind: SubjectType, f: FactName): Option<ValueType> {
    match kind
    case Queue => (
      match f
      case TicketsWaiting => Some(Number)
      case LongestWaitSec => Some(Number)
      case SlaTargetSec => Some(Number)
      case AgentsAvailable => Some(Number)
      case AgentsOnCall => Some(Number)
      case VolumeLast15m => Some(Number)
      case VolumeForecastNext15m => Some(Number)
      case SnapshotAgeSec => Some(Number)
      case SlaRiskPct => Some(Number)
      case _ => None)
    case Agent => (
      match f
      case CurrentState => Some(Str)
      case CurrentStateDurationSec => Some(Number)
      case InAdherenceViolation => Some(Boolean)
      case AdherenceViolationDurationSec => Some(Number)
      case _ => None)
  }

  type Registry = map<SubjectType, map<FactName, ValueType>>

  function Lookup(r: Registry, kind: SubjectType, f: FactName): Option<ValueType> {
    if kind in r && f in r[kind] then Some(r[kind][f]) else None
  }

  ghost predicate NoDuplicateFacts(specs: seq<FactSpec>) {
    forall i, j :: 0 <= i < j < |specs| ==> !(specs[i].kind == specs[j].kind && specs[i].name == specs[j].name)
  }

  // The registry constructor: refuses a fact registered twice for one subject type, and otherwise
  // answers exactly the specs it was given.
  method BuildRegistry(specs: seq<FactSpec>) returns (r: Option<Registry>)
    ensures r.Some? <==> NoDuplicateFacts(specs)
    ensures r.Some? ==> forall kind, f, v :: Lookup(r.value, kind, f) == Some(v) <==> FactSpec(f, kind, v) in specs
  {
    var bySubject: Registry := map[];
    for i := 0 to |specs|
      invariant NoDuplicateFacts(specs[..i])
      invariant forall kind, f, v :: Lookup(bySubject, kind, f) == Some(v) <==> FactSpec(f, kind, v) in specs[..i]
    {
      var spec := specs[i];
      var bucket := if spec.kind in bySubject then bySubject[spec.kind] else map[];
      if spec.name in bucket {
        var v := bucket[spec.name];
        assert Lookup(bySubject, spec.kind, spec.name) == Some(v);
        assert FactSpec(spec.name, spec.kind, v) in specs[..i];
        return None;
      }
      assert Lookup(bySubject, spec.kind, spec.name) == None;
      forall j | 0 <= j < i ensures !(specs[j].kind == spec.kind && specs[j].name == spec.name) {
        assert specs[j] in specs[..i];
        assert specs[j] == FactSpec(specs[j].name, specs[j].kind, specs[j].valueType);
        assert Lookup(bySubject, specs[j].kind, specs[j].name) == Some(specs[j].valueType);
      }
      bySubject := bySubject[spec.kind := bucket[spec.name := spec.valueType]];
      assert specs[..i + 1] == specs[..i] + [spec];
    }
    assert specs[..|specs|] == specs;
    r := Some(bySubject);
  }

  // The thirteen specs register exactly the pairs that Registered answers, none of them twice.
  lemma RegistryAnswersRegistered(kind: SubjectType, f: FactName, v: ValueType)
    ensures Registered(kind, f) == Some(v) <==> FactSpec(f, kind, v) in QUEUE_FACTS + AGENT_FACTS
  {
    var spec := FactSpec(f, kind, v);
    assert spec in QUEUE_FACTS + AGENT_FACTS <==> spec in QUEUE_FACTS || spec in AGENT_FACTS;
    assert spec in QUEUE_FACTS ==> kind.Queue? && Registered(kind, f) == Some(v);
    assert spec in AGENT_FACTS ==> kind.Agent? && Registered(kind, f) == Some(v);
    if Registered(kind, f) == Some(v) {
      if kind.Queue? {
        assert spec in QUEUE_FACTS;
      } else {
        assert spec in AGENT_FACTS;
      }
    }
  }

  // So building the registry never fails.
  lemma NoFactRegisteredTwice()
    ensures NoDuplicateFacts(QUEUE_FACTS + AGENT_FACTS)
  {
    var specs := QUEUE_FACTS + AGENT_FACTS;
    forall i, j | 0 <= i < j < |specs| ensures specs[i].name != specs[j].name {
      assert |QUEUE_FACTS| == 9 && |AGENT_FACTS| == 4;
    }
  }

  // The facts whose value moves with the clock while the stored row stays the same.
  predicate TimeDerived(f: FactName) {
    f.CurrentStateDurationSec? || f.AdherenceViolationDurationSec? || f.SnapshotAgeSec?
  }

  function Seconds(span: int): real {
    span as real / 1000000.0
  }

  function OfInt(v: Option<int>): Value {
    if v.Some? then Num(v.value as real) else Missing
  }

  function ExtractQueue(f: FactName, q: QueueState, now: Time): Value {
    match f
    case TicketsWaiting => OfInt(q.ticketsWaiting)
    case LongestWaitSec => OfInt(q.longestWaitSec)
    case SlaTargetSec => OfInt(q.slaTargetSec)
    case AgentsAvailable => OfInt(q.agentsAvailable)
    case AgentsOnCall => OfInt(q.agentsOnCall)
    case VolumeLast15m => OfInt(q.volumeLast15m)
    case VolumeForecastNext15m => OfInt(q.volumeForecastNext15m)
    case SnapshotAgeSec => Num(Seconds(now - q.lastEventTs))
    case SlaRiskPct =>
      if q.longestWaitSec.None? || q.slaTargetSec.None? || q.slaTargetSec.value == 0 then Missing
      else Num(q.longestWaitSec.value as real / q.slaTargetSec.value as real)
    case _ => Missing
  }

  function ExtractAgent(f: FactName, a: AgentState, now: Time): Value {
    match f
    case CurrentState => if a.currentState.Some? then Text(a.currentState.value) else Missing
    case CurrentStateDurationSec =>
      if a.stateEnteredAt.Some? then Num(Seconds(now - a.stateEnteredAt.value)) else Missing
    case InAdherenceViolation => Flag(a.violationActive)
    case AdherenceViolationDurationSec =>
      if a.violationStartSource.UnknownSource? || a.violationStartedAt.None? then Missing
      else Num(Seconds(now - a.violationStartedAt.value))
    case _ => Missing
  }

  // registry.get(...).extractor(state, now); None when the lookup itself fails.
  function Extract(f: FactName, state: SubjectState, now: Time): Option<Value> {
    if Registered(KindOf(state), f).None? then None
    else if state.QueueRow? then Some(ExtractQueue(f, state.q, now))
    else Some(ExtractAgent(f, state.a, now))
  }

  // A registered fact is time-derived if and only if on some row its value differs between two instants.
  lemma TimeDerivedIff(kind: SubjectType, f: FactName)
    requires Registered(kind, f).Some?
    ensures TimeDerived(f) <==>
      exists s: SubjectState, t1, t2 :: KindOf(s) == kind && Extract(f, s, t1) != Extract(f, s, t2)
  {
    var queue := QueueRow(QueueState("", None, None, None, None, None, None, None, 0));
    var agent := AgentRow(AgentState("", None, Some(0), [], true, Some(0), FromEvent, 0));
    var s := if kind.Queue? then queue else agent;
    if TimeDerived(f) {
      assert KindOf(s) == kind && Extract(f, s, 0) != Extract(f, s, SECOND);
    } else {
      forall s: SubjectState, t1, t2 ensures Extract(f, s, t1) == Extract(f, s, t2) {
        OnlyTimeDerivedFactsMove(f, s, t1, t2);
      }
    }
  }

  lemma OnlyTimeDerivedFactsMove(f: FactName, state: SubjectState, t1: Time, t2: Time)
    requires !TimeDerived(f)
    ensures Extract(f, state, t1) == Extract(f, state, t2)
  {
  }
}
