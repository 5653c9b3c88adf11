// The rule catalogue as validation sees it (app/domain/rules.py), and the seven rules the system ships with
// (seeds/rules.json): accepted, and holding of exactly the rows their names say.
module SeedRules {
  import opened Base
  import opened Domain
  import opened Facts
  import opened Rules
  import opened Comparisons
  import opened Evaluation
  import opened Readings
  import opened Engine
  import opened Ingest
  import opened SubjectRows

  // A value of the type a fact is registered with.
  predicate Fits(type_: ValueType, v: Value) {
    (type_ == Number && v.Num?) || (type_ == Boolean && v.Flag?) || (type_ == Str && v.Text?)
  }

  predicate InCatalogue(f: FactName, kind: SubjectType, type_: ValueType) {
    FactSpec(f, kind, type_) in QUEUE_FACTS + AGENT_FACTS
  }

  // The condition compares a fact of the type with another fact of it, a literal of it, or, for membership and only
  // there, a list of such literals.
  predicate TypesFit(kind: SubjectType, c: Condition, type_: ValueType) {
    if c.operand.FactRef? then c.op != In && InCatalogue(c.operand.target, kind, type_)
    else if c.op == In then
      c.operand.value.Items? && forall i | 0 <= i < |c.operand.value.items| :: Fits(type_, c.operand.value.items[i])
    else Fits(type_, c.operand.value)
  }

  // A condition passes validation if and only if its fact is registered for the subject type, with a type its other
  // side fits.
  lemma ConditionAcceptedIff(kind: SubjectType, c: Condition)
    ensures ConditionAccepted(kind, c) <==>
      exists type_ :: InCatalogue(c.fact, kind, type_) && TypesFit(kind, c, type_)
  {
    forall f, type_ ensures InCatalogue(f, kind, type_) <==> Registered(kind, f) == Some(type_) {
      RegistryAnswersRegistered(kind, f, type_);
    }
    hide InCatalogue;
    if ConditionAccepted(kind, c) {
      var type_ := Registered(kind, c.fact).value;
      assert InCatalogue(c.fact, kind, type_) && TypesFit(kind, c, type_);
    }
  }

  predicate Catalogued(kind: SubjectType, c: Condition) {
    exists type_ :: InCatalogue(c.fact, kind, type_) && TypesFit(kind, c, type_)
  }

  // A rule passes validation if and only if it has conditions, each of them does, it sends to the subject only when the
  // subject is an agent and to a channel only when it names one, and its message mentions only facts its conditions
  // mention.
  lemma AcceptedIff(r: Rule)
    ensures Accepted(r) <==>
      && r.conditions != []
      && (forall i | 0 <= i < |r.conditions| :: Catalogued(r.subjectType, r.conditions[i]))
      && (r.recipient.kind == SubjectAgent ==> r.subjectType == Agent)
      && (r.recipient.kind == Channel ==> r.recipient.target != None && r.recipient.target != Some(""))
      && (forall i | 0 <= i < |r.template| && r.template[i].FactHole? ::
            exists c :: c in r.conditions
              && (r.template[i].fact == c.fact || c.operand == FactRef(r.template[i].fact)))
  {
    forall i | 0 <= i < |r.conditions|
      ensures ConditionAccepted(r.subjectType, r.conditions[i]) <==> Catalogued(r.subjectType, r.conditions[i])
    {
      ConditionAcceptedIff(r.subjectType, r.conditions[i]);
    }
    hide ConditionAccepted, Catalogued;
    forall i | 0 <= i < |r.template| && r.template[i].FactHole? { DeclaredMeans(r.conditions, r.template[i].fact); }
  }

  lemma DeclaredMeans(cs: seq<Condition>, f: FactName)
    ensures f in Declared(cs) <==> exists c :: c in cs && (f == c.fact || c.operand == FactRef(f))
  {
    if c :| c in cs && f in Mentions(c) {
      assert f == c.fact || c.operand == FactRef(f);
    }
    if c :| c in cs && (f == c.fact || c.operand == FactRef(f)) {
      assert f in Mentions(c);
    }
  }

  /* ---------- The seven rules ---------- */

  const BILLING: Rule := Rule("billing queue > 20 tickets waiting", Queue, Ids(["billing"]),
    [Condition(TicketsWaiting, Gt, Literal(Num(20.0)))], 300, 0, Recipient(Author, None),
    [SubjectHole, Verbatim(" has "), FactHole(TicketsWaiting), Verbatim(" tickets waiting")], "lead_sam")

  const BREACHING: Rule := Rule("queue breaching SLA", Queue, All,
    [Condition(LongestWaitSec, Gt, FactRef(SlaTargetSec))], 300, 0, Recipient(Author, None),
    [SubjectHole, Verbatim(" is breaching SLA: "), FactHole(LongestWaitSec), Verbatim(" > "), FactHole(SlaTargetSec)],
    "lead_sam")

  const LONG_CALL: Rule := Rule("agent on a single call > 45 min", Agent, All,
    [Condition(CurrentState, Eq, Literal(Text("on_call"))),
     Condition(CurrentStateDurationSec, Gt, Literal(Num(2700.0)))],
    0, 0, Recipient(Author, None),
    [SubjectHole, Verbatim(" has been on a single call for "), FactHole(CurrentStateDurationSec), Verbatim("s")],
    "lead_sam")

  const OUT_OF_ADHERENCE: Rule := Rule("out of adherence > 10 min", Agent, All,
    [Condition(InAdherenceViolation, Eq, Literal(Flag(true))),
     Condition(AdherenceViolationDurationSec, Gt, Literal(Num(600.0)))],
    0, 600, Recipient(SubjectAgent, None),
    [SubjectHole, Verbatim(" has been out of adherence for "), FactHole(AdherenceViolationDurationSec), Verbatim("s")],
    "lead_sam")

  const BACKED_UP: Rule := Rule("queue severely backed up", Queue, All,
    [Condition(TicketsWaiting, Gt, Literal(Num(15.0)))], 0, 1800, Recipient(Channel, Some("#ops-alerts")),
    [SubjectHole, Verbatim(" has "), FactHole(TicketsWaiting), Verbatim(" tickets waiting")], "lead_sam")

  const UNDERSTAFFED: Rule := Rule("queue understaffed with tickets waiting", Queue, All,
    [Condition(AgentsAvailable, Eq, Literal(Num(0.0))), Condition(TicketsWaiting, Gt, Literal(Num(0.0)))],
    0, 900, Recipient(Author, None),
    [SubjectHole, Verbatim(" has 0 agents available with "), FactHole(TicketsWaiting), Verbatim(" tickets waiting")],
    "lead_sam")

  const AT_RISK: Rule := Rule("queue at risk of SLA breach", Queue, All,
    [Condition(SlaRiskPct, Gte, Literal(Num(0.8))), Condition(SlaRiskPct, Lt, Literal(Num(1.0)))],
    0, 600, Recipient(Author, None),
    [SubjectHole, Verbatim(" is at risk of breaching SLA ("), FactHole(SlaRiskPct), Verbatim(" of target)")],
    "lead_sam")

  lemma OneConditionAccepted(r: Rule)
    requires |r.conditions| == 1 && ConditionAccepted(r.subjectType, r.conditions[0]) && RecipientAccepted(r)
    requires forall i | 0 <= i < |r.template| && r.template[i].FactHole? ::
      r.template[i].fact in Mentions(r.conditions[0])
    ensures Accepted(r)
  {
    assert r.conditions[0] in r.conditions;
  }

  lemma TwoConditionsAccepted(r: Rule)
    requires |r.conditions| == 2 && RecipientAccepted(r)
    requires ConditionAccepted(r.subjectType, r.conditions[0]) && ConditionAccepted(r.subjectType, r.conditions[1])
    requires forall i | 0 <= i < |r.template| && r.template[i].FactHole? ::
      r.template[i].fact in Mentions(r.conditions[1])
    ensures Accepted(r)
  {
    assert r.conditions[1] in r.conditions;
  }

  lemma QueueRulesAreAccepted()
    ensures Accepted(BILLING) && Accepted(BREACHING) && Accepted(BACKED_UP)
  {
    OneConditionAccepted(BILLING);
    OneConditionAccepted(BREACHING);
    OneConditionAccepted(BACKED_UP);
  }

  lemma LongQueueRulesAreAccepted()
    ensures Accepted(UNDERSTAFFED) && Accepted(AT_RISK)
  {
    TwoConditionsAccepted(UNDERSTAFFED);
    TwoConditionsAccepted(AT_RISK);
  }

  lemma AgentRulesAreAccepted()
    ensures Accepted(LONG_CALL) && Accepted(OUT_OF_ADHERENCE)
  {
    TwoConditionsAccepted(LONG_CALL);
    TwoConditionsAccepted(OUT_OF_ADHERENCE);
  }

  lemma SeedRulesAreAccepted()
    ensures Accepted(BILLING) && Accepted(BREACHING) && Accepted(LONG_CALL) && Accepted(OUT_OF_ADHERENCE)
    ensures Accepted(BACKED_UP) && Accepted(UNDERSTAFFED) && Accepted(AT_RISK)
  {
    hide Accepted;
    QueueRulesAreAccepted();
    LongQueueRulesAreAccepted();
    AgentRulesAreAccepted();
  }

  /* ---------- What they hold of ---------- */

  lemma OneHolds(r: Rule, s: SubjectState, now: Time)
    requires |r.conditions| == 1
    ensures AllHold(r, s, now) <==> Holds(r.conditions[0], s, now)
  {
    hide Holds;
  }

  lemma TwoHold(r: Rule, s: SubjectState, now: Time)
    requires |r.conditions| == 2
    ensures AllHold(r, s, now) <==> Holds(r.conditions[0], s, now) && Holds(r.conditions[1], s, now)
  {
    hide Holds;
  }

  lemma HoldsOfNumbers(c: Condition, s: SubjectState, now: Time, x: real, y: real)
    requires c.op != In && ValueOf(c.fact, s, now) == Num(x) && RightOf(c, s, now) == Num(y)
    ensures Holds(c, s, now) <==> NumHolds(c.op, x, y)
  {
    hide ApplyOperator, ValueOf;
    NumbersCompare(c.op, x, y);
  }

  // On the row a snapshot leaves, at any instant.
  lemma WaitingRulesMean(prev: Option<QueueState>, e: Event, now: Time)
    requires e.QueueSnapshot?
    ensures var s := QueueRow(ApplySnapshot(prev, e));
      && (AllHold(BILLING, s, now) <==> e.ticketsWaiting > 20)
      && (AllHold(BACKED_UP, s, now) <==> e.ticketsWaiting > 15)
  {
    hide ValueOf, Holds, ApplySnapshot, AllHold;
    var s := QueueRow(ApplySnapshot(prev, e));
    QueueFactsAfterSnapshot(prev, e, TicketsWaiting, now);
    HoldsOfNumbers(BILLING.conditions[0], s, now, e.ticketsWaiting as real, 20.0);
    OneHolds(BILLING, s, now);
    HoldsOfNumbers(BACKED_UP.conditions[0], s, now, e.ticketsWaiting as real, 15.0);
    OneHolds(BACKED_UP, s, now);
  }

  lemma BreachingMeans(prev: Option<QueueState>, e: Event, now: Time)
    requires e.QueueSnapshot?
    ensures AllHold(BREACHING, QueueRow(ApplySnapshot(prev, e)), now) <==> e.longestWaitSec > e.slaTargetSec
  {
    hide ValueOf, Holds, ApplySnapshot, AllHold;
    var s := QueueRow(ApplySnapshot(prev, e));
    QueueFactsAfterSnapshot(prev, e, LongestWaitSec, now);
    QueueFactsAfterSnapshot(prev, e, SlaTargetSec, now);
    HoldsOfNumbers(BREACHING.conditions[0], s, now, e.longestWaitSec as real, e.slaTargetSec as real);
    OneHolds(BREACHING, s, now);
  }

  lemma UnderstaffedMeans(prev: Option<QueueState>, e: Event, now: Time)
    requires e.QueueSnapshot?
    ensures AllHold(UNDERSTAFFED, QueueRow(ApplySnapshot(prev, e)), now)
            <==> e.agentsAvailable == 0 && e.ticketsWaiting > 0
  {
    hide ValueOf, Holds, ApplySnapshot, AllHold;
    var s := QueueRow(ApplySnapshot(prev, e));
    QueueFactsAfterSnapshot(prev, e, AgentsAvailable, now);
    QueueFactsAfterSnapshot(prev, e, TicketsWaiting, now);
    HoldsOfNumbers(UNDERSTAFFED.conditions[0], s, now, e.agentsAvailable as real, 0.0);
    HoldsOfNumbers(UNDERSTAFFED.conditions[1], s, now, e.ticketsWaiting as real, 0.0);
    TwoHold(UNDERSTAFFED, s, now);
  }

  lemma AtRiskMeans(prev: Option<QueueState>, e: Event, now: Time)
    requires e.QueueSnapshot?
    ensures AllHold(AT_RISK, QueueRow(ApplySnapshot(prev, e)), now) <==>
      && e.slaTargetSec != 0
      && 0.8 <= e.longestWaitSec as real / e.slaTargetSec as real < 1.0
  {
    var s := QueueRow(ApplySnapshot(prev, e));
    TwoHold(AT_RISK, s, now);
    QueueFactsAfterSnapshot(prev, e, SlaRiskPct, now);
    if e.slaTargetSec != 0 {
      var risk := e.longestWaitSec as real / e.slaTargetSec as real;
      assert ValueOf(SlaRiskPct, s, now) == Num(risk);
      hide ValueOf, Holds, ApplySnapshot, AllHold;
      HoldsOfNumbers(AT_RISK.conditions[0], s, now, risk, 0.8);
      HoldsOfNumbers(AT_RISK.conditions[1], s, now, risk, 1.0);
    } else {
      hide ValueOf, ApplySnapshot, AllHold, ApplyOperator;
      MissingIsFalse(Gte, Missing, Num(0.8));
    }
  }

  // After any input: an agent is on a long call when its last state change that was not overtaken was to on_call, more
  // than 45 minutes ago; out of adherence when its last such check reported a violation with a known start more than
  // ten minutes ago.
  lemma AgentRulesMean(t: Tables, lines: seq<Line>, n: nat, id: string, now: Time)
    requires NothingIngested(t) && id in AdmitAll(t, lines, n).agents
    ensures var s := AgentRow(AdmitAll(t, lines, n).agents[id]);
      var change, check := Last(AgentRecords(lines, id), Change), Last(AgentRecords(lines, id), Check);
      && (AllHold(LONG_CALL, s, now) <==>
            && change.Some? && change.value.newState == "on_call" && now - change.value.ts > 2700 * SECOND)
      && (AllHold(OUT_OF_ADHERENCE, s, now) <==>
            && check.Some? && check.value.inViolation && check.value.violationStartedAt.Some?
            && now - check.value.violationStartedAt.value > 600 * SECOND)
  {
    AgentFactsAfterIngest(t, lines, n, id, now);
    AgentHolds(AdmitAll(t, lines, n).agents[id], AgentRecords(lines, id), now);
  }

  lemma AgentHolds(a: AgentState, es: seq<Event>, now: Time)
    requires FactsReport(a, es, now)
    ensures var s, change, check := AgentRow(a), Last(es, Change), Last(es, Check);
      && (AllHold(LONG_CALL, s, now) <==>
            && change.Some? && change.value.newState == "on_call" && now - change.value.ts > 2700 * SECOND)
      && (AllHold(OUT_OF_ADHERENCE, s, now) <==>
            && check.Some? && check.value.inViolation && check.value.violationStartedAt.Some?
            && now - check.value.violationStartedAt.value > 600 * SECOND)
  {
    hide ValueOf, Last, ApplyOperator, NormalizeAgentState, AllHold;
    var s, change, check := AgentRow(a), Last(es, Change), Last(es, Check);
    TwoHold(LONG_CALL, s, now);
    TwoHold(OUT_OF_ADHERENCE, s, now);
    if change.Some? {
      NormalizationMeans(change.value.newState);
      assert "unknown"[0] == 'u' && "on_call"[0] == 'o';
      EqualityMeans(Text(NormalizeAgentState(change.value.newState)), Text("on_call"));
      NumbersCompare(Gt, Seconds(now - change.value.ts), 2700.0);
    } else {
      MissingIsFalse(Eq, Missing, Text("on_call"));
    }
    EqualityMeans(Flag(check.Some? && check.value.inViolation), Flag(true));
    if check.Some? && check.value.violationStartedAt.Some? {
      NumbersCompare(Gt, Seconds(now - check.value.violationStartedAt.value), 600.0);
    }
    MissingIsFalse(Gt, Missing, Num(600.0));
  }
}
