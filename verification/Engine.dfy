// The stored tables and the evaluation step (app/engine/engine.py, app/ingest/counters.py,
// app/api/routes_rules.py), as functions on table values.
module Engine {
  import opened Base
  import opened Domain
  import opened Facts
  import opened Rules
  import opened Evaluation
  import opened Episodes
  import opened Incidents

  datatype Counter =
    | EventsAccepted | Duplicates | DuplicatePayloadMismatch | LateDrops | ValidationFailures
    | StateDisagreements | EvaluationsEvent | EvaluationsDue

  type Counters = map<Counter, nat>

  function Count(c: Counters, name: Counter): nat {
    if name in c then c[name] else 0
  }

  function BumpBy(c: Counters, name: Counter, k: nat): Counters {
    if k == 0 then c else c[name := Count(c, name) + k]
  }

  function Bump(c: Counters, name: Counter): Counters {
    BumpBy(c, name, 1)
  }

  datatype RuleRecord = RuleRecord(rule: Rule, enabled: bool, version: nat)

  datatype EventRecord = EventRecord(event: Event, payload: string, receivedSeq: nat)

  // Episode and notification rows, grouped by the pair they belong to.
  type Ledger = map<Pair, seq<Incident>>

  datatype Tables = Tables(
    rules: map<string, RuleRecord>,
    queues: map<string, QueueState>,
    agents: map<string, AgentState>,
    log: map<string, EventRecord>,
    ledger: Ledger,
    counters: Counters,
    watermark: Option<Time>)

  // Tables after some work, and the notifications handed to the channels on the way, in order.
  datatype Effect = Effect(t: Tables, sends: seq<Notification>)

  datatype Trigger = ByEvent | ByTick

  function CounterOf(trigger: Trigger): Counter {
    if trigger.ByEvent? then EvaluationsEvent else EvaluationsDue
  }

  function RowsOf(ledger: Ledger, p: Pair): seq<Incident> {
    if p in ledger then ledger[p] else []
  }

  // A transaction that changes no row of the pair writes nothing.
  function PutRows(ledger: Ledger, p: Pair, rows: seq<Incident>): Ledger {
    if rows == RowsOf(ledger, p) then ledger else ledger[p := rows]
  }

  function StateFor(t: Tables, kind: SubjectType, id: string): Option<SubjectState> {
    match kind
    case Queue => if id in t.queues then Some(QueueRow(t.queues[id])) else None
    case Agent => if id in t.agents then Some(AgentRow(t.agents[id])) else None
  }

  // Rule reloaded (and revalidated), subject row reloaded, conditions evaluated. None when the rule is gone,
  // disabled or no longer valid, when there is no subject row, or when the evaluation raises.
  function ReadingFor(t: Tables, p: Pair, now: Time): (r: Option<(Rule, Reading)>)
    ensures r.Some? ==> p.rule in t.rules && t.rules[p.rule].enabled && r.value.0 == t.rules[p.rule].rule
                        && Accepted(r.value.0) && r.value.1.now == now
  {
    if p.rule !in t.rules || !t.rules[p.rule].enabled then None
    else
      var rule := t.rules[p.rule].rule;
      var state := StateFor(t, rule.subjectType, p.subject);
      if !Accepted(rule) || state.None? then None
      else
        var result := Evaluate(rule, state.value, now);
        if result.None? then None
        else
          var body := Render(rule.template, p.subject, result.value.snapshot);
          if body.None? then None
          else Some((rule, Reading(now, result.value.matched, result.value.missing, result.value.snapshot, body.value)))
  }

  // What one evaluation does to the rows of its pair.
  function EvalPair(t: Tables, p: Pair, now: Time): Outcome {
    var rows := RowsOf(t.ledger, p);
    var reading := ReadingFor(t, p, now);
    if reading.None? then Outcome(rows, [], [])
    else
      var o := StepPair(reading.value.0, p, rows, reading.value.1);
      if o.None? then Outcome(rows, [], []) else o.value
  }

  // evaluate_rule: the count is committed on its own, then the pair's transaction, then the sends.
  function EvaluateRule(t: Tables, p: Pair, now: Time, trigger: Trigger): Effect {
    var o := EvalPair(t, p, now);
    Effect(t.(counters := Bump(t.counters, CounterOf(trigger)), ledger := PutRows(t.ledger, p, o.incidents)), o.sends)
  }

  // Evaluations one after the other, at one instant.
  function RunEvals(t: Tables, ps: seq<Pair>, now: Time, trigger: Trigger): Effect
    decreases |ps|
  {
    if ps == [] then Effect(t, [])
    else
      var first := EvaluateRule(t, ps[0], now, trigger);
      var rest := RunEvals(first.t, ps[1..], now, trigger);
      Effect(rest.t, first.sends + rest.sends)
  }

  // Disabling: the rule is switched off and its active episodes are closed without a notification.
  // None stands for the "rule not found" answer.
  function DisableRule(t: Tables, ruleId: string, now: Time): Option<Tables> {
    if ruleId !in t.rules then None
    else
      var record := t.rules[ruleId];
      Some(t.(
        rules := t.rules[ruleId := record.(enabled := false, version := record.version + 1)],
        ledger := map p | p in t.ledger ::
          if p.rule == ruleId then ClosePair(t.ledger[p], now) else t.ledger[p]))
  }

  /* ---------- Good tables ---------- */

  // Every stored rule passed validation, and the rows of every pair are in order.
  ghost predicate Good(t: Tables) {
    && (forall id | id in t.rules :: Accepted(t.rules[id].rule))
    && (forall p | p in t.ledger :: p.rule in t.rules && PairFits(t.rules[p.rule].rule, p, t.ledger[p]))
  }

  // On good tables nothing in an evaluation raises: whenever the rule is enabled and the subject has a row, the
  // conditions evaluate, the message renders, the stored active row loads, the unique indexes accept both writes,
  // and each transition inserts its notification row and is sent.
  lemma NothingRaises(t: Tables, p: Pair, now: Time)
    requires Good(t) && p.rule in t.rules && t.rules[p.rule].enabled
    requires StateFor(t, t.rules[p.rule].rule.subjectType, p.subject).Some?
    ensures ReadingFor(t, p, now).Some?
    ensures var r := ReadingFor(t, p, now).value;
      var rows := RowsOf(t.ledger, p);
      && (GetActive(rows).Some? ==> GetActive(rows).value.Valid())
      && StepPair(r.0, p, rows, r.1) == Some(EvalPair(t, p, now))
      && |EvalPair(t, p, now).sends| == |EvalPair(t, p, now).transitions|
  {
    var rule := t.rules[p.rule].rule;
    TypeSoundness(rule, StateFor(t, rule.subjectType, p.subject).value, now, p.subject);
    RowsFit(t, p);
    var r := ReadingFor(t, p, now).value.1;
    StepShape(rule, p, RowsOf(t.ledger, p), r);
    ActiveIsLast(rule, p, RowsOf(t.ledger, p));
    if GetActive(RowsOf(t.ledger, p)).Some? {
      assert RowFits(rule, RowsOf(t.ledger, p)[|RowsOf(t.ledger, p)| - 1]);
    }
  }

  lemma RowsFit(t: Tables, p: Pair)
    requires Good(t) && p.rule in t.rules
    ensures PairFits(t.rules[p.rule].rule, p, RowsOf(t.ledger, p))
  {
  }

  lemma EvaluateKeepsGood(t: Tables, p: Pair, now: Time, trigger: Trigger)
    requires Good(t)
    ensures Good(EvaluateRule(t, p, now, trigger).t)
  {
    var reading := ReadingFor(t, p, now);
    if reading.Some? {
      RowsFit(t, p);
      StepKeepsPair(reading.value.0, p, RowsOf(t.ledger, p), reading.value.1);
    }
  }

  lemma DisableKeepsGood(t: Tables, ruleId: string, now: Time)
    requires Good(t) && ruleId in t.rules
    ensures Good(DisableRule(t, ruleId, now).value)
    ensures forall p | p in DisableRule(t, ruleId, now).value.ledger && p.rule == ruleId ::
              GetActive(DisableRule(t, ruleId, now).value.ledger[p]).None?
  {
    var after := DisableRule(t, ruleId, now).value;
    forall p | p in after.ledger
      ensures PairFits(after.rules[p.rule].rule, p, after.ledger[p])
      ensures p.rule == ruleId ==> GetActive(after.ledger[p]).None?
    {
      if p.rule == ruleId { CloseKeepsPair(t.rules[p.rule].rule, p, t.ledger[p], now); }
    }
  }

  // Closing silently keeps the stale mark: the stored row stays a valid episode if and only if it was not frozen.
  lemma SilentCloseStaysValidIff(inc: Incident, now: Time)
    requires inc.episode.Active() && inc.episode.Valid()
    ensures var closed := CloseOne(inc, now).episode;
      !closed.Active() && closed.closedAt == Some(now) && (closed.Valid() <==> !inc.episode.stale)
  {
  }

  /* ---------- Confluence ---------- */

  ghost predicate SameInputs(t1: Tables, t2: Tables) {
    t1.rules == t2.rules && t1.queues == t2.queues && t1.agents == t2.agents
  }

  // An evaluation looks only at the rules, the subject rows and its own pair's rows.
  lemma EvalPairIsLocal(t1: Tables, t2: Tables, p: Pair, now: Time)
    requires SameInputs(t1, t2) && RowsOf(t1.ledger, p) == RowsOf(t2.ledger, p)
    ensures EvalPair(t1, p, now) == EvalPair(t2, p, now)
  {
    assert forall kind, id :: StateFor(t1, kind, id) == StateFor(t2, kind, id);
  }

  function SendsOf(t: Tables, ps: seq<Pair>, now: Time): seq<Notification> {
    if ps == [] then [] else EvalPair(t, ps[0], now).sends + SendsOf(t, ps[1..], now)
  }

  lemma {:induction false} SendsAreLocal(t1: Tables, t2: Tables, ps: seq<Pair>, now: Time)
    requires SameInputs(t1, t2)
    requires forall p | p in ps :: RowsOf(t1.ledger, p) == RowsOf(t2.ledger, p)
    ensures SendsOf(t1, ps, now) == SendsOf(t2, ps, now)
  {
    if ps != [] {
      assert ps[0] in ps;
      EvalPairIsLocal(t1, t2, ps[0], now);
      assert forall p | p in ps[1..] :: p in ps;
      SendsAreLocal(t1, t2, ps[1..], now);
    }
  }

  ghost predicate Touches(t: Tables, p: Pair, now: Time) {
    EvalPair(t, p, now).incidents != RowsOf(t.ledger, p)
  }

  // One evaluation writes its pair's rows and one counter, nothing else.
  lemma EvaluateShape(t: Tables, p0: Pair, now: Time, trigger: Trigger)
    ensures var e := EvaluateRule(t, p0, now, trigger);
      && e.t == t.(ledger := e.t.ledger, counters := Bump(t.counters, CounterOf(trigger)))
      && RowsOf(e.t.ledger, p0) == EvalPair(t, p0, now).incidents
      && (forall p | p != p0 :: RowsOf(e.t.ledger, p) == RowsOf(t.ledger, p))
      && e.t.ledger.Keys == t.ledger.Keys + (if Touches(t, p0, now) then {p0} else {})
  {
  }

  lemma EvaluateLeavesOthers(t: Tables, p0: Pair, now: Time, trigger: Trigger, p: Pair)
    requires p != p0
    ensures var t1 := EvaluateRule(t, p0, now, trigger).t;
      && EvalPair(t1, p, now) == EvalPair(t, p, now)
      && (Touches(t1, p, now) <==> Touches(t, p, now))
  {
    EvaluateShape(t, p0, now, trigger);
    EvalPairIsLocal(EvaluateRule(t, p0, now, trigger).t, t, p, now);
  }

  lemma BumpsAdd(c: Counters, name: Counter, k: nat)
    ensures BumpBy(Bump(c, name), name, k) == BumpBy(c, name, k + 1)
  {
  }

  lemma {:induction false} RunEvalsFrame(t: Tables, ps: seq<Pair>, now: Time, trigger: Trigger)
    ensures var e := RunEvals(t, ps, now, trigger);
      e.t == t.(ledger := e.t.ledger, counters := BumpBy(t.counters, CounterOf(trigger), |ps|))
    decreases |ps|
  {
    if ps != [] {
      var t1 := EvaluateRule(t, ps[0], now, trigger).t;
      EvaluateShape(t, ps[0], now, trigger);
      RunEvalsFrame(t1, ps[1..], now, trigger);
      BumpsAdd(t.counters, CounterOf(trigger), |ps| - 1);
    }
  }

  lemma {:induction false} RunEvalsRows(t: Tables, ps: seq<Pair>, now: Time, trigger: Trigger, p: Pair)
    requires Distinct(ps)
    ensures var e := RunEvals(t, ps, now, trigger);
      && RowsOf(e.t.ledger, p) == (if p in ps then EvalPair(t, p, now).incidents else RowsOf(t.ledger, p))
      && (p in e.t.ledger <==> p in t.ledger || (p in ps && Touches(t, p, now)))
    decreases |ps|
  {
    if ps != [] {
      var p0, rest := ps[0], ps[1..];
      EvaluateShape(t, p0, now, trigger);
      RunEvalsRows(EvaluateRule(t, p0, now, trigger).t, rest, now, trigger, p);
      assert p in ps <==> p == p0 || p in rest;
      assert p0 !in rest;
      if p != p0 { EvaluateLeavesOthers(t, p0, now, trigger, p); }
    }
  }

  lemma {:induction false} RunEvalsSends(t: Tables, ps: seq<Pair>, now: Time, trigger: Trigger)
    requires Distinct(ps)
    ensures RunEvals(t, ps, now, trigger).sends == SendsOf(t, ps, now)
    decreases |ps|
  {
    if ps != [] {
      var p0, rest := ps[0], ps[1..];
      var t1 := EvaluateRule(t, p0, now, trigger).t;
      RunEvalsSends(t1, rest, now, trigger);
      EvaluateShape(t, p0, now, trigger);
      assert p0 !in rest;
      SendsAreLocal(t1, t, rest, now);
    }
  }

  // Evaluating distinct pairs one after the other is evaluating them all against the tables before.
  lemma RunEvalsShape(t: Tables, ps: seq<Pair>, now: Time, trigger: Trigger)
    requires Distinct(ps)
    ensures var e := RunEvals(t, ps, now, trigger);
      && e.t == t.(ledger := e.t.ledger, counters := BumpBy(t.counters, CounterOf(trigger), |ps|))
      && (forall p :: RowsOf(e.t.ledger, p) == if p in ps then EvalPair(t, p, now).incidents else RowsOf(t.ledger, p))
      && (forall p :: p in e.t.ledger <==> p in t.ledger || (p in ps && Touches(t, p, now)))
      && e.sends == SendsOf(t, ps, now)
  {
    RunEvalsFrame(t, ps, now, trigger);
    RunEvalsSends(t, ps, now, trigger);
    forall p
      ensures RowsOf(RunEvals(t, ps, now, trigger).t.ledger, p)
           == if p in ps then EvalPair(t, p, now).incidents else RowsOf(t.ledger, p)
      ensures p in RunEvals(t, ps, now, trigger).t.ledger <==> p in t.ledger || (p in ps && Touches(t, p, now))
    {
      RunEvalsRows(t, ps, now, trigger, p);
    }
  }

  lemma SendsHead(t: Tables, ps: seq<Pair>, now: Time)
    ensures SendsOf(t, ps, now) == if ps == [] then [] else EvalPair(t, ps[0], now).sends + SendsOf(t, ps[1..], now)
  {
    hide EvalPair;
  }

  lemma {:induction false} SendsSplit(t: Tables, xs: seq<Pair>, ys: seq<Pair>, now: Time)
    ensures SendsOf(t, xs + ys, now) == SendsOf(t, xs, now) + SendsOf(t, ys, now)
    decreases |xs|
  {
    hide EvalPair, SendsOf;
    SendsHead(t, xs, now);
    if xs == [] {
      assert xs + ys == ys;
    } else {
      SendsSplit(t, xs[1..], ys, now);
      SendsHead(t, xs + ys, now);
      assert (xs + ys)[1..] == xs[1..] + ys && (xs + ys)[0] == xs[0];
    }
  }

  lemma SendsPull(t: Tables, ys: seq<Pair>, i: nat, now: Time)
    requires i < |ys|
    ensures multiset(SendsOf(t, ys, now))
         == multiset(EvalPair(t, ys[i], now).sends) + multiset(SendsOf(t, ys[..i] + ys[i + 1..], now))
  {
    hide EvalPair;
    SendsSplit(t, ys[..i], ys[i + 1..], now);
    SendsSplit(t, ys[..i], ys[i..], now);
    assert ys == ys[..i] + ys[i..];
    assert ys[i..][1..] == ys[i + 1..];
  }

  lemma {:induction false} SendsIgnoreOrder(t: Tables, xs: seq<Pair>, ys: seq<Pair>, now: Time)
    requires Distinct(xs) && Distinct(ys) && Elements(xs) == Elements(ys)
    ensures multiset(SendsOf(t, xs, now)) == multiset(SendsOf(t, ys, now))
    decreases |xs|
  {
    if xs == [] {
      NonemptyElements(ys);
    } else {
      assert xs[0] in Elements(xs);
      var i :| 0 <= i < |ys| && ys[i] == xs[0];
      WithoutFirst(xs, ys, i);
      SendsIgnoreOrder(t, xs[1..], ys[..i] + ys[i + 1..], now);
      SendsPull(t, ys, i, now);
    }
  }

  // Evaluations of distinct pairs commute: every ordering of the same set of pairs gives the same tables and the
  // same multiset of sends.
  lemma EvaluationOrderIrrelevant(t: Tables, xs: seq<Pair>, ys: seq<Pair>, now: Time, trigger: Trigger)
    requires Distinct(xs) && Distinct(ys) && Elements(xs) == Elements(ys)
    ensures RunEvals(t, xs, now, trigger).t == RunEvals(t, ys, now, trigger).t
    ensures multiset(RunEvals(t, xs, now, trigger).sends) == multiset(RunEvals(t, ys, now, trigger).sends)
  {
    RunEvalsShape(t, xs, now, trigger);
    RunEvalsShape(t, ys, now, trigger);
    SendsIgnoreOrder(t, xs, ys, now);
    DistinctLength(xs);
    DistinctLength(ys);
    var a, b := RunEvals(t, xs, now, trigger).t, RunEvals(t, ys, now, trigger).t;
    assert forall p :: p in xs <==> p in Elements(xs);
    assert forall p :: p in ys <==> p in Elements(ys);
    assert a.ledger.Keys == b.ledger.Keys;
    SameLedger(a.ledger, b.ledger);
  }

  lemma SameLedger(a: Ledger, b: Ledger)
    requires a.Keys == b.Keys
    requires forall p :: RowsOf(a, p) == RowsOf(b, p)
    ensures a == b
  {
    forall p | p in a ensures a[p] == b[p] {
      assert RowsOf(a, p) == RowsOf(b, p);
      assert p in b.Keys;
    }
  }

  // Tables that agree on what an evaluation reads are evaluated alike.
  lemma {:induction false} RunEvalsAreLocal(a: Tables, b: Tables, ps: seq<Pair>, now: Time, trigger: Trigger)
    requires SameInputs(a, b) && a.ledger == b.ledger
    ensures var x, y := RunEvals(a, ps, now, trigger), RunEvals(b, ps, now, trigger);
      x.t.ledger == y.t.ledger && x.sends == y.sends
    decreases |ps|
  {
    hide EvalPair;
    if ps != [] {
      EvalPairIsLocal(a, b, ps[0], now);
      var x, y := EvaluateRule(a, ps[0], now, trigger).t, EvaluateRule(b, ps[0], now, trigger).t;
      RunEvalsAreLocal(x, y, ps[1..], now, trigger);
    }
  }

  lemma {:induction false} RunEvalsKeepsGood(t: Tables, ps: seq<Pair>, now: Time, trigger: Trigger)
    requires Good(t)
    ensures Good(RunEvals(t, ps, now, trigger).t)
    decreases |ps|
  {
    if ps != [] {
      EvaluateKeepsGood(t, ps[0], now, trigger);
      RunEvalsKeepsGood(EvaluateRule(t, ps[0], now, trigger).t, ps[1..], now, trigger);
    }
  }
}
