// Over whole runs: ticking only the active set refines ticking everything.
module ScanRuns {
  import opened Base
  import opened Domain
  import opened Facts
  import opened Rules
  import opened Evaluation
  import opened Episodes
  import opened Incidents
  import opened Engine
  import opened Ingest
  import opened Scheduling

  // What drives the system: a line arriving or the clock ticking.
  datatype Act = Arrive(line: Line, seqNo: nat) | Tick(now: Time)

  ghost function Do(t: Tables, act: Act, everything: bool): Effect {
    match act
    case Arrive(line, n) => IngestLine(t, line, n)
    case Tick(now) => if everything then TickOver(t, FullSet(t), now) else OnTick(t, now)
  }

  ghost function RunActs(t: Tables, acts: seq<Act>, everything: bool): Effect
    decreases |acts|
  {
    if acts == [] then Effect(t, [])
    else
      var first := Do(t, acts[0], everything);
      var rest := RunActs(first.t, acts[1..], everything);
      Effect(rest.t, first.sends + rest.sends)
  }

  // No condition has a fact on its left-hand side that moves with the clock.
  predicate NoClockOnLeft(rule: Rule) {
    forall c | c in rule.conditions :: !TimeDerived(c.fact)
  }

  // No rule reads the clock only through the right-hand side of its conditions.
  ghost predicate NoHiddenClock(t: Tables) {
    forall id | id in t.rules && NoClockOnLeft(t.rules[id].rule) ::
      forall c | c in t.rules[id].rule.conditions && c.operand.FactRef? :: !TimeDerived(c.operand.target)
  }

  // A pair the scan relies on events for.
  predicate EventDriven(t: Tables, p: Pair) {
    Enabled(t, p.rule) && NoClockOnLeft(t.rules[p.rule].rule) && p.subject in Selected(t, t.rules[p.rule].rule)
  }

  // Every event-driven pair that matches has an active row.
  ghost predicate CaughtUp(t: Tables) {
    forall p, now :: EventDriven(t, p) && MatchesNow(t, p, now) ==> HasActive(t, p)
  }

  lemma EventDrivenIgnoresClock(t: Tables, p: Pair, t1: Time, t2: Time)
    requires NoHiddenClock(t) && EventDriven(t, p)
    ensures MatchesNow(t, p, t1) == MatchesNow(t, p, t2)
  {
    var rule := t.rules[p.rule].rule;
    var state := StateFor(t, rule.subjectType, p.subject);
    if state.Some? {
      forall f | f in Declared(rule.conditions) ensures !TimeDerived(f) {
        var c :| c in rule.conditions && f in Mentions(c);
      }
      StaticRulesIgnoreTheClock(rule.conditions, state.value, t1, t2);
    }
  }

  lemma MatchIsLocal(a: Tables, b: Tables, p: Pair, now: Time)
    requires a.rules == b.rules
    requires p.rule in a.rules ==>
      var kind := a.rules[p.rule].rule.subjectType; StateFor(a, kind, p.subject) == StateFor(b, kind, p.subject)
    ensures MatchesNow(a, p, now) == MatchesNow(b, p, now)
  {
  }

  lemma SelectionIsLocal(a: Tables, b: Tables, p: Pair)
    requires a.rules == b.rules
    requires p.rule in a.rules ==>
      var kind := a.rules[p.rule].rule.subjectType; StateFor(a, kind, p.subject) == StateFor(b, kind, p.subject)
    ensures EventDriven(a, p) == EventDriven(b, p)
  {
  }

  lemma AdmitLeaves(t: Tables, line: Line, n: nat, kind: SubjectType, id: string)
    requires !Classify(t, line).Projected? || SubjectOf(line.parsed.value) != SubjectRef(kind, id)
    ensures StateFor(Admit(t, line, n), kind, id) == StateFor(t, kind, id)
  {
    hide BumpBy, ApplySnapshot, ApplyAgentEvent, StateDisagreement, WatermarkOf;
  }

  // Evaluating a set of pairs keeps the tables caught up.
  lemma EvaluationsCatchUp(t: Tables, ps: seq<Pair>, now: Time, trigger: Trigger)
    requires Good(t) && NoHiddenClock(t) && Distinct(ps)
    requires forall p, at :: EventDriven(t, p) && MatchesNow(t, p, at) ==> HasActive(t, p) || p in ps
    ensures CaughtUp(RunEvals(t, ps, now, trigger).t)
  {
    var after := RunEvals(t, ps, now, trigger).t;
    hide RunEvals, EventDriven, MatchesNow, EvalPair, Good, NoHiddenClock, RowsOf, SendsOf;
    RunEvalsShape(t, ps, now, trigger);
    forall p, at | EventDriven(after, p) && MatchesNow(after, p, at) ensures HasActive(after, p) {
      assert forall kind, id :: StateFor(after, kind, id) == StateFor(t, kind, id);
      MatchIsLocal(after, t, p, at);
      SelectionIsLocal(after, t, p);
      if p in ps {
        EventDrivenIgnoresClock(t, p, at, now);
        EvaluationEffect(t, p, now);
      }
    }
  }

  lemma ArrivalCatchesUp(t: Tables, line: Line, n: nat)
    requires Good(t) && NoHiddenClock(t) && CaughtUp(t)
    ensures Good(IngestLine(t, line, n).t) && NoHiddenClock(IngestLine(t, line, n).t)
    ensures CaughtUp(IngestLine(t, line, n).t)
  {
    var admitted := Admit(t, line, n);
    forall p, at | EventDriven(admitted, p) && MatchesNow(admitted, p, at)
      ensures HasActive(admitted, p)
        || (Classify(t, line).Projected? && p in Affected(admitted, SubjectOf(line.parsed.value)))
    {
      var kind := t.rules[p.rule].rule.subjectType;
      if !Classify(t, line).Projected? || SubjectOf(line.parsed.value) != SubjectRef(kind, p.subject) {
        AdmitLeaves(t, line, n, kind, p.subject);
        MatchIsLocal(admitted, t, p, at);
        SelectionIsLocal(admitted, t, p);
      }
    }
    hide Admit, EventDriven, MatchesNow;
    match Classify(t, line)
    case Projected(ref, at) =>
      assert ref == SubjectOf(line.parsed.value) by { ProjectedSubject(t, line); }
      var ps := OrderOf(Affected(admitted, ref));
      assert forall p :: p in ps <==> p in Elements(ps);
      EvaluationsCatchUp(admitted, ps, at, ByEvent);
      RunEvalsKeepsGood(admitted, ps, at, ByEvent);
      RunEvalsFrame(admitted, ps, at, ByEvent);
    case _ =>
  }

  lemma ProjectedSubject(t: Tables, line: Line)
    requires Classify(t, line).Projected?
    ensures Classify(t, line).ref == SubjectOf(line.parsed.value)
  {
  }

  lemma TickCatchesUp(t: Tables, pairs: set<Pair>, now: Time)
    requires Good(t) && NoHiddenClock(t) && CaughtUp(t)
    ensures Good(TickOver(t, pairs, now).t) && NoHiddenClock(TickOver(t, pairs, now).t)
    ensures CaughtUp(TickOver(t, pairs, now).t)
  {
    var ps := OrderOf(pairs);
    EvaluationsCatchUp(t, ps, now, ByTick);
    RunEvalsKeepsGood(t, ps, now, ByTick);
    RunEvalsFrame(t, ps, now, ByTick);
  }

  // On caught-up tables the pairs the scan skips do not match.
  lemma SkippedDoNotMatch(t: Tables, p: Pair, now: Time)
    requires CaughtUp(t) && p in Skipped(t)
    ensures !MatchesNow(t, p, now)
  {
    SkippedHaveNoActiveRow(t, p);
    assert EventDriven(t, p);
  }

  ghost predicate SameButTickCount(a: Counters, b: Counters) {
    forall name | name != EvaluationsDue :: Count(a, name) == Count(b, name)
  }

  lemma BumpsStaySame(a: Counters, b: Counters, name: Counter, k: nat)
    requires SameButTickCount(a, b)
    ensures SameButTickCount(BumpBy(a, name, k), BumpBy(b, name, k))
  {
    forall x | x != EvaluationsDue ensures Count(BumpBy(a, name, k), x) == Count(BumpBy(b, name, k), x) {
      assert Count(a, x) == Count(b, x);
    }
  }

  // Tables that differ at most in how many tick evaluations were counted.
  ghost predicate Twins(a: Tables, b: Tables) {
    b == a.(counters := b.counters) && SameButTickCount(a.counters, b.counters)
  }

  lemma TwinEvals(a: Tables, b: Tables, ps: seq<Pair>, now: Time, trigger: Trigger)
    requires Twins(a, b)
    ensures Twins(RunEvals(a, ps, now, trigger).t, RunEvals(b, ps, now, trigger).t)
    ensures RunEvals(a, ps, now, trigger).sends == RunEvals(b, ps, now, trigger).sends
  {
    hide RunEvals, SameButTickCount, BumpBy;
    RunEvalsFrame(a, ps, now, trigger);
    RunEvalsFrame(b, ps, now, trigger);
    RunEvalsAreLocal(a, b, ps, now, trigger);
    BumpsStaySame(a.counters, b.counters, CounterOf(trigger), |ps|);
  }

  lemma TwinAdmit(a: Tables, b: Tables, line: Line, n: nat)
    requires Twins(a, b)
    ensures Classify(a, line) == Classify(b, line)
    ensures Twins(Admit(a, line, n), Admit(b, line, n))
  {
    IngestIsLocal(a, b, line, n);
    hide Classify, CountersAfter, LogAfter, QueuesAfter, AgentsAfter;
  }

  lemma TwinSets(a: Tables, b: Tables)
    requires Twins(a, b)
    ensures DueSet(a) == DueSet(b) && FullSet(a) == FullSet(b)
    ensures forall ref :: Affected(a, ref) == Affected(b, ref)
  {
    assert forall rule :: Selected(a, rule) == Selected(b, rule);
  }

  lemma TwinTicks(a: Tables, b: Tables, now: Time)
    requires Twins(a, b) && Good(a) && CaughtUp(a)
    ensures Twins(OnTick(a, now).t, TickOver(b, FullSet(b), now).t)
    ensures multiset(OnTick(a, now).sends) == multiset(TickOver(b, FullSet(b), now).sends)
  {
    TwinSets(a, b);
    hide Twins, DueSet, FullSet;
    var due, full := DueSet(a), FullSet(a);
    assert due <= full by { DueWithinFull(a); }
    forall p | p in full - due ensures Idle(a, p, now) {
      SkippedDoNotMatch(a, p, now);
      SkippedHaveNoActiveRow(a, p);
      EvaluationEffect(a, p, now);
    }
    IdlePairsDoNotMatter(a, due, full, now);
    TickRows(a, due, now);
    TickRows(a, full, now);
    TwinEvals(a, b, OrderOf(full), now, ByTick);
    TwinTransfer(TickOver(a, due, now).t, TickOver(a, full, now).t, TickOver(b, full, now).t,
                 a.counters, |due|, |full|);
  }

  lemma DueWithinFull(t: Tables)
    ensures DueSet(t) <= FullSet(t)
  {
  }

  lemma TwinTransfer(x: Tables, y: Tables, z: Tables, c: Counters, m: nat, k: nat)
    requires y == x.(counters := y.counters)
    requires x.counters == BumpBy(c, EvaluationsDue, m) && y.counters == BumpBy(c, EvaluationsDue, k)
    requires Twins(y, z)
    ensures Twins(x, z)
  {
  }

  lemma TwinArrivals(a: Tables, b: Tables, line: Line, n: nat)
    requires Twins(a, b)
    ensures Twins(IngestLine(a, line, n).t, IngestLine(b, line, n).t)
    ensures IngestLine(a, line, n).sends == IngestLine(b, line, n).sends
  {
    TwinAdmit(a, b, line, n);
    TwinSets(Admit(a, line, n), Admit(b, line, n));
    hide Admit, Twins;
    match Classify(a, line)
    case Projected(ref, at) =>
      TwinEvals(Admit(a, line, n), Admit(b, line, n), OrderOf(Affected(Admit(a, line, n), ref)), at, ByEvent);
    case _ =>
  }

  lemma {:induction false} TwinRuns(a: Tables, b: Tables, acts: seq<Act>)
    requires Twins(a, b) && Good(a) && CaughtUp(a) && NoHiddenClock(a)
    ensures Twins(RunActs(a, acts, false).t, RunActs(b, acts, true).t)
    ensures multiset(RunActs(a, acts, false).sends) == multiset(RunActs(b, acts, true).sends)
    decreases |acts|
  {
    hide Twins, Good, CaughtUp, NoHiddenClock, IngestLine, TickOver;
    if acts != [] {
      match acts[0]
      case Arrive(line, n) =>
        ArrivalCatchesUp(a, line, n);
        TwinArrivals(a, b, line, n);
        TwinRuns(IngestLine(a, line, n).t, IngestLine(b, line, n).t, acts[1..]);
      case Tick(now) =>
        TickCatchesUp(a, DueSet(a), now);
        TwinTicks(a, b, now);
        TwinRuns(OnTick(a, now).t, TickOver(b, FullSet(b), now).t, acts[1..]);
    }
  }

  // The scan refines the full scan: from good, caught-up tables (in particular from no subjects at all), if no rule
  // hides the clock on the right-hand side of a condition, then over any sequence of arrivals and ticks evaluating
  // only the active set gives the same subject rows, event log, episodes and notifications, and the same multiset
  // of sends, as evaluating every enabled rule on every selected subject; only the tick-evaluation count differs.
  lemma ScanRefinesFullScan(t: Tables, acts: seq<Act>)
    requires Good(t) && CaughtUp(t) && NoHiddenClock(t)
    ensures Twins(RunActs(t, acts, false).t, RunActs(t, acts, true).t)
    ensures multiset(RunActs(t, acts, false).sends) == multiset(RunActs(t, acts, true).sends)
  {
    TwinRuns(t, t, acts);
  }

  lemma NoSubjectsIsCaughtUp(t: Tables)
    requires t.queues == map[] && t.agents == map[]
    ensures CaughtUp(t)
  {
  }

  /* ---------- The hypothesis is needed ---------- */

  // longest_wait_sec < {fact_ref: snapshot_age_sec}: accepted, reads the clock, yet not time-sensitive.
  const HIDDEN_CLOCK: Rule :=
    Rule("", Queue, All, [Condition(LongestWaitSec, Lt, FactRef(SnapshotAgeSec))], 0, 0,
         Recipient(Author, None), [], "")

  const ONE_QUEUE: Tables :=
    Tables(map["r" := RuleRecord(HIDDEN_CLOCK, true, 1)],
           map["q" := QueueState("q", None, Some(10), None, None, None, None, None, 0)],
           map[], map[], map[], map[], None)

  lemma HiddenClockMatches(now: Time)
    requires now > 10 * SECOND
    ensures Accepted(HIDDEN_CLOCK) && MatchesNow(ONE_QUEUE, Pair("r", "q"), now)
  {
    hide EvaluateAll, Render;
    var rule, state := HIDDEN_CLOCK, QueueRow(ONE_QUEUE.queues["q"]);
    assert ConditionAccepted(Queue, rule.conditions[0]);
    assert Accepted(rule);
    TypeSoundness(rule, state, now, "q");
    MatchedMeaning(rule.conditions, state, now);
    assert Holds(rule.conditions[0], state, now);
  }

  // With such a rule a silent queue comes to match with no event, and the scan never looks at it.
  lemma HiddenClockIsMissed()
    ensures Good(ONE_QUEUE) && !NoHiddenClock(ONE_QUEUE)
    ensures OnTick(ONE_QUEUE, 20 * SECOND).t.ledger != TickOver(ONE_QUEUE, FullSet(ONE_QUEUE), 20 * SECOND).t.ledger
  {
    hide EvalPair, Accepted, TickOver, RunEvals, MatchesNow;
    var p, t := Pair("r", "q"), ONE_QUEUE;
    var conditions := t.rules["r"].rule.conditions;
    HiddenClockMatches(20 * SECOND);
    assert conditions[0] in conditions && SnapshotAgeSec in Mentions(conditions[0]);
    assert SnapshotAgeSec in Declared(conditions);
    assert p in SelectedPairs(t, false);
    assert p in Skipped(t);
    ScanAgreesIff(t, 20 * SECOND);
  }
}
