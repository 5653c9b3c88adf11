// Who is evaluated when (app/scheduling/scan.py, app/scheduling/selectors.py, on_event and on_tick of
// app/engine/engine.py), and why scanning the active set is enough.
module Scheduling {
  import opened Base
  import opened Domain
  import opened Facts
  import opened Rules
  import opened Evaluation
  import opened Episodes
  import opened Incidents
  import opened Engine
  import opened Ingest

  /* ---------- Selection ---------- */

  // The subject ids a rule's selector resolves to.
  function Selected(t: Tables, rule: Rule): set<string> {
    match rule.subjectType
    case Queue =>
      if rule.selector.Ids? then Elements(rule.selector.ids) else t.queues.Keys
    case Agent =>
      match rule.selector
      case Ids(ids) => Elements(ids)
      case QueueMembership(wanted) => set a | a in t.agents && exists q | q in wanted :: q in t.agents[a].queueIds
      case All => t.agents.Keys
  }

  // A rule is time-sensitive when the left-hand side of some condition is time-derived.
  predicate TimeSensitive(rule: Rule) {
    exists c | c in rule.conditions :: TimeDerived(c.fact)
  }

  predicate Enabled(t: Tables, ruleId: string) {
    ruleId in t.rules && t.rules[ruleId].enabled
  }

  function ActivePairs(t: Tables): set<Pair> {
    set p | p in t.ledger && ActiveAt(t.ledger[p]).Some?
  }

  // Pairs of enabled rules (all, or the time-sensitive ones) with the subjects they select.
  function SelectedPairs(t: Tables, timeSensitiveOnly: bool): set<Pair> {
    set r, s | r in t.rules && t.rules[r].enabled && (timeSensitiveOnly ==> TimeSensitive(t.rules[r].rule))
               && s in Selected(t, t.rules[r].rule) :: Pair(r, s)
  }

  // What the scan scheduler returns at a tick.
  function DueSet(t: Tables): set<Pair> {
    ActivePairs(t) + SelectedPairs(t, true)
  }

  // Everything there is to evaluate.
  function FullSet(t: Tables): set<Pair> {
    ActivePairs(t) + SelectedPairs(t, false)
  }

  // The enabled rules a change of one subject concerns.
  function Affected(t: Tables, ref: SubjectRef): set<Pair> {
    set r | r in t.rules && t.rules[r].enabled && t.rules[r].rule.subjectType == ref.kind
            && ref.id in Selected(t, t.rules[r].rule) :: Pair(r, ref.id)
  }

  ghost function OnEvent(t: Tables, ref: SubjectRef, now: Time): Effect {
    RunEvals(t, OrderOf(Affected(t, ref)), now, ByEvent)
  }

  ghost function TickOver(t: Tables, pairs: set<Pair>, now: Time): Effect {
    RunEvals(t, OrderOf(pairs), now, ByTick)
  }

  ghost function OnTick(t: Tables, now: Time): Effect {
    TickOver(t, DueSet(t), now)
  }

  // A line is ingested and, when it changed a subject, the subject is re-evaluated at the event's own timestamp.
  ghost function IngestLine(t: Tables, line: Line, seqNo: nat): Effect {
    match Classify(t, line)
    case Projected(ref, at) => OnEvent(Admit(t, line, seqNo), ref, at)
    case _ => Effect(Admit(t, line, seqNo), [])
  }

  /* ---------- One tick ---------- */

  predicate MatchesNow(t: Tables, p: Pair, now: Time) {
    var r := ReadingFor(t, p, now);
    r.Some? && r.value.1.matched
  }

  predicate HasActive(t: Tables, p: Pair) {
    ActiveAt(RowsOf(t.ledger, p)).Some?
  }

  // A matching evaluation leaves an active row; a non-matching one without an active row changes nothing.
  lemma EvaluationEffect(t: Tables, p: Pair, now: Time)
    requires Good(t)
    ensures MatchesNow(t, p, now) ==> ActiveAt(EvalPair(t, p, now).incidents).Some?
    ensures !MatchesNow(t, p, now) && !HasActive(t, p) ==> Idle(t, p, now)
    ensures !HasActive(t, p) ==> (Touches(t, p, now) <==> MatchesNow(t, p, now))
  {
    var reading, rows := ReadingFor(t, p, now), RowsOf(t.ledger, p);
    if reading.Some? {
      var rule, r := reading.value.0, reading.value.1;
      RowsFit(t, p);
      StepShape(rule, p, rows, r);
      StepKeepsPair(rule, p, rows, r);
      hide StepPair, PairFits, Advance, NotesOf;
      if r.matched { MatchedRowIsActive(rule, p, rows, r); }
    }
  }

  lemma MatchedRowIsActive(rule: Rule, p: Pair, rows: seq<Incident>, r: Reading)
    requires RecipientAccepted(rule) && PairFits(rule, p, rows) && r.matched
    ensures StepPair(rule, p, rows, r).Some?
    ensures ActiveAt(StepPair(rule, p, rows, r).value.incidents).Some?
    ensures StepPair(rule, p, rows, r).value.incidents != [] && (GetActive(rows).None? ==>
              StepPair(rule, p, rows, r).value.incidents != rows)
  {
    hide StepPair, PairFits, NotesFit, ActiveAt;
    StepShape(rule, p, rows, r);
    StepKeepsPair(rule, p, rows, r);
    ActiveIsLast(rule, p, rows);
    var after := StepPair(rule, p, rows, r).value.incidents;
    ActiveIsLast(rule, p, after);
    if GetActive(rows).Some? { RowAt(rule, p, rows, |rows| - 1); }
  }

  // The pairs a full evaluation covers and the scan skips.
  function Skipped(t: Tables): set<Pair> {
    FullSet(t) - DueSet(t)
  }

  lemma SkippedHaveNoActiveRow(t: Tables, p: Pair)
    requires p in Skipped(t)
    ensures !HasActive(t, p)
  {
  }

  lemma TickRows(t: Tables, pairs: set<Pair>, now: Time)
    ensures var e := TickOver(t, pairs, now);
      && e.t == t.(ledger := e.t.ledger, counters := BumpBy(t.counters, EvaluationsDue, |pairs|))
      && (forall p :: RowsOf(e.t.ledger, p)
                      == if p in pairs then EvalPair(t, p, now).incidents else RowsOf(t.ledger, p))
      && (forall p :: p in e.t.ledger <==> p in t.ledger || (p in pairs && Touches(t, p, now)))
      && e.sends == SendsOf(t, OrderOf(pairs), now)
  {
    var ps := OrderOf(pairs);
    RunEvalsShape(t, ps, now, ByTick);
    DistinctLength(ps);
    assert forall p :: p in ps <==> p in Elements(ps);
  }

  lemma TickRowAt(t: Tables, pairs: set<Pair>, now: Time, p: Pair)
    ensures var ledger := TickOver(t, pairs, now).t.ledger;
      && RowsOf(ledger, p) == (if p in pairs then EvalPair(t, p, now).incidents else RowsOf(t.ledger, p))
      && (p in ledger <==> p in t.ledger || (p in pairs && Touches(t, p, now)))
  {
    hide TickOver, EvalPair, RowsOf, SendsOf;
    TickRows(t, pairs, now);
  }

  predicate Idle(t: Tables, p: Pair, now: Time) {
    EvalPair(t, p, now) == Outcome(RowsOf(t.ledger, p), [], [])
  }

  lemma IdlePairsLeaveRows(t: Tables, some: set<Pair>, more: set<Pair>, now: Time)
    requires some <= more
    requires forall p | p in more - some :: Idle(t, p, now)
    ensures TickOver(t, some, now).t.ledger == TickOver(t, more, now).t.ledger
  {
    hide EvalPair, TickOver, RowsOf, SendsOf;
    var a, b := TickOver(t, some, now).t.ledger, TickOver(t, more, now).t.ledger;
    forall p
      ensures RowsOf(a, p) == RowsOf(b, p)
      ensures p in a <==> p in b
    {
      TickRowAt(t, some, now, p);
      TickRowAt(t, more, now, p);
      if p in more && p !in some { assert p in more - some && Idle(t, p, now); }
    }
    SameLedger(a, b);
  }

  lemma IdlePairsSendNothing(t: Tables, some: set<Pair>, more: set<Pair>, now: Time)
    requires some <= more
    requires forall p | p in more - some :: Idle(t, p, now)
    ensures multiset(SendsOf(t, OrderOf(some), now)) == multiset(SendsOf(t, OrderOf(more), now))
  {
    hide EvalPair, SendsOf;
    var xs, idle := OrderOf(some), OrderOf(more - some);
    DistinctConcat(xs, idle);
    assert Elements(xs + idle) == more;
    SendsIgnoreOrder(t, xs + idle, OrderOf(more), now);
    forall p | p in idle ensures Idle(t, p, now) { assert p in Elements(idle); }
    IdleSends(t, xs, idle, now);
  }

  // Skipping pairs whose evaluation does nothing changes neither the rows nor the sends.
  lemma IdlePairsDoNotMatter(t: Tables, some: set<Pair>, more: set<Pair>, now: Time)
    requires some <= more
    requires forall p | p in more - some :: Idle(t, p, now)
    ensures TickOver(t, some, now).t.ledger == TickOver(t, more, now).t.ledger
    ensures multiset(TickOver(t, some, now).sends) == multiset(TickOver(t, more, now).sends)
  {
    IdlePairsLeaveRows(t, some, more, now);
    IdlePairsSendNothing(t, some, more, now);
    assert TickOver(t, some, now).sends == SendsOf(t, OrderOf(some), now) by { TickRows(t, some, now); }
    assert TickOver(t, more, now).sends == SendsOf(t, OrderOf(more), now) by { TickRows(t, more, now); }
  }

  lemma {:induction false} IdleSends(t: Tables, xs: seq<Pair>, idle: seq<Pair>, now: Time)
    requires forall p | p in idle :: Idle(t, p, now)
    ensures SendsOf(t, xs + idle, now) == SendsOf(t, xs, now)
    decreases |idle|
  {
    hide EvalPair;
    SendsSplit(t, xs, idle, now);
    if idle != [] {
      assert idle[0] in idle;
      assert Idle(t, idle[0], now);
      SendsHead(t, idle, now);
      IdleSends(t, [], idle[1..], now);
      assert [] + idle[1..] == idle[1..];
    }
  }

  // One tick, exactly: scanning the active set gives the same rows as evaluating everything if and only if no
  // skipped pair matches at that instant.
  lemma ScanAgreesIff(t: Tables, now: Time)
    requires Good(t)
    ensures TickOver(t, DueSet(t), now).t.ledger == TickOver(t, FullSet(t), now).t.ledger
            <==> forall p | p in Skipped(t) :: !MatchesNow(t, p, now)
  {
    forall p | p in Skipped(t)
      ensures !MatchesNow(t, p, now) ==> Idle(t, p, now)
      ensures MatchesNow(t, p, now) ==> Touches(t, p, now)
    {
      SkippedHaveNoActiveRow(t, p);
      EvaluationEffect(t, p, now);
    }
    hide EvalPair, MatchesNow;
    if forall p | p in Skipped(t) :: !MatchesNow(t, p, now) {
      IdlePairsDoNotMatter(t, DueSet(t), FullSet(t), now);
    } else {
      var p :| p in Skipped(t) && MatchesNow(t, p, now);
      TickRows(t, DueSet(t), now);
      TickRows(t, FullSet(t), now);
      assert RowsOf(TickOver(t, DueSet(t), now).t.ledger, p) != RowsOf(TickOver(t, FullSet(t), now).t.ledger, p);
    }
  }
}
