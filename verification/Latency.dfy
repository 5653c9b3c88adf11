// How late the replay driver can be in noticing that a duration crossed its threshold during silence.
module Latency {
  import opened Base
  import opened Domain
  import opened Facts
  import opened Rules
  import opened Evaluation
  import opened Episodes
  import opened Incidents
  import opened Engine
  import opened Scheduling
  import opened Triggers
  import opened ScanRuns
  import opened Replay
  import opened DueTime

  // The pair is looked at on every tick, and its rule waits for the given span before it opens.
  predicate Ticked(t: Tables, p: Pair, d: int) {
    && Enabled(t, p.rule) && ClockOnLeft(t.rules[p.rule].rule) && p.subject in Selected(t, t.rules[p.rule].rule)
    && d == t.rules[p.rule].rule.forDurationSec * SECOND
  }

  // Between c and the end of the gap the pair matches exactly from the given instant on.
  ghost predicate MatchesFrom(t: Tables, p: Pair, c: Time, end: Time, start: Time) {
    forall now | c < now <= end :: MatchesNow(t, p, now) <==> now >= start
  }

  // Row k of the pair is open since the given instant.
  predicate OpenSince(rows: seq<Incident>, k: nat, at: Time) {
    |rows| == k + 1 && rows[k].episode.state.Open? && rows[k].episode.openedAt == Some(at)
  }

  // Row k of the pair is pending since the given instant.
  predicate PendingSince(rows: seq<Incident>, k: nat, at: Time) {
    |rows| == k + 1 && rows[k].episode.state.Pending? && rows[k].episode.firstTrueAt == Some(at)
  }

  // What a matching evaluation makes of rows.
  ghost predicate Advances(before: seq<Incident>, after: seq<Incident>, duration: int, now: Time) {
    && (ActiveAt(before).None? ==>
          if duration == 0 then OpenSince(after, |before|, now) else PendingSince(after, |before|, now))
    && (forall k, at | PendingSince(before, k, at) ::
          if now - at < duration then PendingSince(after, k, at) else OpenSince(after, k, now))
    && (forall k, at | OpenSince(before, k, at) :: OpenSince(after, k, at))
  }

  lemma MatchingStep(rule: Rule, p: Pair, rows: seq<Incident>, reading: Reading)
    requires RecipientAccepted(rule) && PairFits(rule, p, rows) && reading.matched
    ensures var step := StepPair(rule, p, rows, reading);
      step.Some? && Advances(rows, step.value.incidents, rule.forDurationSec * SECOND, reading.now)
  {
    hide StepPair, PairFits, NotesFit, ActiveAt;
    StepShape(rule, p, rows, reading);
    ActiveIsLast(rule, p, rows);
    if ActiveAt(rows).Some? {
      RowAt(rule, p, rows, |rows| - 1);
      RowSurvives(rule, p.subject, rows[|rows| - 1], reading);
    }
  }

  // A matching evaluation opens an episode or starts its clock, opens a pending one whose time is up, and leaves an
  // open one open.
  lemma MatchingEvaluation(t: Tables, p: Pair, now: Time)
    requires Good(t) && MatchesNow(t, p, now)
    ensures Advances(RowsOf(t.ledger, p), EvalPair(t, p, now).incidents,
                     t.rules[p.rule].rule.forDurationSec * SECOND, now)
  {
    var reading := ReadingFor(t, p, now).value;
    RowsFit(t, p);
    MatchingStep(reading.0, p, RowsOf(t.ledger, p), reading.1);
    hide ReadingFor, Advances, PairFits, StepPair;
  }

  lemma TickedIsDue(t: Tables, p: Pair, d: int)
    requires Ticked(t, p, d)
    ensures p in DueSet(t) && d >= 0
  {
  }

  // The pair's rows and its future readings after one tick.
  lemma TickEvaluates(t: Tables, p: Pair, d: int, now: Time)
    requires Good(t) && Ticked(t, p, d)
    ensures var after := OnTick(t, now).t;
      && Good(after) && SameInputs(t, after)
      && RowsOf(after.ledger, p) == EvalPair(t, p, now).incidents
  {
    hide Good, Ticked, RunEvals, EvalPair, DueSet;
    TickedIsDue(t, p, d);
    TickRows(t, DueSet(t), now);
    RunEvalsKeepsGood(t, OrderOf(DueSet(t)), now, ByTick);
  }

  lemma SameInputsSameMatches(a: Tables, b: Tables, p: Pair, d: int, c: Time, end: Time, start: Time)
    requires SameInputs(a, b) && Ticked(a, p, d) && MatchesFrom(a, p, c, end, start)
    ensures Ticked(b, p, d)
    ensures forall later | c <= later :: MatchesFrom(b, p, later, end, start)
  {
    hide MatchesNow;
    assert forall kind, id :: StateFor(a, kind, id) == StateFor(b, kind, id);
    forall now ensures MatchesNow(a, p, now) == MatchesNow(b, p, now) {
      MatchIsLocal(a, b, p, now);
    }
  }

  // What one tick does to a pair that is ticked through a silent gap.
  lemma TickInGap(t: Tables, p: Pair, d: int, c: Time, end: Time, start: Time, now: Time)
    requires Good(t) && Ticked(t, p, d) && MatchesFrom(t, p, c, end, start) && c < now <= end
    ensures var after, rows := OnTick(t, now).t, RowsOf(t.ledger, p);
      && Good(after) && SameInputs(t, after) && Ticked(after, p, d) && MatchesFrom(after, p, now, end, start)
      && (now >= start ==> Advances(rows, RowsOf(after.ledger, p), d, now))
      && (now < start && !HasActive(t, p) ==> RowsOf(after.ledger, p) == rows)
  {
    TickEvaluates(t, p, d, now);
    SameInputsSameMatches(t, OnTick(t, now).t, p, d, c, end, start);
    assert MatchesNow(t, p, now) <==> now >= start;
    hide OnTick, Ticked, MatchesFrom, MatchesNow, Advances, HasActive, EvalPair;
    if now >= start {
      MatchingEvaluation(t, p, now);
    } else {
      EvaluationEffect(t, p, now);
    }
    hide Good;
  }

  lemma TicksUnfold(t: Tables, c: Time, end: Time, tick: int)
    requires tick > 0
    ensures RunActs(t, Ticks(TickTimes(c, end, tick)), false).t ==
      if c + tick <= end then RunActs(OnTick(t, c + tick).t, Ticks(TickTimes(c + tick, end, tick)), false).t else t
  {
    hide OnTick, Ticks, IngestLine, RunActs;
    if c + tick <= end {
      hide TickTimes;
      FirstTick(c, end, tick);
      var rest := Ticks(TickTimes(c + tick, end, tick));
      assert ([Tick(c + tick)] + rest)[1..] == rest;
      RunActsStep(t, [Tick(c + tick)] + rest);
    } else {
      assert Ticks([]) == [];
      RunActsStep(t, []);
    }
  }

  // The pair's rows after the ticks of the gap.
  ghost function GapEnd(t: Tables, p: Pair, c: Time, end: Time, tick: int): seq<Incident>
    requires tick > 0
  {
    RowsOf(RunActs(t, Ticks(TickTimes(c, end, tick)), false).t.ledger, p)
  }

  lemma GapUnfolds(t: Tables, p: Pair, c: Time, end: Time, tick: int)
    requires tick > 0
    ensures GapEnd(t, p, c, end, tick) ==
      if c + tick <= end then GapEnd(OnTick(t, c + tick).t, p, c + tick, end, tick) else RowsOf(t.ledger, p)
  {
    hide RunActs, OnTick, Ticks, TickTimes;
    TicksUnfold(t, c, end, tick);
  }

  lemma RunActsStep(t: Tables, acts: seq<Act>)
    ensures RunActs(t, acts, false).t ==
      if acts == [] then t else RunActs(Do(t, acts[0], false).t, acts[1..], false).t
  {
    hide Do;
  }

  // Through the rest of the gap an open row stays open.
  lemma {:induction false} StaysOpen(t: Tables, p: Pair, d: int, c: Time, end: Time, tick: int, start: Time, k: nat,
                                    at: Time)
    requires tick > 0 && Good(t) && Ticked(t, p, d)
    requires MatchesFrom(t, p, c, end, start) && c >= start
    requires OpenSince(RowsOf(t.ledger, p), k, at)
    ensures OpenSince(GapEnd(t, p, c, end, tick), k, at)
    decreases end - c
  {
    hide Good, OnTick, EvalPair, MatchesFrom, OpenSince, GapEnd, Ticked;
    GapUnfolds(t, p, c, end, tick);
    if c + tick <= end {
      TickInGap(t, p, d, c, end, start, c + tick);
      assert OpenSince(RowsOf(OnTick(t, c + tick).t.ledger, p), k, at);
      StaysOpen(OnTick(t, c + tick).t, p, d, c + tick, end, tick, start, k, at);
    }
  }

  lemma PendingAdvances(before: seq<Incident>, after: seq<Incident>, duration: int, now: Time, k: nat, at: Time)
    requires Advances(before, after, duration, now) && PendingSince(before, k, at)
    ensures if now - at < duration then PendingSince(after, k, at) else OpenSince(after, k, now)
  {
  }

  lemma FirstAdvances(before: seq<Incident>, after: seq<Incident>, duration: int, now: Time)
    requires Advances(before, after, duration, now) && ActiveAt(before).None?
    ensures if duration == 0 then OpenSince(after, |before|, now) else PendingSince(after, |before|, now)
  {
  }

  // The first tick of the gap, seen from the pair.
  lemma FirstGapTick(t: Tables, p: Pair, d: int, c: Time, end: Time, tick: int, start: Time)
    requires tick > 0 && c + tick <= end && Good(t) && Ticked(t, p, d) && MatchesFrom(t, p, c, end, start)
    ensures var now := c + tick;
      var next := OnTick(t, now).t;
      && Good(next) && Ticked(next, p, d) && MatchesFrom(next, p, now, end, start)
      && GapEnd(t, p, c, end, tick) == GapEnd(next, p, now, end, tick)
      && (now >= start ==> Advances(RowsOf(t.ledger, p), RowsOf(next.ledger, p), d, now))
      && (now < start && !HasActive(t, p) ==>
            !HasActive(next, p) && RowsOf(next.ledger, p) == RowsOf(t.ledger, p))
  {
    hide Good, OnTick, EvalPair, MatchesFrom, Advances, GapEnd, Ticked, RowsOf, SameInputs, HasActive;
    GapUnfolds(t, p, c, end, tick);
    TickInGap(t, p, d, c, end, start, c + tick);
    if RowsOf(OnTick(t, c + tick).t.ledger, p) == RowsOf(t.ledger, p) {
      ActiveFollowsRows(t, OnTick(t, c + tick).t, p);
    }
  }

  // A pending row whose time is not yet up at c opens at the first tick at which it is.
  lemma {:induction false} PendingOpens(t: Tables, p: Pair, d: int, c: Time, end: Time, tick: int, start: Time, k: nat,
                                       at: Time) returns (since: Time)
    requires tick > 0 && Good(t) && Ticked(t, p, d) && MatchesFrom(t, p, c, end, start) && c >= start
    requires PendingSince(RowsOf(t.ledger, p), k, at)
    requires c < at + d && at + d + tick - 1 <= end
    ensures at + d <= since < at + d + tick
    ensures OpenSince(GapEnd(t, p, c, end, tick), k, since)
    decreases end - c
  {
    hide Good, OnTick, MatchesFrom, OpenSince, PendingSince, Advances, GapEnd, Ticked, RowsOf, HasActive;
    var now := c + tick;
    var next := OnTick(t, now).t;
    FirstGapTick(t, p, d, c, end, tick, start);
    PendingAdvances(RowsOf(t.ledger, p), RowsOf(next.ledger, p), d, now, k, at);
    if now - at < d {
      since := PendingOpens(next, p, d, now, end, tick, start, k, at);
    } else {
      since := now;
      StaysOpen(next, p, d, now, end, tick, start, k, now);
    }
  }

  // How long after the start of the match, and of the for-duration, the opening can come: the next tick sees the
  // match, and with a for-duration the next tick after its end sees that.
  function Slack(duration: int, tick: int): (slack: int)
    requires tick > 0
    ensures slack >= tick - 1
  {
    if duration == 0 then tick - 1 else 2 * (tick - 1)
  }

  // The match begins before the next tick.
  lemma OpensFromNextTick(t: Tables, p: Pair, d: int, c: Time, end: Time, tick: int, start: Time) returns (at: Time)
    requires tick > 0 && d >= 0 && Good(t) && Ticked(t, p, d) && MatchesFrom(t, p, c, end, start) && !HasActive(t, p)
    requires c < start <= c + tick && start + d + Slack(d, tick) <= end
    ensures start + d <= at <= start + d + Slack(d, tick)
    ensures OpenSince(GapEnd(t, p, c, end, tick), |RowsOf(t.ledger, p)|, at)
  {
    hide Good, OnTick, MatchesFrom, OpenSince, PendingSince, Advances, GapEnd, Ticked, RowsOf, HasActive, ActiveAt;
    var now, rows := c + tick, RowsOf(t.ledger, p);
    var next := OnTick(t, now).t;
    ActiveMeans(t, p);
    FirstGapTick(t, p, d, c, end, tick, start);
    FirstAdvances(rows, RowsOf(next.ledger, p), d, now);
    if d == 0 {
      at := now;
      StaysOpen(next, p, d, now, end, tick, start, |rows|, now);
    } else {
      at := PendingOpens(next, p, d, now, end, tick, start, |rows|, now);
    }
  }

  // In a silent gap from c to end, a ticked pair that matches from the given instant on opens once its for-duration
  // has passed, within the slack, and is open at the end.
  lemma {:induction false} OpensInTime(t: Tables, p: Pair, d: int, c: Time, end: Time, tick: int, start: Time)
      returns (at: Time)
    requires tick > 0 && Good(t) && Ticked(t, p, d) && MatchesFrom(t, p, c, end, start) && !HasActive(t, p)
    requires c < start && start + d + Slack(d, tick) <= end
    ensures start + d <= at <= start + d + Slack(d, tick)
    ensures OpenSince(GapEnd(t, p, c, end, tick), |RowsOf(t.ledger, p)|, at)
    decreases end - c
  {
    hide Good, OnTick, MatchesFrom, OpenSince, Advances, GapEnd, Ticked, RowsOf, HasActive, ActiveAt, Slack;
    TickedIsDue(t, p, d);
    hide DueSet;
    if c + tick < start {
      FirstGapTick(t, p, d, c, end, tick, start);
      at := OpensInTime(OnTick(t, c + tick).t, p, d, c + tick, end, tick, start);
    } else {
      at := OpensFromNextTick(t, p, d, c, end, tick, start);
    }
  }

  lemma ActiveMeans(t: Tables, p: Pair)
    ensures HasActive(t, p) <==> ActiveAt(RowsOf(t.ledger, p)).Some?
  {
  }

  lemma ActiveFollowsRows(a: Tables, b: Tables, p: Pair)
    requires RowsOf(a.ledger, p) == RowsOf(b.ledger, p)
    ensures HasActive(a, p) == HasActive(b, p)
  {
  }

  // The crossing of a threshold on a duration fact.
  function Crossing(start: Time, threshold: real): real {
    start as real + threshold * 1000000.0
  }

  // The first instant that satisfies the comparison: after the crossing for >, at or after it for >=.
  function FirstInstant(op: Operator, x: real): (at: Time)
    ensures op == Gt ==> x < at as real <= x + 1.0
    ensures op != Gt ==> x <= at as real < x + 1.0
  {
    if op == Gt then x.Floor + 1 else if x.Floor as real == x then x.Floor else x.Floor + 1
  }

  // Condition i demands that a duration started at the given instant exceed (or reach) its threshold, and every other
  // condition holds throughout the gap.
  ghost predicate WaitsOnlyFor(rule: Rule, state: SubjectState, i: nat, start: Time, c: Time, end: Time) {
    && i < |rule.conditions| && (rule.conditions[i].op == Gt || rule.conditions[i].op == Gte)
    && rule.conditions[i].operand.Literal? && rule.conditions[i].operand.value.Num?
    && StoredStart(state, rule.conditions[i].fact) == Some(start)
    && forall now | c < now <= end ::
         && !ValueOf(rule.conditions[i].fact, state, now).Missing?
         && forall k | 0 <= k < |rule.conditions| && k != i :: Holds(rule.conditions[k], state, now)
  }

  lemma GoodRules(t: Tables, id: string)
    requires Good(t) && id in t.rules
    ensures Accepted(t.rules[id].rule)
  {
  }

  lemma StartedFactsAreClocks(state: SubjectState, f: FactName)
    requires StoredStart(state, f).Some?
    ensures f.CurrentStateDurationSec? || f.AdherenceViolationDurationSec? || f.SnapshotAgeSec?
  {
  }

  lemma MeetsFromFirstInstant(op: Operator, start: Time, threshold: real, now: Time)
    requires op == Gt || op == Gte
    ensures now >= FirstInstant(op, Crossing(start, threshold))
            <==> Seconds(now - start) > threshold || (op == Gte && Seconds(now - start) == threshold)
  {
    var x := Crossing(start, threshold);
    assert Seconds(now - start) > threshold <==> now as real > x;
    assert Seconds(now - start) == threshold <==> now as real == x;
  }

  // An enabled rule whose only open condition is "duration > threshold" (or >=) opens no earlier than its for-duration
  // after the crossing, and within the slack of that: one tick interval without a for-duration, two with one.
  lemma ThresholdLatency(t: Tables, p: Pair, d: int, i: nat, start: Time, c: Time, end: Time, tick: int)
      returns (at: Time)
    requires tick > 0 && Good(t) && Enabled(t, p.rule) && !HasActive(t, p)
    requires var rule := t.rules[p.rule].rule;
      && p.subject in Selected(t, rule) && d == rule.forDurationSec * SECOND
      && StateFor(t, rule.subjectType, p.subject).Some?
      && WaitsOnlyFor(rule, StateFor(t, rule.subjectType, p.subject).value, i, start, c, end)
    requires var condition := t.rules[p.rule].rule.conditions[i];
      var first := FirstInstant(condition.op, Crossing(start, condition.operand.value.n));
      c < first && first + d + Slack(d, tick) <= end
    ensures var condition := t.rules[p.rule].rule.conditions[i];
      var x := Crossing(start, condition.operand.value.n);
      && (if condition.op == Gt then x + d as real < at as real else x + d as real <= at as real)
      && at as real <= x + d as real + (if d == 0 then tick else 2 * tick) as real
    ensures OpenSince(GapEnd(t, p, c, end, tick), |RowsOf(t.ledger, p)|, at)
  {
    hide EvaluateAll, Good, Render, OpenSince, GapEnd, HasActive, FirstInstant;
    var rule := t.rules[p.rule].rule;
    assert Accepted(rule) by { GoodRules(t, p.rule); }
    var state := StateFor(t, rule.subjectType, p.subject).value;
    var condition := rule.conditions[i];
    assert ClockOnLeft(rule) by { StartedFactsAreClocks(state, condition.fact); }
    var first := FirstInstant(condition.op, Crossing(start, condition.operand.value.n));
    forall now | c < now <= end ensures MatchesNow(t, p, now) <==> now >= first {
      TypeSoundness(rule, state, now, p.subject);
      MatchedMeaning(rule.conditions, state, now);
      DurationValue(state, condition.fact, now);
      MeetsFromFirstInstant(condition.op, start, condition.operand.value.n, now);
      assert Holds(condition, state, now) <==> now >= first;
    }
    at := OpensInTime(t, p, d, c, end, tick, first);
  }
}
