// The closed-form wake-up time (app/scheduling/due_time.py) and its agreement with the automaton and the evaluator.
module DueTime {
  import opened Base
  import opened Domain
  import opened Facts
  import opened Rules
  import opened Evaluation
  import opened Episodes

  // The first condition comparing the fact with a numeric literal.
  function ThresholdCondition(cs: seq<Condition>, f: FactName): (c: Option<Condition>)
    ensures c.Some? ==> c.value in cs && c.value.fact == f && c.value.operand.Literal? && c.value.operand.value.Num?
  {
    if cs == [] then None
    else if cs[0].fact == f && cs[0].operand.Literal? && cs[0].operand.value.Num? then Some(cs[0])
    else ThresholdCondition(cs[1..], f)
  }

  // A span given in seconds, to the nearest microsecond, ties to even.
  function ToMicros(seconds: real): (span: int)
    ensures -0.5 <= span as real - seconds * 1000000.0 <= 0.5
    ensures span as real - seconds * 1000000.0 == -0.5 || span as real - seconds * 1000000.0 == 0.5 ==> span % 2 == 0
  {
    var x := seconds * 1000000.0;
    var down := x.Floor;
    var rest := x - down as real;
    if rest < 0.5 || (rest == 0.5 && down % 2 == 0) then down else down + 1
  }

  // The stored instant a duration fact is measured from.
  function StoredStart(state: SubjectState, f: FactName): Option<Time> {
    match state
    case AgentRow(a) =>
      if f.CurrentStateDurationSec? then a.stateEnteredAt
      else if f.AdherenceViolationDurationSec? then a.violationStartedAt else None
    case QueueRow(q) => if f.SnapshotAgeSec? then Some(q.lastEventTs) else None
  }

  function CrossingOf(rule: Rule, state: SubjectState, f: FactName): Option<Time> {
    var c := ThresholdCondition(rule.conditions, f);
    var start := StoredStart(state, f);
    if c.Some? && start.Some? then Some(start.value + ToMicros(c.value.operand.value.n)) else None
  }

  // The duration fact that decides the wake-up of an idle pair.
  function DecidingFact(rule: Rule, state: SubjectState): Option<FactName> {
    if rule.subjectType != KindOf(state) then None
    else if state.QueueRow? then
      if CrossingOf(rule, state, SnapshotAgeSec).Some? then Some(SnapshotAgeSec) else None
    else if CrossingOf(rule, state, CurrentStateDurationSec).Some? then Some(CurrentStateDurationSec)
    else if CrossingOf(rule, state, AdherenceViolationDurationSec).Some? then Some(AdherenceViolationDurationSec)
    else None
  }

  function NextDueAt(rule: Rule, state: SubjectState, episode: Option<Episode>): Option<Time> {
    if episode.Some? && episode.value.state.Pending? then
      if episode.value.firstTrueAt.Some?
      then Some(episode.value.firstTrueAt.value + rule.forDurationSec * SECOND) else None
    else if episode.Some? && episode.value.state.Open? then
      if rule.cooldownSec > 0 && episode.value.lastNotifiedAt.Some?
      then Some(episode.value.lastNotifiedAt.value + rule.cooldownSec * SECOND) else None
    else
      var f := DecidingFact(rule, state);
      if f.Some? then CrossingOf(rule, state, f.value) else None
  }

  // Condition i is the first to compare the fact with a literal number.
  ghost predicate FirstThreshold(cs: seq<Condition>, f: FactName, i: int) {
    && 0 <= i < |cs| && cs[i].fact == f && cs[i].operand.Literal? && cs[i].operand.value.Num?
    && forall k | 0 <= k < i :: cs[k].fact != f || !(cs[k].operand.Literal? && cs[k].operand.value.Num?)
  }

  lemma FirstThresholdLater(cs: seq<Condition>, f: FactName, i: int)
    requires cs != [] && !(cs[0].fact == f && cs[0].operand.Literal? && cs[0].operand.value.Num?)
    ensures FirstThreshold(cs, f, i) <==> FirstThreshold(cs[1..], f, i - 1)
    ensures FirstThreshold(cs, f, i) ==> cs[1..][i - 1] == cs[i]
  {
    var rest := cs[1..];
    assert forall k | 0 <= k < |rest| :: rest[k] == cs[k + 1];
    if FirstThreshold(rest, f, i - 1) {
      forall k | 0 <= k < i ensures cs[k].fact != f || !(cs[k].operand.Literal? && cs[k].operand.value.Num?) {
        if k > 0 { assert cs[k] == rest[k - 1]; }
      }
    }
  }

  lemma {:induction false} ThresholdConditionIsFirst(cs: seq<Condition>, f: FactName)
    ensures forall i | FirstThreshold(cs, f, i) :: ThresholdCondition(cs, f) == Some(cs[i])
    ensures ThresholdCondition(cs, f).Some? ==> exists i :: FirstThreshold(cs, f, i)
  {
    if cs != [] && !(cs[0].fact == f && cs[0].operand.Literal? && cs[0].operand.value.Num?) {
      ThresholdConditionIsFirst(cs[1..], f);
      forall i | FirstThreshold(cs, f, i) ensures ThresholdCondition(cs, f) == Some(cs[i]) {
        FirstThresholdLater(cs, f, i);
      }
      if ThresholdCondition(cs, f).Some? {
        var i :| FirstThreshold(cs[1..], f, i);
        FirstThresholdLater(cs, f, i + 1);
      }
    } else if cs != [] {
      assert FirstThreshold(cs, f, 0);
    }
  }

  // The instant a duration fact of the row crosses its first literal threshold, if both are there.
  ghost predicate CrossesAt(rule: Rule, start: Option<Time>, f: FactName, due: Option<Time>) {
    if start.Some? && exists i :: FirstThreshold(rule.conditions, f, i) then
      exists i :: FirstThreshold(rule.conditions, f, i)
                  && due == Some(start.value + ToMicros(rule.conditions[i].operand.value.n))
    else due.None?
  }

  lemma CrossingMeans(rule: Rule, state: SubjectState, f: FactName)
    ensures CrossesAt(rule, StoredStart(state, f), f, CrossingOf(rule, state, f))
  {
    ThresholdConditionIsFirst(rule.conditions, f);
  }

  // With no active episode the wake-up time of an agent is the crossing of its state duration, or failing that of its
  // violation duration; of a queue, that of its snapshot's age. There is none exactly when there is no such crossing.
  lemma IdleWakeUpMeans(rule: Rule, state: SubjectState)
    requires KindOf(state) == rule.subjectType
    ensures var due := NextDueAt(rule, state, None);
      match state
      case QueueRow(q) => CrossesAt(rule, Some(q.lastEventTs), SnapshotAgeSec, due)
      case AgentRow(a) =>
        if CrossesAt(rule, a.stateEnteredAt, CurrentStateDurationSec, None)
        then CrossesAt(rule, a.violationStartedAt, AdherenceViolationDurationSec, due)
        else CrossesAt(rule, a.stateEnteredAt, CurrentStateDurationSec, due)
  {
    CrossingMeans(rule, state, SnapshotAgeSec);
    CrossingMeans(rule, state, CurrentStateDurationSec);
    CrossingMeans(rule, state, AdherenceViolationDurationSec);
  }

  // With the condition held true, a pending episode opens, and an open one with a cooldown reminds, exactly from its
  // wake-up time on.
  lemma ActiveWakeUp(rule: Rule, state: SubjectState, e: Episode, now: Time, missing: seq<FactName>)
    requires e.Valid() && (e.state.Pending? || (e.state.Open? && rule.cooldownSec > 0))
    ensures NextDueAt(rule, state, Some(e)).Some?
    ensures var m := Advance(Some(e), true, now, rule, e.id, missing);
      && m.Moved?
      && (m.transitions == [if e.state.Pending? then Opened else Reminder]
          <==> now >= NextDueAt(rule, state, Some(e)).value)
      && (m.transitions != [] ==> m.episode.state.Open? && m.episode.lastNotifiedAt == Some(now))
  {
  }

  // Comparisons that a duration satisfies before it reaches the threshold.
  predicate Falling(op: Operator) {
    op == Lt || op == Lte || op == Neq
  }

  // The value of a duration fact: time since its start, or missing.
  lemma DurationValue(state: SubjectState, f: FactName, now: Time)
    requires TimeDerived(f) && StoredStart(state, f).Some?
    ensures var v := ValueOf(f, state, now); v.Missing? || v == Num(Seconds(now - StoredStart(state, f).value))
  {
  }

  lemma BeforeCrossing(now: Time, start: Time, threshold: real)
    requires now < start + ToMicros(threshold)
    ensures Seconds(now - start) < threshold
  {
    assert (now - start) as real <= ToMicros(threshold) as real - 1.0;
  }

  lemma AfterCrossing(now: Time, start: Time, threshold: real)
    requires now > start + ToMicros(threshold)
    ensures Seconds(now - start) > threshold
  {
    assert (now - start) as real >= ToMicros(threshold) as real + 1.0;
  }

  // Before the wake-up time the condition that set it holds if and only if its duration is known and it is not one
  // that waits for the threshold.
  lemma DecidingConditionBeforeWakeUp(rule: Rule, state: SubjectState, now: Time)
    requires Accepted(rule) && KindOf(state) == rule.subjectType
    requires NextDueAt(rule, state, None).Some? && now < NextDueAt(rule, state, None).value
    ensures var f := DecidingFact(rule, state).value;
      var c := ThresholdCondition(rule.conditions, f).value;
      Holds(c, state, now) <==> Falling(c.op) && !ValueOf(f, state, now).Missing?
  {
    var f := DecidingFact(rule, state).value;
    var c := ThresholdCondition(rule.conditions, f).value;
    var i :| 0 <= i < |rule.conditions| && rule.conditions[i] == c;
    assert ConditionAccepted(rule.subjectType, c);
    DurationValue(state, f, now);
    BeforeCrossing(now, StoredStart(state, f).value, c.operand.value.n);
  }

  // With no active episode and an unchanged row, no evaluation before the wake-up time can match, provided the
  // condition that set it waits for the threshold.
  lemma NoMatchBeforeWakeUp(rule: Rule, state: SubjectState, now: Time)
    requires Accepted(rule) && KindOf(state) == rule.subjectType
    requires NextDueAt(rule, state, None).Some? && now < NextDueAt(rule, state, None).value
    requires !Falling(ThresholdCondition(rule.conditions, DecidingFact(rule, state).value).value.op)
    ensures Evaluate(rule, state, now).Some? && !Evaluate(rule, state, now).value.matched
  {
    TypeSoundness(rule, state, now, "");
    MatchedMeaning(rule.conditions, state, now);
    DecidingConditionBeforeWakeUp(rule, state, now);
    var c := ThresholdCondition(rule.conditions, DecidingFact(rule, state).value).value;
    var i :| 0 <= i < |rule.conditions| && rule.conditions[i] == c;
  }

  // When the other conditions hold the wake-up time is exact: the rule matches at every instant after it and at none
  // before; at the instant itself, when the threshold was rounded up to it, or is met exactly and the operator is >=.
  lemma WakeUpIsExact(rule: Rule, state: SubjectState, now: Time, i: nat)
    requires Accepted(rule) && KindOf(state) == rule.subjectType
    requires DecidingFact(rule, state).Some? && i < |rule.conditions|
    requires rule.conditions[i] == ThresholdCondition(rule.conditions, DecidingFact(rule, state).value).value
    requires rule.conditions[i].op == Gt || rule.conditions[i].op == Gte
    requires !ValueOf(DecidingFact(rule, state).value, state, now).Missing?
    requires forall k | 0 <= k < |rule.conditions| && k != i :: Holds(rule.conditions[k], state, now)
    ensures Evaluate(rule, state, now).Some? && NextDueAt(rule, state, None).Some?
    ensures var due, threshold := NextDueAt(rule, state, None).value, rule.conditions[i].operand.value.n;
      var reached := Seconds(ToMicros(threshold));
      Evaluate(rule, state, now).value.matched
      <==> now > due
           || (now == due && (reached > threshold || (reached == threshold && rule.conditions[i].op == Gte)))
  {
    TypeSoundness(rule, state, now, "");
    MatchedMeaning(rule.conditions, state, now);
    var f := DecidingFact(rule, state).value;
    DurationValue(state, f, now);
    var start := StoredStart(state, f).value;
    var threshold := rule.conditions[i].operand.value.n;
    var span := ToMicros(threshold);
    if now - start < span { BeforeCrossing(now, start, threshold); }
    if now - start > span { AfterCrossing(now, start, threshold); }
    assert Holds(rule.conditions[i], state, now)
        <==> Seconds(now - start) > threshold || (Seconds(now - start) == threshold && rule.conditions[i].op == Gte);
  }

  // For a falling comparison the wake-up time says nothing: the rule matches before it.
  lemma FallingThresholdMatchesEarly(q: QueueState)
    requires q.lastEventTs == 0
    ensures var rule := Rule("", Queue, All, [Condition(SnapshotAgeSec, Lt, Literal(Num(60.0)))], 0, 0,
                             Recipient(Author, None), [], "");
      && Accepted(rule) && NextDueAt(rule, QueueRow(q), None) == Some(60 * SECOND)
      && Evaluate(rule, QueueRow(q), 0).Some? && Evaluate(rule, QueueRow(q), 0).value.matched
  {
    var c := Condition(SnapshotAgeSec, Lt, Literal(Num(60.0)));
    var rule := Rule("", Queue, All, [c], 0, 0, Recipient(Author, None), [], "");
    TypeSoundness(rule, QueueRow(q), 0, "");
    MatchedMeaning(rule.conditions, QueueRow(q), 0);
    assert Holds(c, QueueRow(q), 0);
    assert ThresholdCondition(rule.conditions, SnapshotAgeSec) == Some(c);
  }

  // An open notify-once episode has no wake-up time, yet time alone can end its match.
  lemma NotifyOnceMissesRecovery(q: QueueState, e: Episode)
    requires q.lastEventTs == 0 && e.state.Open?
    ensures var rule := Rule("", Queue, All, [Condition(SnapshotAgeSec, Lt, Literal(Num(60.0)))], 0, 0,
                             Recipient(Author, None), [], "");
      && Accepted(rule) && NextDueAt(rule, QueueRow(q), Some(e)).None?
      && Evaluate(rule, QueueRow(q), 0).Some? && Evaluate(rule, QueueRow(q), 0).value.matched
      && Evaluate(rule, QueueRow(q), 60 * SECOND).Some? && !Evaluate(rule, QueueRow(q), 60 * SECOND).value.matched
  {
    FallingThresholdMatchesEarly(q);
    var c := Condition(SnapshotAgeSec, Lt, Literal(Num(60.0)));
    var rule := Rule("", Queue, All, [c], 0, 0, Recipient(Author, None), [], "");
    TypeSoundness(rule, QueueRow(q), 60 * SECOND, "");
    MatchedMeaning(rule.conditions, QueueRow(q), 60 * SECOND);
    assert !Holds(rule.conditions[0], QueueRow(q), 60 * SECOND);
  }
}
