// Whether time alone can end a match. An open episode that notifies once is given no wake-up time, because "no
// time-derived fact can change the outcome" (app/scheduling/due_time.py:62-66); here is for which rules that is so.
module NotifyOnce {
  import opened Base
  import opened Domain
  import opened Facts
  import opened Rules
  import opened Comparisons
  import opened Evaluation
  import opened Episodes
  import opened DueTime

  /* ---------- Conditions that move with the clock ---------- */

  predicate LeftMoves(c: Condition) {
    TimeDerived(c.fact)
  }

  predicate RightMoves(c: Condition) {
    c.operand.FactRef? && TimeDerived(c.operand.target)
  }

  // A whole number of microseconds.
  predicate Whole(seconds: real) {
    (seconds * 1000000.0).Floor as real == seconds * 1000000.0
  }

  // A holding condition goes on holding for ever on an unchanged row. It does when neither side moves or both do
  // (their difference is constant); with one moving side, when it asks that side to be the greater; and when it asks
  // for inequality with a number the duration has passed or never takes.
  predicate Lasting(c: Condition, state: SubjectState, now: Time) {
    || LeftMoves(c) == RightMoves(c)
    || (LeftMoves(c) && (c.op == Gt || c.op == Gte))
    || (RightMoves(c) && (c.op == Lt || c.op == Lte))
    || (c.op == Neq && !MeetsLater(c, state, now))
  }

  // The duration still has to pass the other side's number, and takes it exactly.
  predicate MeetsLater(c: Condition, state: SubjectState, now: Time) {
    var a, b := ValueOf(c.fact, state, now), RightOf(c, state, now);
    var age, number := if LeftMoves(c) then a else b, if LeftMoves(c) then b else a;
    age.Num? && number.Num? && age.n < number.n && Whole(number.n)
  }

  // A known duration grows with the clock from its stored start.
  lemma Ages(state: SubjectState, f: FactName, now: Time, later: Time)
    requires TimeDerived(f) && !ValueOf(f, state, now).Missing?
    ensures StoredStart(state, f).Some?
    ensures ValueOf(f, state, later) == Num(Seconds(later - StoredStart(state, f).value))
  {
  }

  lemma OlderLater(now: Time, later: Time, start: Time)
    requires now <= later
    ensures Seconds(now - start) <= Seconds(later - start)
    ensures Seconds(later - start) - Seconds(now - start) == Seconds(later - now)
  {
  }

  // Some later instant at which the duration exceeds the number.
  function PastInstant(now: Time, start: Time, number: real): (later: Time)
    ensures later >= now && Seconds(later - start) > number
  {
    Max(now, start + (number * 1000000.0).Floor + 1)
  }

  // The instant at which the duration takes the number.
  lemma MeetingInstant(now: Time, start: Time, number: real) returns (later: Time)
    requires Whole(number) && Seconds(now - start) <= number
    ensures later >= now && Seconds(later - start) == number
  {
    later := start + (number * 1000000.0).Floor;
    assert (now - start) as real <= number * 1000000.0;
  }

  lemma SpansAreWhole(span: int)
    ensures Whole(Seconds(span))
  {
  }

  lemma {:induction false} AboveAll(items: seq<Value>) returns (bound: real)
    ensures forall i | 0 <= i < |items| && items[i].Num? :: items[i].n < bound
  {
    bound := 0.0;
    if items != [] {
      bound := AboveAll(items[1..]);
      if items[0].Num? && items[0].n >= bound { bound := items[0].n + 1.0; }
      forall i | 0 <= i < |items| && items[i].Num? ensures items[i].n < bound {
        if i > 0 { assert items[i] == items[1..][i - 1]; }
      }
    }
  }

  /* ---------- One condition ---------- */

  lemma StillHolds(c: Condition, state: SubjectState, now: Time, later: Time)
    requires !LeftMoves(c) && !RightMoves(c)
    ensures Holds(c, state, later) == Holds(c, state, now)
  {
    OnlyTimeDerivedFactsMove(c.fact, state, now, later);
    if c.operand.FactRef? { OnlyTimeDerivedFactsMove(c.operand.target, state, now, later); }
  }

  lemma BothMove(c: Condition, state: SubjectState, now: Time, later: Time)
    requires ConditionAccepted(KindOf(state), c) && LeftMoves(c) && RightMoves(c) && Holds(c, state, now)
    ensures Holds(c, state, later)
  {
    Ages(state, c.fact, now, later);
    Ages(state, c.operand.target, now, later);
    Ages(state, c.fact, now, now);
    Ages(state, c.operand.target, now, now);
    var s1, s2 := StoredStart(state, c.fact).value, StoredStart(state, c.operand.target).value;
    NumbersCompare(c.op, Seconds(now - s1), Seconds(now - s2));
    NumbersCompare(c.op, Seconds(later - s1), Seconds(later - s2));
    assert Seconds(later - s1) - Seconds(later - s2) == Seconds(now - s1) - Seconds(now - s2);
  }

  // A condition with one moving side is a comparison of an age with a fixed number, unless it is a membership test.
  lemma OneMoves(c: Condition, state: SubjectState, now: Time) returns (start: Time, number: real)
    requires ConditionAccepted(KindOf(state), c) && LeftMoves(c) != RightMoves(c) && c.op != In && Holds(c, state, now)
    ensures forall l :: Holds(c, state, l) <==>
      if LeftMoves(c) then NumHolds(c.op, Seconds(l - start), number) else NumHolds(c.op, number, Seconds(l - start))
    ensures MeetsLater(c, state, now) <==> Seconds(now - start) < number && Whole(number)
  {
    var f, fixed := if LeftMoves(c) then c.fact else c.operand.target,
                    if LeftMoves(c) then RightOf(c, state, now) else ValueOf(c.fact, state, now);
    Ages(state, f, now, now);
    start := StoredStart(state, f).value;
    FixedIsNumber(c, state, now);
    number := fixed.n;
    forall l
      ensures Holds(c, state, l) <==>
        if LeftMoves(c) then NumHolds(c.op, Seconds(l - start), number) else NumHolds(c.op, number, Seconds(l - start))
    {
      Ages(state, f, now, l);
      FixedStays(c, state, now, l);
      if LeftMoves(c) {
        NumbersCompare(c.op, Seconds(l - start), number);
      } else {
        NumbersCompare(c.op, number, Seconds(l - start));
      }
    }
  }

  lemma FixedIsNumber(c: Condition, state: SubjectState, now: Time)
    requires ConditionAccepted(KindOf(state), c) && LeftMoves(c) != RightMoves(c) && c.op != In && Holds(c, state, now)
    ensures (if LeftMoves(c) then RightOf(c, state, now) else ValueOf(c.fact, state, now)).Num?
  {
    ExtractHasType(c.fact, state, now);
    if c.operand.FactRef? { ExtractHasType(c.operand.target, state, now); }
  }

  lemma FixedStays(c: Condition, state: SubjectState, now: Time, later: Time)
    requires LeftMoves(c) != RightMoves(c)
    ensures LeftMoves(c) ==> RightOf(c, state, later) == RightOf(c, state, now)
    ensures RightMoves(c) ==> ValueOf(c.fact, state, later) == ValueOf(c.fact, state, now)
  {
    if RightMoves(c) {
      OnlyTimeDerivedFactsMove(c.fact, state, now, later);
    } else if c.operand.FactRef? {
      OnlyTimeDerivedFactsMove(c.operand.target, state, now, later);
    }
  }

  lemma LastingHolds(c: Condition, state: SubjectState, now: Time, later: Time)
    requires ConditionAccepted(KindOf(state), c) && Holds(c, state, now) && Lasting(c, state, now) && now <= later
    ensures Holds(c, state, later)
  {
    if LeftMoves(c) && RightMoves(c) {
      BothMove(c, state, now, later);
    } else if !LeftMoves(c) && !RightMoves(c) {
      StillHolds(c, state, now, later);
    } else {
      hide Holds, MeetsLater, Whole, Seconds;
      var start, number := OneMoves(c, state, now);
      OlderLater(now, later, start);
      SpansAreWhole(later - start);
    }
  }

  // A membership test on a duration names finitely many numbers.
  lemma MembershipEnds(c: Condition, state: SubjectState, now: Time) returns (later: Time)
    requires ConditionAccepted(KindOf(state), c) && c.op == In && LeftMoves(c) && Holds(c, state, now)
    ensures later >= now && !Holds(c, state, later)
  {
    var items := c.operand.value.items;
    var bound := AboveAll(items);
    Ages(state, c.fact, now, now);
    var start := StoredStart(state, c.fact).value;
    later := PastInstant(now, start, bound);
    Ages(state, c.fact, now, later);
    assert forall i | 0 <= i < |items| :: items[i].Num?;
  }

  lemma NotLastingEnds(c: Condition, state: SubjectState, now: Time) returns (later: Time)
    requires ConditionAccepted(KindOf(state), c) && Holds(c, state, now) && !Lasting(c, state, now)
    ensures later >= now && !Holds(c, state, later)
  {
    if c.op == In {
      later := MembershipEnds(c, state, now);
    } else {
      hide Holds, MeetsLater, Whole, Seconds;
      var start, number := OneMoves(c, state, now);
      if c.op == Neq {
        later := MeetingInstant(now, start, number);
      } else {
        later := PastInstant(now, start, number);
      }
    }
  }

  /* ---------- The rule ---------- */

  // A rule that matches now goes on matching at every later instant on an unchanged row if and only if each of its
  // conditions is lasting.
  lemma MatchLastsIff(rule: Rule, state: SubjectState, now: Time)
    requires Accepted(rule) && KindOf(state) == rule.subjectType
    requires Evaluate(rule, state, now).Some? && Evaluate(rule, state, now).value.matched
    ensures (forall later | later >= now :: MatchesAt(rule, state, later))
            <==> forall i | 0 <= i < |rule.conditions| :: Lasting(rule.conditions[i], state, now)
  {
    hide Evaluate, EvaluateAll, Lasting, Holds;
    MatchesWhenAllHold(rule, state, now);
    if forall i | 0 <= i < |rule.conditions| :: Lasting(rule.conditions[i], state, now) {
      forall later | later >= now ensures MatchesAt(rule, state, later) {
        MatchesWhenAllHold(rule, state, later);
        forall i | 0 <= i < |rule.conditions| ensures Holds(rule.conditions[i], state, later) {
          LastingHolds(rule.conditions[i], state, now, later);
        }
      }
    } else {
      var i :| 0 <= i < |rule.conditions| && !Lasting(rule.conditions[i], state, now);
      var later := NotLastingEnds(rule.conditions[i], state, now);
      MatchesWhenAllHold(rule, state, later);
      assert !MatchesAt(rule, state, later);
    }
  }

  predicate MatchesAt(rule: Rule, state: SubjectState, now: Time) {
    Evaluate(rule, state, now).Some? && Evaluate(rule, state, now).value.matched
  }

  lemma MatchesWhenAllHold(rule: Rule, state: SubjectState, now: Time)
    requires Accepted(rule) && KindOf(state) == rule.subjectType
    ensures MatchesAt(rule, state, now)
            <==> forall i | 0 <= i < |rule.conditions| :: Holds(rule.conditions[i], state, now)
  {
    TypeSoundness(rule, state, now, "");
    MatchedMeaning(rule.conditions, state, now);
  }

  // An open notify-once episode has no wake-up time; on an unchanged row, time leaves it open and silent at every later
  // instant if and only if each condition is lasting.
  lemma NoWakeUpNeededIff(rule: Rule, state: SubjectState, e: Episode, now: Time)
    requires Accepted(rule) && KindOf(state) == rule.subjectType && MatchesAt(rule, state, now)
    requires e.Valid() && e.state.Open? && rule.cooldownSec == 0
    ensures NextDueAt(rule, state, Some(e)).None?
    ensures (forall later | later >= now :: StaysSilent(rule, state, e, later))
            <==> forall i | 0 <= i < |rule.conditions| :: Lasting(rule.conditions[i], state, now)
  {
    hide Evaluate, EvaluateAll, Lasting;
    MatchLastsIff(rule, state, now);
    forall later | later >= now
      ensures StaysSilent(rule, state, e, later) <==> MatchesAt(rule, state, later)
    {
      TypeSoundness(rule, state, later, "");
    }
  }

  // Evaluated at the instant, the episode stays open, is not frozen, and nothing is sent.
  predicate StaysSilent(rule: Rule, state: SubjectState, e: Episode, now: Time) {
    var r := Evaluate(rule, state, now);
    && r.Some?
    && var m := FromOpen(e, r.value.matched, now, rule, r.value.missing);
       m.Moved? && m.episode.state.Open? && !m.episode.stale && m.transitions == []
  }
}
