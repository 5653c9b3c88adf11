// Evaluation of a rule against a subject row (app/evaluation/evaluator.py), compared with
// strong Kleene three-valued logic, and soundness of the rule type check.
module Evaluation {
  import opened Base
  import opened Domain
  import opened Facts
  import opened Rules

  datatype Result = Result(matched: bool, snapshot: Snapshot, missing: seq<FactName>)

  function ResolveOperand(c: Condition, state: SubjectState, now: Time): Option<Value> {
    if c.operand.FactRef? then Extract(c.operand.target, state, now) else Some(c.operand.value)
  }

  // The accumulators after one more condition.
  function EvaluateOne(acc: Result, c: Condition, state: SubjectState, now: Time): Option<Result> {
    var left := Extract(c.fact, state, now);
    var right := ResolveOperand(c, state, now);
    if left.None? || right.None? then None
    else
      var holds := ApplyOperator(c.op, left.value, right.value);
      if holds.None? then None
      else
        var isRef := c.operand.FactRef?;
        var missing := if left.value.Missing? then acc.missing + [c.fact] else acc.missing;
        Some(Result(
          acc.matched && holds.value,
          if isRef then acc.snapshot[c.fact := left.value][c.operand.target := right.value]
          else acc.snapshot[c.fact := left.value],
          if isRef && right.value.Missing? then missing + [c.operand.target] else missing))
  }

  // None when a lookup or a comparison raises.
  function EvaluateAll(conditions: seq<Condition>, state: SubjectState, now: Time): Option<Result> {
    if conditions == [] then Some(Result(true, map[], []))
    else
      var n := |conditions| - 1;
      var acc := EvaluateAll(conditions[..n], state, now);
      if acc.None? then None else EvaluateOne(acc.value, conditions[n], state, now)
  }

  function Evaluate(r: Rule, state: SubjectState, now: Time): Option<Result> {
    EvaluateAll(r.conditions, state, now)
  }

  // The evaluator's loop, with its three accumulators.
  method RunEvaluator(r: Rule, state: SubjectState, now: Time) returns (result: Option<Result>)
    ensures result == Evaluate(r, state, now)
  {
    hide Extract, ApplyOperator, EvaluateAll;
    assert EvaluateAll(r.conditions[..0], state, now) == Some(Result(true, map[], [])) by {
      EvaluateNothing(state, now);
    }
    var snapshot: Snapshot := map[];
    var missing: seq<FactName> := [];
    var matched := true;
    for i := 0 to |r.conditions|
      invariant EvaluateAll(r.conditions[..i], state, now) == Some(Result(matched, snapshot, missing))
    {
      var c := r.conditions[i];
      EvaluateNext(r.conditions, i, state, now);
      var left := Extract(c.fact, state, now);
      if left.None? { FailureSticks(r.conditions, i + 1, state, now); return None; }
      snapshot := snapshot[c.fact := left.value];
      if left.value.Missing? { missing := missing + [c.fact]; }
      var right := ResolveOperand(c, state, now);
      if right.None? { FailureSticks(r.conditions, i + 1, state, now); return None; }
      if c.operand.FactRef? {
        snapshot := snapshot[c.operand.target := right.value];
        if right.value.Missing? { missing := missing + [c.operand.target]; }
      }
      var holds := ApplyOperator(c.op, left.value, right.value);
      if holds.None? { FailureSticks(r.conditions, i + 1, state, now); return None; }
      matched := matched && holds.value;
    }
    assert r.conditions[..|r.conditions|] == r.conditions;
    result := Some(Result(matched, snapshot, missing));
  }

  lemma EvaluateNothing(state: SubjectState, now: Time)
    ensures EvaluateAll([], state, now) == Some(Result(true, map[], []))
  {
  }

  lemma EvaluateNext(cs: seq<Condition>, i: nat, state: SubjectState, now: Time)
    requires i < |cs|
    ensures EvaluateAll(cs[..i + 1], state, now) ==
      var acc := EvaluateAll(cs[..i], state, now);
      if acc.None? then None else EvaluateOne(acc.value, cs[i], state, now)
  {
    hide EvaluateOne;
    assert cs[..i + 1][..i] == cs[..i];
  }

  lemma FailureSticks(cs: seq<Condition>, i: nat, state: SubjectState, now: Time)
    requires i <= |cs| && EvaluateAll(cs[..i], state, now).None?
    ensures EvaluateAll(cs, state, now).None?
    decreases |cs| - i
  {
    if i < |cs| {
      assert cs[..i + 1][..i] == cs[..i];
      FailureSticks(cs, i + 1, state, now);
    } else {
      assert cs[..i] == cs;
    }
  }

  /* ---------- What a successful evaluation says ---------- */

  function ValueOf(f: FactName, state: SubjectState, now: Time): Value {
    var v := Extract(f, state, now);
    if v.Some? then v.value else Missing
  }

  function RightOf(c: Condition, state: SubjectState, now: Time): Value {
    if c.operand.FactRef? then ValueOf(c.operand.target, state, now) else c.operand.value
  }

  predicate Holds(c: Condition, state: SubjectState, now: Time) {
    ApplyOperator(c.op, ValueOf(c.fact, state, now), RightOf(c, state, now)) == Some(true)
  }

  lemma {:induction false} MatchedMeaning(cs: seq<Condition>, state: SubjectState, now: Time)
    requires EvaluateAll(cs, state, now).Some?
    ensures EvaluateAll(cs, state, now).value.matched <==> forall i | 0 <= i < |cs| :: Holds(cs[i], state, now)
  {
    if cs != [] {
      var n := |cs| - 1;
      MatchedMeaning(cs[..n], state, now);
      assert forall i | 0 <= i < n :: cs[..n][i] == cs[i];
    }
  }

  // One condition adds its own facts to the snapshot and to the missing ones.
  lemma OneMore(acc: Result, c: Condition, state: SubjectState, now: Time)
    requires EvaluateOne(acc, c, state, now).Some?
    ensures var r := EvaluateOne(acc, c, state, now).value;
      && r.snapshot.Keys == acc.snapshot.Keys + Mentions(c)
      && (forall f | f in r.snapshot ::
            r.snapshot[f] == if f in Mentions(c) then ValueOf(f, state, now) else acc.snapshot[f])
      && (forall f :: f in r.missing <==> f in acc.missing || (f in Mentions(c) && ValueOf(f, state, now).Missing?))
  {
    hide Extract, ApplyOperator;
  }

  lemma {:induction false} SnapshotMeaning(cs: seq<Condition>, state: SubjectState, now: Time)
    requires EvaluateAll(cs, state, now).Some?
    ensures EvaluateAll(cs, state, now).value.snapshot == (map f | f in Declared(cs) :: ValueOf(f, state, now))
  {
    hide EvaluateOne, Mentions, ValueOf;
    if cs != [] {
      var n := |cs| - 1;
      SnapshotMeaning(cs[..n], state, now);
      DeclaredGrows(cs, n);
      OneMore(EvaluateAll(cs[..n], state, now).value, cs[n], state, now);
      assert cs[..n + 1] == cs;
    }
  }

  lemma {:induction false} MissingMeaning(cs: seq<Condition>, state: SubjectState, now: Time)
    requires EvaluateAll(cs, state, now).Some?
    ensures forall f :: f in EvaluateAll(cs, state, now).value.missing
                        <==> f in Declared(cs) && ValueOf(f, state, now).Missing?
  {
    hide EvaluateOne, Mentions, ValueOf;
    if cs != [] {
      var n := |cs| - 1;
      MissingMeaning(cs[..n], state, now);
      DeclaredGrows(cs, n);
      OneMore(EvaluateAll(cs[..n], state, now).value, cs[n], state, now);
      assert cs[..n + 1] == cs;
    }
  }

  // An evaluation that does not raise: the match is the conjunction, the snapshot holds exactly the declared
  // facts at their values, and the missing facts are exactly the declared facts whose value is missing.
  lemma EvaluateMeaning(cs: seq<Condition>, state: SubjectState, now: Time)
    requires EvaluateAll(cs, state, now).Some?
    ensures var r := EvaluateAll(cs, state, now).value;
      && (r.matched <==> forall i | 0 <= i < |cs| :: Holds(cs[i], state, now))
      && r.snapshot == (map f | f in Declared(cs) :: ValueOf(f, state, now))
      && (forall f :: f in r.missing <==> f in Declared(cs) && ValueOf(f, state, now).Missing?)
  {
    MatchedMeaning(cs, state, now);
    SnapshotMeaning(cs, state, now);
    MissingMeaning(cs, state, now);
  }

  /* ---------- Strong Kleene reading ---------- */

  datatype Truth = Yes | No | Maybe

  // A comparison is unknown exactly when an operand is missing.
  function KleeneOne(c: Condition, state: SubjectState, now: Time): Truth {
    var a, b := ValueOf(c.fact, state, now), RightOf(c, state, now);
    if a.Missing? || b.Missing? then Maybe
    else if Compare(c.op, a, b) == Some(true) then Yes else No
  }

  function KleeneAnd(a: Truth, b: Truth): Truth {
    if a.No? || b.No? then No else if a.Maybe? || b.Maybe? then Maybe else Yes
  }

  function Kleene(cs: seq<Condition>, state: SubjectState, now: Time): Truth {
    if cs == [] then Yes
    else KleeneAnd(KleeneOne(cs[0], state, now), Kleene(cs[1..], state, now))
  }

  lemma {:induction false} KleeneMeaning(cs: seq<Condition>, state: SubjectState, now: Time)
    ensures Kleene(cs, state, now).Yes? <==> forall i | 0 <= i < |cs| :: KleeneOne(cs[i], state, now).Yes?
    ensures Kleene(cs, state, now).No? <==> exists i | 0 <= i < |cs| :: KleeneOne(cs[i], state, now).No?
  {
    if cs != [] {
      KleeneMeaning(cs[1..], state, now);
      forall i | 0 <= i < |cs| ensures i > 0 ==> cs[1..][i - 1] == cs[i] {}
      forall i | 0 <= i < |cs[1..]| ensures cs[1..][i] == cs[i + 1] {}
      if exists i | 0 <= i < |cs| :: KleeneOne(cs[i], state, now).No? {
        var i :| 0 <= i < |cs| && KleeneOne(cs[i], state, now).No?;
        if i > 0 { assert KleeneOne(cs[1..][i - 1], state, now).No?; }
      }
      if Kleene(cs, state, now).Yes? {
        forall i | 0 <= i < |cs| ensures KleeneOne(cs[i], state, now).Yes? {
          if i > 0 { assert KleeneOne(cs[1..][i - 1], state, now).Yes?; }
        }
      }
    }
  }

  // No condition compares with a literal that is itself the missing marker.
  predicate LiteralsKnown(cs: seq<Condition>) {
    forall i | 0 <= i < |cs| :: cs[i].operand.Literal? ==> !cs[i].operand.value.Missing?
  }

  lemma KleeneOneMeaning(c: Condition, state: SubjectState, now: Time)
    requires c.operand.Literal? ==> !c.operand.value.Missing?
    ensures KleeneOne(c, state, now).Yes? <==> Holds(c, state, now)
    ensures KleeneOne(c, state, now).Maybe? <==> exists f :: f in Mentions(c) && ValueOf(f, state, now).Missing?
  {
    assert c.fact in Mentions(c);
    if c.operand.FactRef? {
      assert c.operand.target in Mentions(c);
    }
  }

  // The evaluator reports missing facts exactly when some comparison is unknown.
  lemma MissingIffSomeUnknown(cs: seq<Condition>, state: SubjectState, now: Time)
    requires LiteralsKnown(cs)
    requires EvaluateAll(cs, state, now).Some?
    ensures EvaluateAll(cs, state, now).value.missing != []
            <==> exists i | 0 <= i < |cs| :: KleeneOne(cs[i], state, now).Maybe?
  {
    MissingMeaning(cs, state, now);
    var missing := EvaluateAll(cs, state, now).value.missing;
    if missing != [] {
      assert missing[0] in missing;
      var c :| c in cs && missing[0] in Mentions(c);
      var i :| 0 <= i < |cs| && cs[i] == c;
      KleeneOneMeaning(cs[i], state, now);
    }
    if exists i | 0 <= i < |cs| :: KleeneOne(cs[i], state, now).Maybe? {
      var i :| 0 <= i < |cs| && KleeneOne(cs[i], state, now).Maybe?;
      KleeneOneMeaning(cs[i], state, now);
      MentionsDeclared(cs, i);
      var f :| f in Mentions(cs[i]) && ValueOf(f, state, now).Missing?;
      assert f in missing;
    }
  }

  // Two-valued matching is Kleene truth, and then nothing is missing; without missing facts, not matching
  // is Kleene falsity; Kleene "unknown" always comes with a missing fact.
  lemma MatchedIsKleeneTrue(cs: seq<Condition>, state: SubjectState, now: Time)
    requires LiteralsKnown(cs)
    requires EvaluateAll(cs, state, now).Some?
    ensures var r := EvaluateAll(cs, state, now).value;
      && (r.matched <==> Kleene(cs, state, now).Yes?)
      && (r.matched ==> r.missing == [])
      && (r.missing == [] && !r.matched ==> Kleene(cs, state, now).No?)
      && (Kleene(cs, state, now).Maybe? ==> r.missing != [] && !r.matched)
  {
    MatchedMeaning(cs, state, now);
    MissingIffSomeUnknown(cs, state, now);
    KleeneMeaning(cs, state, now);
    forall i | 0 <= i < |cs| ensures KleeneOne(cs[i], state, now).Yes? <==> Holds(cs[i], state, now) {
      KleeneOneMeaning(cs[i], state, now);
    }
  }

  lemma MentionsDeclared(cs: seq<Condition>, i: nat)
    requires i < |cs|
    ensures Mentions(cs[i]) <= Declared(cs)
  {
    assert cs[i] in cs;
  }

  /* ---------- Type soundness ---------- */

  lemma ExtractHasType(f: FactName, state: SubjectState, now: Time)
    requires Registered(KindOf(state), f).Some?
    ensures var v := ValueOf(f, state, now); v.Missing? || OfType(v, Registered(KindOf(state), f).value)
  {
  }

  lemma AcceptedConditionComputes(c: Condition, state: SubjectState, now: Time, acc: Result)
    requires ConditionAccepted(KindOf(state), c)
    ensures EvaluateOne(acc, c, state, now).Some?
    ensures c.operand.Literal? ==> !c.operand.value.Missing?
  {
    ExtractHasType(c.fact, state, now);
    if c.operand.FactRef? { ExtractHasType(c.operand.target, state, now); }
  }

  lemma {:induction false} AcceptedConditionsCompute(cs: seq<Condition>, state: SubjectState, now: Time)
    requires forall i | 0 <= i < |cs| :: ConditionAccepted(KindOf(state), cs[i])
    ensures EvaluateAll(cs, state, now).Some? && LiteralsKnown(cs)
  {
    if cs != [] {
      var n := |cs| - 1;
      AcceptedConditionsCompute(cs[..n], state, now);
      AcceptedConditionComputes(cs[n], state, now, EvaluateAll(cs[..n], state, now).value);
      forall i | 0 <= i < |cs| ensures cs[i].operand.Literal? ==> !cs[i].operand.value.Missing? {
        if i < n { assert cs[..n][i] == cs[i]; }
      }
    }
  }

  // A rule that passed validation evaluates on every row of its subject type at every instant without raising,
  // snapshots exactly the facts it declares, and its message renders.
  lemma TypeSoundness(r: Rule, state: SubjectState, now: Time, subjectId: string)
    requires Accepted(r) && KindOf(state) == r.subjectType
    ensures Evaluate(r, state, now).Some?
    ensures Evaluate(r, state, now).value.snapshot.Keys == Declared(r.conditions)
    ensures Render(r.template, subjectId, Evaluate(r, state, now).value.snapshot).Some?
    ensures LiteralsKnown(r.conditions)
  {
    AcceptedConditionsCompute(r.conditions, state, now);
    EvaluateMeaning(r.conditions, state, now);
    RenderTotal(r.template, subjectId, Evaluate(r, state, now).value.snapshot);
  }

  // The template check rejects nothing that would render: for a rule whose conditions pass, a message renders if and
  // only if every placeholder is declared.
  lemma TemplateCheckIsExact(r: Rule, state: SubjectState, now: Time, subjectId: string)
    requires KindOf(state) == r.subjectType
    requires forall i | 0 <= i < |r.conditions| :: ConditionAccepted(r.subjectType, r.conditions[i])
    ensures Evaluate(r, state, now).Some?
    ensures Render(r.template, subjectId, Evaluate(r, state, now).value.snapshot).Some?
            <==> forall i | 0 <= i < |r.template| && r.template[i].FactHole? ::
                   r.template[i].fact in Declared(r.conditions)
  {
    AcceptedConditionsCompute(r.conditions, state, now);
    EvaluateMeaning(r.conditions, state, now);
    RenderTotal(r.template, subjectId, Evaluate(r, state, now).value.snapshot);
  }

  // A rule none of whose facts is time-derived evaluates the same at every instant.
  lemma {:induction false} StaticRulesIgnoreTheClock(cs: seq<Condition>, state: SubjectState, t1: Time, t2: Time)
    requires forall f | f in Declared(cs) :: !TimeDerived(f)
    ensures EvaluateAll(cs, state, t1) == EvaluateAll(cs, state, t2)
  {
    if cs != [] {
      var n := |cs| - 1;
      DeclaredGrows(cs, n);
      assert cs[..n + 1] == cs;
      StaticRulesIgnoreTheClock(cs[..n], state, t1, t2);
      assert cs[n].fact in Mentions(cs[n]);
      OnlyTimeDerivedFactsMove(cs[n].fact, state, t1, t2);
      if cs[n].operand.FactRef? {
        assert cs[n].operand.target in Mentions(cs[n]);
        OnlyTimeDerivedFactsMove(cs[n].operand.target, state, t1, t2);
      }
    }
  }
}
