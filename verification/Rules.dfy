// The rule language (app/domain/rules.py), comparison of operands (app/evaluation/operators.py)
// and rendering of message templates (app/routing/renderer.py).
module Rules {
  import opened Base
  import opened Domain
  import opened Facts

  datatype Operator = Gt | Gte | Lt | Lte | Eq | Neq | In

  datatype Operand = FactRef(target: FactName) | Literal(value: Value)

  datatype Condition = Condition(fact: FactName, op: Operator, operand: Operand)

  datatype Selector = All | Ids(ids: seq<string>) | QueueMembership(queueIds: seq<string>)

  datatype RecipientKind = Author | SubjectAgent | Channel

  datatype Recipient = Recipient(kind: RecipientKind, target: Option<string>)

  // A template with plain placeholders: {subject_id} or the name of a fact.
  datatype Piece = Verbatim(text: string) | SubjectHole | FactHole(fact: FactName)

  datatype Rule = Rule(name: string, subjectType: SubjectType, selector: Selector, conditions: seq<Condition>,
                       forDurationSec: nat, cooldownSec: nat, recipient: Recipient, template: seq<Piece>,
                       createdBy: string)

  /* ---------- Comparison ---------- */

  predicate Numeric(v: Value) {
    v.Num? || v.Flag?
  }

  // A boolean operand takes part in arithmetic comparisons as 0 or 1.
  function AsNumber(v: Value): real
    requires Numeric(v)
  {
    if v.Num? then v.n else if v.b then 1.0 else 0.0
  }

  predicate SameValue(a: Value, b: Value) {
    if Numeric(a) && Numeric(b) then AsNumber(a) == AsNumber(b) else a == b
  }

  predicate TextBefore(a: string, b: string) {
    if b == "" then false
    else if a == "" then true
    else if a[0] != b[0] then a[0] < b[0]
    else TextBefore(a[1..], b[1..])
  }

  predicate Comparable(a: Value, b: Value) {
    (Numeric(a) && Numeric(b)) || (a.Text? && b.Text?)
  }

  predicate Before(a: Value, b: Value)
    requires Comparable(a, b)
  {
    if a.Text? then TextBefore(a.s, b.s) else AsNumber(a) < AsNumber(b)
  }

  predicate OccursAt(a: string, b: string, i: nat) {
    i + |a| <= |b| && b[i..i + |a|] == a
  }

  // The operator table on two known values. None when the comparison raises a type error.
  function Compare(op: Operator, a: Value, b: Value): Option<bool> {
    match op
    case Eq => Some(SameValue(a, b))
    case Neq => Some(!SameValue(a, b))
    case In =>
      if b.Items? then Some(exists i | 0 <= i < |b.items| :: SameValue(a, b.items[i]))
      else if a.Text? && b.Text? then Some(exists i | 0 <= i <= |b.s| :: OccursAt(a.s, b.s, i))
      else None
    case Gt => if Comparable(a, b) then Some(Before(b, a)) else None
    case Gte => if Comparable(a, b) then Some(!Before(a, b)) else None
    case Lt => if Comparable(a, b) then Some(Before(a, b)) else None
    case Lte => if Comparable(a, b) then Some(!Before(b, a)) else None
  }

  // A missing operand collapses to false before the operator is consulted.
  function ApplyOperator(op: Operator, a: Value, b: Value): Option<bool> {
    if a.Missing? || b.Missing? then Some(false) else Compare(op, a, b)
  }

  /* ---------- Validation ---------- */

  // Facts one condition mentions, and facts a list of conditions declares.
  function Mentions(c: Condition): set<FactName> {
    {c.fact} + (if c.operand.FactRef? then {c.operand.target} else {})
  }

  function Declared(conditions: seq<Condition>): set<FactName> {
    set c, f | c in conditions && f in Mentions(c) :: f
  }

  predicate OfType(v: Value, t: ValueType) {
    match t
    case Number => v.Num?
    case Boolean => v.Flag?
    case Str => v.Text?
  }

  predicate ConditionAccepted(kind: SubjectType, c: Condition) {
    && Registered(kind, c.fact).Some?
    && match c.operand
       case FactRef(target) => c.op != In && Registered(kind, target) == Registered(kind, c.fact)
       case Literal(value) =>
         var t := Registered(kind, c.fact).value;
         if c.op == In then value.Items? && forall i | 0 <= i < |value.items| :: OfType(value.items[i], t)
         else OfType(value, t)
  }

  predicate RecipientAccepted(r: Rule) {
    && (r.recipient.kind.SubjectAgent? ==> r.subjectType.Agent?)
    && (r.recipient.kind.Channel? ==> r.recipient.target.Some? && r.recipient.target.value != "")
  }

  predicate Accepted(r: Rule) {
    && |r.conditions| > 0
    && (forall i | 0 <= i < |r.conditions| :: ConditionAccepted(r.subjectType, r.conditions[i]))
    && RecipientAccepted(r)
    && (forall i | 0 <= i < |r.template| :: r.template[i].FactHole? ==> r.template[i].fact in Declared(r.conditions))
  }

  datatype RuleError =
    | NoConditions
    | UnknownFact(at: nat) | InWithFactRef(at: nat) | UnknownRef(at: nat) | RefTypeMismatch(at: nat)
    | InNeedsList(at: nat) | InElementType(at: nat) | LiteralType(at: nat)
    | SubjectAgentOnQueue | ChannelWithoutTarget | UndeclaredPlaceholder

  // Condition i is the first that does not pass.
  ghost predicate FirstRejected(r: Rule, i: nat) {
    && i < |r.conditions| && !ConditionAccepted(r.subjectType, r.conditions[i])
    && forall k | 0 <= k < i :: ConditionAccepted(r.subjectType, r.conditions[k])
  }

  ghost predicate ConditionsPass(r: Rule) {
    r.conditions != [] && forall i | 0 <= i < |r.conditions| :: ConditionAccepted(r.subjectType, r.conditions[i])
  }

  // The error names the first thing that is wrong, in the order conditions, routing, message.
  ghost predicate Blames(r: Rule, e: RuleError) {
    match e
    case NoConditions => r.conditions == []
    case UnknownFact(i) => FirstRejected(r, i) && Registered(r.subjectType, r.conditions[i].fact).None?
    case InWithFactRef(i) => FirstRejected(r, i) && r.conditions[i].operand.FactRef? && r.conditions[i].op == In
    case UnknownRef(i) =>
      && FirstRejected(r, i) && r.conditions[i].operand.FactRef?
      && Registered(r.subjectType, r.conditions[i].operand.target).None?
    case RefTypeMismatch(i) =>
      && FirstRejected(r, i) && r.conditions[i].operand.FactRef?
      && Registered(r.subjectType, r.conditions[i].operand.target).Some?
      && Registered(r.subjectType, r.conditions[i].operand.target) != Registered(r.subjectType, r.conditions[i].fact)
    case InNeedsList(i) =>
      && FirstRejected(r, i) && r.conditions[i].op == In && r.conditions[i].operand.Literal?
      && !r.conditions[i].operand.value.Items?
    case InElementType(i) =>
      && FirstRejected(r, i) && r.conditions[i].op == In && r.conditions[i].operand.Literal?
      && r.conditions[i].operand.value.Items?
    case LiteralType(i) => FirstRejected(r, i) && r.conditions[i].op != In && r.conditions[i].operand.Literal?
    case SubjectAgentOnQueue => ConditionsPass(r) && r.recipient.kind.SubjectAgent? && r.subjectType.Queue?
    case ChannelWithoutTarget =>
      && ConditionsPass(r) && r.recipient.kind.Channel?
      && (r.recipient.target == None || r.recipient.target == Some(""))
    case UndeclaredPlaceholder =>
      && ConditionsPass(r) && RecipientAccepted(r)
      && exists i :: 0 <= i < |r.template| && r.template[i].FactHole? && r.template[i].fact !in Declared(r.conditions)
  }

  // The rule validator: walks the conditions collecting declared facts, then checks routing and template.
  method Validate(r: Rule) returns (error: Option<RuleError>, declared: set<FactName>)
    ensures error.None? <==> Accepted(r)
    ensures error.None? ==> declared == Declared(r.conditions)
    ensures error.Some? ==> Blames(r, error.value)
  {
    declared := {};
    error := None;
    if |r.conditions| == 0 { return Some(NoConditions), declared; }
    for i := 0 to |r.conditions|
      invariant declared == Declared(r.conditions[..i])
      invariant forall k | 0 <= k < i :: ConditionAccepted(r.subjectType, r.conditions[k])
    {
      var c := r.conditions[i];
      DeclaredGrows(r.conditions, i);
      var spec := Registered(r.subjectType, c.fact);
      if spec.None? { return Some(UnknownFact(i)), declared; }
      declared := declared + {c.fact};
      if c.operand.FactRef? {
        if c.op == In { return Some(InWithFactRef(i)), declared; }
        var target := Registered(r.subjectType, c.operand.target);
        if target.None? { return Some(UnknownRef(i)), declared; }
        declared := declared + {c.operand.target};
        if target != spec { return Some(RefTypeMismatch(i)), declared; }
      } else if c.op == In {
        if !c.operand.value.Items? { return Some(InNeedsList(i)), declared; }
        if exists k | 0 <= k < |c.operand.value.items| :: !OfType(c.operand.value.items[k], spec.value) {
          return Some(InElementType(i)), declared;
        }
      } else if !OfType(c.operand.value, spec.value) {
        return Some(LiteralType(i)), declared;
      }
    }
    assert r.conditions[..|r.conditions|] == r.conditions;
    if r.recipient.kind.SubjectAgent? && !r.subjectType.Agent? { return Some(SubjectAgentOnQueue), declared; }
    if r.recipient.kind.Channel? && (r.recipient.target.None? || r.recipient.target.value == "") {
      return Some(ChannelWithoutTarget), declared;
    }
    if exists i | 0 <= i < |r.template| :: r.template[i].FactHole? && r.template[i].fact !in declared {
      return Some(UndeclaredPlaceholder), declared;
    }
  }

  lemma DeclaredGrows(cs: seq<Condition>, i: nat)
    requires i < |cs|
    ensures Declared(cs[..i + 1]) == Declared(cs[..i]) + Mentions(cs[i])
  {
    assert cs[..i + 1] == cs[..i] + [cs[i]];
    forall f ensures f in Declared(cs[..i + 1]) <==> f in Declared(cs[..i]) + Mentions(cs[i]) {
      if f in Declared(cs[..i]) {
        var c :| c in cs[..i] && f in Mentions(c);
        assert c in cs[..i + 1];
      }
      if f in Mentions(cs[i]) {
        assert cs[i] in cs[..i + 1];
      }
    }
  }

  /* ---------- Rendering ---------- */

  datatype Shown = Plain(text: string) | Known(value: Value) | Unknown

  type Snapshot = map<FactName, Value>

  // One piece of a message; None is the KeyError of an absent placeholder.
  function RenderPiece(p: Piece, subjectId: string, facts: Snapshot): Option<Shown> {
    match p
    case Verbatim(text) => Some(Plain(text))
    case SubjectHole => Some(Plain(subjectId))
    case FactHole(f) =>
      if f !in facts then None
      else if facts[f].Missing? then Some(Unknown) else Some(Known(facts[f]))
  }

  function Render(template: seq<Piece>, subjectId: string, facts: Snapshot): Option<seq<Shown>> {
    if template == [] then Some([])
    else
      var first := RenderPiece(template[0], subjectId, facts);
      var rest := Render(template[1..], subjectId, facts);
      if first.Some? && rest.Some? then Some([first.value] + rest.value) else None
  }

  // What a piece of the message reads: text as it is, the subject, a known fact's value, or "unknown".
  predicate Shows(shown: Shown, p: Piece, subjectId: string, facts: Snapshot) {
    match shown
    case Plain(text) => p == Verbatim(text) || (p.SubjectHole? && text == subjectId)
    case Known(value) => p.FactHole? && p.fact in facts && facts[p.fact] == value && !value.Missing?
    case Unknown => p.FactHole? && p.fact in facts && facts[p.fact].Missing?
  }

  // Rendering fails exactly when some placeholder names a fact outside the snapshot.
  lemma {:induction false} RenderTotal(template: seq<Piece>, subjectId: string, facts: Snapshot)
    ensures Render(template, subjectId, facts).Some?
            <==> forall i | 0 <= i < |template| :: template[i].FactHole? ==> template[i].fact in facts
    ensures var body := Render(template, subjectId, facts);
      body.Some? ==> |body.value| == |template| && forall i | 0 <= i < |template| ::
        Shows(body.value[i], template[i], subjectId, facts)
  {
    if template != [] {
      RenderTotal(template[1..], subjectId, facts);
      forall i | 0 <= i < |template|
        ensures i > 0 ==> template[i] == template[1..][i - 1]
      {}
      if forall i | 0 <= i < |template| :: template[i].FactHole? ==> template[i].fact in facts {
        forall i | 0 <= i < |template[1..]| ensures template[1..][i].FactHole? ==> template[1..][i].fact in facts {
          assert template[1..][i] == template[i + 1];
        }
        assert template[0].FactHole? ==> template[0].fact in facts;
      } else {
        var i :| 0 <= i < |template| && template[i].FactHole? && template[i].fact !in facts;
        if i > 0 { assert template[1..][i - 1] == template[i]; }
      }
    }
  }
}
