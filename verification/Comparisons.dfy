// What the operators say of values (app/evaluation/operators.py), told in terms of the values themselves.
module Comparisons {
  import opened Base
  import opened Facts
  import opened Rules

  // Two numbers, two flags or two texts.
  predicate SameSort(a: Value, b: Value) {
    (a.Num? && b.Num?) || (a.Flag? && b.Flag?) || (a.Text? && b.Text?)
  }

  // A missing operand makes every comparison false, whatever the other side is.
  lemma MissingIsFalse(op: Operator, a: Value, b: Value)
    requires a.Missing? || b.Missing?
    ensures ApplyOperator(op, a, b) == Some(false)
  {
  }

  /* ---------- Equality and membership ---------- */

  lemma EqualityMeans(a: Value, b: Value)
    requires SameSort(a, b)
    ensures ApplyOperator(Eq, a, b) == Some(a == b)
    ensures ApplyOperator(Neq, a, b) == Some(a != b)
  {
  }

  // Across sorts: a flag equals the number 1 or 0, and a text equals nothing but a text.
  lemma EqualityAcrossSorts(f: bool, n: real, s: string)
    ensures ApplyOperator(Eq, Flag(f), Num(n)) == ApplyOperator(Eq, Num(n), Flag(f))
         == Some(n == if f then 1.0 else 0.0)
    ensures ApplyOperator(Eq, Text(s), Num(n)) == ApplyOperator(Eq, Num(n), Text(s)) == Some(false)
    ensures ApplyOperator(Eq, Text(s), Flag(f)) == ApplyOperator(Eq, Flag(f), Text(s)) == Some(false)
  {
  }

  lemma MembershipMeans(v: Value, vs: seq<Value>)
    requires v.Num? || v.Flag? || v.Text?
    requires forall i | 0 <= i < |vs| :: SameSort(v, vs[i])
    ensures ApplyOperator(In, v, Items(vs)) == Some(v in vs)
  {
    forall i | 0 <= i < |vs| ensures SameValue(v, vs[i]) <==> v == vs[i] {
      EqualityMeans(v, vs[i]);
    }
  }

  // Between texts, membership is containment.
  lemma ContainmentMeans(a: string, b: string)
    ensures ApplyOperator(In, Text(a), Text(b)) == Some(exists x, y :: b == x + a + y)
  {
    if i :| 0 <= i <= |b| && OccursAt(a, b, i) {
      assert b == b[..i] + a + b[i + |a|..];
    }
    forall x: string, y: string | b == x + a + y ensures OccursAt(a, b, |x|) {
      assert b[|x|..|x| + |a|] == a;
    }
  }

  /* ---------- Order ---------- */

  predicate NumHolds(op: Operator, a: real, b: real) {
    match op
    case Gt => a > b
    case Gte => a >= b
    case Lt => a < b
    case Lte => a <= b
    case Eq => a == b
    case Neq => a != b
    case In => false
  }

  lemma NumbersCompare(op: Operator, a: real, b: real)
    requires op != In
    ensures ApplyOperator(op, Num(a), Num(b)) == Some(NumHolds(op, a, b))
  {
  }

  // A flag is ordered as the number 1 or 0, also against a number.
  lemma FlagsCompare(op: Operator, a: bool, b: bool, n: real)
    requires op != In
    ensures var x, y := if a then 1.0 else 0.0, if b then 1.0 else 0.0;
      && ApplyOperator(op, Flag(a), Flag(b)) == Some(NumHolds(op, x, y))
      && ApplyOperator(op, Flag(a), Num(n)) == Some(NumHolds(op, x, n))
      && ApplyOperator(op, Num(n), Flag(b)) == Some(NumHolds(op, n, y))
  {
  }

  // The lexicographic order: b goes on where a ends, or has the greater character where they first differ.
  ghost predicate Precedes(a: string, b: string) {
    exists k | 0 <= k <= |a| && k < |b| :: a[..k] == b[..k] && (k == |a| || a[k] < b[k])
  }

  lemma SamePrefixSameHead(a: string, b: string, k: nat)
    requires k <= |a| && k <= |b| && a[..k] == b[..k]
    ensures k > 0 ==> a[0] == b[0]
  {
    if k > 0 { assert a[..k][0] == b[..k][0]; }
  }

  lemma {:induction false} TextBeforeIsLexicographic(a: string, b: string)
    ensures TextBefore(a, b) <==> Precedes(a, b)
  {
    if b != "" && a != "" && a[0] == b[0] {
      TextBeforeIsLexicographic(a[1..], b[1..]);
      if Precedes(a[1..], b[1..]) {
        var k :| 0 <= k <= |a| - 1 && k < |b| - 1 && a[1..][..k] == b[1..][..k]
                 && (k == |a| - 1 || a[1..][k] < b[1..][k]);
        assert a[..k + 1] == [a[0]] + a[1..][..k] && b[..k + 1] == [b[0]] + b[1..][..k];
        assert Precedes(a, b);
      }
      if Precedes(a, b) {
        var k :| 0 <= k <= |a| && k < |b| && a[..k] == b[..k] && (k == |a| || a[k] < b[k]);
        assert a[1..][..k - 1] == a[..k][1..] && b[1..][..k - 1] == b[..k][1..];
        assert Precedes(a[1..], b[1..]);
      }
    } else if b != "" && a != "" {
      if Precedes(a, b) {
        var k :| 0 <= k <= |a| && k < |b| && a[..k] == b[..k] && (k == |a| || a[k] < b[k]);
        SamePrefixSameHead(a, b, k);
      }
      if a[0] < b[0] { assert a[..0] == b[..0]; }
    } else if b != "" {
      assert a[..0] == b[..0];
    }
  }

  lemma {:induction false} TextsAreOrdered(a: string, b: string)
    ensures TextBefore(a, b) && TextBefore(b, a) ==> false
    ensures TextBefore(a, b) || a == b || TextBefore(b, a)
    ensures a == b ==> !TextBefore(a, b)
  {
    if a != "" && b != "" && a[0] == b[0] {
      TextsAreOrdered(a[1..], b[1..]);
      assert a == [a[0]] + a[1..] && b == [b[0]] + b[1..];
    }
  }

  // The order of texts is the lexicographic one, and it is total: the four comparisons follow from it.
  lemma TextsCompare(a: string, b: string)
    ensures ApplyOperator(Lt, Text(a), Text(b)) == Some(Precedes(a, b))
    ensures ApplyOperator(Gt, Text(a), Text(b)) == Some(Precedes(b, a))
    ensures ApplyOperator(Lte, Text(a), Text(b)) == Some(Precedes(a, b) || a == b)
    ensures ApplyOperator(Gte, Text(a), Text(b)) == Some(Precedes(b, a) || a == b)
    ensures !(Precedes(a, b) && Precedes(b, a)) && (a == b ==> !Precedes(a, b))
  {
    TextBeforeIsLexicographic(a, b);
    TextBeforeIsLexicographic(b, a);
    TextsAreOrdered(a, b);
  }

  /* ---------- Errors ---------- */

  // A comparison of known values raises exactly when an order is asked of a text and something else or of a list, or
  // membership in something that is neither a list nor, for a text, a text.
  lemma RaisesIff(op: Operator, a: Value, b: Value)
    requires !a.Missing? && !b.Missing?
    ensures ApplyOperator(op, a, b).None? <==>
      match op
      case Eq => false
      case Neq => false
      case In => !b.Items? && !(a.Text? && b.Text?)
      case _ => a.Items? || b.Items? || a.Text? != b.Text?
  {
  }
}
