// Shared vocabulary: optional values, instants, and sequences read as sets.
module Base {

  datatype Option<+T> = None | Some(value: T)

  // An instant, in microseconds: the resolution of the timestamps the system stores.
  type Time = int

  const SECOND: int := 1_000_000

  ghost predicate Distinct<T>(xs: seq<T>) {
    forall i, j :: 0 <= i < j < |xs| ==> xs[i] != xs[j]
  }

  function Elements<T>(xs: seq<T>): set<T> {
    set x | x in xs
  }

  // Some enumeration of a finite set. Nothing is known about the order.
  ghost function OrderOf<T>(s: set<T>): (xs: seq<T>)
    ensures Distinct(xs) && Elements(xs) == s
  {
    if s == {} then []
    else
      var x :| x in s;
      var rest := OrderOf(s - {x});
      assert Elements([x] + rest) == {x} + Elements(rest);
      [x] + rest
  }

  lemma DistinctLength<T>(xs: seq<T>)
    requires Distinct(xs)
    ensures |Elements(xs)| == |xs|
  {
    if xs != [] {
      DistinctLength(xs[1..]);
      assert Elements(xs) == {xs[0]} + Elements(xs[1..]);
    }
  }

  lemma NonemptyElements<T>(xs: seq<T>)
    ensures xs != [] ==> Elements(xs) != {}
  {
    if xs != [] { assert xs[0] in Elements(xs); }
  }

  lemma DistinctConcat<T>(xs: seq<T>, ys: seq<T>)
    requires Distinct(xs) && Distinct(ys) && Elements(xs) !! Elements(ys)
    ensures Distinct(xs + ys) && Elements(xs + ys) == Elements(xs) + Elements(ys)
  {
    forall i, j | 0 <= i < j < |xs + ys| ensures (xs + ys)[i] != (xs + ys)[j] {
      if i < |xs| <= j {
        assert xs[i] in Elements(xs) && ys[j - |xs|] in Elements(ys);
      }
    }
  }

  lemma Overlap<T>(xs: seq<T>, ys: seq<T>)
    ensures Elements(xs) * Elements(ys) != {} <==> exists x | x in xs :: x in ys
  {
    if x :| x in xs && x in ys {
      assert x in Elements(xs) * Elements(ys);
    }
  }

  // Two enumerations of one set, after removing the first element of one from the other.
  lemma WithoutFirst<T>(xs: seq<T>, ys: seq<T>, i: nat)
    requires Distinct(xs) && Distinct(ys) && Elements(xs) == Elements(ys)
    requires xs != [] && i < |ys| && ys[i] == xs[0]
    ensures Distinct(ys[..i] + ys[i + 1..])
    ensures Elements(ys[..i] + ys[i + 1..]) == Elements(xs[1..])
  {
    var others := ys[..i] + ys[i + 1..];
    assert forall k | 0 <= k < |others| :: others[k] == if k < i then ys[k] else ys[k + 1];
    assert Elements(others) == Elements(ys) - {ys[i]} by {
      forall x | x in Elements(ys) && x != ys[i] ensures x in others {
        var k :| 0 <= k < |ys| && ys[k] == x;
        assert others[if k < i then k else k - 1] == x;
      }
    }
    assert Elements(xs[1..]) == Elements(xs) - {xs[0]} by {
      assert forall x | x in xs :: x == xs[0] || x in xs[1..];
    }
  }

  function Max(a: int, b: int): int {
    if a >= b then a else b
  }
}
