/** Lists without repetition. */
module Lists {

  predicate Distinct<T(==)>(s: seq<T>) { forall i, j :: 0 <= i < j < |s| ==> s[i] != s[j] }

  /** The elements of a set as a list, in some order. */
  method Listed<T(==)>(xs: set<T>) returns (r: seq<T>)
    ensures (forall x :: x in r <==> x in xs) && |r| == |xs| && Distinct(r)
  {
    r := [];
    var todo := xs;
    while todo != {}
      invariant todo <= xs && Distinct(r) && |r| + |todo| == |xs| && forall x :: x in r <==> x in xs && x !in todo
      decreases todo
    {
      var x :| x in todo;
      r := r + [x];
      todo := todo - {x};
    }
  }

  /** What a loop over a list has come past. */
  ghost function Firsts<T>(order: seq<T>, i: nat): (r: set<T>)
    requires i <= |order|
  {
    set j | 0 <= j < i :: order[j]
  }

  lemma FirstsNext<T>(order: seq<T>, i: nat)
    requires i < |order| && Distinct(order)
    ensures order[i] !in Firsts(order, i) && Firsts(order, i + 1) == Firsts(order, i) + {order[i]}
    ensures forall x :: x in Firsts(order, i) ==> x in order
  {
  }

  lemma FirstsAll<T>(order: seq<T>, all: set<T>)
    requires forall x :: x in order <==> x in all
    ensures Firsts(order, |order|) == all && Firsts(order, 0) == {}
    ensures forall i :: 0 <= i <= |order| ==> Firsts(order, i) <= all
  {
  }
}
