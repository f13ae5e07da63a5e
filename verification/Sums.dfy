/** Sums of integers over finite sets. */
module Sums {

  ghost function Sum<T>(xs: set<T>, f: map<T, int>): (n: int)
    requires xs <= f.Keys
    decreases |xs|
  {
    if xs == {} then 0 else
    var x :| x in xs;
    f[x] + Sum(xs - {x}, f)
  }

  lemma {:induction false} SumPick<T>(xs: set<T>, f: map<T, int>, x: T)
    requires xs <= f.Keys && x in xs
    ensures Sum(xs, f) == f[x] + Sum(xs - {x}, f)
    decreases |xs|
  {
    var y :| y in xs && Sum(xs, f) == f[y] + Sum(xs - {y}, f);
    if y != x {
      SumPick(xs - {y}, f, x);
      assert xs - {y} - {x} == xs - {x} - {y};
      SumPick(xs - {x}, f, y);
    }
  }

  lemma {:induction false} SumUnion<T>(a: set<T>, b: set<T>, f: map<T, int>)
    requires a <= f.Keys && b <= f.Keys && a !! b
    ensures Sum(a + b, f) == Sum(a, f) + Sum(b, f)
    decreases |a|
  {
    if a == {} {
      assert a + b == b;
    } else {
      var x :| x in a;
      SumPick(a, f, x);
      SumPick(a + b, f, x);
      assert a + b - {x} == (a - {x}) + b;
      SumUnion(a - {x}, b, f);
    }
  }

}
