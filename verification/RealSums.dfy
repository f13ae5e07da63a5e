/** Sums of reals over finite sets. */
module RealSums {

  ghost function Total<T>(xs: set<T>, f: map<T, real>): (n: real)
    requires xs <= f.Keys
    decreases |xs|
  {
    if xs == {} then 0.0 else
    var x :| x in xs;
    f[x] + Total(xs - {x}, f)
  }

  lemma {:induction false} TotalPick<T>(xs: set<T>, f: map<T, real>, x: T)
    requires xs <= f.Keys && x in xs
    ensures Total(xs, f) == f[x] + Total(xs - {x}, f)
    decreases |xs|
  {
    var y :| y in xs && Total(xs, f) == f[y] + Total(xs - {y}, f);
    if y != x {
      TotalPick(xs - {y}, f, x);
      assert xs - {y} - {x} == xs - {x} - {y};
      TotalPick(xs - {x}, f, y);
    }
  }

  lemma TotalNext<T>(xs: set<T>, f: map<T, real>, x: T)
    requires xs <= f.Keys && x in f && x !in xs
    ensures Total(xs + {x}, f) == Total(xs, f) + f[x]
  {
    TotalPick(xs + {x}, f, x);
    assert xs + {x} - {x} == xs;
  }

  lemma {:induction false} TotalUnion<T>(a: set<T>, b: set<T>, f: map<T, real>)
    requires a <= f.Keys && b <= f.Keys && a !! b
    ensures Total(a + b, f) == Total(a, f) + Total(b, f)
    decreases |a|
  {
    if a == {} {
      assert a + b == b;
    } else {
      var x :| x in a;
      TotalPick(a, f, x);
      TotalPick(a + b, f, x);
      assert a + b - {x} == (a - {x}) + b;
      TotalUnion(a - {x}, b, f);
    }
  }

  lemma {:induction false} TotalSame<T>(xs: set<T>, f: map<T, real>, g: map<T, real>)
    requires xs <= f.Keys && xs <= g.Keys && forall x :: x in xs ==> f[x] == g[x]
    ensures Total(xs, f) == Total(xs, g)
    decreases |xs|
  {
    if xs != {} {
      var x :| x in xs;
      TotalPick(xs, f, x);
      TotalPick(xs, g, x);
      TotalSame(xs - {x}, f, g);
    }
  }

  /** Where the rest is zero, only the part counts. */
  lemma {:induction false} TotalPart<T>(xs: set<T>, part: set<T>, f: map<T, real>)
    requires xs <= f.Keys && part <= xs && forall x :: x in xs - part ==> f[x] == 0.0
    ensures Total(xs, f) == Total(part, f)
    decreases |xs|
  {
    var rest := xs - part;
    if rest == {} {
      assert xs == part;
    } else {
      var x :| x in rest;
      TotalPick(xs, f, x);
      TotalPart(xs - {x}, part, f);
    }
  }

  lemma {:induction false} TotalPlus<T>(xs: set<T>, f: map<T, real>, g: map<T, real>, h: map<T, real>)
    requires xs <= f.Keys && xs <= g.Keys && xs <= h.Keys && forall x :: x in xs ==> h[x] == f[x] + g[x]
    ensures Total(xs, h) == Total(xs, f) + Total(xs, g)
    decreases |xs|
  {
    if xs != {} {
      var x :| x in xs;
      TotalPick(xs, f, x);
      TotalPick(xs, g, x);
      TotalPick(xs, h, x);
      TotalPlus(xs - {x}, f, g, h);
    }
  }

  lemma {:induction false} TotalMinus<T>(xs: set<T>, f: map<T, real>, h: map<T, real>)
    requires xs <= f.Keys && xs <= h.Keys && forall x :: x in xs ==> h[x] == -f[x]
    ensures Total(xs, h) == -Total(xs, f)
    decreases |xs|
  {
    if xs != {} {
      var x :| x in xs;
      TotalPick(xs, f, x);
      TotalPick(xs, h, x);
      TotalMinus(xs - {x}, f, h);
    }
  }

  /** A total of values that agree with f on one part, oppose g on another, and are zero elsewhere. */
  lemma TotalInParts<T>(xs: set<T>, a: set<T>, b: set<T>, f: map<T, real>, g: map<T, real>, h: map<T, real>)
    requires a <= xs && b <= xs && a !! b && xs <= h.Keys && a <= f.Keys && b <= g.Keys
    requires forall x :: x in a ==> h[x] == f[x]
    requires forall x :: x in b ==> h[x] == -g[x]
    requires forall x :: x in xs && x !in a && x !in b ==> h[x] == 0.0
    ensures Total(xs, h) == Total(a, f) - Total(b, g)
  {
    hide Total;
    TotalPart(xs, a + b, h);
    TotalUnion(a, b, h);
    TotalSame(a, h, f);
    TotalMinus(b, g, h);
  }

  /** A product, under a name of its own so that sums can be rearranged without looking into it. */
  ghost function Times(a: real, b: real): (c: real) { a * b }

  lemma TimesPlus(a: real, b: real, c: real)
    ensures Times(a + b, c) == Times(a, c) + Times(b, c) && Times(0.0, c) == 0.0
  {
  }

  lemma {:induction false} TotalTimes<T>(xs: set<T>, f: map<T, real>, c: real, h: map<T, real>)
    requires xs <= f.Keys && xs <= h.Keys && forall x :: x in xs ==> h[x] == Times(f[x], c)
    ensures Total(xs, h) == Times(Total(xs, f), c)
    decreases |xs|
  {
    hide Times;
    TimesPlus(0.0, 0.0, c);
    if xs != {} {
      var x :| x in xs;
      TotalPick(xs, f, x);
      TotalPick(xs, h, x);
      TotalTimes(xs - {x}, f, c, h);
      TimesPlus(f[x], Total(xs - {x}, f), c);
    }
  }

  lemma {:induction false} TotalPositive<T>(xs: set<T>, f: map<T, real>)
    requires xs <= f.Keys && forall x :: x in xs ==> f[x] >= 0.0
    ensures Total(xs, f) >= 0.0 && forall x :: x in xs ==> f[x] <= Total(xs, f)
    decreases |xs|
  {
    if xs != {} {
      forall x | x in xs ensures f[x] <= Total(xs, f) && Total(xs, f) >= 0.0 {
        TotalPick(xs, f, x);
        TotalPositive(xs - {x}, f);
      }
      var x :| x in xs;
    }
  }

  lemma TotalZeroIff<T>(xs: set<T>, f: map<T, real>)
    requires xs <= f.Keys && forall x :: x in xs ==> f[x] >= 0.0
    ensures Total(xs, f) == 0.0 <==> forall x :: x in xs ==> f[x] == 0.0
  {
    TotalPositive(xs, f);
    if forall x :: x in xs ==> f[x] == 0.0 { TotalPart(xs, {}, f); }
  }

  lemma {:induction false} TotalOnes<T>(xs: set<T>, f: map<T, real>)
    requires xs <= f.Keys && forall x :: x in xs ==> f[x] == 1.0
    ensures Total(xs, f) == |xs| as real
    decreases |xs|
  {
    if xs != {} {
      var x :| x in xs;
      TotalPick(xs, f, x);
      TotalOnes(xs - {x}, f);
    }
  }

  // ----- sums by groups

  ghost function Group<T, K>(xs: set<T>, key: map<T, K>, k: K): (s: set<T>)
    requires xs <= key.Keys
  {
    set x | x in xs && key[x] == k
  }

  /** A sum over a set is the sum, over any keys that cover it, of the sums over the elements with each key. */
  lemma {:induction false} TotalGrouped<T, K>(xs: set<T>, key: map<T, K>, ks: set<K>, f: map<T, real>,
          sums: map<K, real>)
    requires xs <= f.Keys && xs <= key.Keys && ks <= sums.Keys && forall x :: x in xs ==> key[x] in ks
    requires forall k :: k in ks ==> sums[k] == Total(Group(xs, key, k), f)
    ensures Total(xs, f) == Total(ks, sums)
    decreases |ks|
  {
    if ks == {} {
      assert xs == {};
    } else {
      var k :| k in ks;
      var part := Group(xs, key, k);
      GroupRest(xs, key, ks, f, sums, k);
      TotalGrouped(xs - part, key, ks - {k}, f, sums);
      TotalPick(ks, sums, k);
      assert part + (xs - part) == xs;
      TotalUnion(part, xs - part, f);
    }
  }

  lemma GroupRest<T, K>(xs: set<T>, key: map<T, K>, ks: set<K>, f: map<T, real>, sums: map<K, real>, k: K)
    requires xs <= f.Keys && xs <= key.Keys && ks <= sums.Keys && forall x :: x in xs ==> key[x] in ks
    requires forall k :: k in ks ==> sums[k] == Total(Group(xs, key, k), f)
    ensures forall j :: j in ks - {k} ==> sums[j] == Total(Group(xs - Group(xs, key, k), key, j), f)
    ensures forall x :: x in xs - Group(xs, key, k) ==> key[x] in ks - {k}
  {
    forall j | j in ks - {k} ensures sums[j] == Total(Group(xs - Group(xs, key, k), key, j), f) {
      assert Group(xs - Group(xs, key, k), key, j) == Group(xs, key, j);
    }
  }
}
