/**
 Which components of a merged stack are shown. The walk that uses up the values as it goes refines a
 plain reading of the item tree: an item is shown if its share of the whole exceeds its threshold.
 */
module StackThresholds {
  import opened CycleStacks
  import opened RealSums

  /** The value's share of the scale is above the threshold. */
  predicate Exceeds(value: real, scale: real, threshold: real)
    requires scale != 0.0
  {
    if scale > 0.0 then value > threshold * scale else value < threshold * scale
  }

  /** No key is listed by two items. */
  ghost predicate Separate(items: seq<Item>)
    decreases Size(items), 0
  {
    items == [] ||
    (var n := |items| - 1;
     Separate(items[..n]) && SeparateItem(items[n]) && Keys(items[..n]) !! ItemKeys(items[n]))
  }

  ghost predicate SeparateItem(item: Item)
    decreases Inner(item), 1
  {
    item.Stack? ==> Separate(item.items)
  }

  /** The components, read off the tree. */
  ghost function Show(prefix: Label, items: seq<Item>, values: Values, scale: real): (cs: Components)
    requires scale != 0.0
    decreases Size(items), 0
  {
    if items == [] then []
    else Show(prefix, items[..|items| - 1], values, scale) + ShowItem(prefix, items[|items| - 1], values, scale)
  }

  /** Nothing if it is too small; else its components, or itself if it has none. */
  ghost function ShowItem(prefix: Label, item: Item, values: Values, scale: real): (cs: Components)
    requires scale != 0.0
    decreases Inner(item), 1
  {
    var v := Measured(values, ItemKeys(item));
    if !Exceeds(v, scale, item.threshold) then []
    else
      var inside := if item.Stack? then Show(prefix + item.name + "-", item.items, values, scale) else [];
      if inside == [] then [(prefix + item.name, v)] else inside
  }

  /** What is not shown: whatever is too small, unless it is part of something shown as one. */
  ghost function Hidden(prefix: Label, items: seq<Item>, values: Values, scale: real): (v: real)
    requires scale != 0.0
    decreases Size(items), 0
  {
    if items == [] then 0.0
    else Hidden(prefix, items[..|items| - 1], values, scale) + HiddenItem(prefix, items[|items| - 1], values, scale)
  }

  ghost function HiddenItem(prefix: Label, item: Item, values: Values, scale: real): (v: real)
    requires scale != 0.0
    decreases Inner(item), 1
  {
    var v := Measured(values, ItemKeys(item));
    if !Exceeds(v, scale, item.threshold) then v
    else if item.Stack? && Show(prefix + item.name + "-", item.items, values, scale) != [] then
      Hidden(prefix + item.name + "-", item.items, values, scale)
    else 0.0
  }

  // ----- the walk refines it

  lemma SmallIff(value: real, scale: real, threshold: real)
    requires scale != 0.0
    ensures Small(value, scale, threshold) <==> !Exceeds(value, scale, threshold)
  {
    var q := value / scale;
    assert q * scale == value;
    ByScale(q, threshold, scale);
  }

  lemma ByScale(q: real, t: real, scale: real)
    requires scale != 0.0
    ensures scale > 0.0 ==> (q <= t <==> q * scale <= t * scale)
    ensures scale < 0.0 ==> (q <= t <==> q * scale >= t * scale)
  {
    assert (t - q) * scale == t * scale - q * scale;
  }

  ghost predicate Agree(values: Values, left: Values, ks: set<string>)
  {
    forall k :: k in ks ==> (k in values <==> k in left) && (k in values ==> values[k] == left[k])
  }

  lemma MeasuredAgrees(values: Values, left: Values, ks: set<string>)
    requires Agree(values, left, ks)
    ensures Measured(values, ks) == Measured(left, ks)
  {
    assert values.Keys * ks == left.Keys * ks;
    TotalSame(values.Keys * ks, values, left);
  }

  lemma {:induction false} MergeShows(prefix: Label, items: seq<Item>, values: Values, left: Values, scale: real)
    requires scale != 0.0 && Separate(items) && Agree(values, left, Keys(items))
    ensures var m := Merge(prefix, items, left, scale, false);
      m.res == Show(prefix, items, values, scale) && m.other == Hidden(prefix, items, values, scale)
    decreases Size(items), 0
  {
    hide Measured, Small, Exceeds;
    if items != [] {
      var n := |items| - 1;
      var m := Merge(prefix, items[..n], left, scale, false);
      MergeShows(prefix, items[..n], values, left, scale);
      MergeConserves(prefix, items[..n], left, scale, false);
      ItemShows(m, prefix, items[n], values, scale);
    }
  }

  lemma {:induction false} ItemShows(m: Merged, prefix: Label, item: Item, values: Values, scale: real)
    requires scale != 0.0 && SeparateItem(item) && Agree(values, m.left, ItemKeys(item))
    ensures var m' := MergeItem(m, prefix, item, scale, false);
      && m'.res == m.res + ShowItem(prefix, item, values, scale)
      && m'.other == m.other + HiddenItem(prefix, item, values, scale)
    decreases Inner(item), 1
  {
    hide Measured, Small, Exceeds, Merge, Show, Hidden;
    MeasuredAgrees(values, m.left, ItemKeys(item));
    SmallIff(Measured(values, ItemKeys(item)), scale, item.threshold);
    assert m.res + [] == m.res;
    if item.Stack? {
      MergeShows(prefix + item.name + "-", item.items, values, m.left, scale);
      MergeConserves(prefix + item.name + "-", item.items, m.left, scale, false);
    }
  }

  /** For every tree in which no key is listed twice, the walk shows exactly what stands out and hides the rest. */
  lemma MergeIsShow(prefix: Label, items: seq<Item>, values: Values, scale: real)
    requires scale != 0.0 && Separate(items)
    ensures var m := Merge(prefix, items, values, scale, false);
      m.res == Show(prefix, items, values, scale) && m.other == Hidden(prefix, items, values, scale)
  {
    MergeShows(prefix, items, values, values, scale);
  }

  // ----- parts

  ghost predicate DistinctNames(items: seq<Item>)
  {
    forall i, j :: 0 <= i < j < |items| ==> items[i].name != items[j].name
  }

  /** What one item adds, wherever it stands among its siblings. */
  lemma {:induction false} ShownAt(prefix: Label, items: seq<Item>, values: Values, scale: real, i: nat,
                                   c: (Label, real))
    requires scale != 0.0 && i < |items| && c in ShowItem(prefix, items[i], values, scale)
    ensures c in Show(prefix, items, values, scale)
    decreases |items|
  {
    hide ShowItem;
    if i < |items| - 1 { ShownAt(prefix, items[..|items| - 1], values, scale, i, c); }
  }

  lemma {:induction false} ShownFrom(prefix: Label, items: seq<Item>, values: Values, scale: real, c: (Label, real))
    returns (i: nat)
    requires scale != 0.0 && c in Show(prefix, items, values, scale)
    ensures i < |items| && c in ShowItem(prefix, items[i], values, scale)
    decreases |items|
  {
    hide ShowItem;
    var n := |items| - 1;
    if c in Show(prefix, items[..n], values, scale) {
      i := ShownFrom(prefix, items[..n], values, scale, c);
    } else {
      i := n;
    }
  }

  /** Among parts with names of their own, a part has its component if and only if its value exceeds its threshold. */
  lemma PartShownIff(prefix: Label, items: seq<Item>, values: Values, scale: real, i: nat)
    requires scale > 0.0 && Separate(items) && Parts(items) && DistinctNames(items) && i < |items|
    ensures var v := Measured(values, ItemKeys(items[i]));
      var res := Merge(prefix, items, values, scale, false).res;
      && (prefix + items[i].name in LabelsOf(res) <==> v > items[i].threshold * scale)
      && ((prefix + items[i].name, v) in res <==> v > items[i].threshold * scale)
  {
    hide Measured, Merge, Show, Separate, LabelsOf;
    var res := Merge(prefix, items, values, scale, false).res;
    var tag, v := prefix + items[i].name, Measured(values, ItemKeys(items[i]));
    MergeIsShow(prefix, items, values, scale);
    if v > items[i].threshold * scale {
      ShownAt(prefix, items, values, scale, i, (tag, v));
      LabelHas(res, (tag, v));
    } else {
      forall c | c in res ensures c.0 != tag {
        var j := ShownFrom(prefix, items, values, scale, c);
        SameName(prefix, items[i].name, items[j].name);
      }
      NoLabel(res, tag);
    }
  }

  /** The values of the parts, and those that are too small. */
  ghost function Worth(items: seq<Item>, values: Values): (f: map<nat, real>)
  {
    map i: nat | i < |items| :: Measured(values, ItemKeys(items[i]))
  }

  ghost function TooSmall(items: seq<Item>, values: Values, scale: real): (s: set<nat>)
    requires scale != 0.0
    ensures s <= Worth(items, values).Keys
  {
    set i: nat | i < |items| && !Exceeds(Measured(values, ItemKeys(items[i])), scale, items[i].threshold)
  }

  lemma NothingTotal(s: set<nat>, f: map<nat, real>)
    requires s <= f.Keys && s == {}
    ensures Total(s, f) == 0.0
  {
  }

  lemma {:induction false} PartsHidden(prefix: Label, items: seq<Item>, values: Values, scale: real)
    requires scale != 0.0 && Parts(items)
    ensures Hidden(prefix, items, values, scale) == Total(TooSmall(items, values, scale), Worth(items, values))
    decreases |items|
  {
    hide Measured, Exceeds, Total;
    if items == [] {
      NothingTotal(TooSmall(items, values, scale), Worth(items, values));
    } else {
      var n: nat := |items| - 1;
      PartsHidden(prefix, items[..n], values, scale);
      var before, small := TooSmall(items[..n], values, scale), TooSmall(items, values, scale);
      TotalSame(before, Worth(items[..n], values), Worth(items, values));
      if n in small {
        assert small == before + {n};
        TotalNext(before, Worth(items, values), n);
      } else {
        assert small == before;
      }
    }
  }

  /** What goes to "other" is the values of the parts that are too small. */
  lemma OtherIsTooSmall(prefix: Label, items: seq<Item>, values: Values, scale: real)
    requires scale != 0.0 && Separate(items) && Parts(items)
    ensures Merge(prefix, items, values, scale, false).other
            == Total(TooSmall(items, values, scale), Worth(items, values))
  {
    hide Merge, Show, Hidden, Worth, TooSmall, Total, Separate;
    MergeIsShow(prefix, items, values, scale);
    PartsHidden(prefix, items, values, scale);
  }

  lemma LabelHas(res: Components, c: (Label, real))
    requires c in res
    ensures c.0 in LabelsOf(res)
  {
    var k :| 0 <= k < |res| && res[k] == c;
    assert LabelsOf(res)[k] == c.0;
  }

  lemma NoLabel(res: Components, l: Label)
    requires forall c :: c in res ==> c.0 != l
    ensures l !in LabelsOf(res)
  {
  }

  lemma SameName(prefix: Label, a: Label, b: Label)
    ensures prefix + a == prefix + b ==> a == b
  {
    assert (prefix + a)[|prefix|..] == a && (prefix + b)[|prefix|..] == b;
  }

  // ----- stacks

  /** The label of an item, or of something inside it. */
  ghost predicate LabelIn(prefix: Label, item: Item, l: Label)
  {
    l == prefix + item.name || prefix + item.name + "-" <= l
  }

  lemma {:induction false} LabelsInside(prefix: Label, items: seq<Item>, values: Values, scale: real, c: (Label, real))
    requires scale != 0.0 && c in Show(prefix, items, values, scale)
    ensures prefix <= c.0
    decreases Size(items), 0
  {
    hide Measured, Exceeds;
    var n := |items| - 1;
    if c in Show(prefix, items[..n], values, scale) {
      LabelsInside(prefix, items[..n], values, scale, c);
    } else {
      LabelOfItem(prefix, items[n], values, scale, c);
    }
  }

  lemma {:induction false} LabelOfItem(prefix: Label, item: Item, values: Values, scale: real, c: (Label, real))
    requires scale != 0.0 && c in ShowItem(prefix, item, values, scale)
    ensures LabelIn(prefix, item, c.0) && prefix <= c.0
    decreases Inner(item), 1
  {
    hide Measured, Exceeds;
    if c.0 != prefix + item.name {
      LabelsInside(prefix + item.name + "-", item.items, values, scale, c);
    }
  }

  lemma LabelsApart(prefix: Label, a: Item, b: Item, l: Label)
    requires '-' !in a.name && '-' !in b.name && LabelIn(prefix, a, l) && LabelIn(prefix, b, l)
    ensures a.name == b.name
  {
    var rest := l[|prefix|..];
    NameOfLabel(prefix, a.name, l);
    NameOfLabel(prefix, b.name, l);
    assert |a.name| <= |b.name| ==> a.name == rest[..|b.name|][..|a.name|];
  }

  lemma NameOfLabel(prefix: Label, name: Label, l: Label)
    requires l == prefix + name || prefix + name + "-" <= l
    ensures prefix <= l && name <= l[|prefix|..]
    ensures |l| > |prefix| + |name| ==> l[|prefix|..][|name|] == '-'
  {
    if l != prefix + name { assert (prefix + name + "-")[|prefix| + |name|] == '-'; }
  }

  /** A stack that is too small shows nothing, at any depth; its whole value is hidden. */
  lemma SmallStackIsHidden(prefix: Label, items: seq<Item>, values: Values, scale: real, i: nat)
    requires scale > 0.0 && Separate(items) && Plain(items) && DistinctNames(items) && i < |items|
    requires Measured(values, ItemKeys(items[i])) <= items[i].threshold * scale
    ensures forall c :: c in Merge(prefix, items, values, scale, false).res ==> !LabelIn(prefix, items[i], c.0)
  {
    hide Measured, Merge, Show, Separate;
    MergeIsShow(prefix, items, values, scale);
    PlainAt(items, i);
    forall c | c in Show(prefix, items, values, scale) ensures !LabelIn(prefix, items[i], c.0) {
      var j := ShownFrom(prefix, items, values, scale, c);
      LabelOfItem(prefix, items[j], values, scale, c);
      PlainAt(items, j);
      if LabelIn(prefix, items[i], c.0) { LabelsApart(prefix, items[i], items[j], c.0); }
    }
  }

  /** A stack that stands out shows its components, or, if it has none, itself with its total. */
  lemma LargeStackIsShown(prefix: Label, items: seq<Item>, values: Values, scale: real, i: nat)
    requires scale > 0.0 && Separate(items) && i < |items| && items[i].Stack?
    requires Measured(values, ItemKeys(items[i])) > items[i].threshold * scale
    ensures var res := Merge(prefix, items, values, scale, false).res;
      var inside := Merge(prefix + items[i].name + "-", items[i].items, values, scale, false).res;
      && (inside == [] ==> (prefix + items[i].name, Measured(values, ItemKeys(items[i]))) in res)
      && forall c :: c in inside ==> c in res
  {
    hide Measured, Merge, Show, Separate;
    MergeIsShow(prefix, items, values, scale);
    SeparateAt(items, i);
    MergeIsShow(prefix + items[i].name + "-", items[i].items, values, scale);
    forall c | c in ShowItem(prefix, items[i], values, scale) ensures c in Show(prefix, items, values, scale) {
      ShownAt(prefix, items, values, scale, i, c);
    }
  }

  lemma {:induction false} SeparateAt(items: seq<Item>, i: nat)
    requires Separate(items) && i < |items|
    ensures SeparateItem(items[i])
    decreases |items|
  {
    hide SeparateItem;
    if i < |items| - 1 { SeparateAt(items[..|items| - 1], i); }
  }
}
