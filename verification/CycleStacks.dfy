/** Merging measured values into a stack of named components: nothing is lost and nothing is counted twice. */
module CycleStacks {
  import opened Lists
  import opened RealSums

  type Label = string
  type Values = map<string, real>

  /** A component is measured by some keys, or is a stack of components itself. */
  datatype Item = Part(name: Label, threshold: real, keys: seq<string>)
                | Stack(name: Label, threshold: real, items: seq<Item>)

  ghost function Size(items: seq<Item>): (n: nat)
  {
    if items == [] then 0
    else var last := items[|items| - 1]; Size(items[..|items| - 1]) + 1 + if last.Stack? then Size(last.items) else 0
  }

  ghost function Inner(item: Item): (n: nat) { if item.Stack? then Size(item.items) else 0 }

  ghost function Keys(items: seq<Item>): (ks: set<string>)
    decreases Size(items), 0
  {
    if items == [] then {} else Keys(items[..|items| - 1]) + ItemKeys(items[|items| - 1])
  }

  ghost function ItemKeys(item: Item): (ks: set<string>)
    decreases Inner(item), 1
  {
    if item.Stack? then Keys(item.items) else set k | k in item.keys
  }

  // ----- what the walk over the items computes

  type Components = seq<(Label, real)>

  /** Components shown, total so far, what was too small to show, and the values not yet mapped. */
  datatype Merged = Merged(res: Components, total: real, other: real, left: Values)

  ghost function Measured(values: Values, ks: set<string>): (v: real) { Total(values.Keys * ks, values) }

  /** A share of the whole at or below its threshold. */
  predicate Small(value: real, scale: real, threshold: real)
    requires scale != 0.0
  {
    value / scale <= threshold
  }

  ghost function Merge(prefix: Label, items: seq<Item>, values: Values, scale: real, nocollapse: bool): (m: Merged)
    requires scale != 0.0
    decreases Size(items), 0
  {
    if items == [] then Merged([], 0.0, 0.0, values)
    else MergeItem(Merge(prefix, items[..|items| - 1], values, scale, nocollapse), prefix, items[|items| - 1], scale,
        nocollapse)
  }

  /** One item more: too small, shown as one component, or shown as its own components. */
  ghost function MergeItem(m: Merged, prefix: Label, item: Item, scale: real, nocollapse: bool): (r: Merged)
    requires scale != 0.0
    decreases Inner(item), 1
  {
    if item.Stack? then
      var sub := Merge(prefix + item.name + "-", item.items, m.left, scale, nocollapse);
      if Small(sub.total, scale, item.threshold) && !nocollapse then
        Merged(m.res, m.total + sub.total, m.other + sub.total, sub.left)
      else if sub.res == [] && !nocollapse then
        Merged(m.res + [(prefix + item.name, sub.total)], m.total + sub.total, m.other, sub.left)
      else
        Merged(m.res + sub.res, m.total + sub.total, m.other + sub.other, sub.left)
    else
      var ks := set k | k in item.keys;
      var value := Measured(m.left, ks);
      if Small(value, scale, item.threshold) && !nocollapse then
        Merged(m.res, m.total + value, m.other + value, m.left - ks)
      else
        Merged(m.res + [(prefix + item.name, value)], m.total + value, m.other, m.left - ks)
  }

  ghost function Shown(res: Components): (v: real)
  {
    if res == [] then 0.0 else Shown(res[..|res| - 1]) + res[|res| - 1].1
  }

  lemma {:induction false} ShownAppend(a: Components, b: Components)
    ensures Shown(a + b) == Shown(a) + Shown(b)
    decreases |b|
  {
    if b == [] {
      assert a + b == a;
    } else {
      var n := |b| - 1;
      assert (a + b)[..|a + b| - 1] == a + b[..n];
      ShownAppend(a, b[..n]);
    }
  }

  lemma ShownOne(c: (Label, real))
    ensures Shown([c]) == c.1
  {
    assert [c][..0] == [];
    assert Shown([]) == 0.0;
  }

  lemma MeasuredUnion(values: Values, a: set<string>, b: set<string>)
    ensures Measured(values, a + b) == Measured(values, a) + Measured(values - a, b)
  {
    var first, second := values.Keys * a, (values - a).Keys * b;
    assert values.Keys * (a + b) == first + second;
    TotalUnion(first, second, values);
    TotalSame(second, values, values - a);
  }

  /** What every walk keeps: the keys of its items are used up, once each, and no value disappears. */
  ghost predicate Conserved(m: Merged, values: Values, ks: set<string>)
  {
    && m.left == values - ks && m.total == Measured(values, ks)
    && Shown(m.res) + m.other == m.total
  }

  lemma {:induction false} ItemConserved(m: Merged, values: Values, ks: set<string>, prefix: Label, item: Item,
          scale: real, nocollapse: bool)
    requires scale != 0.0 && Conserved(m, values, ks)
    ensures Conserved(MergeItem(m, prefix, item, scale, nocollapse), values, ks + ItemKeys(item))
    decreases Inner(item), 1
  {
    hide Small, Shown, Measured, Merge;
    var ks' := ItemKeys(item);
    MeasuredUnion(values, ks, ks');
    assert values - ks - ks' == values - (ks + ks');
    if item.Stack? {
      var sub := Merge(prefix + item.name + "-", item.items, m.left, scale, nocollapse);
      MergeConserves(prefix + item.name + "-", item.items, m.left, scale, nocollapse);
      ShownAppend(m.res, sub.res);
      ShownAppend(m.res, [(prefix + item.name, sub.total)]);
      ShownOne((prefix + item.name, sub.total));
    } else {
      var value := Measured(m.left, ks');
      ShownAppend(m.res, [(prefix + item.name, value)]);
      ShownOne((prefix + item.name, value));
    }
  }

  /** Conservation for every item tree, every threshold and either collapse mode. */
  lemma {:induction false} MergeConserves(prefix: Label, items: seq<Item>, values: Values, scale: real,
          nocollapse: bool)
    requires scale != 0.0
    ensures Conserved(Merge(prefix, items, values, scale, nocollapse), values, Keys(items))
    decreases Size(items), 0
  {
    if items == [] {
      assert values.Keys * {} == {} && values - {} == values;
    } else {
      var n := |items| - 1;
      MergeConserves(prefix, items[..n], values, scale, nocollapse);
      ItemConserved(Merge(prefix, items[..n], values, scale, nocollapse), values, Keys(items[..n]), prefix, items[n],
          scale, nocollapse);
    }
  }

  // ----- the program

  /** The recursive walk; the values it maps are deleted as it goes. */
  method GetItems(prefix: Label, items: seq<Item>, values: Values, scale: real, nocollapse: bool)
    returns (res: Components, total: real, other: real, left: Values)
    requires scale != 0.0
    ensures Merged(res, total, other, left) == Merge(prefix, items, values, scale, nocollapse)
    decreases Size(items), 0
  {
    res, total, other, left := [], 0.0, 0.0, values;
    for i := 0 to |items|
      invariant Merged(res, total, other, left) == Merge(prefix, items[..i], values, scale, nocollapse)
    {
      var item := items[i];
      PrefixNext(items, i);
      if item.Stack? {
        var res', total', other', left' := GetItems(prefix + item.name + "-", item.items, left, scale, nocollapse);
        left := left';
        total := total + total';
        if Small(total', scale, item.threshold) && !nocollapse {
          other := other + total';
        } else if res' == [] && !nocollapse {
          res := res + [(prefix + item.name, total')];
        } else {
          res := res + res';
          other := other + other';
        }
      } else {
        var value;
        value, left := TakeKeys(item.keys, left);
        total := total + value;
        if Small(value, scale, item.threshold) && !nocollapse {
          other := other + value;
        } else {
          res := res + [(prefix + item.name, value)];
        }
      }
    }
    assert items[..|items|] == items;
  }

  lemma {:induction false} PrefixNext(items: seq<Item>, i: nat)
    requires i < |items|
    ensures items[..i + 1][..i] == items[..i] && items[..i + 1][i] == items[i]
    ensures Size(items[..i]) + 1 + Inner(items[i]) <= Size(items)
    decreases |items|
  {
    assert items[..i + 1][..i] == items[..i];
    if i + 1 == |items| {
      assert items[..i + 1] == items;
    } else {
      var n := |items| - 1;
      PrefixNext(items[..n], i);
      assert items[..n][..i] == items[..i];
    }
  }

  /** Adds up the values of the keys that are still there, and deletes them. */
  method TakeKeys(keys: seq<string>, values: Values) returns (value: real, left: Values)
    ensures var ks := set k | k in keys; value == Measured(values, ks) && left == values - ks
  {
    value, left := 0.0, values;
    NoKeys(values);
    for i := 0 to |keys|
      invariant left == values - KeySet(keys, i) && value == Measured(values, KeySet(keys, i))
    {
      MeasuredUnion(values, KeySet(keys, i), {keys[i]});
      KeyNext(keys, i, left);
      if keys[i] in left {
        value := value + left[keys[i]];
        left := left - {keys[i]};
      }
    }
    assert KeySet(keys, |keys|) == set k | k in keys;
  }

  ghost function KeySet(keys: seq<string>, i: nat): (ks: set<string>)
    requires i <= |keys|
  {
    set j | 0 <= j < i :: keys[j]
  }

  lemma NoKeys(values: Values)
    ensures Measured(values, {}) == 0.0 && values - {} == values
  {
    assert values.Keys * {} == {};
  }

  lemma KeyNext(keys: seq<string>, i: nat, left: Values)
    requires i < |keys|
    ensures KeySet(keys, i + 1) == KeySet(keys, i) + {keys[i]}
    ensures Measured(left, {keys[i]}) == if keys[i] in left then left[keys[i]] else 0.0
  {
    var k := keys[i];
    if k in left {
      assert left.Keys * {k} == {k};
      TotalPick({k}, left, k);
      assert {k} - {k} == {};
    } else {
      assert left.Keys * {k} == {};
    }
  }

  method SumValues(values: Values) returns (sum: real)
    ensures sum == Total(values.Keys, values)
  {
    var keys := Listed(values.Keys);
    sum := 0.0;
    for i := 0 to |keys|
      invariant KeySet(keys, i) <= values.Keys && sum == Total(KeySet(keys, i), values)
    {
      KeyNext(keys, i, values);
      TotalNext(KeySet(keys, i), values, keys[i]);
      sum := sum + values[keys[i]];
    }
    assert KeySet(keys, |keys|) == values.Keys;
  }

  const OTHER: Label := "other"

  /** One core: the emitted components, with what is small or unknown under "other", add up to all its values. */
  method MergeItems(items: seq<Item>, values: Values, nocollapse: bool)
      returns (res: Components, total: real, other: real, scale: real)
    ensures Shown(res) == Total(values.Keys, values)
    ensures scale == if Total(values.Keys, values) == 0.0 then 1.0 else Total(values.Keys, values)
    ensures var m := Merge("", items, values, scale, nocollapse);
            && total == m.total && other == m.other + Total(m.left.Keys, m.left)
            && res == m.res + if other == 0.0 then [] else [("other", other)]
  {
    scale := SumValues(values);
    if scale == 0.0 { scale := 1.0; }
    var left;
    res, total, other, left := GetItems("", items, values, scale, nocollapse);
    MergeConserves("", items, values, scale, nocollapse);
    var rest := SumValues(left);
    SplitValues(values, Keys(items));
    ShownAppend(res, [(OTHER, other + rest)]);
    ShownOne((OTHER, other + rest));
    other := other + rest;
    if other != 0.0 {
      res := res + [(OTHER, other)];
    } else {
      assert res + [] == res;
    }
  }

  lemma SplitValues(values: Values, ks: set<string>)
    ensures Total(values.Keys, values) == Measured(values, ks) + Total((values - ks).Keys, values - ks)
  {
    assert values.Keys * ks + (values - ks).Keys == values.Keys;
    TotalUnion(values.Keys * ks, (values - ks).Keys, values);
    TotalSame((values - ks).Keys, values, values - ks);
  }

  // ----- labels

  /** The labels a table reserves columns for. */
  function Names(items: seq<Item>, prefix: Label): (names: seq<Label>)
  {
    if items == [] then []
    else
      var item := items[0];
      (if item.Stack? then [item.name] + Names(item.items, item.name)
       else if prefix != "" then [prefix + "-" + item.name]
       else [item.name])
      + Names(items[1..], prefix)
  }

  ghost predicate Parts(items: seq<Item>) { forall i :: 0 <= i < |items| ==> items[i].Part? }

  /** Stacks at the top level only, each with a name. */
  ghost predicate TwoLevels(items: seq<Item>)
  {
    forall i :: 0 <= i < |items| && items[i].Stack? ==> items[i].name != "" && Parts(items[i].items)
  }

  lemma {:induction false} NamesHas(items: seq<Item>, prefix: Label, i: nat)
    requires i < |items|
    ensures items[i].Stack? ==> items[i].name in Names(items, prefix)
                                && forall l :: l in Names(items[i].items, items[i].name) ==> l in Names(items, prefix)
    ensures items[i].Part? ==>
      (if prefix != "" then prefix + "-" + items[i].name else items[i].name) in Names(items, prefix)
    decreases i
  {
    if i > 0 { NamesHas(items[1..], prefix, i - 1); }
  }

  ghost predicate Listing(res: Components, names: seq<Label>) { forall c :: c in res ==> c.0 in names }

  lemma MergePrefix(prefix: Label, items: seq<Item>, i: nat, values: Values, scale: real, nocollapse: bool)
    requires scale != 0.0 && i <= |items|
    ensures i == 0 ==> Merge(prefix, items[..i], values, scale, nocollapse) == Merged([], 0.0, 0.0, values)
    ensures i > 0 ==> Merge(prefix, items[..i], values, scale, nocollapse)
                      == MergeItem(Merge(prefix, items[..i - 1], values, scale, nocollapse), prefix, items[i - 1],
                          scale, nocollapse)
  {
    hide MergeItem;
    if i > 0 { assert items[..i][..i - 1] == items[..i - 1]; }
  }

  lemma {:induction false} PartsListed(items: seq<Item>, i: nat, name: Label, values: Values, scale: real,
                                       nocollapse: bool)
    requires scale != 0.0 && name != "" && Parts(items) && i <= |items|
    ensures Listing(Merge(name + "-", items[..i], values, scale, nocollapse).res, Names(items, name))
    decreases i
  {
    hide Small, Measured, Names, Merge;
    MergePrefix(name + "-", items, i, values, scale, nocollapse);
    if i > 0 {
      PartsListed(items, i - 1, name, values, scale, nocollapse);
      NamesHas(items, name, i - 1);
    }
  }

  /** In a tree of at most two levels every component that is emitted has its column. */
  lemma {:induction false} EmittedAreListed(items: seq<Item>, i: nat, values: Values, scale: real, nocollapse: bool)
    requires scale != 0.0 && TwoLevels(items) && i <= |items|
    ensures Listing(Merge("", items[..i], values, scale, nocollapse).res, Names(items, ""))
    decreases i
  {
    hide Small, Measured, Names, Merge;
    MergePrefix("", items, i, values, scale, nocollapse);
    if i > 0 {
      var item := items[i - 1];
      EmittedAreListed(items, i - 1, values, scale, nocollapse);
      NamesHas(items, "", i - 1);
      assert "" + item.name == item.name;
      if item.Stack? {
        var left := Merge("", items[..i - 1], values, scale, nocollapse).left;
        PartsListed(item.items, |item.items|, item.name, left, scale, nocollapse);
        assert item.items[..|item.items|] == item.items;
      }
    }
  }

  /** The table row of one core: a later component replaces an earlier one of the same label. */
  ghost function Table(res: Components): (t: map<Label, real>)
  {
    if res == [] then map[] else Table(res[..|res| - 1])[res[|res| - 1].0 := res[|res| - 1].1]
  }

  ghost predicate DistinctLabels(res: Components) { forall i, j :: 0 <= i < j < |res| ==> res[i].0 != res[j].0 }

  lemma {:induction false} TableLabels(res: Components)
    ensures forall l :: l in Table(res) <==> exists i :: 0 <= i < |res| && res[i].0 == l
    decreases |res|
  {
    if res != [] {
      var n := |res| - 1;
      TableLabels(res[..n]);
      forall l ensures l in Table(res) <==> exists i :: 0 <= i < |res| && res[i].0 == l {
        if l in Table(res[..n]) {
          var i :| 0 <= i < n && res[..n][i].0 == l;
          assert res[i].0 == l;
        } else if l == res[n].0 {
        } else {
          assert forall i :: 0 <= i < n ==> res[i] == res[..n][i];
        }
      }
    }
  }

  lemma {:induction false} TableTotal(res: Components)
    requires DistinctLabels(res)
    ensures Total(Table(res).Keys, Table(res)) == Shown(res)
    decreases |res|
  {
    if res != [] {
      var n := |res| - 1;
      var before, after := Table(res[..n]), Table(res);
      TableTotal(res[..n]);
      TableLabels(res[..n]);
      assert res[n].0 !in before;
      TotalPick(after.Keys, after, res[n].0);
      assert after.Keys - {res[n].0} == before.Keys;
      TotalSame(before.Keys, before, after);
    }
  }

  ghost function Selected(items: seq<Item>, res: Components): (ls: set<Label>)
  {
    set l | l in Names(items, "") + [OTHER] && l in Table(res)
  }

  /** The columns selected for a two-level tree hold every value of the core, if no two components share a label. */
  lemma TableKeepsAll(items: seq<Item>, values: Values, scale: real, nocollapse: bool, res: Components, other: real)
    requires scale != 0.0 && TwoLevels(items) && DistinctLabels(res) && Shown(res) == Total(values.Keys, values)
    requires res == Merge("", items, values, scale, nocollapse).res + if other == 0.0 then [] else [("other", other)]
    ensures Total(Selected(items, res), Table(res)) == Total(values.Keys, values)
  {
    hide Shown, Merge;
    EmittedAreListed(items, |items|, values, scale, nocollapse);
    assert items[..|items|] == items;
    TableLabels(res);
    TableTotal(res);
    forall l | l in Table(res) ensures l in Names(items, "") + [OTHER] {
      var i :| 0 <= i < |res| && res[i].0 == l;
      assert res[i] in res;
    }
    assert Selected(items, res) == Table(res).Keys;
  }

  // ----- exactly which trees have a column for every component

  /** Some part lies more than k levels down. */
  ghost predicate DeepPart(items: seq<Item>, k: nat)
    decreases Size(items), 0
  {
    items != [] && (DeepPart(items[..|items| - 1], k) || DeepItem(items[|items| - 1], k))
  }

  ghost predicate DeepItem(item: Item, k: nat)
    decreases Inner(item), 1
  {
    if item.Part? then k == 0 else DeepPart(item.items, if k == 0 then 0 else k - 1)
  }

  /** Every name is non-empty and has no dash in it. */
  ghost predicate Plain(items: seq<Item>)
    decreases Size(items), 0
  {
    items == [] || (Plain(items[..|items| - 1]) && PlainItem(items[|items| - 1]))
  }

  ghost predicate PlainItem(item: Item)
    decreases Inner(item), 1
  {
    item.name != "" && '-' !in item.name && (item.Stack? ==> Plain(item.items))
  }

  lemma {:induction false} PlainAt(items: seq<Item>, i: nat)
    requires Plain(items) && i < |items|
    ensures PlainItem(items[i])
    decreases |items|
  {
    if i < |items| - 1 { PlainAt(items[..|items| - 1], i); }
  }

  lemma {:induction false} ShallowAt(items: seq<Item>, k: nat, i: nat)
    requires !DeepPart(items, k) && i < |items|
    ensures !DeepItem(items[i], k)
    decreases |items|
  {
    if i < |items| - 1 { ShallowAt(items[..|items| - 1], k, i); }
  }

  /** The labels emitted when nothing is collapsed: one for every part, whatever the values. */
  ghost function Labels(prefix: Label, items: seq<Item>): (ls: seq<Label>)
    decreases Size(items), 0
  {
    if items == [] then [] else Labels(prefix, items[..|items| - 1]) + ItemLabels(prefix, items[|items| - 1])
  }

  ghost function ItemLabels(prefix: Label, item: Item): (ls: seq<Label>)
    decreases Inner(item), 1
  {
    if item.Stack? then Labels(prefix + item.name + "-", item.items) else [prefix + item.name]
  }

  ghost function LabelsOf(res: Components): (ls: seq<Label>) { seq(|res|, i requires 0 <= i < |res| => res[i].0) }

  lemma LabelsOfAppend(a: Components, b: Components)
    ensures LabelsOf(a + b) == LabelsOf(a) + LabelsOf(b)
  {
  }

  lemma {:induction false} LabelsEmitted(prefix: Label, items: seq<Item>, values: Values, scale: real)
    requires scale != 0.0
    ensures LabelsOf(Merge(prefix, items, values, scale, true).res) == Labels(prefix, items)
    decreases Size(items), 0
  {
    if items != [] {
      var n := |items| - 1;
      LabelsEmitted(prefix, items[..n], values, scale);
      ItemLabelsEmitted(Merge(prefix, items[..n], values, scale, true), prefix, items[n], scale);
    }
  }

  lemma {:induction false} ItemLabelsEmitted(m: Merged, prefix: Label, item: Item, scale: real)
    requires scale != 0.0
    ensures LabelsOf(MergeItem(m, prefix, item, scale, true).res) == LabelsOf(m.res) + ItemLabels(prefix, item)
    decreases Inner(item), 1
  {
    hide Small, Measured;
    if item.Stack? {
      LabelsEmitted(prefix + item.name + "-", item.items, m.left, scale);
      LabelsOfAppend(m.res, Merge(prefix + item.name + "-", item.items, m.left, scale, true).res);
    } else {
      LabelsOfAppend(m.res, [(prefix + item.name, Measured(m.left, set k | k in item.keys))]);
    }
  }

  lemma ListingIff(res: Components, names: seq<Label>)
    ensures Listing(res, names) <==> forall l :: l in LabelsOf(res) ==> l in names
  {
    if Listing(res, names) {
      forall l | l in LabelsOf(res) ensures l in names {
        var i :| 0 <= i < |res| && LabelsOf(res)[i] == l;
        assert res[i] in res;
      }
    } else {
      var c :| c in res && c.0 !in names;
      var i :| 0 <= i < |res| && res[i] == c;
      assert LabelsOf(res)[i] == c.0;
    }
  }

  // counting dashes

  function Dashes(l: Label): (n: nat)
  {
    if l == "" then 0 else Dashes(l[1..]) + if l[0] == '-' then 1 else 0
  }

  lemma {:induction false} DashesAppend(a: Label, b: Label)
    ensures Dashes(a + b) == Dashes(a) + Dashes(b)
    decreases |a|
  {
    if a == "" {
      assert a + b == b;
    } else {
      DashesAppend(a[1..], b);
      assert (a + b)[1..] == a[1..] + b;
    }
  }

  lemma {:induction false} NoDashes(l: Label)
    requires '-' !in l
    ensures Dashes(l) == 0
    decreases |l|
  {
    if l != "" { NoDashes(l[1..]); }
  }

  lemma OneDash()
    ensures Dashes("-") == 1
  {
    assert "-"[1..] == "";
  }

  /** A part k levels down is emitted under a label with at least k dashes. */
  lemma {:induction false} DeepLabel(prefix: Label, items: seq<Item>, k: nat) returns (l: Label)
    requires DeepPart(items, k)
    ensures l in Labels(prefix, items) && Dashes(l) >= Dashes(prefix) + k
    decreases Size(items), 0
  {
    var n := |items| - 1;
    if DeepPart(items[..n], k) {
      l := DeepLabel(prefix, items[..n], k);
    } else {
      l := DeepItemLabel(prefix, items[n], k);
    }
  }

  lemma {:induction false} DeepItemLabel(prefix: Label, item: Item, k: nat) returns (l: Label)
    requires DeepItem(item, k)
    ensures l in ItemLabels(prefix, item) && Dashes(l) >= Dashes(prefix) + k
    decreases Inner(item), 1
  {
    if item.Part? {
      l := prefix + item.name;
      DashesAppend(prefix, item.name);
    } else {
      var inner := prefix + item.name + "-";
      DashesAppend(prefix + item.name, "-");
      DashesAppend(prefix, item.name);
      OneDash();
      l := DeepLabel(inner, item.items, if k == 0 then 0 else k - 1);
    }
  }

  /** No name that is listed has more than one dash. */
  lemma {:induction false} ListedDashes(items: seq<Item>, prefix: Label, l: Label)
    requires (forall i :: 0 <= i < |items| ==> PlainItem(items[i])) && '-' !in prefix && l in Names(items, prefix)
    ensures Dashes(l) <= 1
    decreases items
  {
    var item := items[0];
    assert PlainItem(item);
    NoDashes(item.name);
    if l in Names(items[1..], prefix) {
      ListedDashes(items[1..], prefix, l);
    } else if item.Stack? {
      if l != item.name {
        forall i | 0 <= i < |item.items| ensures PlainItem(item.items[i]) { PlainAt(item.items, i); }
        ListedDashes(item.items, item.name, l);
      }
    } else if prefix != "" {
      NoDashes(prefix);
      OneDash();
      DashesAppend(prefix, "-");
      DashesAppend(prefix + "-", item.name);
    }
  }

  lemma {:induction false} NoPartsNoLabels(prefix: Label, items: seq<Item>)
    requires !DeepPart(items, 0)
    ensures Labels(prefix, items) == []
    decreases Size(items), 0
  {
    if items != [] {
      var n := |items| - 1;
      NoPartsNoLabels(prefix, items[..n]);
      if items[n].Stack? { NoPartsNoLabels(prefix + items[n].name + "-", items[n].items); }
    }
  }

  /** Below a named stack, with parts directly under it only. */
  lemma {:induction false} SecondLevelListed(items: seq<Item>, i: nat, name: Label, l: Label)
    requires i <= |items| && name != "" && !DeepPart(items, 1) && l in Labels(name + "-", items[..i])
    ensures l in Names(items, name)
    decreases i
  {
    assert items[..i][..i - 1] == items[..i - 1];
    if l in Labels(name + "-", items[..i - 1]) {
      SecondLevelListed(items, i - 1, name, l);
    } else {
      var item := items[i - 1];
      NamesHas(items, name, i - 1);
      ShallowAt(items, 1, i - 1);
      if item.Stack? { NoPartsNoLabels(name + "-" + item.name + "-", item.items); }
    }
  }

  lemma {:induction false} FirstLevelListed(items: seq<Item>, i: nat, l: Label)
    requires i <= |items| && (forall j :: 0 <= j < |items| ==> items[j].name != "") && !DeepPart(items, 2)
    requires l in Labels("", items[..i])
    ensures l in Names(items, "")
    decreases i
  {
    assert items[..i][..i - 1] == items[..i - 1];
    if l in Labels("", items[..i - 1]) {
      FirstLevelListed(items, i - 1, l);
    } else {
      var item := items[i - 1];
      NamesHas(items, "", i - 1);
      ShallowAt(items, 2, i - 1);
      assert "" + item.name == item.name;
      if item.Stack? {
        assert item.items[..|item.items|] == item.items;
        SecondLevelListed(item.items, |item.items|, item.name, l);
      }
    }
  }

  /**
   The exact condition without collapsing, for plain names: every emitted component has its column
   if and only if no part lies below the second level.
   */
  lemma ListedIffShallow(items: seq<Item>, values: Values, scale: real)
    requires scale != 0.0 && Plain(items)
    ensures Listing(Merge("", items, values, scale, true).res, Names(items, "")) <==> !DeepPart(items, 2)
  {
    LabelsEmitted("", items, values, scale);
    ListingIff(Merge("", items, values, scale, true).res, Names(items, ""));
    forall i | 0 <= i < |items| ensures PlainItem(items[i]) { PlainAt(items, i); }
    if DeepPart(items, 2) {
      var l := DeepLabel("", items, 2);
      if l in Names(items, "") { ListedDashes(items, "", l); }
    } else {
      assert items[..|items|] == items;
      forall l | l in Labels("", items) ensures l in Names(items, "") { FirstLevelListed(items, |items|, l); }
    }
  }

  // ----- which components have a column when stacks are collapsed

  /** The label of a part directly under a stack, or under the stack named by the prefix. */
  ghost predicate PartLabel(items: seq<Item>, prefix: Label, l: Label)
  {
    items != [] && (PartLabel(items[1..], prefix, l) ||
      if items[0].Stack? then PartLabel(items[0].items, items[0].name, l)
      else prefix != "" && l == prefix + "-" + items[0].name)
  }

  /** A dashed label is listed exactly if it is that of a part under its stack. */
  lemma {:induction false} DashedIsPart(items: seq<Item>, prefix: Label, l: Label)
    requires (forall i :: 0 <= i < |items| ==> PlainItem(items[i])) && Dashes(l) > 0
    ensures l in Names(items, prefix) <==> PartLabel(items, prefix, l)
    decreases items
  {
    if items != [] {
      var item := items[0];
      assert PlainItem(item);
      NoDashes(item.name);
      DashedIsPart(items[1..], prefix, l);
      if item.Stack? {
        forall i | 0 <= i < |item.items| ensures PlainItem(item.items[i]) { PlainAt(item.items, i); }
        DashedIsPart(item.items, item.name, l);
      }
    }
  }

  ghost predicate AllDashed(res: Components, n: nat) { forall c :: c in res ==> Dashes(c.0) >= n }

  lemma {:induction false} PrefixDashes(prefix: Label, items: seq<Item>, values: Values, scale: real, nocollapse: bool)
    requires scale != 0.0
    ensures AllDashed(Merge(prefix, items, values, scale, nocollapse).res, Dashes(prefix))
    decreases Size(items), 0
  {
    if items != [] {
      var n := |items| - 1;
      var m := Merge(prefix, items[..n], values, scale, nocollapse);
      PrefixDashes(prefix, items[..n], values, scale, nocollapse);
      ItemDashes(m, prefix, items[n], scale, nocollapse);
    }
  }

  lemma {:induction false} ItemDashes(m: Merged, prefix: Label, item: Item, scale: real, nocollapse: bool)
    requires scale != 0.0 && AllDashed(m.res, Dashes(prefix))
    ensures AllDashed(MergeItem(m, prefix, item, scale, nocollapse).res, Dashes(prefix))
    decreases Inner(item), 1
  {
    hide Small, Measured, Merge;
    DashesAppend(prefix, item.name);
    if item.Stack? {
      DashesAppend(prefix + item.name, "-");
      PrefixDashes(prefix + item.name + "-", item.items, m.left, scale, nocollapse);
    }
  }

  /** A component without a dash is a top-level item, which has its column. */
  lemma {:induction false} UndashedListed(items: seq<Item>, i: nat, values: Values, scale: real, nocollapse: bool,
                                          c: (Label, real))
    requires scale != 0.0 && i <= |items| && c in Merge("", items[..i], values, scale, nocollapse).res
             && Dashes(c.0) == 0
    ensures c.0 in Names(items, "")
    decreases i
  {
    hide Small, Measured, Names, Merge;
    MergePrefix("", items, i, values, scale, nocollapse);
    var m := Merge("", items[..i - 1], values, scale, nocollapse);
    if c in m.res {
      UndashedListed(items, i - 1, values, scale, nocollapse, c);
    } else {
      var item := items[i - 1];
      NamesHas(items, "", i - 1);
      assert "" + item.name == item.name;
      if item.Stack? {
        DashesAppend(item.name, "-");
        OneDash();
        PrefixDashes(item.name + "-", item.items, m.left, scale, nocollapse);
      }
    }
  }

  /**
   The exact condition in either mode, for plain names: every component has its column if and only
   if each is a top-level item or has the label of a part directly under its stack.
   */
  lemma ListedIffPart(items: seq<Item>, values: Values, scale: real, nocollapse: bool)
    requires scale != 0.0 && Plain(items)
    ensures var res := Merge("", items, values, scale, nocollapse).res;
      Listing(res, Names(items, "")) <==> forall c :: c in res ==> Dashes(c.0) == 0 || PartLabel(items, "", c.0)
  {
    var res := Merge("", items, values, scale, nocollapse).res;
    forall i | 0 <= i < |items| ensures PlainItem(items[i]) { PlainAt(items, i); }
    assert items[..|items|] == items;
    hide Merge, Names, Dashes, PartLabel;
    forall c | c in res ensures c.0 in Names(items, "") <==> Dashes(c.0) == 0 || PartLabel(items, "", c.0) {
      if Dashes(c.0) == 0 { UndashedListed(items, |items|, values, scale, nocollapse, c); }
      else { DashedIsPart(items, "", c.0); }
    }
  }

  // ----- the smallest such trees

  lemma MergeOne(prefix: Label, item: Item, values: Values, scale: real, nocollapse: bool)
    requires scale != 0.0
    ensures Merge(prefix, [item], values, scale, nocollapse)
            == MergeItem(Merged([], 0.0, 0.0, values), prefix, item, scale, nocollapse)
  {
    assert [item][..0] == [];
  }

  lemma NamesOne(item: Item, prefix: Label)
    ensures Names([item], prefix)
            == if item.Stack? then [item.name] + Names(item.items, item.name)
               else [if prefix != "" then prefix + "-" + item.name else item.name]
  {
    assert [item][1..] == [];
  }

  lemma StackMerge(prefix: Label, name: Label, x: real, items: seq<Item>, values: Values, scale: real)
    requires scale != 0.0
    ensures Merge(prefix, [Stack(name, x, items)], values, scale, true).res
            == Merge(prefix + name + "-", items, values, scale, true).res
  {
    MergeOne(prefix, Stack(name, x, items), values, scale, true);
    assert [] + Merge(prefix + name + "-", items, values, scale, true).res
        == Merge(prefix + name + "-", items, values, scale, true).res;
  }

  ghost function Chain(a: Label, x: real, b: Label, y: real, part: Item): (items: seq<Item>)
  {
    [Stack(a, x, [Stack(b, y, [part])])]
  }

  lemma ChainNames(a: Label, x: real, b: Label, y: real, part: Item)
    requires part.Part?
    ensures forall l :: l in Names(Chain(a, x, b, y, part), "") ==> |l| < |a| + |b| + |part.name| + 2
  {
    NamesOne(part, b);
    NamesOne(Stack(b, y, [part]), a);
    NamesOne(Stack(a, x, [Stack(b, y, [part])]), "");
  }

  /** A single chain of three levels, with any names: its component is emitted under a label that has no column. */
  lemma ThirdLevelIsNotListed(a: Label, x: real, b: Label, y: real, part: Item, values: Values, scale: real)
    requires scale != 0.0 && part.Part?
    ensures var items := Chain(a, x, b, y, part);
      exists c :: c in Merge("", items, values, scale, true).res && c.0 !in Names(items, "")
  {
    ChainNames(a, x, b, y, part);
    var ab := "" + a + "-" + b + "-";
    StackMerge("", a, x, [Stack(b, y, [part])], values, scale);
    StackMerge("" + a + "-", b, y, [part], values, scale);
    MergeOne(ab, part, values, scale, true);
    hide Merge, Names;
    var res := Merge("", Chain(a, x, b, y, part), values, scale, true).res;
    assert |res| == 1 && |res[0].0| == |a| + |b| + |part.name| + 2;
    assert res[0] in res;
  }

  /**
   The same chain when its part is too small to be shown but the stacks are not: the inner stack is
   shown as one component, and for plain names that has no column unless all three names are the same.
   */
  lemma CollapsedStackListedIff(a: Label, x: real, b: Label, y: real, part: Item, values: Values, scale: real)
    requires scale != 0.0 && part.Part? && Plain(Chain(a, x, b, y, part))
    requires var v := Measured(values, set k | k in part.keys);
      Small(v, scale, part.threshold) && !Small(v, scale, y) && !Small(v, scale, x)
    ensures var items := Chain(a, x, b, y, part);
      && LabelsOf(Merge("", items, values, scale, false).res) == [a + "-" + b]
      && (Listing(Merge("", items, values, scale, false).res, Names(items, "")) <==> a == b == part.name)
  {
    var items := Chain(a, x, b, y, part);
    ChainCollapses(a, x, b, y, part, values, scale);
    ListingIff(Merge("", items, values, scale, false).res, Names(items, ""));
    PlainChain(a, x, b, y, part);
    NamesOne(part, b);
    NamesOne(Stack(b, y, [part]), a);
    NamesOne(Stack(a, x, [Stack(b, y, [part])]), "");
    hide Merge, Names, Small;
    SplitAtDash(a, b, b, part.name);
    var ab := a + "-" + b;
    assert '-' in ab by { assert ab[|a|] == '-'; }
    assert Names(items, "") == [a, b, b + "-" + part.name];
    assert ab in LabelsOf(Merge("", items, values, scale, false).res);
  }

  lemma ChainCollapses(a: Label, x: real, b: Label, y: real, part: Item, values: Values, scale: real)
    requires scale != 0.0 && part.Part?
    requires var v := Measured(values, set k | k in part.keys);
      Small(v, scale, part.threshold) && !Small(v, scale, y) && !Small(v, scale, x)
    ensures LabelsOf(Merge("", Chain(a, x, b, y, part), values, scale, false).res) == [a + "-" + b]
  {
    MergeOne("" + a + "-" + b + "-", part, values, scale, false);
    MergeOne("" + a + "-", Stack(b, y, [part]), values, scale, false);
    MergeOne("", Stack(a, x, [Stack(b, y, [part])]), values, scale, false);
    hide Merge, Small;
    assert "" + a + "-" + b == a + "-" + b;
  }

  lemma PlainChain(a: Label, x: real, b: Label, y: real, part: Item)
    requires part.Part? && Plain(Chain(a, x, b, y, part))
    ensures a != "" && b != "" && '-' !in a && '-' !in b && '-' !in part.name
  {
    PlainAt(Chain(a, x, b, y, part), 0);
    PlainAt([Stack(b, y, [part])], 0);
    PlainAt([part], 0);
  }

  lemma SplitAtDash(a: Label, b: Label, c: Label, d: Label)
    requires '-' !in a && '-' !in c
    ensures a + "-" + b == c + "-" + d <==> a == c && b == d
  {
    var l, r := a + "-" + b, c + "-" + d;
    if l == r {
      assert l[|a|] == '-' && r[|c|] == '-';
      assert l[..|a|] == a && r[..|c|] == c && l[|a| + 1..] == b && r[|c| + 1..] == d;
    }
  }
}
