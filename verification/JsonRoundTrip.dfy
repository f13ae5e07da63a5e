/** Reading what was written gives the value back. */
module JsonRoundTrip {
  import opened Json
  import opened JsonReading

  /** The text t stands in s at position i. */
  ghost predicate StandsAt(s: string, i: nat, t: string)
  {
    i + |t| <= |s| && s[i..i + |t|] == t
  }

  ghost predicate NumberStops(s: string, i: nat)
  {
    i < |s| ==> !ExtendsNumber(s[i])
  }

  lemma StandsSplit(s: string, i: nat, a: string, b: string)
    requires StandsAt(s, i, a + b)
    ensures StandsAt(s, i, a) && StandsAt(s, i + |a|, b) && i + |a| + |b| <= |s|
  {
    assert s[i..i + |a|] == (a + b)[..|a|];
    assert s[i + |a|..i + |a| + |b|] == (a + b)[|a|..];
  }

  lemma StandsHead(s: string, i: nat, t: string)
    requires StandsAt(s, i, t) && |t| > 0
    ensures i < |s| && s[i] == t[0]
  {
    assert s[i..i + |t|][0] == t[0];
  }

  // ----- strings

  lemma EscapeRead(s: string, i: nat, c: char, slash: bool)
    requires StandsAt(s, i, EscapeChar(c, slash))
    ensures i < |s| && s[i] != '"'
    ensures s[i] == '\\' ==> |EscapeChar(c, slash)| == 2 && ReadEscape(s, i + 1) == Ok(c, i + 2)
    ensures s[i] != '\\' ==> |EscapeChar(c, slash)| == 1 && s[i] == c
  {
    var e := EscapeChar(c, slash);
    assert s[i..i + |e|] == e;
    assert s[i] == e[0];
    if |e| == 2 {
      assert s[i + 1] == e[1];
    }
  }

  lemma {:induction false} CharsRead(s: string, i: nat, t: string, slash: bool, acc: string)
    requires StandsAt(s, i, EscapeEach(t, slash) + "\"")
    ensures ReadChars(s, i, acc) == Ok(acc + t, i + |EscapeEach(t, slash)| + 1)
    decreases |t|
  {
    hide ReadEscape, EscapeChar, StandsAt;
    StandsSplit(s, i, EscapeEach(t, slash), "\"");
    if |t| == 0 {
      StandsHead(s, i, "\"");
      assert acc + t == acc;
    } else {
      var e, tail := EscapeChar(t[0], slash), EscapeEach(t[1..], slash);
      assert e + tail + "\"" == e + (tail + "\"");
      StandsSplit(s, i, e, tail + "\"");
      EscapeRead(s, i, t[0], slash);
      CharsRead(s, i + |e|, t[1..], slash, acc + [t[0]]);
      assert acc + [t[0]] + t[1..] == acc + t;
    }
  }

  lemma StringRead(s: string, i: nat, t: string, slash: bool)
    requires StandsAt(s, i, StringText(t, slash))
    ensures i < |s| && s[i] == '"' && ReadChars(s, i + 1, "") == Ok(t, i + |StringText(t, slash)|)
  {
    hide EscapeChain, ReadChars;
    ChainIsPerCharacter(t, slash);
    assert StringText(t, slash) == "\"" + (EscapeEach(t, slash) + "\"");
    StandsSplit(s, i, "\"", EscapeEach(t, slash) + "\"");
    StandsHead(s, i, "\"");
    CharsRead(s, i + 1, t, slash, "");
    assert "" + t == t;
  }

  // ----- numbers

  lemma {:induction false} DigitsRoundTrip(n: nat)
    ensures DigitsValue(Digits(n)) == n
  {
    var t := Digits(n);
    if n >= 10 {
      DigitsRoundTrip(n / 10);
      assert t[..|t| - 1] == Digits(n / 10);
    }
  }

  lemma {:induction false} DigitsEndAt(s: string, i: nat, j: nat)
    requires i <= j <= |s| && (forall k :: i <= k < j ==> IsDigit(s[k])) && (j < |s| ==> !IsDigit(s[j]))
    ensures DigitsEnd(s, i) == j
    decreases j - i
  {
    if i < j { DigitsEndAt(s, i + 1, j); }
  }

  lemma IntRead(s: string, i: nat, n: int)
    requires StandsAt(s, i, IntText(n)) && NumberStops(s, i + |IntText(n)|)
    ensures i < |s| && (s[i] == '-' || IsDigit(s[i])) && ReadNumber(s, i) == Ok(Int(n), i + |IntText(n)|)
  {
    hide DigitsValue, Digits;
    var t := IntText(n);
    var j := i + |t|;
    StandsHead(s, i, t);
    var from := if n < 0 then i + 1 else i;
    var m: nat := if n < 0 then -n else n;
    assert s[from..j] == Digits(m) by {
      if n < 0 { StandsSplit(s, i, "-", Digits(m)); }
    }
    forall k | from <= k < j ensures IsDigit(s[k]) { assert s[k] == s[from..j][k - from]; }
    DigitsEndAt(s, i + 1, j);
    DigitsRoundTrip(m);
  }

  // ----- literals

  lemma {:induction false} LiteralRead(s: string, i: nat, word: string, v: Json)
    requires StandsAt(s, i, word)
    ensures ReadLiteral(s, i, word, v) == Ok(v, i + |word|)
    decreases |word|
  {
    if word != "" {
      StandsHead(s, i, word);
      assert word == [word[0]] + word[1..];
      StandsSplit(s, i, [word[0]], word[1..]);
      LiteralRead(s, i + 1, word[1..], v);
    }
  }

  /** No written value starts with white space, a comment, or a closing bracket. */
  lemma FirstChar(v: Json, slash: bool)
    ensures var t := Text(v, slash);
      |t| > 0 && !IsSpace(t[0]) && t[0] != '/' && t[0] != ']' && t[0] != '}'
  {
  }

  lemma NoSpaceToSkip(s: string, i: nat)
    requires i < |s| && !IsSpace(s[i]) && s[i] != '/'
    ensures SkipSpace(s, i) == Ok((), i)
  {
  }

  // ----- dictionaries

  lemma {:induction false} PutNew(entries: seq<(string, Json)>, key: string, v: Json)
    requires forall k :: 0 <= k < |entries| ==> entries[k].0 != key
    ensures Put(entries, key, v) == entries + [(key, v)]
    decreases |entries|
  {
    if |entries| > 0 {
      PutNew(entries[1..], key, v);
      assert [entries[0]] + (entries[1..] + [(key, v)]) == entries + [(key, v)];
    }
  }

  // ----- values

  lemma SeparatorRead(s: string, i: nat, close: char, otherwise: Error)
    requires i < |s| && (s[i] == close || s[i] == ',') && (close == ']' || close == '}')
    ensures ReadSeparator(s, i, close, otherwise) == if s[i] == close then Closed(i + 1) else More(i + 1)
  {
    NoSpaceToSkip(s, i);
  }

  lemma LiteralValueRead(v: Json, slash: bool, s: string, i: nat)
    requires (v.Null? || v.Bool?) && StandsAt(s, i, Text(v, slash))
    ensures ReadValue(s, i) == Ok(v, i + |Text(v, slash)|)
  {
    hide ReadChars, ReadItems, ReadMembers, ReadNumber, ReadLiteral;
    var word := if v.Null? then "null" else if v.b then "true" else "false";
    StandsHead(s, i, word);
    NoSpaceToSkip(s, i);
    LiteralRead(s, i, word, v);
  }

  lemma IntValueRead(n: int, s: string, i: nat)
    requires StandsAt(s, i, IntText(n)) && NumberStops(s, i + |IntText(n)|)
    ensures ReadValue(s, i) == Ok(Int(n), i + |IntText(n)|)
  {
    hide ReadChars, ReadItems, ReadMembers, ReadNumber, ReadLiteral, IntText;
    IntRead(s, i, n);
    NoSpaceToSkip(s, i);
  }

  lemma {:induction false} ValueRead(v: Json, slash: bool, s: string, i: nat)
    requires Proper(v) && StandsAt(s, i, Text(v, slash)) && (v.Int? ==> NumberStops(s, i + |Text(v, slash)|))
    ensures ReadValue(s, i) == Ok(v, i + |Text(v, slash)|)
    decreases v, 0
  {
    hide ReadValue, StringText, IntText;
    match v
    case Null => LiteralValueRead(v, slash, s, i);
    case Bool(_) => LiteralValueRead(v, slash, s, i);
    case Int(n) => IntValueRead(n, s, i);
    case Str(t) => KeyRead(t, slash, s, i);
    case List(items) => ListRead(items, slash, s, i);
    case Dict(entries) => DictRead(entries, slash, s, i);
  }

  lemma {:induction false} ListRead(items: seq<Json>, slash: bool, s: string, i: nat)
    requires Proper(List(items)) && StandsAt(s, i, "[" + ItemsText(items, slash) + "]")
    ensures ReadValue(s, i) == Ok(List(items), i + |ItemsText(items, slash)| + 2)
    decreases items, |items| + 1
  {
    hide ReadItems;
    var t := ItemsText(items, slash);
    assert "[" + t + "]" == "[" + (t + "]");
    StandsSplit(s, i, "[", t + "]");
    StandsHead(s, i, "[");
    NoSpaceToSkip(s, i);
    if |items| == 0 {
      assert t + "]" == "]";
      StandsHead(s, i + 1, "]");
    } else {
      ItemsFirst(items, slash);
      StandsHead(s, i + 1, t + "]");
      ItemsRead(items, slash, s, i + 1, []);
      assert [] + items == items;
    }
  }

  lemma ItemsFirst(items: seq<Json>, slash: bool)
    requires |items| > 0
    ensures |ItemsText(items, slash)| > 0 && ItemsText(items, slash)[0] != ']'
  {
    FirstChar(items[0], slash);
  }

  lemma {:induction false} ItemsRead(items: seq<Json>, slash: bool, s: string, i: nat, acc: seq<Json>)
    requires |items| > 0 && (forall k :: 0 <= k < |items| ==> Proper(items[k]))
    requires StandsAt(s, i, ItemsText(items, slash) + "]")
    ensures ReadItems(s, i, acc) == Ok(List(acc + items), i + |ItemsText(items, slash)| + 1)
    decreases items, |items|
  {
    hide ReadValue, Text, StandsAt, ReadSeparator, SkipSpace;
    var t := Text(items[0], slash);
    if |items| == 1 {
      StandsSplit(s, i, t, "]");
      StandsHead(s, i + |t|, "]");
      ValueRead(items[0], slash, s, i);
      SeparatorRead(s, i + |t|, ']', BadArray);
      assert acc + [items[0]] == acc + items;
    } else {
      var tail := ItemsText(items[1..], slash);
      assert t + "," + tail + "]" == t + ("," + (tail + "]"));
      StandsSplit(s, i, t, "," + (tail + "]"));
      StandsSplit(s, i + |t|, ",", tail + "]");
      StandsHead(s, i + |t|, ",");
      ValueRead(items[0], slash, s, i);
      SeparatorRead(s, i + |t|, ']', BadArray);
      ItemsRead(items[1..], slash, s, i + |t| + 1, acc + [items[0]]);
      assert acc + [items[0]] + items[1..] == acc + items;
    }
  }

  lemma NoEntries(slash: bool)
    ensures EntriesText([], slash) == ""
  {
  }

  lemma OpensDict(s: string, i: nat)
    requires i < |s| && s[i] == '{'
    ensures ReadValue(s, i)
            == if i + 1 < |s| && s[i + 1] == '}' then Ok(Dict([]), i + 2) else ReadMembers(s, i + 1, [])
  {
    hide ReadMembers;
    NoSpaceToSkip(s, i);
  }

  lemma {:induction false} DictRead(entries: seq<(string, Json)>, slash: bool, s: string, i: nat)
    requires Proper(Dict(entries)) && StandsAt(s, i, "{" + EntriesText(entries, slash) + "}")
    ensures ReadValue(s, i) == Ok(Dict(entries), i + |EntriesText(entries, slash)| + 2)
    decreases entries, |entries| + 1
  {
    hide ReadMembers, StandsAt, ReadValue, EntriesText;
    var t := EntriesText(entries, slash);
    assert "{" + t + "}" == "{" + (t + "}");
    StandsSplit(s, i, "{", t + "}");
    StandsHead(s, i, "{");
    OpensDict(s, i);
    StandsHead(s, i + 1, t + "}");
    if |entries| == 0 {
      NoEntries(slash);
    } else {
      EntriesFirst(entries, slash);
      EntriesRead(entries, slash, s, i + 1, []);
      assert [] + entries == entries;
    }
  }

  lemma EntriesFirst(entries: seq<(string, Json)>, slash: bool)
    requires |entries| > 0
    ensures |EntriesText(entries, slash)| > 0 && EntriesText(entries, slash)[0] == '"'
  {
    hide EscapeChain;
    assert EntryText(entries[0], slash)[0] == '"';
  }

  lemma {:induction false} MemberRead(entry: (string, Json), slash: bool, s: string, i: nat)
    requires Proper(entry.1) && StandsAt(s, i, EntryText(entry, slash)) && NumberStops(s, i + |EntryText(entry, slash)|)
    ensures ReadMember(s, i) == Ok(entry, i + |EntryText(entry, slash)|)
    decreases entry, 1
  {
    hide ReadValue, StringText, StandsAt, SkipSpace, Text;
    var k, v := StringText(entry.0, slash), Text(entry.1, slash);
    assert k + ":" + v == k + (":" + v);
    StandsSplit(s, i, k, ":" + v);
    StandsSplit(s, i + |k|, ":", v);
    StandsHead(s, i + |k|, ":");
    KeyRead(entry.0, slash, s, i);
    NoSpaceToSkip(s, i + |k|);
    FirstChar(entry.1, slash);
    StandsHead(s, i + |k| + 1, v);
    NoSpaceToSkip(s, i + |k| + 1);
    ValueRead(entry.1, slash, s, i + |k| + 1);
  }

  lemma KeyRead(key: string, slash: bool, s: string, i: nat)
    requires StandsAt(s, i, StringText(key, slash))
    ensures ReadValue(s, i) == Ok(Str(key), i + |StringText(key, slash)|)
  {
    hide ReadChars, EscapeChain, ReadItems, ReadMembers;
    StringRead(s, i, key, slash);
    NoSpaceToSkip(s, i);
  }

  lemma {:induction false} EntriesRead(entries: seq<(string, Json)>, slash: bool, s: string, i: nat,
                                       acc: seq<(string, Json)>)
    requires |entries| > 0 && (forall k :: 0 <= k < |entries| ==> Proper(entries[k].1)) && DistinctKeys(acc + entries)
    requires StandsAt(s, i, EntriesText(entries, slash) + "}")
    ensures ReadMembers(s, i, acc) == Ok(Dict(acc + entries), i + |EntriesText(entries, slash)| + 1)
    decreases entries, |entries|
  {
    hide ReadMember, EntryText, StandsAt, ReadSeparator;
    var e := entries[0];
    var t := EntryText(e, slash);
    forall k | 0 <= k < |acc| ensures acc[k].0 != e.0 {
      assert (acc + entries)[k] == acc[k] && (acc + entries)[|acc|] == e;
    }
    PutNew(acc, e.0, e.1);
    if |entries| == 1 {
      StandsSplit(s, i, t, "}");
      StandsHead(s, i + |t|, "}");
      MemberRead(e, slash, s, i);
      SeparatorRead(s, i + |t|, '}', BadObject);
      assert acc + [e] == acc + entries;
    } else {
      var tail := EntriesText(entries[1..], slash);
      assert t + "," + tail + "}" == t + ("," + (tail + "}"));
      StandsSplit(s, i, t, "," + (tail + "}"));
      StandsSplit(s, i + |t|, ",", tail + "}");
      StandsHead(s, i + |t|, ",");
      MemberRead(e, slash, s, i);
      SeparatorRead(s, i + |t|, '}', BadObject);
      assert acc + [e] + entries[1..] == acc + entries;
      EntriesRead(entries[1..], slash, s, i + |t| + 1, acc + [e]);
    }
  }

  lemma ExtendsIff(c: char)
    ensures ExtendsNumber(c) <==> c in "0123456789.e"
  {
    var chars := "0123456789.e";
    if IsDigit(c) {
      assert chars[c as int - '0' as int] == c;
    } else {
      assert chars[10] == '.' && chars[11] == 'e';
    }
  }

  /** A number that a character follows which the number loop takes is never read as itself. */
  lemma NumberRunsOn(n: int, suffix: string)
    requires |suffix| > 0 && ExtendsNumber(suffix[0])
    ensures ReadValue(IntText(n) + suffix, 0) != Ok(Int(n), |IntText(n)|)
  {
    hide ReadChars, ReadItems, ReadMembers, ReadLiteral, Digits, DigitsValue;
    var s := IntText(n) + suffix;
    assert s[0] == IntText(n)[0] && s[|IntText(n)|] == suffix[0];
    NoSpaceToSkip(s, 0);
  }

  /**
   The round trip: for every value with distinct dictionary keys, with or without slash escaping,
   reading the written text followed by a suffix returns the value and leaves exactly the suffix.
   For a number this holds if and only if the suffix does not start with a character that extends a
   number; every other value is read back whatever follows it.
   */
  lemma RoundTrip(v: Json, slash: bool, suffix: string)
    requires Proper(v)
    ensures ReadValue(Text(v, slash) + suffix, 0) == Ok(v, |Text(v, slash)|)
            <==> (v.Int? && |suffix| > 0 ==> suffix[0] !in "0123456789.e")
  {
    if |suffix| > 0 { ExtendsIff(suffix[0]); }
    hide ExtendsNumber;
    var s := Text(v, slash) + suffix;
    if v.Int? && |suffix| > 0 && ExtendsNumber(suffix[0]) {
      NumberRunsOn(v.n, suffix);
    } else {
      assert s[0..|Text(v, slash)|] == Text(v, slash);
      ValueRead(v, slash, s, 0);
    }
  }
}
