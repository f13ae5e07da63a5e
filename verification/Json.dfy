/**
 The JSON dialect of the job tools: values, the text the writer produces for them, and what the
 reader makes of any text.
 */
module Json {

  /** A dictionary is its entries in iteration order; its keys are distinct. */
  datatype Json =
    | Null
    | Bool(b: bool)
    | Int(n: int)
    | Str(s: string)
    | List(items: seq<Json>)
    | Dict(entries: seq<(string, Json)>)

  const BACKSPACE: char := '\U{0008}'
  const FORM_FEED: char := '\U{000C}'
  const VERTICAL_TAB: char := '\U{000B}'

  predicate DistinctKeys(entries: seq<(string, Json)>)
  {
    forall i, j :: 0 <= i < j < |entries| ==> entries[i].0 != entries[j].0
  }

  /** Every dictionary in the value has distinct keys. */
  predicate Proper(v: Json)
  {
    match v
    case List(items) => forall i :: 0 <= i < |items| ==> Proper(items[i])
    case Dict(entries) => DistinctKeys(entries) && forall i :: 0 <= i < |entries| ==> Proper(entries[i].1)
    case _ => true
  }

  // ----- writing

  /** Python's str.replace for a single character. */
  function Replace(s: string, c: char, w: string): (r: string)
  {
    if |s| == 0 then [] else (if s[0] == c then w else [s[0]]) + Replace(s[1..], c, w)
  }

  /** The writer's chain of replacements, in its order. */
  function EscapeChain(s: string, slash: bool): (r: string)
  {
    var s1 := Replace(s, '\\', "\\\\");
    var s2 := if slash then Replace(s1, '/', "\\/") else s1;
    var s3 := Replace(s2, '"', "\\\"");
    var s4 := Replace(s3, BACKSPACE, "\\b");
    var s5 := Replace(s4, FORM_FEED, "\\f");
    var s6 := Replace(s5, '\n', "\\n");
    var s7 := Replace(s6, '\r', "\\r");
    Replace(s7, '\t', "\\t")
  }

  function EscapeChar(c: char, slash: bool): (r: string)
    ensures 1 <= |r| <= 2
  {
    if c == '\\' then "\\\\"
    else if c == '/' && slash then "\\/"
    else if c == '"' then "\\\""
    else if c == BACKSPACE then "\\b"
    else if c == FORM_FEED then "\\f"
    else if c == '\n' then "\\n"
    else if c == '\r' then "\\r"
    else if c == '\t' then "\\t"
    else [c]
  }

  function EscapeEach(s: string, slash: bool): (r: string)
  {
    if |s| == 0 then [] else EscapeChar(s[0], slash) + EscapeEach(s[1..], slash)
  }

  lemma {:induction false} ReplaceConcat(a: string, b: string, c: char, w: string)
    ensures Replace(a + b, c, w) == Replace(a, c, w) + Replace(b, c, w)
    decreases |a|
  {
    if |a| == 0 {
      assert a + b == b;
    } else {
      assert (a + b)[1..] == a[1..] + b;
      ReplaceConcat(a[1..], b, c, w);
    }
  }

  lemma {:induction false} ReplaceAbsent(s: string, c: char, w: string)
    requires c !in s
    ensures Replace(s, c, w) == s
    decreases |s|
  {
    if |s| > 0 {
      ReplaceAbsent(s[1..], c, w);
      assert s == [s[0]] + s[1..];
    }
  }

  lemma ReplaceHit(c: char, w: string)
    ensures Replace([c], c, w) == w
  {
    var none: string := [c][1..];
    assert none == [] && w + [] == w;
  }

  lemma ChainConcat(a: string, b: string, slash: bool)
    ensures EscapeChain(a + b, slash) == EscapeChain(a, slash) + EscapeChain(b, slash)
  {
    hide Replace;
    var f1 := (s: string) => Replace(s, '\\', "\\\\");
    var f2 := (s: string) => if slash then Replace(s, '/', "\\/") else s;
    ReplaceConcat(a, b, '\\', "\\\\");
    ReplaceConcat(f1(a), f1(b), '/', "\\/");
    ReplaceConcat(f2(f1(a)), f2(f1(b)), '"', "\\\"");
    var a3, b3 := Replace(f2(f1(a)), '"', "\\\""), Replace(f2(f1(b)), '"', "\\\"");
    ReplaceConcat(a3, b3, BACKSPACE, "\\b");
    var a4, b4 := Replace(a3, BACKSPACE, "\\b"), Replace(b3, BACKSPACE, "\\b");
    ReplaceConcat(a4, b4, FORM_FEED, "\\f");
    var a5, b5 := Replace(a4, FORM_FEED, "\\f"), Replace(b4, FORM_FEED, "\\f");
    ReplaceConcat(a5, b5, '\n', "\\n");
    var a6, b6 := Replace(a5, '\n', "\\n"), Replace(b5, '\n', "\\n");
    ReplaceConcat(a6, b6, '\r', "\\r");
    ReplaceConcat(Replace(a6, '\r', "\\r"), Replace(b6, '\r', "\\r"), '\t', "\\t");
  }

  lemma ChainOne(c: char, slash: bool)
    ensures EscapeChain([c], slash) == EscapeChar(c, slash)
  {
    hide Replace;
    forall s: string, d: char, w: string | d !in s ensures Replace(s, d, w) == s { ReplaceAbsent(s, d, w); }
    forall d: char, w: string ensures Replace([d], d, w) == w { ReplaceHit(d, w); }
  }

  /** The chain of replacements is one escape per character: no replacement touches what an earlier one put in. */
  lemma {:induction false} ChainIsPerCharacter(s: string, slash: bool)
    ensures EscapeChain(s, slash) == EscapeEach(s, slash)
    decreases |s|
  {
    if |s| > 0 {
      assert s == [s[0]] + s[1..];
      ChainConcat([s[0]], s[1..], slash);
      ChainOne(s[0], slash);
      ChainIsPerCharacter(s[1..], slash);
    }
  }

  predicate IsDigit(c: char) { '0' <= c <= '9' }

  function Digit(d: nat): (c: char)
    requires d < 10
    ensures IsDigit(c)
  {
    ('0' as int + d) as char
  }

  function Digits(n: nat): (s: string)
    ensures |s| > 0 && forall i :: 0 <= i < |s| ==> IsDigit(s[i])
  {
    if n < 10 then [Digit(n)] else Digits(n / 10) + [Digit(n % 10)]
  }

  function IntText(n: int): (s: string)
  {
    if n < 0 then "-" + Digits(-n) else Digits(n)
  }

  function StringText(s: string, slash: bool): (t: string)
  {
    "\"" + EscapeChain(s, slash) + "\""
  }

  /** What the writer appends for a value. */
  function Text(v: Json, slash: bool): (t: string)
    decreases v, 0
  {
    match v
    case Null => "null"
    case Bool(b) => if b then "true" else "false"
    case Int(n) => IntText(n)
    case Str(s) => StringText(s, slash)
    case List(items) => "[" + ItemsText(items, slash) + "]"
    case Dict(entries) => "{" + EntriesText(entries, slash) + "}"
  }

  function ItemsText(items: seq<Json>, slash: bool): (t: string)
    decreases items, |items|
  {
    if |items| == 0 then ""
    else if |items| == 1 then Text(items[0], slash)
    else Text(items[0], slash) + "," + ItemsText(items[1..], slash)
  }

  function EntryText(entry: (string, Json), slash: bool): (t: string)
    decreases entry, 1
  {
    StringText(entry.0, slash) + ":" + Text(entry.1, slash)
  }

  function EntriesText(entries: seq<(string, Json)>, slash: bool): (t: string)
    decreases entries, |entries|
  {
    if |entries| == 0 then ""
    else if |entries| == 1 then EntryText(entries[0], slash)
    else EntryText(entries[0], slash) + "," + EntriesText(entries[1..], slash)
  }
}
