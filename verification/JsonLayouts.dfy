/**
 Texts that were not written by the writer: with blanks and comments wherever the reader allows them,
 and with every way to spell a character. The reader gives the same value for all of them.
 */
module JsonLayouts {
  import opened Json
  import opened JsonReading
  import opened JsonRoundTrip

  // ----- blanks and comments

  /** One blank, a comment up to the end of its line, or a comment between slash-star and star-slash. */
  datatype Piece = Blank(c: char) | LineComment(text: string, end: char) | BlockComment(text: string)

  /** Space, tab, line feed, vertical tab, form feed and carriage return. */
  predicate PieceOk(p: Piece)
  {
    match p
    case Blank(c) => c as int == 32 || 9 <= c as int <= 13
    case LineComment(text, end) => '\n' !in text && '\r' !in text && (end == '\n' || end == '\r')
    case BlockComment(text) => NoMarks(text + "*/")
  }

  /** The first end mark is the last thing in the text, and there is no second opening mark. */
  predicate NoMarks(t: string)
  {
    forall i :: 0 <= i < |t| - 2 ==> !(t[i] == '*' && t[i + 1] == '/') && !(t[i] == '/' && t[i + 1] == '*')
  }

  function PieceText(p: Piece): (t: string)
  {
    match p
    case Blank(c) => [c]
    case LineComment(text, end) => "//" + text + [end]
    case BlockComment(text) => "/*" + text + "*/"
  }

  type Layout = seq<Piece>

  ghost predicate LayoutOk(ps: Layout) { forall k :: 0 <= k < |ps| ==> PieceOk(ps[k]) }

  function LayoutText(ps: Layout): (t: string) { if ps == [] then "" else PieceText(ps[0]) + LayoutText(ps[1..]) }

  lemma StandsAtChars(s: string, i: nat, t: string)
    requires StandsAt(s, i, t)
    ensures forall k :: 0 <= k < |t| ==> s[i + k] == t[k]
  {
    forall k | 0 <= k < |t| ensures s[i + k] == t[k] { assert s[i..i + |t|][k] == t[k]; }
  }

  lemma {:induction false} LineSkipped(s: string, i: nat, text: string, end: char)
    requires StandsAt(s, i, text + [end]) && '\n' !in text && '\r' !in text && (end == '\n' || end == '\r')
    ensures SkipLine(s, i) == i + |text| + 1
    decreases |text|
  {
    StandsAtChars(s, i, text + [end]);
    if text != "" {
      assert (text + [end])[0] == text[0];
      assert text + [end] == [text[0]] + (text[1..] + [end]);
      StandsSplit(s, i, [text[0]], text[1..] + [end]);
      LineSkipped(s, i + 1, text[1..], end);
    }
  }

  lemma {:induction false} BlockSkipped(s: string, i: nat, text: string)
    requires StandsAt(s, i, text + "*/") && NoMarks(text + "*/")
    ensures SkipBlock(s, i) == Ok((), i + |text| + 2)
    decreases |text|
  {
    var t := text + "*/";
    StandsAtChars(s, i, t);
    if text == "" {
      assert s[i] == t[0] && s[i + 1] == t[1];
    } else {
      assert s[i] == t[0] && s[i + 1] == t[1];
      assert t == [t[0]] + (text[1..] + "*/");
      StandsSplit(s, i, [t[0]], text[1..] + "*/");
      assert forall k :: 0 <= k < |t| - 1 ==> (text[1..] + "*/")[k] == t[k + 1];
      BlockSkipped(s, i + 1, text[1..]);
    }
  }

  lemma PieceSkipped(s: string, i: nat, p: Piece)
    requires PieceOk(p) && StandsAt(s, i, PieceText(p))
    ensures SkipSpace(s, i) == SkipSpace(s, i + |PieceText(p)|)
  {
    hide SkipLine, SkipBlock, NoMarks;
    StandsHead(s, i, PieceText(p));
    match p
    case Blank(c) => BlankIsSpace(c);
    case LineComment(text, end) =>
      assert "//" + text + [end] == "//" + (text + [end]);
      StandsSplit(s, i, "//", text + [end]);
      StandsAtChars(s, i, "//");
      assert s[i + 1] == '/';
      LineSkipped(s, i + 2, text, end);
    case BlockComment(text) =>
      assert "/*" + text + "*/" == "/*" + (text + "*/");
      StandsSplit(s, i, "/*", text + "*/");
      StandsAtChars(s, i, "/*");
      assert s[i + 1] == '*';
      BlockSkipped(s, i + 2, text);
  }

  lemma BlankIsSpace(c: char)
    ensures IsSpace(c) <==> c as int == 32 || 9 <= c as int <= 13
  {
  }

  /** Whatever layout stands before the next token, the reader ends up behind it. */
  lemma {:induction false} LayoutSkipped(s: string, i: nat, ps: Layout)
    requires LayoutOk(ps) && StandsAt(s, i, LayoutText(ps))
    ensures SkipSpace(s, i) == SkipSpace(s, i + |LayoutText(ps)|)
    decreases |ps|
  {
    hide SkipSpace, PieceOk, PieceText, StandsAt;
    if ps != [] {
      StandsSplit(s, i, PieceText(ps[0]), LayoutText(ps[1..]));
      PieceSkipped(s, i, ps[0]);
      LayoutSkipped(s, i + |PieceText(ps[0])|, ps[1..]);
    }
  }

  // ----- spellings of characters

  /** The hexadecimal digit of k, in either case. */
  predicate IsHexOf(d: char, k: nat)
    requires k < 16
  {
    d == "0123456789ABCDEF"[k] || d == "0123456789abcdef"[k]
  }

  /** A character as itself, by its short escape, or by its code in four hexadecimal digits. */
  predicate Spells(t: string, c: char)
  {
    || (t == [c] && c != '\"' && c != '\\')
    || (t == "\\\"" && c == '\"') || (t == "\\/" && c == '/') || (t == "\\\\" && c == '\\')
    || (t == "\\b" && c as int == 8) || (t == "\\t" && c as int == 9) || (t == "\\n" && c as int == 10)
    || (t == "\\f" && c as int == 12) || (t == "\\r" && c as int == 13)
    || (|t| == 6 && t[..2] == "\\u" && c as int < 128 && IsHexOf(t[2], 0) && IsHexOf(t[3], 0)
        && IsHexOf(t[4], c as int / 16) && IsHexOf(t[5], c as int % 16))
  }

  lemma HexOf(d: char, k: nat)
    requires k < 16 && IsHexOf(d, k)
    ensures HexValue(d) == k
  {
    if k < 10 {
      assert "0123456789ABCDEF"[k] == "0123456789abcdef"[k] == ('0' as int + k) as char by { TableDigits(k); }
    } else {
      TableLetters(k);
    }
  }

  lemma TableDigits(k: nat)
    requires k < 10
    ensures "0123456789ABCDEF"[k] == "0123456789abcdef"[k] == ('0' as int + k) as char
  {
  }

  lemma TableLetters(k: nat)
    requires 10 <= k < 16
    ensures "0123456789ABCDEF"[k] == ('A' as int + k - 10) as char
    ensures "0123456789abcdef"[k] == ('a' as int + k - 10) as char
  {
  }

  lemma SpellingRead(s: string, i: nat, t: string, c: char)
    requires Spells(t, c) && StandsAt(s, i, t)
    ensures |t| > 0 && i < |s| && s[i] != '\"'
    ensures s[i] == '\\' ==> ReadEscape(s, i + 1) == Ok(c, i + |t|)
    ensures s[i] != '\\' ==> |t| == 1 && s[i] == c
  {
    hide HexValue;
    StandsAtChars(s, i, t);
    if |t| == 6 {
      assert t[0] == t[..2][0] && t[1] == t[..2][1];
      assert s[i] == t[0] && s[i + 1] == t[1] && s[i + 2] == t[2] && s[i + 3] == t[3] && s[i + 4] == t[4]
             && s[i + 5] == t[5];
      HexOf(t[2], 0);
      HexOf(t[3], 0);
      HexOf(t[4], c as int / 16);
      HexOf(t[5], c as int % 16);
    } else if |t| == 2 {
      assert s[i] == t[0] && s[i + 1] == t[1];
    } else {
      assert s[i] == t[0];
    }
  }

  /** A string, character by character in any spelling. */
  datatype Spelling = Spelling(text: string, c: char)

  ghost predicate SpellingsOk(ps: seq<Spelling>) { forall k :: 0 <= k < |ps| ==> Spells(ps[k].text, ps[k].c) }

  function SpelledText(ps: seq<Spelling>): (t: string) { if ps == [] then "" else ps[0].text + SpelledText(ps[1..]) }

  function SpelledString(ps: seq<Spelling>): (s: string) { if ps == [] then "" else [ps[0].c] + SpelledString(ps[1..]) }

  lemma {:induction false} SpelledRead(s: string, i: nat, ps: seq<Spelling>, acc: string)
    requires SpellingsOk(ps) && StandsAt(s, i, SpelledText(ps) + "\"")
    ensures ReadChars(s, i, acc) == Ok(acc + SpelledString(ps), i + |SpelledText(ps)| + 1)
    decreases |ps|
  {
    hide ReadEscape, Spells, StandsAt;
    StandsSplit(s, i, SpelledText(ps), "\"");
    if ps == [] {
      StandsHead(s, i, "\"");
      assert acc + "" == acc;
    } else {
      var t, tail := ps[0].text, SpelledText(ps[1..]);
      assert t + tail + "\"" == t + (tail + "\"");
      StandsSplit(s, i, t, tail + "\"");
      SpellingRead(s, i, t, ps[0].c);
      SpelledRead(s, i + |t|, ps[1..], acc + [ps[0].c]);
      assert acc + [ps[0].c] + SpelledString(ps[1..]) == acc + SpelledString(ps);
    }
  }

  // ----- documents

  /** A value as it may stand in a text, with the layout before it. */
  datatype Doc =
    | Word(pre: Layout, v: Json)
    | Chars(pre: Layout, ps: seq<Spelling>)
    | Array(pre: Layout, items: seq<Item>)
    | Object(pre: Layout, members: seq<Member>)

  datatype Item = Item(doc: Doc, post: Layout)

  datatype Member = Member(pre: Layout, key: seq<Spelling>, mid: Layout, doc: Doc, post: Layout)

  ghost predicate DocOk(doc: Doc)
    decreases doc, 0
  {
    && LayoutOk(doc.pre)
    && match doc
       case Word(_, v) => v.Null? || v.Bool? || v.Int?
       case Chars(_, ps) => SpellingsOk(ps)
       case Array(_, items) => forall k :: 0 <= k < |items| ==> LayoutOk(items[k].post) && DocOk(items[k].doc)
       case Object(_, members) => forall k :: 0 <= k < |members| ==> MemberOk(members[k]) && DocOk(members[k].doc)
  }

  ghost predicate MemberOk(m: Member) { LayoutOk(m.pre) && SpellingsOk(m.key) && LayoutOk(m.mid) && LayoutOk(m.post) }

  function DocText(doc: Doc): (t: string)
    decreases doc, 1
  {
    LayoutText(doc.pre) + Bare(doc)
  }

  function Bare(doc: Doc): (t: string)
    decreases doc, 0
  {
    match doc
    case Word(_, v) => (match v case Null => "null" case Bool(b) => (if b then "true" else "false")
                                case Int(n) => IntText(n) case _ => "")
    case Chars(_, ps) => "\"" + SpelledText(ps) + "\""
    case Array(_, items) => "[" + ItemsText(items) + "]"
    case Object(_, members) => "{" + MembersText(members) + "}"
  }

  function ItemText(item: Item): (t: string)
    decreases item, 2
  {
    DocText(item.doc) + LayoutText(item.post)
  }

  function ItemsText(items: seq<Item>): (t: string)
    decreases items, |items|
  {
    if |items| == 0 then ""
    else if |items| == 1 then ItemText(items[0])
    else ItemText(items[0]) + "," + ItemsText(items[1..])
  }

  function KeyText(m: Member): (t: string) { LayoutText(m.pre) + ("\"" + SpelledText(m.key) + "\"") }

  /** Key, colon and value, with the layout around the key and before the value. */
  function PairText(m: Member): (t: string)
    decreases m, 2
  {
    KeyText(m) + (LayoutText(m.mid) + (":" + DocText(m.doc)))
  }

  function MemberText(m: Member): (t: string)
    decreases m, 3
  {
    PairText(m) + LayoutText(m.post)
  }

  function MembersText(members: seq<Member>): (t: string)
    decreases members, |members|
  {
    if |members| == 0 then ""
    else if |members| == 1 then MemberText(members[0])
    else MemberText(members[0]) + "," + MembersText(members[1..])
  }

  /** The value without the layout; a later member replaces an earlier one of the same key. */
  function DocValue(doc: Doc): (v: Json)
    decreases doc, 0
  {
    match doc
    case Word(_, v) => v
    case Chars(_, ps) => Str(SpelledString(ps))
    case Array(_, items) => List(Values(items))
    case Object(_, members) => Dict(Entries(members, []))
  }

  function Values(items: seq<Item>): (vs: seq<Json>)
    decreases items, |items|
  {
    if |items| == 0 then [] else [DocValue(items[0].doc)] + Values(items[1..])
  }

  function Entries(members: seq<Member>, acc: seq<(string, Json)>): (es: seq<(string, Json)>)
    decreases members, |members|
  {
    if |members| == 0 then acc
    else Entries(members[1..], Put(acc, SpelledString(members[0].key), DocValue(members[0].doc)))
  }

  // ----- reading them

  lemma SkipsAlike(s: string, i: nat, j: nat)
    requires i <= |s| && j <= |s| && SkipSpace(s, i) == SkipSpace(s, j)
    ensures ReadValue(s, i) == ReadValue(s, j)
    ensures forall close, error :: ReadSeparator(s, i, close, error) == ReadSeparator(s, j, close, error)
  {
    hide SkipSpace, ReadItems, ReadMembers, ReadChars, ReadNumber, ReadLiteral;
  }

  lemma LayoutStops(ps: Layout, rest: string)
    requires LayoutOk(ps) && |rest| > 0 && !ExtendsNumber(rest[0])
    ensures !ExtendsNumber((LayoutText(ps) + rest)[0])
  {
    if ps == [] {
      assert LayoutText(ps) + rest == rest;
    } else {
      assert PieceOk(ps[0]);
      assert (LayoutText(ps) + rest)[0] == PieceText(ps[0])[0];
    }
  }

  /** What comes behind an item: its layout, then a comma or the closing bracket. */
  lemma BehindItem(s: string, i: nat, post: Layout, c: char, rest: string)
    requires LayoutOk(post) && (c == ',' || c == ']' || c == '}') && StandsAt(s, i, LayoutText(post) + ([c] + rest))
    ensures NumberStops(s, i) && i + |LayoutText(post)| < |s| && s[i + |LayoutText(post)|] == c
    ensures StandsAt(s, i + |LayoutText(post)| + 1, rest)
    ensures c != '}' ==> ReadSeparator(s, i, ']', BadArray)
                         == if c == ']' then Closed(i + |LayoutText(post)| + 1) else More(i + |LayoutText(post)| + 1)
    ensures c != ']' ==> ReadSeparator(s, i, '}', BadObject)
                         == if c == '}' then Closed(i + |LayoutText(post)| + 1) else More(i + |LayoutText(post)| + 1)
  {
    hide SkipSpace, ReadSeparator, ExtendsNumber, StandsAt, LayoutText;
    var t := LayoutText(post);
    Closing(c);
    LayoutStops(post, [c] + rest);
    StandsHead(s, i, t + ([c] + rest));
    StandsSplit(s, i, t, [c] + rest);
    StandsSplit(s, i + |t|, [c], rest);
    StandsHead(s, i + |t|, [c]);
    LayoutSkipped(s, i, post);
    SkipsAlike(s, i, i + |t|);
    if c != '}' { SeparatorRead(s, i + |t|, ']', BadArray); }
    if c != ']' { SeparatorRead(s, i + |t|, '}', BadObject); }
  }

  lemma Closing(c: char)
    requires c == ',' || c == ']' || c == '}'
    ensures !ExtendsNumber(c)
  {
  }

  /** Every document is read as its value, whatever layout and spelling it has. */
  lemma {:induction false} DocRead(doc: Doc, s: string, i: nat)
    requires DocOk(doc) && StandsAt(s, i, DocText(doc))
    requires doc.Word? && doc.v.Int? ==> NumberStops(s, i + |DocText(doc)|)
    ensures ReadValue(s, i) == Ok(DocValue(doc), i + |DocText(doc)|)
    decreases doc, 1
  {
    hide ReadValue, SkipSpace, StandsAt, Bare, DocValue;
    var j := i + |LayoutText(doc.pre)|;
    StandsSplit(s, i, LayoutText(doc.pre), Bare(doc));
    LayoutSkipped(s, i, doc.pre);
    SkipsAlike(s, i, j);
    BareRead(doc, s, j);
  }

  lemma {:induction false} BareRead(doc: Doc, s: string, i: nat)
    requires DocOk(doc) && StandsAt(s, i, Bare(doc))
    requires doc.Word? && doc.v.Int? ==> NumberStops(s, i + |Bare(doc)|)
    ensures ReadValue(s, i) == Ok(DocValue(doc), i + |Bare(doc)|)
    decreases doc, 0
  {
    hide ReadValue, IntText, StandsAt;
    match doc
    case Word(_, v) => if v.Int? { IntValueRead(v.n, s, i); } else { LiteralValueRead(v, false, s, i); }
    case Chars(_, ps) => SpelledValueRead(ps, s, i);
    case Array(_, items) => ArrayRead(items, s, i);
    case Object(_, members) => ObjectRead(members, s, i);
  }

  lemma SpelledValueRead(ps: seq<Spelling>, s: string, i: nat)
    requires SpellingsOk(ps) && StandsAt(s, i, "\"" + SpelledText(ps) + "\"")
    ensures ReadValue(s, i) == Ok(Str(SpelledString(ps)), i + |SpelledText(ps)| + 2)
  {
    hide ReadChars, ReadItems, ReadMembers, SpelledText, SpelledString, SpellingsOk;
    var t := SpelledText(ps);
    assert "\"" + t + "\"" == "\"" + (t + "\"");
    StandsSplit(s, i, "\"", t + "\"");
    StandsHead(s, i, "\"");
    NoSpaceToSkip(s, i);
    SpelledRead(s, i + 1, ps, "");
    assert "" + SpelledString(ps) == SpelledString(ps);
  }

  ghost predicate ItemsOk(items: seq<Item>)
  {
    forall k :: 0 <= k < |items| ==> LayoutOk(items[k].post) && DocOk(items[k].doc)
  }

  lemma OpensList(s: string, i: nat)
    requires i < |s| && s[i] == '['
    ensures ReadValue(s, i)
            == if i + 1 < |s| && s[i + 1] == ']' then Ok(List([]), i + 2) else ReadItems(s, i + 1, [])
  {
    hide ReadItems;
    NoSpaceToSkip(s, i);
  }

  lemma LayoutFirst(ps: Layout, rest: string)
    requires LayoutOk(ps) && |rest| > 0 && rest[0] != ']' && rest[0] != '}'
    ensures (LayoutText(ps) + rest)[0] != ']' && (LayoutText(ps) + rest)[0] != '}'
  {
    if ps == [] {
      assert LayoutText(ps) + rest == rest;
    } else {
      assert PieceOk(ps[0]);
      assert (LayoutText(ps) + rest)[0] == PieceText(ps[0])[0];
    }
  }

  lemma DocFirst(doc: Doc, rest: string)
    requires DocOk(doc)
    ensures |DocText(doc) + rest| > 0 && (DocText(doc) + rest)[0] != ']' && (DocText(doc) + rest)[0] != '}'
  {
    hide Bare, LayoutText, DocOk, DocText;
    BareFirst(doc);
    LayoutFirst(doc.pre, Bare(doc) + rest);
    DocTextIs(doc, rest);
  }

  lemma DocTextIs(doc: Doc, rest: string)
    ensures DocText(doc) + rest == LayoutText(doc.pre) + (Bare(doc) + rest)
  {
    hide Bare, LayoutText;
    Regroup(LayoutText(doc.pre), Bare(doc), "", rest);
  }

  lemma BareFirst(doc: Doc)
    requires DocOk(doc)
    ensures LayoutOk(doc.pre) && |Bare(doc)| > 0 && Bare(doc)[0] != ']' && Bare(doc)[0] != '}'
  {
    hide Digits, LayoutOk;
  }

  lemma ItemsSplit(items: seq<Item>)
    requires |items| > 0
    ensures var head, post := DocText(items[0].doc), LayoutText(items[0].post);
      ItemsText(items) + "]"
      == head + (post + if |items| == 1 then "]" else "," + (ItemsText(items[1..]) + "]"))
  {
    hide DocText, LayoutText;
    Regroup(DocText(items[0].doc), LayoutText(items[0].post), ItemsText(items[1..]), "]");
  }

  lemma Regroup(head: string, post: string, more: string, close: string)
    ensures head + post + close == head + (post + close)
    ensures head + post + "," + more + close == head + (post + ("," + (more + close)))
  {
  }

  lemma {:induction false} ArrayRead(items: seq<Item>, s: string, i: nat)
    requires ItemsOk(items) && StandsAt(s, i, "[" + ItemsText(items) + "]")
    ensures ReadValue(s, i) == Ok(List(Values(items)), i + |ItemsText(items)| + 2)
    decreases items, |items| + 1
  {
    hide ReadItems, ReadValue, StandsAt, ItemsText, DocText, LayoutText;
    var t := ItemsText(items);
    assert "[" + t + "]" == "[" + (t + "]");
    StandsSplit(s, i, "[", t + "]");
    StandsHead(s, i, "[");
    OpensList(s, i);
    StandsHead(s, i + 1, t + "]");
    if |items| == 0 {
      NoItems();
    } else {
      ItemsSplit(items);
      DocFirst(items[0].doc, (t + "]")[|DocText(items[0].doc)|..]);
      ItemsRead(items, s, i + 1, []);
      assert [] + Values(items) == Values(items);
    }
  }

  lemma NoItems()
    ensures ItemsText([]) == "" && MembersText([]) == ""
  {
  }

  lemma {:induction false} ItemsRead(items: seq<Item>, s: string, i: nat, acc: seq<Json>)
    requires |items| > 0 && ItemsOk(items) && StandsAt(s, i, ItemsText(items) + "]")
    ensures ReadItems(s, i, acc) == Ok(List(acc + Values(items)), i + |ItemsText(items)| + 1)
    decreases items, |items|
  {
    hide ReadValue, StandsAt, ReadSeparator, DocText, LayoutText, ItemsText, DocOk, DocValue;
    var head, post, v := DocText(items[0].doc), items[0].post, DocValue(items[0].doc);
    ItemsSplit(items);
    var last := |items| == 1;
    var more := if last then "" else ItemsText(items[1..]) + "]";
    var c := if last then ']' else ',';
    assert [c] + more == if last then "]" else "," + more;
    StandsSplit(s, i, head, LayoutText(post) + ([c] + more));
    BehindItem(s, i + |head|, post, c, more);
    DocRead(items[0].doc, s, i);
    if last {
      assert Values(items) == [v];
    } else {
      ItemsRead(items[1..], s, i + |head| + |LayoutText(post)| + 1, acc + [v]);
      assert acc + [v] + Values(items[1..]) == acc + Values(items);
    }
  }

  // ----- objects

  lemma {:induction false} SkipTwice(s: string, i: nat)
    requires i <= |s| && SkipSpace(s, i).Ok?
    ensures SkipSpace(s, SkipSpace(s, i).pos) == SkipSpace(s, i)
    decreases |s| - i
  {
    hide SkipComment;
    if i < |s| && s[i] == '/' {
      SkipTwice(s, SkipComment(s, i).pos);
    } else if i < |s| && IsSpace(s[i]) {
      SkipTwice(s, i + 1);
    }
  }

  lemma AfterColon(s: string, i: nat, v: Json, pos: nat)
    requires i <= |s| && ReadValue(s, i) == Ok(v, pos)
    ensures SkipSpace(s, i).Ok? && ReadValue(s, SkipSpace(s, i).pos) == Ok(v, pos)
  {
    assert SkipSpace(s, i).Ok? by { hide ReadItems, ReadMembers, ReadChars, ReadNumber, ReadLiteral, SkipSpace; }
    hide ReadValue, SkipSpace;
    SkipTwice(s, i);
    SkipsAlike(s, i, SkipSpace(s, i).pos);
  }

  lemma ColonAt(s: string, i: nat, mid: Layout, rest: string)
    requires LayoutOk(mid) && StandsAt(s, i, LayoutText(mid) + (":" + rest))
    ensures var j := i + |LayoutText(mid)|;
      j < |s| && s[j] == ':' && SkipSpace(s, i) == Ok((), j) && StandsAt(s, j + 1, rest)
  {
    hide StandsAt, SkipSpace, LayoutText, LayoutOk;
    var j := i + |LayoutText(mid)|;
    StandsSplit(s, i, LayoutText(mid), ":" + rest);
    LayoutSkipped(s, i, mid);
    StandsSplit(s, j, ":", rest);
    StandsHead(s, j, ":");
    NoSpaceToSkip(s, j);
  }

  lemma {:induction false} PairRead(m: Member, s: string, i: nat)
    requires MemberOk(m) && DocOk(m.doc) && StandsAt(s, i, PairText(m))
    requires m.doc.Word? && m.doc.v.Int? ==> NumberStops(s, i + |PairText(m)|)
    ensures ReadMember(s, i) == Ok((SpelledString(m.key), DocValue(m.doc)), i + |PairText(m)|)
    decreases m, 2
  {
    hide ReadValue, StandsAt, SkipSpace, DocText, DocOk, DocValue, KeyText, LayoutText, SpelledString;
    var k, mid := |KeyText(m)|, |LayoutText(m.mid)|;
    StandsSplit(s, i, KeyText(m), LayoutText(m.mid) + (":" + DocText(m.doc)));
    KeyRead(m, s, i);
    ColonAt(s, i + k, m.mid, DocText(m.doc));
    DocRead(m.doc, s, i + k + mid + 1);
    AfterColon(s, i + k + mid + 1, DocValue(m.doc), i + |PairText(m)|);
  }

  lemma KeyRead(m: Member, s: string, i: nat)
    requires MemberOk(m) && StandsAt(s, i, KeyText(m))
    ensures ReadValue(s, i) == Ok(Str(SpelledString(m.key)), i + |KeyText(m)|)
  {
    hide ReadValue, StandsAt, SkipSpace, LayoutText, SpelledString, SpelledText;
    StandsSplit(s, i, LayoutText(m.pre), "\"" + SpelledText(m.key) + "\"");
    LayoutSkipped(s, i, m.pre);
    SkipsAlike(s, i, i + |LayoutText(m.pre)|);
    SpelledValueRead(m.key, s, i + |LayoutText(m.pre)|);
  }

  ghost predicate MembersOk(members: seq<Member>)
  {
    forall k :: 0 <= k < |members| ==> MemberOk(members[k]) && DocOk(members[k].doc)
  }

  lemma MembersSplit(members: seq<Member>)
    requires |members| > 0
    ensures var head, post := PairText(members[0]), LayoutText(members[0].post);
      MembersText(members) + "}"
      == head + (post + if |members| == 1 then "}" else "," + (MembersText(members[1..]) + "}"))
  {
    hide PairText, LayoutText;
    Regroup(PairText(members[0]), LayoutText(members[0].post), MembersText(members[1..]), "}");
  }

  lemma PairFirst(m: Member, rest: string)
    requires MemberOk(m)
    ensures |PairText(m) + rest| > 0 && (PairText(m) + rest)[0] != '}'
  {
    hide LayoutText, SpelledText, DocText;
    var tail := "\"" + SpelledText(m.key) + "\"" + (LayoutText(m.mid) + (":" + DocText(m.doc)) + rest);
    LayoutFirst(m.pre, tail);
    assert PairText(m) + rest == LayoutText(m.pre) + tail;
  }

  lemma {:induction false} ObjectRead(members: seq<Member>, s: string, i: nat)
    requires MembersOk(members) && StandsAt(s, i, "{" + MembersText(members) + "}")
    ensures ReadValue(s, i) == Ok(Dict(Entries(members, [])), i + |MembersText(members)| + 2)
    decreases members, |members| + 1
  {
    hide ReadMembers, ReadValue, StandsAt, MembersText, PairText, LayoutText, Entries;
    var t := MembersText(members);
    assert "{" + t + "}" == "{" + (t + "}");
    StandsSplit(s, i, "{", t + "}");
    StandsHead(s, i, "{");
    OpensDict(s, i);
    StandsHead(s, i + 1, t + "}");
    if |members| == 0 {
      NoItems();
      NoMembers();
    } else {
      MembersSplit(members);
      PairFirst(members[0], (t + "}")[|PairText(members[0])|..]);
      MembersRead(members, s, i + 1, []);
    }
  }

  lemma NoMembers()
    ensures Entries([], []) == []
  {
  }

  lemma {:induction false} MembersRead(members: seq<Member>, s: string, i: nat, acc: seq<(string, Json)>)
    requires |members| > 0 && MembersOk(members) && StandsAt(s, i, MembersText(members) + "}")
    ensures ReadMembers(s, i, acc) == Ok(Dict(Entries(members, acc)), i + |MembersText(members)| + 1)
    decreases members, |members|
  {
    hide ReadMember, StandsAt, ReadSeparator, PairText, LayoutText, MembersText, DocOk, DocValue, Put, SpelledString;
    var m := members[0];
    var head, acc' := PairText(m), Put(acc, SpelledString(m.key), DocValue(m.doc));
    MembersSplit(members);
    var last := |members| == 1;
    var more := if last then "" else MembersText(members[1..]) + "}";
    var c := if last then '}' else ',';
    assert [c] + more == if last then "}" else "," + more;
    StandsSplit(s, i, head, LayoutText(m.post) + ([c] + more));
    BehindItem(s, i + |head|, m.post, c, more);
    PairRead(m, s, i);
    if last {
      assert Entries(members[1..], acc') == acc';
    } else {
      MembersRead(members[1..], s, i + |head| + |LayoutText(m.post)| + 1, acc');
    }
  }

  /**
   Any text of a document, followed by anything, is read as the document's value and to its end,
   if and only if it is not a number that the following text carries on.
   */
  lemma LayoutsRead(doc: Doc, suffix: string)
    requires DocOk(doc)
    ensures ReadValue(DocText(doc) + suffix, 0) == Ok(DocValue(doc), |DocText(doc)|)
            <==> (doc.Word? && doc.v.Int? && |suffix| > 0 ==> suffix[0] !in "0123456789.e")
  {
    if |suffix| > 0 { ExtendsIff(suffix[0]); }
    hide ExtendsNumber;
    hide ReadValue, DocText, DocValue, DocOk;
    var s := DocText(doc) + suffix;
    assert StandsAt(s, 0, DocText(doc));
    hide StandsAt;
    if doc.Word? && doc.v.Int? && |suffix| > 0 && ExtendsNumber(suffix[0]) {
      NumberDoc(doc);
      NumberCarriesOn(doc.pre, doc.v.n, suffix);
    } else {
      DocRead(doc, s, 0);
    }
  }

  lemma NumberDoc(doc: Doc)
    requires DocOk(doc) && doc.Word? && doc.v.Int?
    ensures LayoutOk(doc.pre) && DocText(doc) == LayoutText(doc.pre) + IntText(doc.v.n) && DocValue(doc) == doc.v
  {
    hide IntText, LayoutText;
  }

  lemma NumberCarriesOn(pre: Layout, n: int, suffix: string)
    requires LayoutOk(pre) && |suffix| > 0 && ExtendsNumber(suffix[0])
    ensures var t := LayoutText(pre) + IntText(n); ReadValue(t + suffix, 0) != Ok(Int(n), |t|)
  {
    hide ReadValue, SkipSpace, IntText, LayoutText, ReadNumber, ExtendsNumber, StandsAt;
    var l, t := LayoutText(pre), LayoutText(pre) + IntText(n);
    var s := t + suffix;
    Regroup(l, IntText(n), "", suffix);
    Standing(l, IntText(n) + suffix);
    LayoutSkipped(s, 0, pre);
    SkipsAlike(s, 0, |l|);
    NumberAt(s, |l|, n, suffix);
  }

  lemma Standing(t: string, rest: string)
    ensures StandsAt(t + rest, 0, t) && (t + rest)[|t|..] == rest
  {
    assert (t + rest)[0..|t|] == t;
  }

  lemma NumberAt(s: string, j: nat, n: int, suffix: string)
    requires j <= |s| && s[j..] == IntText(n) + suffix && |suffix| > 0 && ExtendsNumber(suffix[0])
    ensures ReadValue(s, j) != Ok(Int(n), j + |IntText(n)|)
  {
    hide ReadChars, ReadItems, ReadMembers, ReadLiteral, Digits, DigitsValue, SkipSpace;
    assert s[j] == s[j..][0] && s[j + |IntText(n)|] == s[j..][|IntText(n)|];
    NoSpaceToSkip(s, j);
  }

  // ----- later entries replace earlier ones

  ghost predicate HasKey(entries: seq<(string, Json)>, key: string)
  {
    exists i :: 0 <= i < |entries| && entries[i].0 == key
  }

  lemma HasKeyNext(entries: seq<(string, Json)>, key: string)
    requires |entries| > 0
    ensures HasKey(entries, key) <==> entries[0].0 == key || HasKey(entries[1..], key)
  {
    if HasKey(entries[1..], key) {
      var i :| 0 <= i < |entries| - 1 && entries[1..][i].0 == key;
      assert entries[i + 1].0 == key;
    }
  }

  /** No key moves, and a new one goes to the end. */
  lemma {:induction false} PutKeys(entries: seq<(string, Json)>, key: string, v: Json)
    ensures var r := Put(entries, key, v);
      && |r| == (if HasKey(entries, key) then |entries| else |entries| + 1)
      && (forall i :: 0 <= i < |entries| ==> r[i].0 == entries[i].0)
      && (!HasKey(entries, key) ==> r[|entries|] == (key, v))
    decreases |entries|
  {
    if |entries| > 0 {
      HasKeyNext(entries, key);
      hide HasKey;
      if entries[0].0 != key { PutKeys(entries[1..], key, v); }
    }
  }

  lemma {:induction false} PutValues(entries: seq<(string, Json)>, key: string, v: Json, e: (string, Json))
    ensures e.0 != key ==> (e in Put(entries, key, v) <==> e in entries)
    ensures (key, v) in Put(entries, key, v)
    decreases |entries|
  {
    if |entries| > 0 {
      assert entries == [entries[0]] + entries[1..];
      if entries[0].0 != key { PutValues(entries[1..], key, v, e); }
    }
  }

  /** After an assignment the key has the new value, every other key its old one, and no key has moved. */
  lemma PutIs(entries: seq<(string, Json)>, key: string, v: Json)
    ensures var r := Put(entries, key, v);
      && (forall e: (string, Json) :: e.0 != key ==> (e in r <==> e in entries))
      && (key, v) in r && |r| == (if HasKey(entries, key) then |entries| else |entries| + 1)
      && (forall i :: 0 <= i < |entries| ==> r[i].0 == entries[i].0)
      && (!HasKey(entries, key) ==> r[|entries|] == (key, v))
  {
    hide Put, HasKey;
    PutKeys(entries, key, v);
    PutValues(entries, key, v, (key, v));
    forall e: (string, Json) | e.0 != key ensures e in Put(entries, key, v) <==> e in entries {
      PutValues(entries, key, v, e);
    }
  }
}
