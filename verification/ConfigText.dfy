/** Saving and loading configuration values at the level of tokens: escaped text and sparse arrays. */
module ConfigText {
  import opened Options

  // ----- escaped text

  function EscapeChar(c: char): (s: string)
  {
    if c == '\\' then "\\\\" else if c == '\"' then "\\\"" else [c]
  }

  ghost function Escaped(s: string): (e: string)
  {
    if s == "" then "" else EscapeChar(s[0]) + Escaped(s[1..])
  }

  /** The character that a backslash and c stand for. */
  function UnescapeChar(c: char): (d: char)
  {
    match c
    case 'b' => '\U{0008}'
    case 'r' => '\r'
    case 'f' => '\U{000C}'
    case 't' => '\t'
    case 'n' => '\n'
    case _ => c
  }

  ghost function Unescaped(s: string, backslash: bool): (d: string)
  {
    if s == "" then ""
    else if backslash then [UnescapeChar(s[0])] + Unescaped(s[1..], false)
    else if s[0] == '\\' then Unescaped(s[1..], true)
    else [s[0]] + Unescaped(s[1..], false)
  }

  predicate Wrapped(s: string) { |s| >= 2 && s[0] == '\"' && s[|s| - 1] == '\"' }

  /** A token without its surrounding quotes, if it has them. */
  ghost function Body(s: string): (b: string) { if Wrapped(s) then s[1..|s| - 1] else s }

  /** What loading makes of a token. */
  ghost function Loaded(token: string): (d: string) { Unescaped(Body(token), false) }

  function Quoted(e: string): (s: string) { "\"" + e + "\"" }

  lemma {:induction false} EscapeRoundTrip(s: string)
    ensures Unescaped(Escaped(s), false) == s
    decreases |s|
  {
    if s != "" {
      EscapeRoundTrip(s[1..]);
      var e, rest := EscapeChar(s[0]), Escaped(s[1..]);
      assert (e + rest)[1..] == e[1..] + rest;
      if |e| == 2 {
        assert (e[1..] + rest)[1..] == rest;
      } else {
        assert e[1..] + rest == rest;
      }
    }
  }

  /** Every string comes back from its quoted and escaped form. */
  lemma QuotedRoundTrip(s: string)
    ensures Loaded(Quoted(Escaped(s))) == s
  {
    EscapeRoundTrip(s);
    assert Body(Quoted(Escaped(s))) == Escaped(s);
  }

  lemma {:induction false} UnescapedLength(s: string, backslash: bool)
    ensures |Unescaped(s, backslash)| <= |s|
    ensures !backslash && '\\' in s ==> |Unescaped(s, backslash)| < |s|
    decreases |s|
  {
    if s != "" {
      UnescapedLength(s[1..], false);
      UnescapedLength(s[1..], true);
    }
  }

  lemma {:induction false} PlainRoundTrip(s: string)
    requires '\\' !in s
    ensures Unescaped(s, false) == s
    decreases |s|
  {
    if s != "" { PlainRoundTrip(s[1..]); }
  }

  /** Text saved as it stands comes back exactly when it has no quotes around it and no backslash in it. */
  lemma RawRoundTrip(s: string)
    ensures Loaded(s) == s <==> !Wrapped(s) && '\\' !in s
  {
    UnescapedLength(Body(s), false);
    if !Wrapped(s) && '\\' !in s { PlainRoundTrip(s); }
  }

  // ----- texts that were not saved by the program

  /** A character as it may be written in quotes: itself, or by any of the escapes. */
  datatype Written = Itself(c: char) | Escape(letter: char)

  function WrittenText(w: Written): (t: string) { if w.Itself? then [w.c] else ['\\', w.letter] }

  /** Backspace, tab, line feed, form feed and return by their letters; any other character escapes itself. */
  function Meaning(w: Written): (c: char)
  {
    if w.Itself? then w.c
    else if w.letter == 'b' then 8 as char
    else if w.letter == 't' then 9 as char
    else if w.letter == 'n' then 10 as char
    else if w.letter == 'f' then 12 as char
    else if w.letter == 'r' then 13 as char
    else w.letter
  }

  function WrittenTexts(ws: seq<Written>): (t: string)
  {
    if ws == [] then "" else WrittenText(ws[0]) + WrittenTexts(ws[1..])
  }

  function Meanings(ws: seq<Written>): (s: string) { if ws == [] then "" else [Meaning(ws[0])] + Meanings(ws[1..]) }

  ghost predicate NoBareBackslash(ws: seq<Written>)
  {
    forall k :: 0 <= k < |ws| ==> !(ws[k].Itself? && ws[k].c == '\\')
  }

  lemma {:induction false} WrittenUnescaped(ws: seq<Written>)
    requires NoBareBackslash(ws)
    ensures Unescaped(WrittenTexts(ws), false) == Meanings(ws)
    decreases |ws|
  {
    if ws != [] {
      WrittenUnescaped(ws[1..]);
      var t, rest := WrittenText(ws[0]), WrittenTexts(ws[1..]);
      assert ws[0].Itself? ==> ws[0].c != '\\';
      assert (t + rest)[1..] == t[1..] + rest;
      if |t| == 2 {
        assert (t[1..] + rest)[1..] == rest;
      } else {
        assert t[1..] + rest == rest;
      }
    }
  }

  /** Quoted text loads as what it means, however its characters are written. */
  lemma WrittenLoads(ws: seq<Written>)
    requires NoBareBackslash(ws)
    ensures Loaded("\"" + WrittenTexts(ws) + "\"") == Meanings(ws)
  {
    hide WrittenTexts, Meanings, Unescaped;
    WrittenUnescaped(ws);
    var t := "\"" + WrittenTexts(ws) + "\"";
    assert t[1..|t| - 1] == WrittenTexts(ws);
  }

  ghost function Specials(s: string): (n: nat)
  {
    if s == "" then 0 else (if s[0] == '\\' || s[0] == '\"' then 1 else 0) + Specials(s[1..])
  }

  /** Saving adds one backslash for every backslash and double quote, and nothing else. */
  lemma {:induction false} EscapedLength(s: string)
    ensures |Escaped(s)| == |s| + Specials(s)
    decreases |s|
  {
    if s != "" { EscapedLength(s[1..]); }
  }

  lemma EscapedStep(s: string, i: nat)
    requires i < |s|
    ensures Escaped(s[i..]) == EscapeChar(s[i]) + Escaped(s[i + 1..])
  {
    assert s[i..][1..] == s[i + 1..];
  }

  method EscapeText(source: string) returns (dest: string)
    ensures dest == Escaped(source)
  {
    hide Escaped, EscapeChar;
    dest := "";
    assert source[0..] == source;
    for i := 0 to |source|
      invariant dest + Escaped(source[i..]) == Escaped(source)
    {
      EscapedStep(source, i);
      ghost var before := dest;
      dest := dest + EscapeChar(source[i]);
      assert dest + Escaped(source[i + 1..]) == before + (EscapeChar(source[i]) + Escaped(source[i + 1..]));
    }
    EscapedNothing(source);
  }

  lemma EscapedNothing(s: string)
    ensures Escaped(s[|s|..]) == ""
  {
  }

  lemma UnescapedStep(s: string, i: nat, end: nat, backslash: bool)
    requires i < end <= |s|
    ensures Unescaped(s[i..end], backslash) ==
            (if backslash then [UnescapeChar(s[i])] else if s[i] == '\\' then "" else [s[i]])
            + Unescaped(s[i + 1..end], !backslash && s[i] == '\\')
  {
    assert s[i..end][1..] == s[i + 1..end];
  }

  lemma UnescapedNothing(s: string, end: nat, backslash: bool)
    requires end <= |s|
    ensures Unescaped(s[end..end], backslash) == ""
  {
  }

  lemma LoadedBody(s: string)
    ensures Loaded(s) == Unescaped(Body(s), false)
  {
  }

  lemma BodyIs(s: string, start: nat, end: nat)
    requires if Wrapped(s) then start == 1 && end == |s| - 1 else start == 0 && end == |s|
    ensures s[start..end] == Body(s)
  {
  }

  method UnEscapeText(source: string) returns (dest: string)
    ensures dest == Loaded(source)
  {
    hide Unescaped, UnescapeChar, Body, Loaded;
    LoadedBody(source);
    dest := "";
    var backslash := false;
    var start, end := 0, |source|;
    if Wrapped(source) {
      start, end := start + 1, end - 1;
    }
    assert source[start..end] == Body(source) by { BodyIs(source, start, end); }
    for i := start to end
      invariant dest + Unescaped(source[i..end], backslash) == Loaded(source)
    {
      var c := source[i];
      UnescapedStep(source, i, end, backslash);
      ghost var before, rest := dest, Unescaped(source[i + 1..end], !backslash && c == '\\');
      if backslash {
        dest := dest + [UnescapeChar(c)];
        backslash := false;
        assert dest + rest == before + ([UnescapeChar(c)] + rest);
      } else if c == '\\' {
        backslash := true;
        assert "" + rest == rest;
      } else {
        dest := dest + [c];
        assert dest + rest == before + ([c] + rest);
      }
    }
    UnescapedNothing(source, end, backslash);
  }

  // ----- names of keys

  predicate NeedsQuotes(name: string) { ' ' in name || '\"' in name }

  method SaveName(name: string) returns (token: string)
    ensures token == if ' ' in name || '\"' in name then "\"" + Escaped(name) + "\"" else name
    ensures Loaded(token) == name <==> ' ' in name || '\"' in name || '\\' !in name
  {
    if NeedsQuotes(name) {
      var escaped := EscapeText(name);
      token := "\"" + escaped + "\"";
      assert token == Quoted(Escaped(name));
      QuotedRoundTrip(name);
    } else {
      token := name;
      RawRoundTrip(name);
    }
  }

  // ----- sparse arrays

  /** A value, and whether it reads as a number and is therefore saved as it stands. */
  datatype Key = Key(text: string, numeric: bool)

  datatype Token = Separator | Value(text: string)

  ghost function Saved(key: Key): (s: string) { if key.numeric then key.text else Quoted(Escaped(key.text)) }

  /** Numbers hold neither quotes nor backslashes. */
  ghost predicate KeyOk(key: Key) { key.numeric ==> !Wrapped(key.text) && '\\' !in key.text }

  lemma SavedRoundTrip(key: Key)
    ensures Loaded(Saved(key)) == key.text <==> KeyOk(key)
  {
    if key.numeric { RawRoundTrip(key.text); } else { QuotedRoundTrip(key.text); }
  }

  /** An array as it is written: the value, if any, and a comma for every index. */
  ghost function Tokens(keys: seq<Option<Key>>): (ts: seq<Token>)
  {
    if keys == [] then []
    else
      var last := keys[|keys| - 1];
      Tokens(keys[..|keys| - 1]) + (if last.Some? then [Value(Saved(last.value))] else []) + [Separator]
  }

  /** The values of an array by index; empty ones are not stored. */
  ghost function Entries(keys: seq<Option<Key>>): (m: map<nat, string>)
  {
    map i: nat | i < |keys| && keys[i].Some? && keys[i].value.text != "" :: keys[i].value.text
  }

  /** What has been stored after some tokens, and at which index. */
  ghost function Stored(ts: seq<Token>): (m: (nat, map<nat, string>))
  {
    if ts == [] then (0, map[])
    else
      var (index, m) := Stored(ts[..|ts| - 1]);
      match ts[|ts| - 1]
      case Separator => (index + 1, m)
      case Value(text) => (index, if Loaded(text) != "" then m[index := Loaded(text)] else m)
  }

  lemma StoredNext(ts: seq<Token>, t: Token)
    ensures Stored(ts + [t]) ==
      match t
      case Separator => (Stored(ts).0 + 1, Stored(ts).1)
      case Value(text) =>
        (Stored(ts).0, if Loaded(text) != "" then Stored(ts).1[Stored(ts).0 := Loaded(text)] else Stored(ts).1)
  {
    assert (ts + [t])[..|ts|] == ts;
  }

  /** A saved array loads as the same values at the same indices. */
  lemma {:induction false} ArrayRoundTrip(keys: seq<Option<Key>>)
    requires forall i :: 0 <= i < |keys| && keys[i].Some? ==> KeyOk(keys[i].value)
    ensures Stored(Tokens(keys)) == (|keys|, Entries(keys))
    decreases |keys|
  {
    hide Saved, Loaded;
    if keys == [] {
      assert Entries(keys) == map[];
    } else {
      var n := |keys| - 1;
      var before := Tokens(keys[..n]);
      ArrayRoundTrip(keys[..n]);
      if keys[n].Some? {
        SavedRoundTrip(keys[n].value);
        var value := Value(Saved(keys[n].value));
        StoredNext(before, value);
        StoredNext(before + [value], Separator);
        assert Tokens(keys) == before + [value] + [Separator];
      } else {
        StoredNext(before, Separator);
        assert Tokens(keys) == before + [] + [Separator] == before + [Separator];
      }
      assert Stored(Tokens(keys)).1 == Entries(keys);
    }
  }

  method SaveArray(keys: seq<Option<Key>>) returns (ts: seq<Token>)
    ensures ts == Tokens(keys)
  {
    ts := [];
    for index := 0 to |keys|
      invariant ts == Tokens(keys[..index])
    {
      assert keys[..index + 1][..index] == keys[..index];
      if keys[index].Some? {
        var key := keys[index].value;
        if key.numeric {
          ts := ts + [Value(key.text)];
        } else {
          var escaped := EscapeText(key.text);
          ts := ts + [Value("\"" + escaped + "\"")];
        }
      }
      ts := ts + [Separator];
    }
    assert keys[..|keys|] == keys;
  }

  method LoadArray(ts: seq<Token>) returns (entries: map<nat, string>)
    ensures entries == Stored(ts).1
  {
    entries := map[];
    var index := 0;
    for i := 0 to |ts|
      invariant (index, entries) == Stored(ts[..i])
    {
      assert ts[..i + 1] == ts[..i] + [ts[i]];
      StoredNext(ts[..i], ts[i]);
      match ts[i] {
        case Separator => index := index + 1;
        case Value(text) =>
          var value := UnEscapeText(text);
          if value != "" { entries := entries[index := value]; }
      }
    }
    assert ts[..|ts|] == ts;
  }

  /** Save, then load. */
  method SaveThenLoad(keys: seq<Option<Key>>) returns (entries: map<nat, string>)
    requires forall i :: 0 <= i < |keys| && keys[i].Some? ==> KeyOk(keys[i].value)
    ensures entries == Entries(keys)
  {
    var ts := SaveArray(keys);
    entries := LoadArray(ts);
    ArrayRoundTrip(keys);
  }
}
