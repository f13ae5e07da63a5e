/** The reader and writer objects: a position that advances through a text, and a buffer that grows. */
module JsonObjects {
  import opened Json
  import opened JsonReading
  import opened JsonRoundTrip

  datatype Outcome<+T> = Value(value: T) | Failed(error: Error)

  class Reader {
    const text: string
    var pos: nat

    constructor (text: string)
      ensures this.text == text && pos == 0
    {
      this.text := text;
      pos := 0;
    }

    /** The result of a read from position i: the value and the new position, or the error. */
    ghost predicate Did<T>(r: Outcome<T>, spec: Read<T>)
      reads this
    {
      match spec
      case Ok(value, p) => r == Value(value) && pos == p
      case Err(error) => r == Failed(error)
    }

    method SkipLineComment()
      requires pos <= |text|
      modifies this`pos
      ensures pos == SkipLine(text, old(pos))
    {
      while pos < |text| && text[pos] != '\r' && text[pos] != '\n'
        invariant pos <= |text| && SkipLine(text, pos) == SkipLine(text, old(pos))
      {
        pos := pos + 1;
      }
      if pos < |text| {
        pos := pos + 1;
      }
    }

    method SkipBlockComment() returns (r: Outcome<()>)
      requires pos <= |text|
      modifies this`pos
      ensures Did(r, SkipBlock(text, old(pos)))
    {
      while pos < |text|
        invariant pos <= |text| && SkipBlock(text, pos) == SkipBlock(text, old(pos))
        decreases |text| - pos
      {
        var ch := text[pos];
        if ch == '*' && pos + 1 < |text| && text[pos + 1] == '/' {
          pos := pos + 2;
          return Value(());
        }
        if ch == '/' && pos + 1 < |text| && text[pos + 1] == '*' {
          return Failed(BadComment);
        }
        pos := pos + 1;
      }
      return Failed(BadComment);
    }

    method EatWhitespace() returns (r: Outcome<()>)
      requires pos <= |text|
      modifies this`pos
      ensures Did(r, SkipSpace(text, old(pos)))
    {
      while pos < |text| && (IsSpace(text[pos]) || text[pos] == '/')
        invariant pos <= |text| && SkipSpace(text, pos) == SkipSpace(text, old(pos))
        decreases |text| - pos
      {
        if text[pos] == '/' {
          if pos + 1 == |text| {
            return Failed(OutOfText);
          } else if text[pos + 1] == '/' {
            pos := pos + 2;
            SkipLineComment();
          } else if text[pos + 1] == '*' {
            pos := pos + 2;
            var c := SkipBlockComment();
            if c.Failed? {
              return c;
            }
          } else {
            return Failed(BadComment);
          }
        } else {
          pos := pos + 1;
        }
      }
      return Value(());
    }

    method ReadWord(word: string, v: Json) returns (r: Outcome<Json>)
      requires pos <= |text|
      modifies this`pos
      ensures Did(r, ReadLiteral(text, old(pos), word, v))
    {
      assert word[0..] == word;
      for i := 0 to |word|
        invariant pos <= |text| && ReadLiteral(text, pos, word[i..], v) == ReadLiteral(text, old(pos), word, v)
      {
        if pos == |text| {
          return Failed(OutOfText);
        }
        if text[pos] != word[i] {
          return Failed(BadLiteral);
        }
        assert word[i..][1..] == word[i + 1..];
        pos := pos + 1;
      }
      return Value(v);
    }

    method ReadInt() returns (r: Outcome<Json>)
      requires pos < |text| && (text[pos] == '-' || IsDigit(text[pos]))
      modifies this`pos
      ensures Did(r, ReadNumber(text, old(pos)))
    {
      var start := pos;
      pos := pos + 1;
      while pos < |text| && ExtendsNumber(text[pos])
        invariant start < pos <= |text| && DigitsEnd(text, pos) == DigitsEnd(text, start + 1)
        decreases |text| - pos
      {
        if !IsDigit(text[pos]) {
          return Failed(FloatNumber);
        }
        pos := pos + 1;
      }
      if text[start] != '-' {
        return Value(Int(DigitsValue(text[start..pos])));
      }
      if pos == start + 1 {
        return Failed(BadNumber);
      }
      var n: int := DigitsValue(text[start + 1..pos]);
      return Value(Int(-n));
    }

    method ReadText() returns (r: Outcome<string>)
      requires pos <= |text|
      modifies this`pos
      ensures Did(r, ReadChars(text, old(pos), ""))
    {
      var result := "";
      while pos < |text| && text[pos] != '"'
        invariant pos <= |text| && ReadChars(text, pos, result) == ReadChars(text, old(pos), "")
        decreases |text| - pos
      {
        if text[pos] == '\\' {
          var e := ReadEscape(text, pos + 1);
          if e.Err? {
            return Failed(e.error);
          }
          result, pos := result + [e.value], e.pos;
        } else {
          result, pos := result + [text[pos]], pos + 1;
        }
      }
      if pos == |text| {
        return Failed(BadString);
      }
      pos := pos + 1;
      return Value(result);
    }

    method Read() returns (r: Outcome<Json>)
      requires pos <= |text|
      modifies this`pos
      ensures Did(r, ReadValue(text, old(pos)))
      decreases |text| - pos, 2
    {
      hide SkipSpace, ReadItems, ReadMembers, ReadChars, ReadNumber, ReadLiteral;
      var sp := EatWhitespace();
      if sp.Failed? {
        return Failed(sp.error);
      }
      if pos == |text| {
        return Failed(NothingToRead);
      }
      var peek := text[pos];
      if peek == '{' {
        r := ReadDict();
      } else if peek == '[' {
        r := ReadList();
      } else if peek == '"' {
        pos := pos + 1;
        var str := ReadText();
        r := if str.Failed? then Failed(str.error) else Value(Str(str.value));
      } else if peek == '-' || IsDigit(peek) {
        r := ReadInt();
      } else if peek == 't' {
        r := ReadWord("true", Bool(true));
      } else if peek == 'f' {
        r := ReadWord("false", Bool(false));
      } else if peek == 'n' {
        r := ReadWord("null", Null);
      } else {
        r := Failed(NotJson);
      }
    }

    method ReadList() returns (r: Outcome<Json>)
      requires pos < |text| && text[pos] == '['
      modifies this`pos
      ensures Did(r, if old(pos) + 1 < |text| && text[old(pos) + 1] == ']' then Ok(List([]), old(pos) + 2)
                     else ReadItems(text, old(pos) + 1, []))
      decreases |text| - pos, 1
    {
      hide ReadValue, ReadSeparator;
      var result: seq<Json> := [];
      var start := pos + 1;
      pos := start;
      if pos < |text| && text[pos] == ']' {
        pos := pos + 1;
        return Value(List([]));
      }
      while true
        invariant start <= pos <= |text| && ReadItems(text, pos, result) == ReadItems(text, start, [])
        decreases |text| - pos
      {
        var item := Read();
        if item.Failed? {
          return item;
        }
        var next := AfterEntry(']', BadArray);
        match next
        case Closed(p) =>
          pos := p;
          return Value(List(result + [item.value]));
        case More(p) => result, pos := result + [item.value], p;
        case Broken(error) => return Failed(error);
      }
    }

    /** White space, then a closing bracket, a comma, or an error. */
    method AfterEntry(close: char, otherwise: Error) returns (n: Next)
      requires pos <= |text|
      modifies this`pos
      ensures n == ReadSeparator(text, old(pos), close, otherwise)
    {
      hide SkipSpace;
      var sp := EatWhitespace();
      if sp.Failed? {
        return Broken(sp.error);
      }
      if pos == |text| {
        return Broken(OutOfText);
      }
      if text[pos] == close {
        return Closed(pos + 1);
      }
      return if text[pos] == ',' then More(pos + 1) else Broken(otherwise);
    }

    method ReadEntry() returns (r: Outcome<(string, Json)>)
      requires pos <= |text|
      modifies this`pos
      ensures Did(r, ReadMember(text, old(pos)))
      decreases |text| - pos, 3
    {
      hide ReadValue, SkipSpace;
      var key := Read();
      if key.Failed? {
        return Failed(key.error);
      }
      if !key.value.Str? {
        return Failed(BadKey);
      }
      var sp := EatWhitespace();
      if sp.Failed? {
        return Failed(sp.error);
      }
      if pos == |text| {
        return Failed(OutOfText);
      }
      if text[pos] != ':' {
        return Failed(BadObject);
      }
      pos := pos + 1;
      sp := EatWhitespace();
      if sp.Failed? {
        return Failed(sp.error);
      }
      var val := Read();
      return if val.Failed? then Failed(val.error) else Value((key.value.s, val.value));
    }

    method ReadDict() returns (r: Outcome<Json>)
      requires pos < |text| && text[pos] == '{'
      modifies this`pos
      ensures Did(r, if old(pos) + 1 < |text| && text[old(pos) + 1] == '}' then Ok(Dict([]), old(pos) + 2)
                     else ReadMembers(text, old(pos) + 1, []))
      decreases |text| - pos, 1
    {
      hide ReadMember, ReadSeparator, Put;
      var result: seq<(string, Json)> := [];
      var start := pos + 1;
      pos := start;
      if pos < |text| && text[pos] == '}' {
        pos := pos + 1;
        return Value(Dict([]));
      }
      while true
        invariant start <= pos <= |text| && ReadMembers(text, pos, result) == ReadMembers(text, start, [])
        decreases |text| - pos
      {
        var m := ReadEntry();
        if m.Failed? {
          return Failed(m.error);
        }
        result := Put(result, m.value.0, m.value.1);
        var next := AfterEntry('}', BadObject);
        match next
        case Closed(p) =>
          pos := p;
          return Value(Dict(result));
        case More(p) => pos := p;
        case Broken(error) => return Failed(error);
      }
    }
  }

  class Writer {
    const slash: bool
    var results: string

    constructor (slash: bool)
      ensures this.slash == slash && results == ""
    {
      this.slash := slash;
      results := "";
    }

    method Append(s: string)
      modifies this`results
      ensures results == old(results) + s
    {
      results := results + s;
    }

    method WriteString(s: string)
      modifies this`results
      ensures results == old(results) + StringText(s, slash)
    {
      hide EscapeChain;
      Append("\"");
      Append(EscapeChain(s, slash));
      Append("\"");
      assert old(results) + "\"" + EscapeChain(s, slash) + "\"" == old(results) + StringText(s, slash);
    }

    method Write(v: Json)
      modifies this`results
      ensures results == old(results) + Text(v, slash)
      decreases v, 1
    {
      hide StringText, IntText, ItemsText, EntriesText;
      match v
      case Null => Append("null");
      case Bool(b) => Append(if b then "true" else "false");
      case Int(n) => Append(IntText(n));
      case Str(s) => WriteString(s);
      case List(items) =>
        Append("[");
        WriteItems(items);
        Append("]");
      case Dict(entries) =>
        Append("{");
        WriteEntries(entries);
        Append("}");
    }

    method WriteItems(items: seq<Json>)
      modifies this`results
      ensures results == old(results) + ItemsText(items, slash)
      decreases items, 2
    {
      hide Text;
      var n := |items|;
      assert items[0..] == items;
      for i := 0 to |items|
        invariant n == |items| - i && results + ItemsText(items[i..], slash) == old(results) + ItemsText(items, slash)
      {
        ItemsStep(items[i..], slash, results);
        assert items[i..][0] == items[i] && items[i..][1..] == items[i + 1..];
        Write(items[i]);
        n := n - 1;
        if n > 0 {
          Append(",");
        }
      }
    }

    method WriteEntries(entries: seq<(string, Json)>)
      modifies this`results
      ensures results == old(results) + EntriesText(entries, slash)
      decreases entries, 2
    {
      hide Text, StringText;
      var n := |entries|;
      assert entries[0..] == entries;
      for i := 0 to |entries|
        invariant n == |entries| - i && results + EntriesText(entries[i..], slash)
                  == old(results) + EntriesText(entries, slash)
      {
        EntriesStep(entries[i..], slash, results);
        assert entries[i..][0] == entries[i] && entries[i..][1..] == entries[i + 1..];
        WriteEntry(entries[i]);
        n := n - 1;
        if n > 0 {
          Append(",");
        }
      }
    }

    method WriteEntry(entry: (string, Json))
      modifies this`results
      ensures results == old(results) + EntryText(entry, slash)
      decreases entry, 1
    {
      WriteString(entry.0);
      Append(":");
      Write(entry.1);
    }
  }

  lemma ItemsStep(items: seq<Json>, slash: bool, out: string)
    requires |items| > 0
    ensures out + ItemsText(items, slash)
            == (if |items| == 1 then out + Text(items[0], slash) else out + Text(items[0], slash) + ",")
               + ItemsText(items[1..], slash)
  {
    hide Text;
    var t := Text(items[0], slash);
    if |items| > 1 {
      assert out + (t + "," + ItemsText(items[1..], slash)) == out + t + "," + ItemsText(items[1..], slash);
    }
  }

  lemma EntriesStep(entries: seq<(string, Json)>, slash: bool, out: string)
    requires |entries| > 0
    ensures out + EntriesText(entries, slash)
            == (if |entries| == 1 then out + EntryText(entries[0], slash) else out + EntryText(entries[0], slash) + ",")
               + EntriesText(entries[1..], slash)
  {
    hide EntryText;
    var t := EntryText(entries[0], slash);
    if |entries| > 1 {
      assert out + (t + "," + EntriesText(entries[1..], slash)) == out + t + "," + EntriesText(entries[1..], slash);
    }
  }

  /** Writing a value and reading the text back, by the two objects. */
  method WriteThenRead(v: Json, slash: bool) returns (r: Outcome<Json>)
    requires Proper(v)
    ensures r == Value(v)
  {
    var writer := new Writer(slash);
    writer.Write(v);
    assert writer.results == Text(v, slash);
    var reader := new Reader(writer.results);
    RoundTrip(v, slash, "");
    assert Text(v, slash) + "" == Text(v, slash);
    r := reader.Read();
  }
}
