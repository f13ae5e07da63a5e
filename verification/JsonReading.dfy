/** What the JSON reader makes of a text, from any position of it on. */
module JsonReading {
  import opened Json

  datatype Error =
    | NothingToRead | NotJson | BadLiteral | BadNumber | BadString | BadEscape | BadHexDigit | BadComment
    | BadArray | BadObject | BadKey
    | OutOfText      // the generator ran dry (StopIteration)
    | NotAscii       // a \u escape outside ASCII cannot be put in the byte buffer
    | FloatNumber    // a number with a fraction or an exponent; its value is not modelled

  datatype Read<+T> = Ok(value: T, pos: nat) | Err(error: Error)

  predicate IsSpace(c: char) { c == ' ' || c == '\t' || c == '\n' || c == '\r' || c == VERTICAL_TAB || c == FORM_FEED }

  /** After `//`: up to and including the end of the line, or to the end of the text. */
  function SkipLine(s: string, i: nat): (j: nat)
    requires i <= |s|
    ensures i <= j <= |s|
    decreases |s| - i
  {
    if i == |s| then i
    else if s[i] == '\r' || s[i] == '\n' then i + 1
    else SkipLine(s, i + 1)
  }

  /** After an opening slash-star: past the closing star-slash; a nested opening is refused. */
  function SkipBlock(s: string, i: nat): (r: Read<()>)
    requires i <= |s|
    ensures r.Ok? ==> i < r.pos <= |s|
    decreases |s| - i
  {
    if i == |s| then Err(BadComment)
    else if s[i] == '*' && i + 1 < |s| && s[i + 1] == '/' then Ok((), i + 2)
    else if s[i] == '/' && i + 1 < |s| && s[i + 1] == '*' then Err(BadComment)
    else SkipBlock(s, i + 1)
  }

  function SkipComment(s: string, i: nat): (r: Read<()>)
    requires i < |s| && s[i] == '/'
    ensures r.Ok? ==> i < r.pos <= |s|
  {
    if i + 1 == |s| then Err(OutOfText)
    else if s[i + 1] == '/' then Ok((), SkipLine(s, i + 2))
    else if s[i + 1] == '*' then SkipBlock(s, i + 2)
    else Err(BadComment)
  }

  function SkipSpace(s: string, i: nat): (r: Read<()>)
    requires i <= |s|
    ensures r.Ok? ==> i <= r.pos <= |s|
    decreases |s| - i
  {
    if i < |s| && s[i] == '/' then
      var c := SkipComment(s, i);
      if c.Err? then c else SkipSpace(s, c.pos)
    else if i < |s| && IsSpace(s[i]) then SkipSpace(s, i + 1)
    else Ok((), i)
  }

  function ReadLiteral(s: string, i: nat, word: string, v: Json): (r: Read<Json>)
    requires i <= |s|
    ensures r.Ok? ==> r.pos == i + |word| <= |s|
    decreases |word|
  {
    if word == "" then Ok(v, i)
    else if i == |s| then Err(OutOfText)
    else if s[i] != word[0] then Err(BadLiteral)
    else ReadLiteral(s, i + 1, word[1..], v)
  }

  /** The end of the run of digits from i on. */
  function DigitsEnd(s: string, i: nat): (j: nat)
    requires i <= |s|
    ensures i <= j <= |s|
    ensures forall k :: i <= k < j ==> IsDigit(s[k])
    ensures j < |s| ==> !IsDigit(s[j])
    decreases |s| - i
  {
    if i < |s| && IsDigit(s[i]) then DigitsEnd(s, i + 1) else i
  }

  /** The value of a string of decimal digits. */
  function DigitsValue(t: string): (n: nat)
    requires forall k :: 0 <= k < |t| ==> IsDigit(t[k])
  {
    if |t| == 0 then 0 else
    assert IsDigit(t[|t| - 1]);
    10 * DigitsValue(t[..|t| - 1]) + (t[|t| - 1] as int - '0' as int)
  }

  /** A character that the number loop would take after a run of digits. */
  predicate ExtendsNumber(c: char) { IsDigit(c) || c == '.' || c == 'e' }

  function ReadNumber(s: string, i: nat): (r: Read<Json>)
    requires i < |s| && (s[i] == '-' || IsDigit(s[i]))
    ensures r.Ok? ==> i < r.pos <= |s|
  {
    var j := DigitsEnd(s, i + 1);
    if j < |s| && ExtendsNumber(s[j]) then Err(FloatNumber)
    else if s[i] != '-' then Ok(Int(DigitsValue(s[i..j])), j)
    else if j == i + 1 then Err(BadNumber)
    else
      var n: int := DigitsValue(s[i + 1..j]);
      Ok(Int(-n), j)
  }

  function HexValue(c: char): (n: int)
    ensures -1 <= n <= 15
  {
    if IsDigit(c) then c as int - '0' as int
    else if 'A' <= c <= 'F' then c as int - 'A' as int + 10
    else if 'a' <= c <= 'f' then c as int - 'a' as int + 10
    else -1
  }

  /** The four characters after \u. */
  function ReadHex(s: string, i: nat): (r: Read<char>)
    requires i <= |s|
    ensures r.Ok? ==> r.pos == i + 4 <= |s|
  {
    if |s| < i + 4 then Err(BadString) else
    var a, b, c, d := HexValue(s[i]), HexValue(s[i + 1]), HexValue(s[i + 2]), HexValue(s[i + 3]);
    if a < 0 || b < 0 || c < 0 || d < 0 then Err(BadHexDigit) else
    var n := 4096 * a + 256 * b + 16 * c + d;
    if n >= 128 then Err(NotAscii) else Ok(n as char, i + 4)
  }

  /** The character after a backslash. */
  function ReadEscape(s: string, i: nat): (r: Read<char>)
    requires i <= |s|
    ensures r.Ok? ==> i < r.pos <= |s|
  {
    if i == |s| then Err(BadString)
    else if s[i] == 'b' then Ok(BACKSPACE, i + 1)
    else if s[i] == 'r' then Ok('\r', i + 1)
    else if s[i] == 'n' then Ok('\n', i + 1)
    else if s[i] == 'f' then Ok(FORM_FEED, i + 1)
    else if s[i] == 't' then Ok('\t', i + 1)
    else if s[i] == 'u' then ReadHex(s, i + 1)
    else if s[i] == '"' || s[i] == '/' || s[i] == '\\' then Ok(s[i], i + 1)
    else Err(BadEscape)
  }

  function ReadChars(s: string, i: nat, acc: string): (r: Read<string>)
    requires i <= |s|
    ensures r.Ok? ==> i < r.pos <= |s|
    decreases |s| - i
  {
    if i == |s| then Err(BadString)
    else if s[i] == '"' then Ok(acc, i + 1)
    else if s[i] == '\\' then
      var e := ReadEscape(s, i + 1);
      if e.Err? then Err(e.error) else ReadChars(s, e.pos, acc + [e.value])
    else ReadChars(s, i + 1, acc + [s[i]])
  }

  /** Dictionary assignment: a new key goes to the end, an old key keeps its place. */
  function Put(entries: seq<(string, Json)>, key: string, v: Json): (r: seq<(string, Json)>)
    decreases |entries|
  {
    if |entries| == 0 then [(key, v)]
    else if entries[0].0 == key then [(key, v)] + entries[1..]
    else [entries[0]] + Put(entries[1..], key, v)
  }

  function ReadValue(s: string, i: nat): (r: Read<Json>)
    requires i <= |s|
    ensures r.Ok? ==> i < r.pos <= |s|
    decreases |s| - i, 2
  {
    var sp := SkipSpace(s, i);
    if sp.Err? then Err(sp.error) else
    var j := sp.pos;
    if j == |s| then Err(NothingToRead)
    else if s[j] == '{' then
      if j + 1 < |s| && s[j + 1] == '}' then Ok(Dict([]), j + 2) else ReadMembers(s, j + 1, [])
    else if s[j] == '[' then
      if j + 1 < |s| && s[j + 1] == ']' then Ok(List([]), j + 2) else ReadItems(s, j + 1, [])
    else if s[j] == '"' then
      var str := ReadChars(s, j + 1, "");
      if str.Err? then Err(str.error) else Ok(Str(str.value), str.pos)
    else if s[j] == '-' || IsDigit(s[j]) then ReadNumber(s, j)
    else if s[j] == 't' then ReadLiteral(s, j, "true", Bool(true))
    else if s[j] == 'f' then ReadLiteral(s, j, "false", Bool(false))
    else if s[j] == 'n' then ReadLiteral(s, j, "null", Null)
    else Err(NotJson)
  }

  /** After an item or a member: the closing bracket, a comma, or an error. */
  datatype Next = Closed(pos: nat) | More(pos: nat) | Broken(error: Error)

  function ReadSeparator(s: string, i: nat, close: char, otherwise: Error): (n: Next)
    requires i <= |s|
    ensures n.Closed? || n.More? ==> i < n.pos <= |s|
  {
    var sp := SkipSpace(s, i);
    if sp.Err? then Broken(sp.error)
    else if sp.pos == |s| then Broken(OutOfText)
    else if s[sp.pos] == close then Closed(sp.pos + 1)
    else if s[sp.pos] == ',' then More(sp.pos + 1)
    else Broken(otherwise)
  }

  function ReadItems(s: string, i: nat, acc: seq<Json>): (r: Read<Json>)
    requires i <= |s|
    ensures r.Ok? ==> i < r.pos <= |s|
    decreases |s| - i, 3
  {
    var item := ReadValue(s, i);
    if item.Err? then item else
    match ReadSeparator(s, item.pos, ']', BadArray)
    case Closed(pos) => Ok(List(acc + [item.value]), pos)
    case More(pos) => ReadItems(s, pos, acc + [item.value])
    case Broken(error) => Err(error)
  }

  /** A key, a colon and a value. */
  function ReadMember(s: string, i: nat): (r: Read<(string, Json)>)
    requires i <= |s|
    ensures r.Ok? ==> i < r.pos <= |s|
    decreases |s| - i, 3
  {
    var key := ReadValue(s, i);
    if key.Err? then Err(key.error)
    else if !key.value.Str? then Err(BadKey) else
    var sp := SkipSpace(s, key.pos);
    if sp.Err? then Err(sp.error)
    else if sp.pos == |s| then Err(OutOfText)
    else if s[sp.pos] != ':' then Err(BadObject) else
    var sp' := SkipSpace(s, sp.pos + 1);
    if sp'.Err? then Err(sp'.error) else
    var val := ReadValue(s, sp'.pos);
    if val.Err? then Err(val.error) else Ok((key.value.s, val.value), val.pos)
  }

  function ReadMembers(s: string, i: nat, acc: seq<(string, Json)>): (r: Read<Json>)
    requires i <= |s|
    ensures r.Ok? ==> i < r.pos <= |s|
    decreases |s| - i, 4
  {
    var m := ReadMember(s, i);
    if m.Err? then Err(m.error) else
    var acc' := Put(acc, m.value.0, m.value.1);
    match ReadSeparator(s, m.pos, '}', BadObject)
    case Closed(pos) => Ok(Dict(acc'), pos)
    case More(pos) => ReadMembers(s, pos, acc')
    case Broken(error) => Err(error)
  }
}
