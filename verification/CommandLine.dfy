/** Splitting a command line into words, in place in one block of pointer slots and text. */
module CommandLine {
  import opened Options

  const NUL := 0 as char

  predicate IsQuote(c: char) { c == '\"' || c == '\'' }

  predicate IsBlank(c: char) { c == ' ' || c == '\t' || c == '\n' || c == '\r' }

  ghost function Opened(word: Option<string>): (w: string) { if word.Some? then word.value else "" }

  ghost function Closed(word: Option<string>): (ws: seq<string>) { if word.Some? then [word.value] else [] }

  /**
   The words of the rest of a line, given the word that is open, if any, and whether a quote is.
   Either quote closes either; a quote opens a word even if nothing comes between it and its end.
   */
  ghost function WordsFrom(s: string, word: Option<string>, quoted: bool): (ws: seq<string>)
  {
    if s == "" then Closed(word)
    else if quoted then
      if IsQuote(s[0]) then WordsFrom(s[1..], word, false) else WordsFrom(s[1..], Some(Opened(word) + [s[0]]), true)
    else if IsQuote(s[0]) then WordsFrom(s[1..], Some(Opened(word)), true)
    else if IsBlank(s[0]) then Closed(word) + WordsFrom(s[1..], None, false)
    else WordsFrom(s[1..], Some(Opened(word) + [s[0]]), false)
  }

  ghost function Words(line: string): (ws: seq<string>) { WordsFrom(line, None, false) }

  /** Words one after the other, each ended by a NUL. */
  ghost function Laid(ws: seq<string>): (t: string)
  {
    if ws == [] then "" else Laid(ws[..|ws| - 1]) + ws[|ws| - 1] + [NUL]
  }

  /** Where the k-th word starts. */
  ghost function Start(ws: seq<string>, k: nat): (n: nat)
    requires k <= |ws|
  {
    |Laid(ws[..k])|
  }

  lemma LaidNext(ws: seq<string>, w: string)
    ensures Laid(ws + [w]) == Laid(ws) + w + [NUL]
  {
    assert (ws + [w])[..|ws|] == ws;
  }

  lemma StartKept(ws: seq<string>, w: string)
    ensures forall k :: 0 <= k <= |ws| ==> Start(ws + [w], k) == Start(ws, k)
  {
    forall k | 0 <= k <= |ws| ensures Start(ws + [w], k) == Start(ws, k) {
      assert (ws + [w])[..k] == ws[..k];
    }
  }

  ghost predicate NoNul(s: string) { forall i :: 0 <= i < |s| ==> s[i] != NUL }

  // ----- the program

  /** What the loop keeps: closed words and the open one are laid out, and every word has its slot. */
  ghost predicate Scanning(line: string, i: nat, ws: seq<string>, word: Option<string>, quoted: bool)
  {
    && i <= |line| && (quoted ==> word.Some?)
    && Words(line) == ws + WordsFrom(line[i..], word, quoted)
    && 2 * |ws| + (if word.Some? then 1 else 0) <= i
  }

  lemma ScanNext(line: string, i: nat, ws: seq<string>, word: Option<string>, quoted: bool)
    requires Scanning(line, i, ws, word, quoted) && i < |line|
    ensures quoted && IsQuote(line[i]) ==> Scanning(line, i + 1, ws, word, false)
    ensures quoted && !IsQuote(line[i]) ==> Scanning(line, i + 1, ws, Some(Opened(word) + [line[i]]), true)
    ensures !quoted && IsQuote(line[i]) ==> Scanning(line, i + 1, ws, Some(Opened(word)), true)
    ensures !quoted && IsBlank(line[i]) ==> Scanning(line, i + 1, ws + Closed(word), None, false)
    ensures !quoted && !IsQuote(line[i]) && !IsBlank(line[i])
            ==> Scanning(line, i + 1, ws, Some(Opened(word) + [line[i]]), false)
    ensures 2 * |ws| < i + 2 && (quoted ==> word.Some?)
  {
    assert line[i..][1..] == line[i + 1..];
    assert ws + (Closed(word) + WordsFrom(line[i + 1..], None, false))
        == ws + Closed(word) + WordsFrom(line[i + 1..], None, false);
  }

  const NULL := -1

  /** The slots point at the words, in order. */
  ghost predicate Slots(slots: seq<int>, ws: seq<string>, word: Option<string>)
  {
    && |ws| + |Closed(word)| <= |slots|
    && (forall k :: 0 <= k < |ws| ==> slots[k] == Start(ws, k))
    && (word.Some? ==> slots[|ws|] == |Laid(ws)|)
  }

  lemma SlotsClosed(slots: seq<int>, ws: seq<string>, word: Option<string>)
    requires Slots(slots, ws, word)
    ensures Slots(slots, ws + Closed(word), None)
    ensures word.Some? ==> Laid(ws + Closed(word)) == Laid(ws) + word.value + [NUL]
    ensures word.None? ==> ws + Closed(word) == ws
  {
    if word.Some? {
      LaidNext(ws, word.value);
      StartKept(ws, word.value);
      assert ws[..|ws|] == ws;
    } else {
      assert ws + [] == ws;
    }
  }

  method Put(text: array<char>, j: nat, c: char)
    requires j < text.Length
    modifies text
    ensures text[..j + 1] == old(text[..j]) + [c]
  {
    text[j] := c;
    assert text[..j + 1] == text[..j] + [c];
  }

  /** A word starts here, unless one is open already. */
  method Open(argv: array<int>, argc: nat, j: nat, inSpace: bool, ghost ws: seq<string>, ghost word: Option<string>,
              ghost w: string)
    returns (next: nat)
    requires Slots(argv[..], ws, word) && argc == |ws| + |Closed(word)| && inSpace == word.None? && |ws| < argv.Length
    requires inSpace ==> j == |Laid(ws)|
    modifies argv
    ensures Slots(argv[..], ws, Some(w)) && next == |ws| + 1
  {
    next := argc;
    if inSpace {
      argv[argc] := j;
      next := argc + 1;
    }
  }

  /** The loop over the characters: the words so far, closed or still open. */
  lemma ClosedSizes(word: Option<string>, a: char)
    ensures |Closed(word)| == (if word.Some? then 1 else 0) && |Closed(None)| == 0
    ensures |Closed(Some(Opened(word)))| == 1 && |Closed(Some(Opened(word) + [a]))| == 1
  {
  }

  method Scan(line: string, argv: array<int>, text: array<char>)
    returns (argc: nat, j: nat, ghost ws: seq<string>, ghost word: Option<string>)
    requires argv.Length == (|line| + 2) / 2 + 1 && text.Length == |line| + 2
    modifies argv, text
    ensures j <= |line| && argc == |ws| + |Closed(word)| && Words(line) == ws + Closed(word)
            && 2 * |Words(line)| <= |line| + 1
    ensures Slots(argv[..], ws, word) && text[..j] == Laid(ws) + Opened(word)
  {
    hide Words, WordsFrom, Laid, Start, Opened, Slots, Scanning, IsQuote, IsBlank, Closed;
    var inQuote, inText, inSpace := false, false, true;
    var i := 0;
    argc, j, ws, word := 0, 0, [], None;
    argv[argc] := 0;
    ScanStart(line, argv[..]);
    ClosedSizes(word, NUL);
    while i < |line|
      invariant i <= |line| && Scanning(line, i, ws, word, inQuote) && Slots(argv[..], ws, word)
      invariant inText == word.Some? && inSpace == word.None? && argc == |ws| + |Closed(word)|
      invariant j <= i && text[..j] == Laid(ws) + Opened(word)
      decreases |line| - i
    {
      var a := line[i];
      ScanNext(line, i, ws, word, inQuote);
      SlotsClosed(argv[..], ws, word);
      OpenedNext(word, a);
      ClosedSizes(word, a);
      if inQuote {
        if IsQuote(a) {
          inQuote := false;
        } else {
          Put(text, j, a);
          j := j + 1;
          SlotsStay(argv[..], ws, word, Opened(word) + [a]);
          word := Some(Opened(word) + [a]);
        }
      } else if IsQuote(a) {
        inQuote := true;
        inText := true;
        argc := Open(argv, argc, j, inSpace, ws, word, Opened(word));
        inSpace := false;
        word := Some(Opened(word));
      } else if IsBlank(a) {
        if inText {
          Put(text, j, NUL);
          j := j + 1;
        }
        inText := false;
        inSpace := true;
        ws, word := ws + Closed(word), None;
      } else {
        inText := true;
        argc := Open(argv, argc, j, inSpace, ws, word, Opened(word) + [a]);
        Put(text, j, a);
        j := j + 1;
        inSpace := false;
        word := Some(Opened(word) + [a]);
      }
      i := i + 1;
    }
    ScanEnd(line, ws, word, inQuote);
  }

  /**
   One pass over the line. The slots hold the words in order and then a null pointer, the words lie
   one after the other with a NUL behind each, and both fit in what was allocated.
   */
  method CommandLineToArgv(line: string) returns (argv: array<int>, text: array<char>, argc: nat)
    requires NoNul(line)
    ensures fresh(argv) && fresh(text)
    ensures argv.Length == (|line| + 2) / 2 + 1 && text.Length == |line| + 2
    ensures argc == |Words(line)| && argc < argv.Length && argv[argc] == NULL
    ensures forall k :: 0 <= k < argc ==> argv[k] == Start(Words(line), k)
    ensures |Laid(Words(line))| <= |line| + 1 && text[..|Laid(Words(line))|] == Laid(Words(line))
  {
    hide Words, Laid, Start, Opened, Slots;
    argv := new int[(|line| + 2) / 2 + 1];
    text := new char[|line| + 2];
    var j;
    ghost var ws, word;
    argc, j, ws, word := Scan(line, argv, text);
    SlotsClosed(argv[..], ws, word);
    OpenedNext(word, NUL);
    Put(text, j, NUL);
    ghost var full := text[..j + 1];
    assert full[..j] == text[..j];
    assert Laid(Words(line)) == full[..|Laid(Words(line))|];
    SlotsRead(argv[..], Words(line));
    argv[argc] := NULL;
  }

  lemma SlotsStay(slots: seq<int>, ws: seq<string>, word: Option<string>, w: string)
    requires Slots(slots, ws, word) && word.Some?
    ensures Slots(slots, ws, Some(w))
  {
  }

  lemma SlotsRead(slots: seq<int>, ws: seq<string>)
    requires Slots(slots, ws, None)
    ensures |ws| <= |slots| && forall k :: 0 <= k < |ws| ==> slots[k] == Start(ws, k)
  {
  }

  lemma ScanStart(line: string, slots: seq<int>)
    ensures Scanning(line, 0, [], None, false) && Slots(slots, [], None) && Laid([]) == "" && Opened(None) == ""
  {
    assert line[0..] == line;
    assert [] + Words(line) == Words(line);
  }

  lemma ScanEnd(line: string, ws: seq<string>, word: Option<string>, quoted: bool)
    requires Scanning(line, |line|, ws, word, quoted)
    ensures Words(line) == ws + Closed(word) && 2 * |Words(line)| <= |line| + 1
  {
  }

  lemma OpenedNext(word: Option<string>, a: char)
    ensures Opened(Some(Opened(word) + [a])) == Opened(word) + [a] && Opened(Some(Opened(word))) == Opened(word)
    ensures word.None? ==> Opened(word) == ""
    ensures word.Some? ==> Opened(word) == word.value
  {
  }

  // ----- what the caller reads back

  /** The C string at an offset: everything up to the next NUL. */
  function CString(text: string, start: nat): (w: string)
    decreases |text| - start
  {
    if start >= |text| || text[start] == NUL then "" else [text[start]] + CString(text, start + 1)
  }

  /** Each word occupies its own stretch of the text, up to and including its NUL, and the next one starts behind it. */
  lemma {:induction false} WordAt(ws: seq<string>, k: nat)
    requires k < |ws|
    ensures Start(ws, k + 1) == Start(ws, k) + |ws[k]| + 1 <= |Laid(ws)|
    ensures Laid(ws)[Start(ws, k)..Start(ws, k + 1)] == ws[k] + [NUL]
    decreases |ws|
  {
    var n := |ws| - 1;
    assert ws[..k + 1][..k] == ws[..k];
    if k == n {
      assert ws[..k + 1] == ws;
    } else {
      WordAt(ws[..n], k);
      assert ws[..n][..k] == ws[..k] && ws[..n][..k + 1] == ws[..k + 1];
    }
  }

  lemma {:induction false} ReadString(text: string, start: nat, w: string)
    requires start + |w| < |text| && text[start..start + |w| + 1] == w + [NUL] && NoNul(w)
    ensures CString(text, start) == w
    decreases |w|
  {
    if w == "" {
      assert text[start..start + 1][0] == NUL;
    } else {
      var t := text[start..start + |w| + 1];
      assert t[0] == text[start] && t[1..] == text[start + 1..start + |w| + 1];
      assert (w + [NUL])[1..] == w[1..] + [NUL];
      ReadString(text, start + 1, w[1..]);
    }
  }

  lemma {:induction false} WordsHaveNoNul(s: string, word: Option<string>, quoted: bool)
    requires NoNul(s) && NoNul(Opened(word))
    ensures forall w :: w in WordsFrom(s, word, quoted) ==> NoNul(w)
    decreases |s|
  {
    if s != "" {
      var rest := s[1..];
      WordsHaveNoNul(rest, word, false);
      WordsHaveNoNul(rest, None, false);
      WordsHaveNoNul(rest, Some(Opened(word)), true);
      WordsHaveNoNul(rest, Some(Opened(word) + [s[0]]), quoted);
    }
  }

  /** Reading a slot's C string gives the word it stands for. */
  lemma SlotReadsWord(line: string, k: nat)
    requires NoNul(line) && k < |Words(line)|
    ensures CString(Laid(Words(line)), Start(Words(line), k)) == Words(line)[k]
  {
    WordAt(Words(line), k);
    WordsHaveNoNul(line, None, false);
    ReadString(Laid(Words(line)), Start(Words(line), k), Words(line)[k]);
  }

  // ----- quoting words

  ghost predicate NoQuotes(w: string) { forall i :: 0 <= i < |w| ==> !IsQuote(w[i]) }

  function Quoted(w: string): (s: string) { "\"" + w + "\"" }

  function Join(ws: seq<string>): (line: string)
  {
    if ws == [] then ""
    else if |ws| == 1 then Quoted(ws[0])
    else Quoted(ws[0]) + " " + Join(ws[1..])
  }

  lemma {:induction false} QuotedText(w: string, rest: string, acc: string)
    requires NoQuotes(w)
    ensures WordsFrom(w + "\"" + rest, Some(acc), true) == WordsFrom(rest, Some(acc + w), false)
    decreases |w|
  {
    var s := w + "\"" + rest;
    if w == "" {
      assert s[1..] == rest && acc + w == acc;
    } else {
      assert s[1..] == w[1..] + "\"" + rest && acc + w == acc + [w[0]] + w[1..];
      QuotedText(w[1..], rest, acc + [w[0]]);
    }
  }

  lemma QuotedWord(w: string, rest: string)
    requires NoQuotes(w)
    ensures Words(Quoted(w) + rest) == WordsFrom(rest, Some(w), false)
  {
    var s := Quoted(w) + rest;
    assert s[0] == '\"' && s[1..] == w + "\"" + rest && "" + w == w;
    QuotedText(w, rest, "");
  }

  /** Any words without quotes in them, even empty or with blanks, survive being quoted and joined. */
  lemma {:induction false} JoinedWords(ws: seq<string>)
    requires forall i :: 0 <= i < |ws| ==> NoQuotes(ws[i])
    ensures Words(Join(ws)) == ws
    decreases |ws|
  {
    if |ws| == 1 {
      QuotedWord(ws[0], "");
      assert Quoted(ws[0]) + "" == Quoted(ws[0]);
    } else if |ws| > 1 {
      var rest := " " + Join(ws[1..]);
      QuotedWord(ws[0], rest);
      assert Join(ws) == Quoted(ws[0]) + rest && rest[1..] == Join(ws[1..]);
      JoinedWords(ws[1..]);
    }
  }

  // ----- every way to write a line of words

  /** A piece of a word: as it stands, or between two quotes of either kind. */
  datatype Chunk = Bare(text: string) | InQuotes(open: char, text: string, close: char)

  predicate ChunkOk(c: Chunk)
  {
    && '\"' !in c.text && '\'' !in c.text
    && match c
       case Bare(text) => text != "" && ' ' !in text && '\t' !in text && '\n' !in text && '\r' !in text
       case InQuotes(open, _, close) => (open == '\"' || open == '\'') && (close == '\"' || close == '\'')
  }

  function ChunkText(c: Chunk): (t: string) { if c.Bare? then c.text else [c.open] + c.text + [c.close] }

  function ChunksText(cs: seq<Chunk>): (t: string) { if cs == [] then "" else ChunkText(cs[0]) + ChunksText(cs[1..]) }

  function ChunksWord(cs: seq<Chunk>): (w: string) { if cs == [] then "" else cs[0].text + ChunksWord(cs[1..]) }

  /** A word in one or more pieces, and the blanks behind it. */
  datatype Spaced = Spaced(chunks: seq<Chunk>, blanks: string)

  predicate AllBlank(b: string)
  {
    forall i :: 0 <= i < |b| ==> b[i] == ' ' || b[i] == '\t' || b[i] == '\n' || b[i] == '\r'
  }

  /** Only the last word may have no blank behind it. */
  ghost predicate SpacedOk(ws: seq<Spaced>)
  {
    forall k :: 0 <= k < |ws| ==>
      && ws[k].chunks != [] && (forall c :: c in ws[k].chunks ==> ChunkOk(c))
      && AllBlank(ws[k].blanks) && (k < |ws| - 1 ==> ws[k].blanks != "")
  }

  function SpacedText(ws: seq<Spaced>): (t: string)
  {
    if ws == [] then "" else ChunksText(ws[0].chunks) + (ws[0].blanks + SpacedText(ws[1..]))
  }

  function SpacedWords(ws: seq<Spaced>): (r: seq<string>)
  {
    if ws == [] then [] else [ChunksWord(ws[0].chunks)] + SpacedWords(ws[1..])
  }

  lemma {:induction false} BareRead(text: string, rest: string, word: Option<string>)
    requires text != "" && forall c :: c in text ==> !IsQuote(c) && !IsBlank(c)
    ensures WordsFrom(text + rest, word, false) == WordsFrom(rest, Some(Opened(word) + text), false)
    decreases |text|
  {
    var s, next := text + rest, Some(Opened(word) + [text[0]]);
    assert s[0] == text[0] && s[1..] == text[1..] + rest;
    if |text| == 1 {
      assert text[1..] + rest == rest && text == [text[0]];
    } else {
      BareRead(text[1..], rest, next);
      assert Opened(word) + [text[0]] + text[1..] == Opened(word) + text;
    }
  }

  lemma {:induction false} InsideQuotes(text: string, close: char, rest: string, acc: string)
    requires IsQuote(close) && forall c :: c in text ==> !IsQuote(c)
    ensures WordsFrom(text + [close] + rest, Some(acc), true) == WordsFrom(rest, Some(acc + text), false)
    decreases |text|
  {
    var s := text + [close] + rest;
    if text == "" {
      assert s[1..] == rest && acc + text == acc;
    } else {
      assert s[1..] == text[1..] + [close] + rest && acc + text == acc + [text[0]] + text[1..];
      InsideQuotes(text[1..], close, rest, acc + [text[0]]);
    }
  }

  lemma ChunkRead(c: Chunk, rest: string, word: Option<string>)
    requires ChunkOk(c)
    ensures WordsFrom(ChunkText(c) + rest, word, false) == WordsFrom(rest, Some(Opened(word) + c.text), false)
  {
    match c
    case Bare(text) => BareRead(text, rest, word);
    case InQuotes(open, text, close) =>
      var s := ChunkText(c) + rest;
      assert s[0] == open && s[1..] == text + [close] + rest;
      InsideQuotes(text, close, rest, Opened(word));
  }

  lemma Assoc(a: string, b: string, c: string)
    ensures a + b + c == a + (b + c)
  {
  }

  lemma {:induction false} ChunksRead(cs: seq<Chunk>, rest: string, word: Option<string>)
    requires (cs != [] || word.Some?) && forall c :: c in cs ==> ChunkOk(c)
    ensures WordsFrom(ChunksText(cs) + rest, word, false) == WordsFrom(rest, Some(Opened(word) + ChunksWord(cs)), false)
    decreases |cs|
  {
    hide WordsFrom, ChunkText, ChunkOk;
    if cs == [] {
      assert "" + rest == rest && Opened(word) + "" == Opened(word);
    } else {
      var tail := ChunksText(cs[1..]) + rest;
      Assoc(ChunkText(cs[0]), ChunksText(cs[1..]), rest);
      ChunkRead(cs[0], tail, word);
      ChunksRead(cs[1..], rest, Some(Opened(word) + cs[0].text));
      Assoc(Opened(word), cs[0].text, ChunksWord(cs[1..]));
    }
  }

  lemma {:induction false} BlanksRead(b: string, rest: string, word: Option<string>)
    requires AllBlank(b) && (b != "" || word.None?)
    ensures WordsFrom(b + rest, word, false) == Closed(word) + WordsFrom(rest, None, false)
    decreases |b|
  {
    if b == "" {
      assert b + rest == rest && [] + WordsFrom(rest, None, false) == WordsFrom(rest, None, false);
    } else {
      var s := b + rest;
      assert s[0] == b[0] && s[1..] == b[1..] + rest;
      BlanksRead(b[1..], rest, None);
      assert Closed(word) + ([] + WordsFrom(rest, None, false)) == Closed(word) + WordsFrom(rest, None, false);
    }
  }

  lemma {:induction false} SpacedRead(ws: seq<Spaced>)
    requires SpacedOk(ws)
    ensures WordsFrom(SpacedText(ws), None, false) == SpacedWords(ws)
    decreases |ws|
  {
    hide WordsFrom, ChunksText, ChunksWord, AllBlank, ChunkOk;
    if ws == [] {
      NoWords();
    } else {
      var w, tail := ws[0], SpacedText(ws[1..]);
      ChunksRead(w.chunks, w.blanks + tail, None);
      var word := Some(Opened(None) + ChunksWord(w.chunks));
      assert "" + ChunksWord(w.chunks) == ChunksWord(w.chunks);
      SpacedRead(ws[1..]);
      if w.blanks == "" {
        assert ws[1..] == [] && w.blanks + tail == "";
        LastWord(word);
      } else {
        BlanksRead(w.blanks, tail, word);
      }
    }
  }

  lemma NoWords()
    ensures WordsFrom("", None, false) == []
  {
  }

  lemma LastWord(word: Option<string>)
    requires word.Some?
    ensures WordsFrom("", word, false) == [word.value]
  {
  }

  /** However a line of words is quoted and spaced, it is split into those words. */
  lemma SplitAsWritten(lead: string, ws: seq<Spaced>)
    requires AllBlank(lead) && SpacedOk(ws)
    ensures Words(lead + SpacedText(ws)) == SpacedWords(ws)
  {
    hide AllBlank, SpacedOk;
    BlanksRead(lead, SpacedText(ws), None);
    SpacedRead(ws);
    assert [] + SpacedWords(ws) == SpacedWords(ws);
  }
}
