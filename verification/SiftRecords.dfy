/**
 The record layer of the SIFT trace format: the three record layouts, how a record is laid
 out in bytes, and how the reader cuts a byte stream back into records.
 */
module SiftRecords {
  import opened Bytes

  const PAGE: int := 0x1000
  const MAX_DYNAMIC_ADDRESSES: nat := 2

  // Type codes of "Other" records.
  const ICACHE: byte := 0
  const OUTPUT: byte := 1
  const SYSCALL_REQUEST: byte := 2
  const SYSCALL_RESPONSE: byte := 3
  const NEW_THREAD: byte := 4
  const MEMORY_REQUEST: byte := 6
  const MEMORY_RESPONSE: byte := 7
  const JOIN: byte := 8
  const ICACHE_VARIABLE: byte := 11
  const SYNC: byte := 12
  const SYNC_RESPONSE: byte := 13
  const LOGICAL_TO_PHYSICAL: byte := 14
  const MAGIC: byte := 15
  const MAGIC_RESPONSE: byte := 16
  const ROUTINE_CHANGE: byte := 17
  const ROUTINE_ANNOUNCE: byte := 18
  const EMU: byte := 19
  const EMU_RESPONSE: byte := 20
  const FORK: byte := 21
  const INSTRUCTION_COUNT: byte := 23
  const CACHE_ONLY: byte := 24
  const ISA_CHANGE: byte := 25
  const END: byte := 0xff

  const SIZEOF_EMU_REQUEST: int := 8
  const SIZEOF_EMU_REPLY: int := 48

  /**
   One record of a trace. An announcement is kept apart from the other "Other" records because
   the reader finds its end by its own length fields and never looks at the declared size.
   */
  datatype Record =
    | Simple(size: int, isBranch: bool, taken: bool, addrs: seq<u64>)
    | Ext(size: int, isBranch: bool, taken: bool, isPredicate: bool, executed: bool, addr: u64, addrs: seq<u64>)
    | Announce(eip: u64, name: seq<byte>, img: seq<byte>, offset: u64, line: u32, column: u32, file: seq<byte>)
    | Other(kind: byte, data: seq<byte>)

  datatype Error = Truncated | AssertionFailed | AddressOverrun

  datatype Parsed = Rec(rec: Record, rest: seq<byte>) | AtEnd | Broken(error: Error)

  /** The reader's assertion on the declared size of each type it handles. */
  predicate SizeAccepted(kind: byte, size: int)
  {
    if kind in {END, NEW_THREAD, SYNC, FORK} then size == 0
    else if kind == ICACHE then size == 8 + PAGE
    else if kind == LOGICAL_TO_PHYSICAL then size == 16
    else if kind in {INSTRUCTION_COUNT, JOIN, ISA_CHANGE} then size == 4
    else if kind == CACHE_ONLY then size == 18
    else if kind == OUTPUT then size > 1
    else if kind == SYSCALL_REQUEST then size > 2
    else if kind == MAGIC then size == 24
    else if kind == EMU then size <= 2 + SIZEOF_EMU_REQUEST
    else if kind == ROUTINE_CHANGE then size == 25
    else true
  }

  /** Bytes read before the size is used in an unsigned subtraction; a smaller size runs off the stream. */
  function FixedPart(kind: byte): (n: int)
  {
    if kind == ICACHE_VARIABLE then 8 else if kind == EMU then 2 else 0
  }

  predicate WellFormed(rec: Record)
  {
    match rec
    case Simple(size, _, _, addrs) => 1 <= size <= 15 && |addrs| <= MAX_DYNAMIC_ADDRESSES
    case Ext(size, _, _, _, _, _, addrs) => 1 <= size <= 15 && |addrs| <= MAX_DYNAMIC_ADDRESSES
    case Announce(_, name, img, _, _, _, file) =>
      |name| < TWO_TO_THE_16 && |img| < TWO_TO_THE_16 && |file| < TWO_TO_THE_16
    case Other(kind, data) =>
      && kind != ROUTINE_ANNOUNCE
      && FixedPart(kind) <= |data| < TWO_TO_THE_32
      && SizeAccepted(kind, |data|)
  }

  predicate AllWellFormed(recs: seq<Record>)
  {
    forall i :: 0 <= i < |recs| ==> WellFormed(recs[i])
  }

  function Bit(b: bool): (n: int) { if b then 1 else 0 }

  function SimpleByte(size: int, n: nat, isBranch: bool, taken: bool): (b: byte)
    requires 0 <= size <= 15 && n <= 3
  {
    size + 16 * n + 64 * Bit(isBranch) + 128 * Bit(taken)
  }

  function FlagByte(n: nat, isBranch: bool, taken: bool, isPredicate: bool, executed: bool): (b: byte)
    requires n <= 3
  {
    n + 4 * Bit(isBranch) + 8 * Bit(taken) + 16 * Bit(isPredicate) + 32 * Bit(executed)
  }

  function EncodeAddrs(addrs: seq<u64>): (s: seq<byte>)
    ensures |s| == 8 * |addrs|
  {
    if |addrs| == 0 then [] else LE8(addrs[0]) + EncodeAddrs(addrs[1..])
  }

  function OtherHeader(kind: byte, size: u32): (s: seq<byte>)
    ensures |s| == 6
  {
    [0, kind] + LE4(size)
  }

  function EncodeText(bytes: seq<byte>): (s: seq<byte>)
    requires |bytes| < TWO_TO_THE_16
    ensures |s| == 2 + |bytes|
  {
    LE2(|bytes|) + bytes
  }

  /** Offset, line and column of an announced routine. */
  function EncodePlace(offset: u64, line: u32, column: u32): (s: seq<byte>)
    ensures |s| == 16
  {
    LE8(offset) + LE4(line) + LE4(column)
  }

  function AnnounceBody(rec: Record): (s: seq<byte>)
    requires rec.Announce? && WellFormed(rec)
    ensures |s| == 30 + |rec.name| + |rec.img| + |rec.file|
  {
    LE8(rec.eip) + (EncodeText(rec.name) + (EncodeText(rec.img) +
    (EncodePlace(rec.offset, rec.line, rec.column) + EncodeText(rec.file))))
  }

  function Encode(rec: Record): (s: seq<byte>)
    requires WellFormed(rec)
    ensures |s| > 0
  {
    match rec
    case Simple(size, isBranch, taken, addrs) =>
      [SimpleByte(size, |addrs|, isBranch, taken)] + EncodeAddrs(addrs)
    case Ext(size, isBranch, taken, isPredicate, executed, addr, addrs) =>
      [16 * size, FlagByte(|addrs|, isBranch, taken, isPredicate, executed)] + LE8(addr) + EncodeAddrs(addrs)
    case Announce(eip, name, img, offset, line, column, file) =>
      OtherHeader(ROUTINE_ANNOUNCE, 30 + |name| + |img| + |file|) + AnnounceBody(rec)
    case Other(kind, data) => OtherHeader(kind, |data|) + data
  }

  function EncodeAll(recs: seq<Record>): (s: seq<byte>)
    requires AllWellFormed(recs)
  {
    if |recs| == 0 then [] else Encode(recs[0]) + EncodeAll(recs[1..])
  }

  datatype Addresses = Addrs(addrs: seq<u64>, rest: seq<byte>) | Short

  function ParseAddrs(input: seq<byte>, n: nat): (a: Addresses)
    ensures a.Addrs? ==> |a.addrs| == n && |a.rest| == |input| - 8 * n
    decreases n
  {
    if n == 0 then Addrs([], input)
    else if |input| < 8 then Short
    else
      var tail := ParseAddrs(input[8..], n - 1);
      if tail.Short? then Short else Addrs([U64(input[..8])] + tail.addrs, tail.rest)
  }

  function ParseSimple(input: seq<byte>): (p: Parsed)
    requires |input| > 0 && input[0] % 16 != 0
    ensures p.Rec? ==> |p.rest| < |input| && WellFormed(p.rec)
    ensures !p.AtEnd?
  {
    var b := input[0];
    var n := b / 16 % 4;
    if n > MAX_DYNAMIC_ADDRESSES then Broken(AddressOverrun)
    else match ParseAddrs(input[1..], n)
      case Short => Broken(Truncated)
      case Addrs(addrs, rest) => Rec(Simple(b % 16, b / 64 % 2 == 1, b / 128 % 2 == 1, addrs), rest)
  }

  function ParseExt(input: seq<byte>): (p: Parsed)
    requires |input| > 0 && input[0] != 0 && input[0] % 16 == 0
    ensures p.Rec? ==> |p.rest| < |input| && WellFormed(p.rec)
    ensures !p.AtEnd?
  {
    if |input| < 10 then Broken(Truncated) else
    var f := input[1];
    var n := f % 4;
    if n > MAX_DYNAMIC_ADDRESSES then Broken(AddressOverrun)
    else match ParseAddrs(input[10..], n)
      case Short => Broken(Truncated)
      case Addrs(addrs, rest) =>
        Rec(Ext(input[0] / 16 % 16, f / 4 % 2 == 1, f / 8 % 2 == 1, f / 16 % 2 == 1, f / 32 % 2 == 1,
                U64(input[2..10]), addrs), rest)
  }

  /** A 16-bit length followed by that many bytes. */
  datatype Text = Text(bytes: seq<byte>, rest: seq<byte>) | NoText

  function ParseText(input: seq<byte>): (t: Text)
    ensures t.Text? ==> |t.bytes| < TWO_TO_THE_16 && |input| == 2 + |t.bytes| + |t.rest|
  {
    if |input| < 2 then NoText else
    var n := U16(input[..2]);
    if |input| < 2 + n then NoText else Text(input[2..2 + n], input[2 + n..])
  }

  function ParseAnnounce(input: seq<byte>): (p: Parsed)
    ensures p.Rec? ==> p.rec.Announce? && |p.rest| < |input| && WellFormed(p.rec)
    ensures !p.AtEnd?
  {
    if |input| < 8 then Broken(Truncated) else
    var name := ParseText(input[8..]);
    if name.NoText? then Broken(Truncated) else
    var img := ParseText(name.rest);
    if img.NoText? || |img.rest| < 16 then Broken(Truncated) else
    var file := ParseText(img.rest[16..]);
    if file.NoText? then Broken(Truncated) else
    Rec(Announce(U64(input[..8]), name.bytes, img.bytes, U64(img.rest[..8]), U32(img.rest[8..12]),
                 U32(img.rest[12..16]), file.bytes), file.rest)
  }

  function ParseOther(input: seq<byte>): (p: Parsed)
    requires |input| > 0 && input[0] == 0
    ensures p.Rec? ==> |p.rest| < |input| && WellFormed(p.rec)
    ensures !p.AtEnd?
  {
    if |input| < 6 then Broken(Truncated) else
    var kind, size, body := input[1], U32(input[2..6]), input[6..];
    if kind == ROUTINE_ANNOUNCE then ParseAnnounce(body)
    else if !SizeAccepted(kind, size) then Broken(AssertionFailed)
    else if size < FixedPart(kind) || |body| < size then Broken(Truncated)
    else Rec(Other(kind, body[..size]), body[size..])
  }

  /** The reader's dispatch on the first byte of a record. */
  function Parse(input: seq<byte>): (p: Parsed)
    ensures p.Rec? ==> |p.rest| < |input| && WellFormed(p.rec)
    ensures p.AtEnd? <==> input == []
  {
    if |input| == 0 then AtEnd
    else if input[0] == 0 then ParseOther(input)
    else if input[0] % 16 != 0 then ParseSimple(input)
    else ParseExt(input)
  }

  lemma {:induction false} AddrsRoundTrip(addrs: seq<u64>, rest: seq<byte>)
    ensures ParseAddrs(EncodeAddrs(addrs) + rest, |addrs|) == Addrs(addrs, rest)
  {
    var input := EncodeAddrs(addrs) + rest;
    if |addrs| == 0 {
      assert input == rest;
    } else {
      FieldRoundTrip();
      assert input[..8] == LE8(addrs[0]);
      assert input[8..] == EncodeAddrs(addrs[1..]) + rest;
      AddrsRoundTrip(addrs[1..], rest);
      assert [addrs[0]] + addrs[1..] == addrs;
    }
  }

  lemma TextRoundTrip(bytes: seq<byte>, rest: seq<byte>)
    requires |bytes| < TWO_TO_THE_16
    ensures ParseText(EncodeText(bytes) + rest) == Text(bytes, rest)
  {
    FieldRoundTrip();
    var input := EncodeText(bytes) + rest;
    assert input[..2] == LE2(|bytes|);
    assert input[2..2 + |bytes|] == bytes;
    assert input[2 + |bytes|..] == rest;
  }

  lemma PlaceRoundTrip(offset: u64, line: u32, column: u32, rest: seq<byte>)
    ensures var input := EncodePlace(offset, line, column) + rest;
            && |input| >= 16 && U64(input[..8]) == offset && U32(input[8..12]) == line
            && U32(input[12..16]) == column && input[16..] == rest
  {
    FieldRoundTrip();
    var input := EncodePlace(offset, line, column) + rest;
    assert input[..8] == LE8(offset) && input[8..12] == LE4(line) && input[12..16] == LE4(column);
  }

  lemma AnnounceRoundTrip(rec: Record, rest: seq<byte>)
    requires rec.Announce? && WellFormed(rec)
    ensures ParseAnnounce(AnnounceBody(rec) + rest) == Rec(rec, rest)
  {
    var t3 := EncodeText(rec.file) + rest;
    var t2 := EncodePlace(rec.offset, rec.line, rec.column) + t3;
    var t1 := EncodeText(rec.img) + t2;
    var t0 := EncodeText(rec.name) + t1;
    AnnounceLayout(rec, rest, t0, t1, t2, t3);
    var input := AnnounceBody(rec) + rest;
    assert input[..8] == LE8(rec.eip) && input[8..] == t0;
    assert U64(input[..8]) == rec.eip by { FieldRoundTrip(); }
    TextRoundTrip(rec.name, t1);
    TextRoundTrip(rec.img, t2);
    PlaceRoundTrip(rec.offset, rec.line, rec.column, t3);
    TextRoundTrip(rec.file, rest);
  }

  lemma AnnounceLayout(rec: Record, rest: seq<byte>, t0: seq<byte>, t1: seq<byte>, t2: seq<byte>, t3: seq<byte>)
    requires rec.Announce? && WellFormed(rec)
    requires t3 == EncodeText(rec.file) + rest
    requires t2 == EncodePlace(rec.offset, rec.line, rec.column) + t3
    requires t1 == EncodeText(rec.img) + t2
    requires t0 == EncodeText(rec.name) + t1
    ensures AnnounceBody(rec) + rest == LE8(rec.eip) + t0
  {
    var b2 := EncodePlace(rec.offset, rec.line, rec.column) + EncodeText(rec.file);
    var b1 := EncodeText(rec.img) + b2;
    var b0 := EncodeText(rec.name) + b1;
    Assoc(EncodePlace(rec.offset, rec.line, rec.column), EncodeText(rec.file), rest);
    Assoc(EncodeText(rec.img), b2, rest);
    Assoc(EncodeText(rec.name), b1, rest);
    Assoc(LE8(rec.eip), b0, rest);
  }

  lemma Assoc(a: seq<byte>, b: seq<byte>, c: seq<byte>)
    ensures (a + b) + c == a + (b + c)
  {
  }

  lemma ParseEncodeSimple(rec: Record, rest: seq<byte>)
    requires rec.Simple? && WellFormed(rec)
    ensures Parse(Encode(rec) + rest) == Rec(rec, rest)
  {
    var b, tail := SimpleByte(rec.size, |rec.addrs|, rec.isBranch, rec.taken), EncodeAddrs(rec.addrs) + rest;
    assert Encode(rec) + rest == [b] + tail;
    AddrsRoundTrip(rec.addrs, rest);
    SimpleFields(rec.size, |rec.addrs|, rec.isBranch, rec.taken);
    ParseSimpleBytes(b, tail, rec, rest);
  }

  lemma ParseSimpleBytes(b: byte, tail: seq<byte>, rec: Record, rest: seq<byte>)
    requires rec.Simple? && WellFormed(rec)
    requires b % 16 == rec.size && b / 16 % 4 == |rec.addrs|
    requires (b / 64 % 2 == 1) == rec.isBranch && (b / 128 % 2 == 1) == rec.taken
    requires ParseAddrs(tail, |rec.addrs|) == Addrs(rec.addrs, rest)
    ensures Parse([b] + tail) == Rec(rec, rest)
  {
    hide ParseAddrs, ParseOther, ParseExt;
    assert ([b] + tail)[1..] == tail;
  }

  lemma ParseEncodeExt(rec: Record, rest: seq<byte>)
    requires rec.Ext? && WellFormed(rec)
    ensures Parse(Encode(rec) + rest) == Rec(rec, rest)
  {
    var f := FlagByte(|rec.addrs|, rec.isBranch, rec.taken, rec.isPredicate, rec.executed);
    var tail := EncodeAddrs(rec.addrs) + rest;
    assert Encode(rec) + rest == [16 * rec.size, f] + LE8(rec.addr) + tail;
    AddrsRoundTrip(rec.addrs, rest);
    FlagFields(|rec.addrs|, rec.isBranch, rec.taken, rec.isPredicate, rec.executed);
    ParseExtBytes(f, tail, rec, rest);
  }

  lemma ParseExtBytes(f: byte, tail: seq<byte>, rec: Record, rest: seq<byte>)
    requires rec.Ext? && WellFormed(rec)
    requires f % 4 == |rec.addrs| && (f / 4 % 2 == 1) == rec.isBranch && (f / 8 % 2 == 1) == rec.taken
    requires (f / 16 % 2 == 1) == rec.isPredicate && (f / 32 % 2 == 1) == rec.executed
    requires ParseAddrs(tail, |rec.addrs|) == Addrs(rec.addrs, rest)
    ensures Parse([16 * rec.size, f] + LE8(rec.addr) + tail) == Rec(rec, rest)
  {
    hide U64, LE8, ParseAddrs, ParseOther, ParseSimple;
    FieldRoundTrip();
    var input := [16 * rec.size, f] + LE8(rec.addr) + tail;
    assert input[2..10] == LE8(rec.addr);
    assert input[10..] == tail;
  }

  lemma ParseEncodeOther(rec: Record, rest: seq<byte>)
    requires rec.Other? && WellFormed(rec)
    ensures Parse(Encode(rec) + rest) == Rec(rec, rest)
  {
    var input := Encode(rec) + rest;
    assert input[2..6] == LE4(|rec.data|);
    assert U32(input[2..6]) == |rec.data| by { FieldRoundTrip(); }
    assert input[6..][..|rec.data|] == rec.data;
    assert input[6..][|rec.data|..] == rest;
  }

  /**
   Framing: whatever follows it, an encoded record is read back as itself, the first byte alone
   selects the right one of the three layouts, and exactly the record's own bytes are consumed.
   */
  lemma ParseEncode(rec: Record, rest: seq<byte>)
    requires WellFormed(rec)
    ensures Parse(Encode(rec) + rest) == Rec(rec, rest)
  {
    match rec
    case Simple(_, _, _, _) => ParseEncodeSimple(rec, rest);
    case Ext(_, _, _, _, _, _, _) => ParseEncodeExt(rec, rest);
    case Other(_, _) => ParseEncodeOther(rec, rest);
    case Announce(_, _, _, _, _, _, _) =>
      var input := Encode(rec) + rest;
      assert input[0] == 0 && input[1] == ROUTINE_ANNOUNCE;
      assert input[6..] == AnnounceBody(rec) + rest;
      AnnounceRoundTrip(rec, rest);
  }

  lemma SimpleFields(size: int, n: nat, isBranch: bool, taken: bool)
    requires 1 <= size <= 15 && n <= 3
    ensures var b := SimpleByte(size, n, isBranch, taken);
            b % 16 == size && b / 16 % 4 == n && (b / 64 % 2 == 1) == isBranch && (b / 128 % 2 == 1) == taken
  {
  }

  lemma FlagFields(n: nat, isBranch: bool, taken: bool, isPredicate: bool, executed: bool)
    requires n <= 3
    ensures var f := FlagByte(n, isBranch, taken, isPredicate, executed);
            && f % 4 == n && (f / 4 % 2 == 1) == isBranch && (f / 8 % 2 == 1) == taken
            && (f / 16 % 2 == 1) == isPredicate && (f / 32 % 2 == 1) == executed
  {
  }
}
