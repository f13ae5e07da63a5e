/**
 What a written trace says in the terms of its caller: texts as C strings, code bytes sent exactly
 once, the short form for consecutive instructions, and the instruction set as a signed number.
 */
module SiftTraces {
  import opened Bytes
  import opened SiftRecords
  import opened SiftMemory
  import opened SiftReading
  import opened SiftWriting
  import opened SiftRoundTrip
  import opened SiftPhysical

  // ----- announced texts

  /** The text with its terminator, cut off where its 16-bit length wraps. */
  lemma SentIs(text: seq<byte>)
    ensures |Sent(text)| == (|text| + 1) % 65536 && Sent(text) <= text + [0]
    ensures |text| < 65535 ==> Sent(text) == text + [0]
  {
  }

  /** What C code takes a buffer for: the bytes before its first NUL. */
  function CString(s: seq<byte>): (t: seq<byte>)
  {
    if s == [] || s[0] == 0 then [] else [s[0]] + CString(s[1..])
  }

  lemma {:induction false} Terminated(text: seq<byte>)
    requires 0 !in text
    ensures CString(text + [0]) == text
    decreases |text|
  {
    if text != [] {
      Terminated(text[1..]);
      assert (text + [0])[1..] == text[1..] + [0];
    }
  }

  datatype Routine = Routine(eip: u64, name: seq<byte>, img: seq<byte>, offset: u64, line: u32, column: u32,
                             file: seq<byte>)

  /** What the backend hears of one item, with C strings. */
  function HeardOf(item: Item): (rs: seq<Routine>)
  {
    match item
    case RoutineAnnounced(eip, name, img, offset, line, column, file) =>
      [Routine(eip, CString(name), CString(img), offset, line, column, CString(file))]
    case _ => []
  }

  /** The routines that the backend hears of. */
  function Heard(items: seq<Item>): (rs: seq<Routine>)
  {
    if items == [] then [] else HeardOf(items[0]) + Heard(items[1..])
  }

  /** The routines that the calls announce. */
  function Told(calls: seq<Call>): (rs: seq<Routine>)
  {
    if calls == [] then []
    else
      (match calls[0]
       case RoutineAnnounce(eip, name, img, offset, line, column, file) =>
         [Routine(eip, name, img, offset, line, column, file)]
       case _ => [])
      + Told(calls[1..])
  }

  predicate IsCText(text: seq<byte>) { 0 !in text && |text| < 65535 }

  ghost predicate CTexts(calls: seq<Call>)
  {
    forall i :: 0 <= i < |calls| && calls[i].RoutineAnnounce? ==>
      IsCText(calls[i].name) && IsCText(calls[i].img) && IsCText(calls[i].file)
  }

  lemma {:induction false} HeardConcat(a: seq<Item>, b: seq<Item>)
    ensures Heard(a + b) == Heard(a) + Heard(b)
    decreases |a|
  {
    hide HeardOf;
    if a == [] {
      assert a + b == b;
    } else {
      HeardConcat(a[1..], b);
      assert (a + b)[1..] == a[1..] + b && (a + b)[0] == a[0];
    }
  }

  lemma {:induction false} ShownIsTold(cfg: Config, isa: int, last: u64, calls: seq<Call>)
    requires AllAdmissible(cfg, calls) && CTexts(calls)
    ensures Heard(ShownAll(cfg, isa, last, calls)) == Told(calls)
    decreases |calls|
  {
    hide Admissible, Sent;
    if calls != [] {
      var call := calls[0];
      ShownIsTold(cfg, NextIsa(isa, call), NextLast(last, call), calls[1..]);
      HeardConcat(Shown(cfg, isa, last, call), ShownAll(cfg, NextIsa(isa, call), NextLast(last, call), calls[1..]));
      OneIsTold(cfg, isa, last, call);
    }
  }

  lemma OneIsTold(cfg: Config, isa: int, last: u64, call: Call)
    requires Admissible(cfg, call)
    requires call.RoutineAnnounce? ==> IsCText(call.name) && IsCText(call.img) && IsCText(call.file)
    ensures Heard(Shown(cfg, isa, last, call))
            == match call
               case RoutineAnnounce(eip, name, img, offset, line, column, file) =>
                 [Routine(eip, name, img, offset, line, column, file)]
               case _ => []
  {
    var items := Shown(cfg, isa, last, call);
    assert items != [] ==> items[1..] == [];
    hide Sent;
    if call.RoutineAnnounce? {
      SentIs(call.name);
      SentIs(call.img);
      SentIs(call.file);
      Terminated(call.name);
      Terminated(call.img);
      Terminated(call.file);
    }
  }

  /** Every announced routine arrives, in order, with the texts that were passed. */
  lemma RoutinesArrive(g: Garbage, cfg: Config, calls: seq<Call>)
    requires AllAdmissible(cfg, calls) && CTexts(calls)
    ensures Heard(RunBytes(g, START, Trace(cfg, calls)).items) == Told(calls)
  {
    hide Trace, RunBytes, ShownAll, InStep;
    RoundTrip(g, cfg, calls);
    ShownIsTold(cfg, 0, 0, calls);
  }

  // ----- code bytes

  /** A record that carries code starting at x: type 11 for one instruction, type 0 for a page. */
  predicate CarriesCode(cfg: Config, rec: Record, x: u64)
  {
    rec.Other? && rec.kind == (if cfg.perInsn then 11 else 0) && |rec.data| >= 8 && U64(rec.data[..8]) == x
  }

  function TimesCode(cfg: Config, recs: seq<Record>, x: u64): (n: nat)
  {
    if |recs| == 0 then 0 else (if CarriesCode(cfg, recs[0], x) then 1 else 0) + TimesCode(cfg, recs[1..], x)
  }

  /** The call needs the code that starts at x: its own address, or a page that it overlaps. */
  predicate Needs(cfg: Config, call: Call, x: u64)
  {
    call.Instruction?
    && if cfg.perInsn then x == call.addr
       else x % 4096 == 0 && x < call.addr + call.size && call.addr < x + 4096
  }

  ghost predicate NeededBy(cfg: Config, calls: seq<Call>, x: u64)
  {
    exists i :: 0 <= i < |calls| && Needs(cfg, calls[i], x)
  }

  lemma {:induction false} TimesCodeConcat(cfg: Config, a: seq<Record>, b: seq<Record>, x: u64)
    ensures TimesCode(cfg, a + b, x) == TimesCode(cfg, a, x) + TimesCode(cfg, b, x)
    decreases |a|
  {
    hide CarriesCode;
    if |a| == 0 {
      assert a + b == b;
    } else {
      assert (a + b)[1..] == a[1..] + b;
      TimesCodeConcat(cfg, a[1..], b, x);
    }
  }

  /** What an emission does for the code at x, given whether x is needed. */
  ghost predicate SendsOnce(cfg: Config, w: WState, e: Emission, x: u64, needed: bool)
  {
    && (x in e.w.sent <==> x in w.sent || needed)
    && TimesCode(cfg, e.recs, x) == if needed && x !in w.sent then 1 else 0
  }

  lemma {:induction false} PagesOnce(cfg: Config, w: WState, base: u64, last: u64, x: u64)
    requires !cfg.perInsn && base % PAGE == 0 && last % PAGE == 0 && last + PAGE < TWO_TO_THE_64
    ensures SendsOnce(cfg, w, EmitPages(cfg, w, base, last), x, x % PAGE == 0 && base <= x <= last)
    decreases last + PAGE - base
  {
    hide CodeBytes, CarriesCode, PageRecord;
    if base <= last {
      if base in w.sent {
        PagesOnce(cfg, w, base + PAGE, last, x);
      } else {
        var w' := w.(sent := w.sent + {base});
        PagesOnce(cfg, w', base + PAGE, last, x);
        PageCarries(cfg, base, x);
        var recs := EmitPages(cfg, w, base, last).recs;
        assert recs[1..] == EmitPages(cfg, w', base + PAGE, last).recs;
      }
    }
  }

  lemma PageCarries(cfg: Config, base: u64, x: u64)
    requires !cfg.perInsn && base + PAGE <= TWO_TO_THE_64
    ensures CarriesCode(cfg, PageRecord(cfg, base), x) <==> x == base
  {
    hide CodeBytes, U64, LE8;
    FieldRoundTrip();
    var data := LE8(base) + CodeBytes(cfg, base, PAGE);
    assert data[..8] == LE8(base);
  }

  lemma CodeOnce(cfg: Config, w: WState, call: Call, x: u64)
    requires call.Instruction? && Admissible(cfg, call)
    ensures SendsOnce(cfg, w, EmitCode(cfg, w, call.addr, call.size), x, Needs(cfg, call, x))
  {
    if !cfg.perInsn {
      hide EmitPages;
      var base, last := PageOf(call.addr), PageOf(call.addr + call.size - 1);
      PagesOnce(cfg, w, base, last, x);
      PageBetween(call.addr, call.size, x);
    } else if call.addr !in w.sent {
      InstructionCarries(cfg, call.addr, call.size, x);
    }
  }

  lemma InstructionCarries(cfg: Config, addr: u64, size: nat, x: u64)
    requires cfg.perInsn && addr + size <= TWO_TO_THE_64
    ensures TimesCode(cfg, [Other(ICACHE_VARIABLE, LE8(addr) + CodeBytes(cfg, addr, size))], x)
            == if x == addr then 1 else 0
  {
    hide U64, LE8, CodeBytes;
    FieldRoundTrip();
    var rec := Other(ICACHE_VARIABLE, LE8(addr) + CodeBytes(cfg, addr, size));
    assert rec.data[..8] == LE8(addr);
    assert [rec][1..] == [];
  }

  /** The pages from that of the first byte to that of the last are those that the range overlaps. */
  lemma PageBetween(addr: u64, size: int, x: u64)
    requires 1 <= size && addr + size <= TWO_TO_THE_64
    ensures x % 4096 == 0 ==> (PageOf(addr) <= x <= PageOf(addr + size - 1) <==> x < addr + size && addr < x + 4096)
  {
  }

  lemma {:induction false} TranslationsCarryNoCode(cfg: Config, w: WState, vas: seq<u64>, x: u64)
    ensures var e := EmitTranslations(cfg, w, vas); e.w.sent == w.sent && TimesCode(cfg, e.recs, x) == 0
    decreases |vas|
  {
    if |vas| > 0 {
      var first := EmitTranslation(cfg, w, vas[0]);
      TranslationsCarryNoCode(cfg, first.w, vas[1..], x);
      assert first.recs != [] ==> first.recs[1..] == [];
      TimesCodeConcat(cfg, first.recs, EmitTranslations(cfg, first.w, vas[1..]).recs, x);
    }
  }

  lemma CallCodeOnce(cfg: Config, w: WState, call: Call, x: u64)
    requires Admissible(cfg, call)
    ensures SendsOnce(cfg, w, Emit(cfg, w, call), x, Needs(cfg, call, x))
  {
    hide EmitCode, EmitTranslations, Needs;
    var e := Emit(cfg, w, call);
    var code := if call.Instruction? then EmitCode(cfg, w, call.addr, call.size) else Emission([], w);
    var trans := EmitTranslations(cfg, code.w, Touched(call));
    TranslationsCarryNoCode(cfg, code.w, Touched(call), x);
    var rec := e.recs[|e.recs| - 1];
    if call.Instruction? {
      CodeOnce(cfg, w, call, x);
      TimesCodeConcat(cfg, code.recs, trans.recs, x);
      assert e.recs == code.recs + trans.recs + [rec];
      TimesCodeConcat(cfg, code.recs + trans.recs, [rec], x);
    } else {
      NeedsNothing(cfg, w, call, x);
      assert e.recs == trans.recs + [rec];
      TimesCodeConcat(cfg, trans.recs, [rec], x);
    }
    NoCode(cfg, rec, x);
  }

  lemma NeedsNothing(cfg: Config, w: WState, call: Call, x: u64)
    requires !call.Instruction?
    ensures !Needs(cfg, call, x) && (!call.CacheOnly? ==> EmitTranslations(cfg, w, Touched(call)) == Emission([], w))
  {
  }

  lemma NoCode(cfg: Config, rec: Record, x: u64)
    requires rec.Other? ==> rec.kind != 0 && rec.kind != 11
    ensures TimesCode(cfg, [rec], x) == 0
  {
    assert [rec][1..] == [];
  }

  lemma {:induction false} CallsCodeOnce(cfg: Config, w: WState, calls: seq<Call>, x: u64)
    requires AllAdmissible(cfg, calls)
    ensures SendsOnce(cfg, w, EmitAll(cfg, w, calls), x, NeededBy(cfg, calls, x))
    decreases |calls|
  {
    hide Emit, Admissible, Needs, CarriesCode;
    if |calls| > 0 {
      var first := Emit(cfg, w, calls[0]);
      CallCodeOnce(cfg, w, calls[0], x);
      CallsCodeOnce(cfg, first.w, calls[1..], x);
      TimesCodeConcat(cfg, first.recs, EmitAll(cfg, first.w, calls[1..]).recs, x);
      NeededNext(cfg, calls, x);
    }
  }

  lemma NeededNext(cfg: Config, calls: seq<Call>, x: u64)
    requires |calls| > 0
    ensures NeededBy(cfg, calls, x) <==> Needs(cfg, calls[0], x) || NeededBy(cfg, calls[1..], x)
  {
    hide Needs;
    if NeededBy(cfg, calls[1..], x) {
      var i :| 0 <= i < |calls| - 1 && Needs(cfg, calls[1..][i], x);
      assert Needs(cfg, calls[i + 1], x);
    }
  }

  /** Over any trace, code is sent exactly once if some instruction needs it, and never otherwise. */
  lemma CodeSentOnce(cfg: Config, calls: seq<Call>, x: u64)
    requires AllAdmissible(cfg, calls)
    ensures TimesCode(cfg, EmitAll(cfg, FRESH, calls).recs, x) == if NeededBy(cfg, calls, x) then 1 else 0
  {
    hide EmitAll, NeededBy;
    CallsCodeOnce(cfg, FRESH, calls, x);
  }

  // ----- consecutive instructions

  /** Where the last instruction among the calls ended; zero before the first. */
  function EndOfLast(calls: seq<Call>): (a: u64)
  {
    if calls == [] then 0 else
    match calls[|calls| - 1]
    case Instruction(addr, size, _, _, _, _, _) => (addr + size) % 0x1_0000_0000_0000_0000
    case _ => EndOfLast(calls[..|calls| - 1])
  }

  lemma {:induction false} LastIsEnd(cfg: Config, calls: seq<Call>)
    requires AllAdmissible(cfg, calls)
    ensures EmitAll(cfg, FRESH, calls).w.last == EndOfLast(calls)
    decreases |calls|
  {
    if |calls| > 0 {
      var n := |calls| - 1;
      LastIsEnd(cfg, calls[..n]);
      assert calls == calls[..n] + [calls[n]];
      LastAfter(cfg, FRESH, calls[..n], calls[n]);
    }
  }

  lemma {:induction false} LastAfter(cfg: Config, w: WState, calls: seq<Call>, call: Call)
    requires AllAdmissible(cfg, calls) && Admissible(cfg, call) && AllAdmissible(cfg, calls + [call])
    ensures EmitAll(cfg, w, calls + [call]).w.last == NextLast(EmitAll(cfg, w, calls).w.last, call)
    decreases |calls|
  {
    hide Admissible, Emit;
    if |calls| == 0 {
      assert calls + [call] == [call] && [call][1..] == [];
      LastNext(cfg, w, call);
    } else {
      assert (calls + [call])[1..] == calls[1..] + [call];
      LastAfter(cfg, Emit(cfg, w, calls[0]).w, calls[1..], call);
    }
  }

  lemma LastNext(cfg: Config, w: WState, call: Call)
    requires Admissible(cfg, call)
    ensures Emit(cfg, w, call).w.last == NextLast(w.last, call)
  {
    if call.CacheOnly? {
      TranslationsKeepLast(cfg, w, [call.eip, call.address]);
    }
  }

  lemma {:induction false} TranslationsKeepLast(cfg: Config, w: WState, vas: seq<u64>)
    ensures EmitTranslations(cfg, w, vas).w.last == w.last
    decreases |vas|
  {
    if |vas| > 0 { TranslationsKeepLast(cfg, EmitTranslation(cfg, w, vas[0]).w, vas[1..]); }
  }

  /**
   An instruction takes one byte and its addresses if it starts where the one before it ended and has
   no predicate, and ten bytes and its addresses otherwise.
   */
  lemma ShortIffConsecutive(cfg: Config, calls: seq<Call>, call: Call)
    requires AllAdmissible(cfg, calls) && Admissible(cfg, call) && call.Instruction?
    ensures var rec := InstructionRecord(EmitAll(cfg, FRESH, calls).w.last, call);
      |Encode(rec)| == 8 * |call.addrs| + if call.addr == EndOfLast(calls) && !call.isPredicate then 1 else 10
  {
    hide EmitAll, EndOfLast, SimpleByte, FlagByte;
    LastIsEnd(cfg, calls);
  }
}
