/**
 The writer and the reader stay in step: reading a written trace shows the backend exactly the
 calls that were made, in order.
 */
module SiftRoundTrip {
  import opened Options
  import opened Bytes
  import opened SiftRecords
  import opened SiftMemory
  import opened SiftReading
  import opened SiftWriting

  /** The writer has sent the code byte at x. */
  ghost predicate SentByte(cfg: Config, w: WState, x: u64)
  {
    if cfg.perInsn then exists a :: a in w.sent && a <= x < a + cfg.length(a) else PageOf(x) in w.sent
  }

  ghost predicate CodeKnown(cfg: Config, w: WState, pages: Pages)
  {
    forall x: u64 :: SentByte(cfg, w, x) ==> PageOf(x) in pages && ByteAt(pages, x) == cfg.code(x)
  }

  ghost predicate Decoded(cfg: Config, a: u64, s: StaticInst)
  {
    0 <= s.size == cfg.length(a) && a + s.size <= TWO_TO_THE_64 && s.data == CodeBytes(cfg, a, s.size)
  }

  /** The relation between the two state machines at every record boundary between calls. */
  ghost predicate InStep(cfg: Config, w: WState, r: RState)
  {
    && PointersOk(r)
    && r.last == w.last
    && r.vcache == w.frames
    && CodeKnown(cfg, w, r.pages)
    && (forall a :: a in r.sinsts ==> Decoded(cfg, a, r.sinsts[a]))
  }

  /** What the backend is to see of one call, given the current ISA and where the previous instruction ended. */
  function Shown(cfg: Config, isa: int, last: u64, call: Call): (items: seq<Item>)
    requires Admissible(cfg, call)
  {
    match call
    case Instruction(addr, size, addrs, isBranch, taken, isPredicate, executed) =>
      [Inst(addr, size, CodeBytes(cfg, addr, size), addrs, isBranch, taken, isPredicate,
            executed || ShortForm(last, call), isa)]
    case CacheOnly(icount, what, eip, address) => [CacheOnlySeen(icount, what, eip, address)]
    case Output(fd, bytes) => [OutputSeen(fd, bytes)]
    case RoutineChange(event, eip, esp, callEip) => [RoutineChanged(event, eip, esp, callEip)]
    case RoutineAnnounce(eip, name, img, offset, line, column, file) =>
      [RoutineAnnounced(eip, Sent(name), Sent(img), offset, line, column, Sent(file))]
    case ISAChange(_) => []
  }

  function NextIsa(isa: int, call: Call): (i: int) { if call.ISAChange? then Signed32(call.isa) else isa }

  function NextLast(last: u64, call: Call): (l: u64)
  {
    if call.Instruction? then (call.addr + call.size) % TWO_TO_THE_64 else last
  }

  function ShownAll(cfg: Config, isa: int, last: u64, calls: seq<Call>): (items: seq<Item>)
    requires AllAdmissible(cfg, calls)
    decreases |calls|
  {
    if |calls| == 0 then []
    else Shown(cfg, isa, last, calls[0]) + ShownAll(cfg, NextIsa(isa, calls[0]), NextLast(last, calls[0]), calls[1..])
  }

  lemma RunOne(g: Garbage, r: RState, rec: Record)
    requires PointersOk(r) && WellFormed(rec)
    ensures Apply(g, r, rec).Continue? ==>
              Run(g, r, [rec]) == Outcome(Apply(g, r, rec).seen, Apply(g, r, rec).r, Open)
    ensures Apply(g, r, rec).Return? ==>
              Run(g, r, [rec]) == Outcome([Apply(g, r, rec).inst], Apply(g, r, rec).r, Open)
  {
    hide Apply, WellFormed, PointersOk;
    var rest: seq<Record> := [rec][1..];
    assert rest == [];
  }

  lemma RunCons(g: Garbage, r: RState, rec: Record, recs: seq<Record>)
    requires PointersOk(r) && WellFormed(rec) && AllWellFormed(recs)
    requires Apply(g, r, rec).Continue? && Apply(g, r, rec).seen == []
    ensures Run(g, r, [rec] + recs) == Run(g, Apply(g, r, rec).r, recs)
  {
    hide Apply, WellFormed, PointersOk;
    assert ([rec] + recs)[1..] == recs;
  }

  // ----- code bytes

  lemma PageStored(cfg: Config, w: WState, pages: Pages, base: u64)
    requires !cfg.perInsn && CodeKnown(cfg, w, pages) && base % PAGE == 0 && base + PAGE <= TWO_TO_THE_64
    ensures CodeKnown(cfg, w.(sent := w.sent + {base}), pages[base := CodeBytes(cfg, base, PAGE)])
  {
  }

  lemma ApplyPage(g: Garbage, cfg: Config, r: RState, base: u64)
    requires PointersOk(r) && base + PAGE <= TWO_TO_THE_64
    ensures Apply(g, r, PageRecord(cfg, base)) == Continue(r.(pages := r.pages[base := CodeBytes(cfg, base, PAGE)]), [])
  {
    var data := LE8(base) + CodeBytes(cfg, base, PAGE);
    assert data[..8] == LE8(base) && data[8..] == CodeBytes(cfg, base, PAGE);
    FieldRoundTrip();
  }

  lemma {:induction false} PagesSent(cfg: Config, w: WState, base: u64, last: u64)
    requires base % PAGE == 0 && last % PAGE == 0 && last + PAGE < TWO_TO_THE_64
    ensures var e := EmitPages(cfg, w, base, last);
      && w.sent <= e.w.sent && e.w == w.(sent := e.w.sent)
      && (forall b: u64 :: base <= b <= last && b % PAGE == 0 ==> b in e.w.sent)
    decreases last + PAGE - base
  {
    hide PageRecord;
    if base <= last {
      PagesSent(cfg, w.(sent := w.sent + {base}), base + PAGE, last);
      if base in w.sent {
        assert w.sent + {base} == w.sent;
      }
    }
  }

  lemma {:induction false} RunPages(g: Garbage, cfg: Config, w: WState, r: RState, base: u64, last: u64)
    returns (pages: Pages)
    requires !cfg.perInsn && PointersOk(r) && CodeKnown(cfg, w, r.pages)
    requires base % PAGE == 0 && last % PAGE == 0 && last + PAGE < TWO_TO_THE_64
    ensures var e := EmitPages(cfg, w, base, last);
      && Run(g, r, e.recs) == Outcome([], r.(pages := pages), Open)
      && CodeKnown(cfg, e.w, pages)
    decreases last + PAGE - base
  {
    hide CodeKnown, Apply, PageRecord;
    if base > last {
      pages := r.pages;
    } else if base in w.sent {
      pages := RunPages(g, cfg, w, r, base + PAGE, last);
    } else {
      var w' := w.(sent := w.sent + {base});
      var r' := r.(pages := r.pages[base := CodeBytes(cfg, base, PAGE)]);
      PageStored(cfg, w, r.pages, base);
      ApplyPage(g, cfg, r, base);
      pages := RunPages(g, cfg, w', r', base + PAGE, last);
      RunCons(g, r, PageRecord(cfg, base), EmitPages(cfg, w', base + PAGE, last).recs);
    }
  }

  lemma CodeScattered(g: Garbage, cfg: Config, w: WState, pages: Pages, addr: u64, size: int)
    requires cfg.perInsn && CodeKnown(cfg, w, pages)
    requires 0 <= size == cfg.length(addr) && addr + size <= TWO_TO_THE_64
    ensures CodeKnown(cfg, w.(sent := w.sent + {addr}), Scatter(g, pages, addr, CodeBytes(cfg, addr, size)))
  {
    hide Scatter, ByteAt, PageOf;
    var w' := w.(sent := w.sent + {addr});
    var p := Scatter(g, pages, addr, CodeBytes(cfg, addr, size));
    forall x: u64 | SentByte(cfg, w', x) ensures PageOf(x) in p && ByteAt(p, x) == cfg.code(x) {
      ScatterBytes(g, pages, addr, CodeBytes(cfg, addr, size), x);
      if !(addr <= x < addr + size) {
        var a :| a in w'.sent && a <= x < a + cfg.length(a);
        assert a in w.sent;
        assert SentByte(cfg, w, x);
      }
    }
  }

  lemma ApplyVariable(g: Garbage, cfg: Config, r: RState, addr: u64, size: int)
    requires PointersOk(r) && 0 <= size <= 15 && addr + size <= TWO_TO_THE_64
    ensures var code := CodeBytes(cfg, addr, size);
      Apply(g, r, Record.Other(ICACHE_VARIABLE, LE8(addr) + code))
          == Continue(r.(pages := Scatter(g, r.pages, addr, code)), [])
  {
    var data := LE8(addr) + CodeBytes(cfg, addr, size);
    assert data[..8] == LE8(addr) && data[8..] == CodeBytes(cfg, addr, size);
    assert U64(data[..8]) == addr by { FieldRoundTrip(); }
  }

  lemma PagesCover(cfg: Config, w: WState, addr: u64, size: int)
    requires !cfg.perInsn && 1 <= size <= 15 && addr + size <= TWO_TO_THE_64 - PAGE
    ensures var e := EmitPages(cfg, w, PageOf(addr), PageOf(addr + size - 1));
            forall x: u64 :: addr <= x < addr + size ==> SentByte(cfg, e.w, x)
  {
    PagesSent(cfg, w, PageOf(addr), PageOf(addr + size - 1));
    forall x: u64 | addr <= x < addr + size ensures PageOf(addr) <= PageOf(x) <= PageOf(addr + size - 1) {
      PageOrder(addr, x);
      PageOrder(x, addr + size - 1);
    }
  }

  /** After the code records of an instruction, the reader holds all of the instruction's bytes. */
  lemma RunCode(g: Garbage, cfg: Config, w: WState, r: RState, addr: u64, size: int) returns (pages: Pages)
    requires PointersOk(r) && CodeKnown(cfg, w, r.pages)
    requires 1 <= size <= 15 && size == cfg.length(addr)
    requires addr + size <= TWO_TO_THE_64 - (if cfg.perInsn then 0 else PAGE)
    ensures var e := EmitCode(cfg, w, addr, size);
      && Run(g, r, e.recs) == Outcome([], r.(pages := pages), Open)
      && CodeKnown(cfg, e.w, pages) && e.w == w.(sent := e.w.sent)
      && (forall x: u64 :: addr <= x < addr + size ==> SentByte(cfg, e.w, x))
  {
    hide CodeKnown, Apply;
    var e := EmitCode(cfg, w, addr, size);
    if !cfg.perInsn {
      pages := RunPages(g, cfg, w, r, PageOf(addr), PageOf(addr + size - 1));
      PagesSent(cfg, w, PageOf(addr), PageOf(addr + size - 1));
      PagesCover(cfg, w, addr, size);
    } else if addr in w.sent {
      pages := r.pages;
    } else {
      pages := Scatter(g, r.pages, addr, CodeBytes(cfg, addr, size));
      CodeScattered(g, cfg, w, r.pages, addr, size);
      ApplyVariable(g, cfg, r, addr, size);
      RunOne(g, r, e.recs[0]);
    }
  }

  lemma PageOrder(a: u64, b: u64)
    requires a <= b
    ensures PageOf(a) <= PageOf(b)
  {
  }

  // ----- address translations

  lemma RunTranslation(g: Garbage, cfg: Config, w: WState, r: RState, va: u64)
    requires PointersOk(r) && r.vcache == w.frames
    ensures var e := EmitTranslation(cfg, w, va);
      Run(g, r, e.recs) == Outcome([], r.(vcache := e.w.frames), Open)
  {
    var e := EmitTranslation(cfg, w, va);
    if e.recs != [] {
      var vp, pp := va / PAGE, cfg.frames(|w.lookups|, va / PAGE);
      var data := LE8(vp) + LE8(pp);
      assert data[..8] == LE8(vp) && data[8..16] == LE8(pp);
      assert U64(data[..8]) == vp && U64(data[8..16]) == pp by { FieldRoundTrip(); }
      RunOne(g, r, e.recs[0]);
    }
  }

  lemma {:induction false} RunTranslations(g: Garbage, cfg: Config, w: WState, r: RState, vas: seq<u64>)
    requires PointersOk(r) && r.vcache == w.frames
    ensures var e := EmitTranslations(cfg, w, vas);
      && Run(g, r, e.recs) == Outcome([], r.(vcache := e.w.frames), Open)
      && e.w == w.(frames := e.w.frames, lookups := e.w.lookups)
    decreases |vas|
  {
    if |vas| > 0 {
      var first := EmitTranslation(cfg, w, vas[0]);
      var tail := EmitTranslations(cfg, first.w, vas[1..]);
      RunTranslation(g, cfg, w, r, vas[0]);
      RunTranslations(g, cfg, first.w, r.(vcache := first.w.frames), vas[1..]);
      RunConcat(g, r, first.recs, tail.recs);
    }
  }

  // ----- instructions

  /** Code-byte coverage: a decode finds every page it needs and yields code memory. */
  lemma DecodeYieldsCode(cfg: Config, w: WState, pages: Pages, addr: u64, size: int)
    requires CodeKnown(cfg, w, pages) && 0 <= size && addr + size <= TWO_TO_THE_64
    requires forall x: u64 :: addr <= x < addr + size ==> SentByte(cfg, w, x)
    ensures Gather(pages, addr, size) == Some(CodeBytes(cfg, addr, size))
  {
    GatherBytes(pages, addr, size);
    assert Covered(pages, addr, size);
    var data := Gather(pages, addr, size).value;
    forall i | 0 <= i < size ensures data[i] == cfg.code(addr + i) {
      var x: u64 := addr + i;
      assert SentByte(cfg, w, x);
      assert data[x - addr] == ByteAt(pages, x);
    }
    assert data == CodeBytes(cfg, addr, size);
  }

  /** Under the relation, every lookup finds the instruction at that address as code memory has it. */
  lemma LookupYieldsCode(cfg: Config, w: WState, r: RState, addr: u64, size: int)
    requires PointersOk(r) && CodeKnown(cfg, w, r.pages) && forall a :: a in r.sinsts ==> Decoded(cfg, a, r.sinsts[a])
    requires 0 <= size == cfg.length(addr) && addr + size <= TWO_TO_THE_64
    requires forall x: u64 :: addr <= x < addr + size ==> SentByte(cfg, w, x)
    ensures var f := Lookup(r, addr, size);
      && f.Found? && f.sinst == StaticInst(size, CodeBytes(cfg, addr, size)) && PointersOk(f.r)
      && (forall a :: a in f.r.sinsts ==> Decoded(cfg, a, f.r.sinsts[a]))
      && f.r.pages == r.pages && f.r.vcache == r.vcache && f.r.last == r.last && f.r.isa == r.isa
  {
    DecodeYieldsCode(cfg, w, r.pages, addr, size);
    LookupRefinesMap(r, addr, size);
    if addr in r.sinsts {
      assert Decoded(cfg, addr, r.sinsts[addr]);
    }
  }

  lemma ApplyInstruction(g: Garbage, cfg: Config, w: WState, r: RState, call: Call) returns (r': RState)
    requires call.Instruction? && Admissible(cfg, call) && InStep(cfg, w, r)
    requires forall x: u64 :: call.addr <= x < call.addr + call.size ==> SentByte(cfg, w, x)
    ensures Apply(g, r, InstructionRecord(w.last, call)) == Return(r', Shown(cfg, r.isa, w.last, call)[0])
    ensures InStep(cfg, w.(last := NextLast(w.last, call)), r') && r'.isa == r.isa
  {
    hide SentByte, CodeKnown, Decoded, Lookup, CodeBytes;
    var r1 := r.(last := NextLast(w.last, call));
    LookupYieldsCode(cfg, w, r1, call.addr, call.size);
    r' := Lookup(r1, call.addr, call.size).r;
    CodeKnownIgnoresLast(cfg, w, NextLast(w.last, call), r.pages);
  }

  lemma CodeKnownIgnoresLast(cfg: Config, w: WState, last: u64, pages: Pages)
    requires CodeKnown(cfg, w, pages)
    ensures CodeKnown(cfg, w.(last := last), pages)
  {
    forall x: u64 | SentByte(cfg, w.(last := last), x) ensures SentByte(cfg, w, x) {}
  }

  lemma CodeKnownIgnoresFrames(cfg: Config, w: WState, w': WState, pages: Pages)
    requires CodeKnown(cfg, w, pages) && w'.sent == w.sent
    ensures CodeKnown(cfg, w', pages)
    ensures forall x: u64 :: SentByte(cfg, w, x) ==> SentByte(cfg, w', x)
  {
    forall x: u64 | SentByte(cfg, w', x) ensures SentByte(cfg, w, x) {}
    forall x: u64 | SentByte(cfg, w, x) ensures SentByte(cfg, w', x) {}
  }

  lemma RunInstruction(g: Garbage, cfg: Config, w: WState, r: RState, call: Call) returns (r': RState)
    requires call.Instruction? && Admissible(cfg, call) && InStep(cfg, w, r)
    ensures var e := Emit(cfg, w, call);
      && Run(g, r, e.recs) == Outcome(Shown(cfg, r.isa, w.last, call), r', Open)
      && InStep(cfg, e.w, r') && e.w.last == NextLast(w.last, call) && r'.isa == r.isa
  {
    hide SentByte, CodeKnown, Decoded, EmitCode, EmitTranslations, Apply, Run, SiftReading.PointersOk;
    var pages := RunCode(g, cfg, w, r, call.addr, call.size);
    var code := EmitCode(cfg, w, call.addr, call.size);
    var r1 := r.(pages := pages);
    RunTranslations(g, cfg, code.w, r1, [call.addr] + call.addrs);
    var trans := EmitTranslations(cfg, code.w, [call.addr] + call.addrs);
    var r2 := r1.(vcache := trans.w.frames);
    CodeKnownIgnoresFrames(cfg, code.w, trans.w, pages);
    assert InStep(cfg, trans.w, r2);
    r' := ApplyInstruction(g, cfg, trans.w, r2, call);
    var rec := InstructionRecord(w.last, call);
    RunThree(g, r, code.recs, r1, trans.recs, r2, rec);
  }

  lemma RunThree(g: Garbage, r: RState, a: seq<Record>, r1: RState, b: seq<Record>, r2: RState, rec: Record)
    requires PointersOk(r) && AllWellFormed(a) && AllWellFormed(b) && WellFormed(rec)
    requires Run(g, r, a) == Outcome([], r1, Open) && Run(g, r1, b) == Outcome([], r2, Open)
    requires Apply(g, r2, rec).Return?
    ensures Run(g, r, a + b + [rec]) == Outcome([Apply(g, r2, rec).inst], Apply(g, r2, rec).r, Open)
  {
    hide Apply, WellFormed, PointersOk, Run;
    RunConcat(g, r, a, b);
    RunConcat(g, r, a + b, [rec]);
    RunOne(g, r2, rec);
  }

  // ----- the other calls

  lemma CacheOnlyFields(icount: byte, what: byte, x: seq<byte>, y: seq<byte>)
    requires |x| == |y| == 8
    ensures var data := [icount, what] + x + y;
      data[0] == icount && data[1] == what && data[2..10] == x && data[10..18] == y
  {
  }

  lemma RoutineFields(event: byte, x: seq<byte>, y: seq<byte>, z: seq<byte>)
    requires |x| == |y| == |z| == 8
    ensures var data := [event] + x + y + z;
      data[0] == event && data[1..9] == x && data[9..17] == y && data[17..25] == z
  {
  }

  lemma ApplyFields(g: Garbage, cfg: Config, w: WState, r: RState, call: Call)
    requires !call.Instruction? && Admissible(cfg, call) && PointersOk(r)
    ensures var e := Emit(cfg, w, call);
      && |e.recs| > 0
      && Apply(g, r, e.recs[|e.recs| - 1])
         == Continue(r.(isa := NextIsa(r.isa, call)), Shown(cfg, r.isa, w.last, call))
  {
    var rec := Emit(cfg, w, call).recs[|Emit(cfg, w, call).recs| - 1];
    FieldRoundTrip();
    match call
    case CacheOnly(icount, what, eip, address) => CacheOnlyFields(icount, what, LE8(eip), LE8(address));
    case Output(fd, bytes) => assert rec.data[1..] == bytes;
    case RoutineChange(event, eip, esp, callEip) =>
      RoutineFields(event, LE8(eip), LE8(esp), LE8(callEip));
    case RoutineAnnounce(_, _, _, _, _, _, _) =>
    case ISAChange(_) =>
  }

  lemma RunCallback(g: Garbage, cfg: Config, w: WState, r: RState, call: Call) returns (r': RState)
    requires !call.Instruction? && Admissible(cfg, call) && InStep(cfg, w, r)
    ensures var e := Emit(cfg, w, call);
      && Run(g, r, e.recs) == Outcome(Shown(cfg, r.isa, w.last, call), r', Open)
      && InStep(cfg, e.w, r') && e.w.last == w.last && r'.isa == NextIsa(r.isa, call)
  {
    hide SentByte, CodeKnown, Decoded, EmitTranslation, Apply, Run, Shown;
    var e := Emit(cfg, w, call);
    var vas := if call.CacheOnly? then [call.eip, call.address] else [];
    var trans := EmitTranslations(cfg, w, vas);
    RunTranslations(g, cfg, w, r, vas);
    var r1 := r.(vcache := trans.w.frames);
    var rec := e.recs[|e.recs| - 1];
    assert e.recs == trans.recs + [rec] && e.w == trans.w;
    ApplyFields(g, cfg, w, r1, call);
    r' := r1.(isa := NextIsa(r.isa, call));
    CodeKnownIgnoresFrames(cfg, w, trans.w, r.pages);
    RunConcat(g, r, trans.recs, [rec]);
    RunOne(g, r1, rec);
  }

  /** One call: the reader shows exactly what the call said, and the two sides are in step again. */
  lemma RunCall(g: Garbage, cfg: Config, w: WState, r: RState, call: Call) returns (r': RState)
    requires Admissible(cfg, call) && InStep(cfg, w, r)
    ensures var e := Emit(cfg, w, call);
      && Run(g, r, e.recs) == Outcome(Shown(cfg, r.isa, w.last, call), r', Open)
      && InStep(cfg, e.w, r') && e.w.last == NextLast(w.last, call) && r'.isa == NextIsa(r.isa, call)
  {
    if call.Instruction? {
      r' := RunInstruction(g, cfg, w, r, call);
    } else {
      r' := RunCallback(g, cfg, w, r, call);
    }
  }

  lemma {:induction false} RunCalls(g: Garbage, cfg: Config, w: WState, r: RState, calls: seq<Call>)
      returns (r': RState)
    requires AllAdmissible(cfg, calls) && InStep(cfg, w, r)
    ensures var e := EmitAll(cfg, w, calls);
      && Run(g, r, e.recs) == Outcome(ShownAll(cfg, r.isa, w.last, calls), r', Open)
      && InStep(cfg, e.w, r')
    decreases |calls|
  {
    if |calls| == 0 {
      r' := r;
    } else {
      var first := Emit(cfg, w, calls[0]);
      var r1 := RunCall(g, cfg, w, r, calls[0]);
      r' := RunCalls(g, cfg, first.w, r1, calls[1..]);
      RunConcat(g, r, first.recs, EmitAll(cfg, first.w, calls[1..]).recs);
    }
  }

  /**
   The whole-trace round trip. For every program image, every option setting, every content of
   uninitialised memory and every admissible list of calls ended by End, reading the trace shows
   the backend exactly the calls, in order, and then the end; and at the end the two sides agree.
   */
  lemma RoundTrip(g: Garbage, cfg: Config, calls: seq<Call>)
    requires AllAdmissible(cfg, calls)
    ensures var o := RunBytes(g, START, Trace(cfg, calls));
      && o.items == ShownAll(cfg, 0, 0, calls)
      && o.status == Ended
      && InStep(cfg, EmitAll(cfg, FRESH, calls).w, o.r)
  {
    var recs := EmitAll(cfg, FRESH, calls).recs;
    assert InStep(cfg, FRESH, START);
    var r := RunCalls(g, cfg, FRESH, START, calls);
    RunConcat(g, START, recs, [END_RECORD]);
    RunEncoded(g, START, recs + [END_RECORD]);
  }
}
