/** The trace writer: an object that appends bytes to its output stream, call by call. */
module SiftWriter {
  import opened Bytes
  import opened SiftRecords
  import opened SiftMemory
  import opened SiftWriting

  const MAGIC_NUMBER: u32 := 0x54464953
  const ARCH_IA32: int := 2
  const ICACHE_PER_INSN: int := 4
  const PHYSICAL_ADDRESS: int := 8

  function Options(cfg: Config): (o: u64)
  {
    (if cfg.arch32 then ARCH_IA32 else 0) + (if cfg.perInsn then ICACHE_PER_INSN else 0)
    + (if cfg.sendPhysical then PHYSICAL_ADDRESS else 0)
  }

  /** Magic number, size of the extra header, option bits. */
  function Header(cfg: Config): (s: seq<byte>)
    ensures |s| == 16
  {
    LE4(MAGIC_NUMBER) + LE4(0) + LE8(Options(cfg))
  }

  lemma {:induction false} EncodeAllConcat(a: seq<Record>, b: seq<Record>)
    requires AllWellFormed(a) && AllWellFormed(b)
    ensures EncodeAll(a + b) == EncodeAll(a) + EncodeAll(b)
    decreases |a|
  {
    hide WellFormed, Encode;
    if |a| == 0 {
      assert a + b == b;
    } else {
      assert (a + b)[1..] == a[1..] + b;
      EncodeAllConcat(a[1..], b);
    }
  }

  lemma EncodeNone()
    ensures EncodeAll([]) == []
  {
  }

  lemma PagesDone(cfg: Config, w: WState, base: u64, last: u64)
    requires base % PAGE == 0 && last % PAGE == 0 && last + PAGE < TWO_TO_THE_64 && base > last
    ensures EmitPages(cfg, w, base, last) == Emission([], w)
  {
  }

  lemma TranslationsDone(cfg: Config, w: WState, vas: seq<u64>)
    requires vas == []
    ensures EmitTranslations(cfg, w, vas) == Emission([], w)
  {
  }

  lemma EncodeOne(rec: Record)
    requires WellFormed(rec)
    ensures EncodeAll([rec]) == Encode(rec)
  {
    hide WellFormed, Encode;
    var rest: seq<Record> := [rec][1..];
    assert rest == [];
  }

  /** Of the emission `total`, `done` has been written and `rest` is still to come. */
  ghost predicate Progress(total: Emission, done: seq<Record>, rest: Emission)
  {
    AllWellFormed(done) && total == Emission(done + rest.recs, rest.w)
  }

  lemma PagesProgress(cfg: Config, total: Emission, done: seq<Record>, w: WState, base: u64, last: u64)
    requires base % PAGE == 0 && last % PAGE == 0 && last + PAGE < TWO_TO_THE_64 && base <= last
    requires Progress(total, done, EmitPages(cfg, w, base, last))
    ensures if base in w.sent then Progress(total, done, EmitPages(cfg, w, base + PAGE, last))
            else Progress(total, done + [PageRecord(cfg, base)],
                          EmitPages(cfg, w.(sent := w.sent + {base}), base + PAGE, last))
    ensures AllWellFormed(done) && EncodeAll(done + [PageRecord(cfg, base)])
            == EncodeAll(done) + EncodeAll([PageRecord(cfg, base)])
  {
    hide PageRecord, WellFormed, EncodeAll;
    EncodeAllConcat(done, [PageRecord(cfg, base)]);
    var tail := EmitPages(cfg, w.(sent := w.sent + {base}), base + PAGE, last);
    assert done + ([PageRecord(cfg, base)] + tail.recs) == done + [PageRecord(cfg, base)] + tail.recs;
  }

  /** An instruction record in bytes: its head, short or full, and the dynamic addresses. */
  lemma InstructionBytes(last: u64, call: Call)
    requires call.Instruction? && 1 <= call.size <= 15 && |call.addrs| <= MAX_DYNAMIC_ADDRESSES
    ensures WellFormed(InstructionRecord(last, call))
    ensures call.addr == last && !call.isPredicate ==>
      EncodeAll([InstructionRecord(last, call)])
      == [SimpleByte(call.size, |call.addrs|, call.isBranch, call.taken)] + EncodeAddrs(call.addrs)
    ensures call.addr != last || call.isPredicate ==>
      EncodeAll([InstructionRecord(last, call)])
      == [16 * call.size, FlagByte(|call.addrs|, call.isBranch, call.taken, call.isPredicate, call.executed)]
         + LE8(call.addr) + EncodeAddrs(call.addrs)
  {
    hide EncodeAll, EncodeAddrs, SimpleByte, FlagByte, LE8;
    EncodeOne(InstructionRecord(last, call));
  }

  lemma PageFields(cfg: Config, base: u64)
    requires base + PAGE <= TWO_TO_THE_64
    ensures PageRecord(cfg, base) == Other(ICACHE, LE8(base) + CodeBytes(cfg, base, PAGE))
            && WellFormed(PageRecord(cfg, base))
  {
  }

  lemma TranslationsProgress(cfg: Config, total: Emission, done: seq<Record>, w: WState, vas: seq<u64>)
    requires |vas| > 0 && Progress(total, done, EmitTranslations(cfg, w, vas))
    ensures var first := EmitTranslation(cfg, w, vas[0]);
      && Progress(total, done + first.recs, EmitTranslations(cfg, first.w, vas[1..]))
      && AllWellFormed(done) && EncodeAll(done + first.recs) == EncodeAll(done) + EncodeAll(first.recs)
  {
    hide EmitTranslation, WellFormed, EncodeAll;
    var first := EmitTranslation(cfg, w, vas[0]);
    var tail := EmitTranslations(cfg, first.w, vas[1..]);
    EncodeAllConcat(done, first.recs);
    assert done + (first.recs + tail.recs) == done + first.recs + tail.recs;
  }

  class Writer {
    const cfg: Config
    var isOpen: bool
    var output: seq<byte>
    var last: u64
    var icache: set<u64>
    // The frame sent for each page, and every page lookup made so far.
    var va2pa: map<u64, u64>
    var lookups: seq<(u64, u64)>

    ghost function State(): (w: WState)
      reads this
    {
      WState(last, icache, va2pa, lookups)
    }

    /** The output stream and the state are what `e` says, starting from `out` . */
    ghost predicate Wrote(out: seq<byte>, e: Emission)
      requires AllWellFormed(e.recs)
      reads this
    {
      output == out + EncodeAll(e.recs) && State() == e.w
    }

    constructor (cfg: Config)
      ensures this.cfg == cfg && isOpen && output == Header(cfg) && State() == FRESH
    {
      this.cfg := cfg;
      isOpen := true;
      output := Header(cfg);
      last := 0;
      icache := {};
      va2pa := map[];
      lookups := [];
    }

    method WriteOther(kind: byte, data: seq<byte>)
      requires WellFormed(Other(kind, data))
      modifies this`output
      ensures output == old(output) + EncodeAll([Other(kind, data)])
    {
      EncodeOne(Other(kind, data));
      output := output + OtherHeader(kind, |data|);
      output := output + data;
    }

    /** Page mode: send each page from that of the first byte to that of the last, unless sent before. */
    method SendPages(addr: u64, size: int)
      requires 1 <= size <= 15 && addr + size <= TWO_TO_THE_64 - PAGE
      modifies this`output, this`icache
      ensures Wrote(old(output), EmitPages(cfg, old(State()), PageOf(addr), PageOf(addr + size - 1)))
    {
      hide EncodeAll, WellFormed, EmitPages, PageRecord, CodeBytes, LE8;
      var base: u64 := PageOf(addr);
      var lastPage := PageOf(addr + size - 1);
      ghost var out0 := output;
      ghost var done: seq<Record> := [];
      ghost var total := EmitPages(cfg, State(), base, lastPage);
      assert output == out0 + EncodeAll(done) by { EncodeNone(); }
      while base <= lastPage
        invariant base % PAGE == 0
        invariant Progress(total, done, EmitPages(cfg, State(), base, lastPage))
        invariant output == out0 + EncodeAll(done)
        decreases lastPage + PAGE - base
      {
        PagesProgress(cfg, total, done, State(), base, lastPage);
        if base !in icache {
          PageFields(cfg, base);
          done := done + [PageRecord(cfg, base)];
          WriteOther(ICACHE, LE8(base) + CodeBytes(cfg, base, PAGE));
          icache := icache + {base};
        }
        base := base + PAGE;
      }
      PagesDone(cfg, State(), base, lastPage);
      assert done + [] == done;
    }

    /** Per-instruction mode: send the bytes of this instruction, unless its address was sent before. */
    method SendInstructionBytes(addr: u64, size: int)
      requires cfg.perInsn && 1 <= size <= 15 && addr + size <= TWO_TO_THE_64
      modifies this`output, this`icache
      ensures Wrote(old(output), EmitCode(cfg, old(State()), addr, size))
    {
      if addr !in icache {
        WriteOther(ICACHE_VARIABLE, LE8(addr) + CodeBytes(cfg, addr, size));
        icache := icache + {addr};
      }
    }

    method SendTranslation(va: u64)
      modifies this`output, this`va2pa, this`lookups
      ensures Wrote(old(output), EmitTranslation(cfg, old(State()), va))
    {
      if cfg.sendPhysical {
        var vp := va / PAGE;
        if vp !in va2pa {
          var pp := cfg.frames(|lookups|, vp);
          lookups := lookups + [(vp, pp)];
          if pp != 0 {
            WriteOther(LOGICAL_TO_PHYSICAL, LE8(vp) + LE8(pp));
            va2pa := va2pa[vp := pp];
          }
        }
      }
    }

    method SendTranslations(vas: seq<u64>)
      modifies this`output, this`va2pa, this`lookups
      ensures Wrote(old(output), EmitTranslations(cfg, old(State()), vas))
    {
      hide EncodeAll, WellFormed, EmitTranslations, EmitTranslation;
      ghost var out0 := output;
      ghost var done: seq<Record> := [];
      ghost var total := EmitTranslations(cfg, State(), vas);
      assert output == out0 + EncodeAll(done) by { EncodeNone(); }
      assert vas[0..] == vas;
      var i := 0;
      while i < |vas|
        invariant 0 <= i <= |vas|
        invariant Progress(total, done, EmitTranslations(cfg, State(), vas[i..]))
        invariant output == out0 + EncodeAll(done)
      {
        TranslationsProgress(cfg, total, done, State(), vas[i..]);
        assert vas[i..][1..] == vas[i + 1..];
        done := done + EmitTranslation(cfg, State(), vas[i]).recs;
        SendTranslation(vas[i]);
        i := i + 1;
      }
      TranslationsDone(cfg, State(), vas[i..]);
      assert done + [] == done;
    }

    method WriteAddresses(addrs: seq<u64>)
      modifies this`output
      ensures output == old(output) + EncodeAddrs(addrs)
    {
      ghost var out0 := output;
      for i := 0 to |addrs|
        invariant output == out0 + EncodeAddrs(addrs[..i])
      {
        EncodeAddrsAppend(addrs[..i], addrs[i]);
        assert addrs[..i + 1] == addrs[..i] + [addrs[i]];
        output := output + LE8(addrs[i]);
      }
      assert addrs[..|addrs|] == addrs;
    }

    /** The instruction record itself: one byte if the address is the expected one, the full form otherwise. */
    method WriteInstruction(call: Call)
      requires call.Instruction? && 1 <= call.size <= 15 && |call.addrs| <= MAX_DYNAMIC_ADDRESSES
      modifies this`output, this`last
      ensures output == old(output) + EncodeAll([InstructionRecord(old(last), call)])
      ensures last == (call.addr + call.size) % TWO_TO_THE_64
    {
      hide EncodeAll, EncodeAddrs, InstructionRecord, SimpleByte, FlagByte, LE8;
      InstructionBytes(last, call);
      if call.addr == last && !call.isPredicate {
        output := output + [SimpleByte(call.size, |call.addrs|, call.isBranch, call.taken)];
      } else {
        output := output
                  + [16 * call.size, FlagByte(|call.addrs|, call.isBranch, call.taken, call.isPredicate, call.executed)]
                  + LE8(call.addr);
        last := call.addr;
      }
      WriteAddresses(call.addrs);
      last := (last + call.size) % TWO_TO_THE_64;
    }

    method Instruction(call: Call)
      requires call.Instruction? && Admissible(cfg, call)
      modifies this
      ensures isOpen == old(isOpen)
      ensures isOpen ==> Wrote(old(output), Emit(cfg, old(State()), call))
      ensures !isOpen ==> unchanged(this)
    {
      hide EncodeAll, WellFormed, EmitCode, EmitTranslations, InstructionRecord;
      if !isOpen { return; }
      ghost var out0, w0 := output, State();
      ghost var code := EmitCode(cfg, w0, call.addr, call.size);
      if cfg.perInsn {
        SendInstructionBytes(call.addr, call.size);
      } else {
        SendPages(call.addr, call.size);
        PageModeCode(cfg, w0, call.addr, call.size);
      }
      CodeKeepsLast(cfg, w0, call.addr, call.size);
      ghost var trans := EmitTranslations(cfg, code.w, [call.addr] + call.addrs);
      SendTranslations([call.addr] + call.addrs);
      TranslationsKeepLast(cfg, code.w, [call.addr] + call.addrs);
      WriteInstruction(call);
      InstructionRecordWellFormed(w0.last, call);
      EncodeThree(code.recs, trans.recs, InstructionRecord(w0.last, call));
    }

    method CacheOnly(icount: byte, what: byte, eip: u64, address: u64)
      modifies this
      ensures isOpen == old(isOpen)
      ensures isOpen ==> Wrote(old(output), Emit(cfg, old(State()), Call.CacheOnly(icount, what, eip, address)))
      ensures !isOpen ==> unchanged(this)
    {
      hide EncodeAll, EmitTranslations;
      if !isOpen { return; }
      ghost var trans := EmitTranslations(cfg, State(), [eip, address]);
      SendTranslations([eip, address]);
      var data := [icount, what] + LE8(eip) + LE8(address);
      WriteOther(CACHE_ONLY, data);
      EncodeAllConcat(trans.recs, [Other(CACHE_ONLY, data)]);
    }

    method Output(fd: byte, bytes: seq<byte>)
      requires 0 < |bytes| < TWO_TO_THE_32 - 1
      modifies this
      ensures isOpen == old(isOpen)
      ensures isOpen ==> Wrote(old(output), Emit(cfg, old(State()), Call.Output(fd, bytes)))
      ensures !isOpen ==> unchanged(this)
    {
      if !isOpen { return; }
      WriteOther(OUTPUT, [fd] + bytes);
    }

    method RoutineChange(event: byte, eip: u64, esp: u64, callEip: u64)
      modifies this
      ensures isOpen == old(isOpen)
      ensures isOpen ==> Wrote(old(output), Emit(cfg, old(State()), Call.RoutineChange(event, eip, esp, callEip)))
      ensures !isOpen ==> unchanged(this)
    {
      if !isOpen { return; }
      WriteOther(ROUTINE_CHANGE, [event] + LE8(eip) + LE8(esp) + LE8(callEip));
    }

    method RoutineAnnounce(eip: u64, name: seq<byte>, img: seq<byte>, offset: u64, line: u32, column: u32,
                           file: seq<byte>)
      modifies this
      ensures isOpen == old(isOpen)
      ensures isOpen ==>
                Wrote(old(output), Emit(cfg, old(State()), Call.RoutineAnnounce(eip, name, img, offset, line, column,
                    file)))
      ensures !isOpen ==> unchanged(this)
    {
      hide EncodeAll, AnnounceBody, Sent;
      if !isOpen { return; }
      var rec := Announce(eip, Sent(name), Sent(img), offset, line, column, Sent(file));
      EncodeOne(rec);
      output := output + OtherHeader(ROUTINE_ANNOUNCE, 30 + |rec.name| + |rec.img| + |rec.file|);
      output := output + AnnounceBody(rec);
    }

    method ISAChange(isa: u32)
      modifies this
      ensures isOpen == old(isOpen)
      ensures isOpen ==> Wrote(old(output), Emit(cfg, old(State()), Call.ISAChange(isa)))
      ensures !isOpen ==> unchanged(this)
    {
      if !isOpen { return; }
      WriteOther(ISA_CHANGE, LE4(isa));
    }

    /** Write the End record, once, and close. */
    method End()
      modifies this
      ensures !isOpen && State() == old(State())
      ensures output == if old(isOpen) then old(output) + EncodeAll([END_RECORD]) else old(output)
    {
      if !isOpen { return; }
      WriteOther(END, []);
      isOpen := false;
    }
  }

  lemma {:induction false} EncodeAddrsAppend(addrs: seq<u64>, a: u64)
    ensures EncodeAddrs(addrs + [a]) == EncodeAddrs(addrs) + LE8(a)
    decreases |addrs|
  {
    if |addrs| > 0 {
      assert (addrs + [a])[1..] == addrs[1..] + [a];
      EncodeAddrsAppend(addrs[1..], a);
    } else {
      assert addrs + [a] == [a];
      var rest: seq<u64> := [a][1..];
      assert rest == [];
    }
  }

  lemma EncodeThree(a: seq<Record>, b: seq<Record>, rec: Record)
    requires AllWellFormed(a) && AllWellFormed(b) && WellFormed(rec)
    ensures EncodeAll(a + b + [rec]) == EncodeAll(a) + EncodeAll(b) + EncodeAll([rec])
  {
    EncodeAllConcat(a, b);
    EncodeAllConcat(a + b, [rec]);
  }

  lemma InstructionRecordWellFormed(last: u64, call: Call)
    requires call.Instruction? && 1 <= call.size <= 15 && |call.addrs| <= MAX_DYNAMIC_ADDRESSES
    ensures WellFormed(InstructionRecord(last, call))
  {
  }

  lemma PageModeCode(cfg: Config, w: WState, addr: u64, size: int)
    requires !cfg.perInsn && 1 <= size <= 15 && addr + size <= TWO_TO_THE_64 - PAGE
    ensures EmitCode(cfg, w, addr, size) == EmitPages(cfg, w, PageOf(addr), PageOf(addr + size - 1))
  {
  }

  lemma CodeKeepsLast(cfg: Config, w: WState, addr: u64, size: int)
    requires 1 <= size <= 15 && addr + size <= TWO_TO_THE_64 - (if cfg.perInsn then 0 else PAGE)
    ensures EmitCode(cfg, w, addr, size).w.last == w.last
  {
    if !cfg.perInsn { PagesKeepLast(cfg, w, PageOf(addr), PageOf(addr + size - 1)); }
  }

  lemma {:induction false} PagesKeepLast(cfg: Config, w: WState, base: u64, last: u64)
    requires base % PAGE == 0 && last % PAGE == 0 && last + PAGE < TWO_TO_THE_64
    ensures EmitPages(cfg, w, base, last).w.last == w.last
    decreases last + PAGE - base
  {
    if base <= last {
      PagesKeepLast(cfg, if base in w.sent then w else w.(sent := w.sent + {base}), base + PAGE, last);
    }
  }

  lemma {:induction false} TranslationsKeepLast(cfg: Config, w: WState, vas: seq<u64>)
    ensures EmitTranslations(cfg, w, vas).w.last == w.last
    decreases |vas|
  {
    if |vas| > 0 { TranslationsKeepLast(cfg, EmitTranslation(cfg, w, vas[0]).w, vas[1..]); }
  }
}
