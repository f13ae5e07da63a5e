/**
 What the trace writer emits for each of its calls, on values: code bytes once per page or once
 per instruction address, address translations once per page, and the short or full form of each
 instruction.
 */
module SiftWriting {
  import opened Bytes
  import opened SiftRecords
  import opened SiftMemory

  /**
   The traced program and the writer's options. `code` is code memory, `length` the length of the
   instruction at an address, and `frames(k, vp)` the frame number that the k-th page lookup finds
   for virtual page vp (0 when the page is not mapped at that time).
   */
  datatype Config = Config(
    perInsn: bool,
    sendPhysical: bool,
    arch32: bool,
    code: u64 -> byte,
    length: u64 -> int,
    frames: (nat, u64) -> u64)

  /** `sent` holds the code pages, or instruction addresses, already written; `lookups` every lookup made. */
  datatype WState = WState(last: u64, sent: set<u64>, frames: map<u64, u64>, lookups: seq<(u64, u64)>)

  const FRESH := WState(0, {}, map[], [])

  datatype Call =
    | Instruction(addr: u64, size: int, addrs: seq<u64>, isBranch: bool, taken: bool, isPredicate: bool, executed: bool)
    | CacheOnly(icount: byte, what: byte, eip: u64, address: u64)
    | Output(fd: byte, bytes: seq<byte>)
    | RoutineChange(event: byte, eip: u64, esp: u64, callEip: u64)
    | RoutineAnnounce(eip: u64, name: seq<byte>, img: seq<byte>, offset: u64, line: u32, column: u32, file: seq<byte>)
    | ISAChange(isa: u32)

  datatype Emission = Emission(recs: seq<Record>, w: WState)

  /**
   What the writer and the format ask of a caller: sizes 1 to 15, at most two addresses, one size
   per address, non-empty output, and in page mode no instruction that reaches the topmost page.
   */
  ghost predicate Admissible(cfg: Config, call: Call)
  {
    match call
    case Instruction(addr, size, addrs, _, _, _, _) =>
      && 1 <= size <= 15 && size == cfg.length(addr)
      && |addrs| <= MAX_DYNAMIC_ADDRESSES
      && addr + size <= TWO_TO_THE_64 - (if cfg.perInsn then 0 else PAGE)
    case Output(_, bytes) => 0 < |bytes| < TWO_TO_THE_32 - 1
    case _ => true
  }

  function CodeBytes(cfg: Config, addr: u64, n: nat): (s: seq<byte>)
    requires addr + n <= TWO_TO_THE_64
    ensures |s| == n
  {
    seq<byte>(n, i requires 0 <= i < n => cfg.code(addr + i))
  }

  function PageRecord(cfg: Config, base: u64): (rec: Record)
    requires base + PAGE <= TWO_TO_THE_64
    ensures WellFormed(rec)
  {
    Other(ICACHE, LE8(base) + CodeBytes(cfg, base, PAGE))
  }

  /** Code pages from `base` to `last` that were not sent before. */
  function EmitPages(cfg: Config, w: WState, base: u64, last: u64): (e: Emission)
    requires base % PAGE == 0 && last % PAGE == 0 && last + PAGE < TWO_TO_THE_64
    ensures AllWellFormed(e.recs)
    decreases last + PAGE - base
  {
    if base > last then Emission([], w)
    else if base in w.sent then EmitPages(cfg, w, base + PAGE, last)
    else
      var tail := EmitPages(cfg, w.(sent := w.sent + {base}), base + PAGE, last);
      Emission([PageRecord(cfg, base)] + tail.recs, tail.w)
  }

  /** The page at which the writer's page loop stands after k rounds, with the wrap-around of its 64-bit variable. */
  function PageAfter(base: u64, k: nat): (p: u64) { (base + k * PAGE) % TWO_TO_THE_64 }

  /** The page loop ends exactly if its last page is not the topmost one of the address space. */
  lemma PageLoopEndsIff(base: u64, last: u64)
    requires base % PAGE == 0 && last % PAGE == 0
    ensures (exists k: nat :: PageAfter(base, k) > last) <==> last + PAGE < TWO_TO_THE_64
  {
    if base > last {
      assert PageAfter(base, 0) > last;
    } else if last + PAGE < TWO_TO_THE_64 {
      var k := (last + PAGE - base) / PAGE;
      assert k * PAGE == last + PAGE - base;
      assert PageAfter(base, k) == last + PAGE;
    } else {
      forall k: nat ensures PageAfter(base, k) <= last { PageStaysAligned(base, k); }
    }
  }

  lemma PageStaysAligned(base: u64, k: nat)
    requires base % PAGE == 0
    ensures PageAfter(base, k) % PAGE == 0
  {
    var x := base + k * PAGE;
    assert x == PAGE * (base / PAGE + k);
    assert x % TWO_TO_THE_64 == x - TWO_TO_THE_64 * (x / TWO_TO_THE_64);
    assert TWO_TO_THE_64 == PAGE * (TWO_TO_THE_64 / PAGE);
    assert x % TWO_TO_THE_64 == PAGE * (base / PAGE + k - (TWO_TO_THE_64 / PAGE) * (x / TWO_TO_THE_64));
  }

  function EmitCode(cfg: Config, w: WState, addr: u64, size: int): (e: Emission)
    requires 1 <= size <= 15 && addr + size <= TWO_TO_THE_64 - (if cfg.perInsn then 0 else PAGE)
    ensures AllWellFormed(e.recs)
  {
    if !cfg.perInsn then EmitPages(cfg, w, PageOf(addr), PageOf(addr + size - 1))
    else if addr in w.sent then Emission([], w)
    else Emission([Other(ICACHE_VARIABLE, LE8(addr) + CodeBytes(cfg, addr, size))], w.(sent := w.sent + {addr}))
  }

  function EmitTranslation(cfg: Config, w: WState, va: u64): (e: Emission)
    ensures AllWellFormed(e.recs)
  {
    var vp := va / PAGE;
    if !cfg.sendPhysical || vp in w.frames then Emission([], w) else
    var pp := cfg.frames(|w.lookups|, vp);
    var w' := w.(lookups := w.lookups + [(vp, pp)]);
    if pp == 0 then Emission([], w')
    else Emission([Other(LOGICAL_TO_PHYSICAL, LE8(vp) + LE8(pp))], w'.(frames := w'.frames[vp := pp]))
  }

  function EmitTranslations(cfg: Config, w: WState, vas: seq<u64>): (e: Emission)
    ensures AllWellFormed(e.recs)
    decreases |vas|
  {
    if |vas| == 0 then Emission([], w) else
    var first := EmitTranslation(cfg, w, vas[0]);
    var tail := EmitTranslations(cfg, first.w, vas[1..]);
    Emission(first.recs + tail.recs, tail.w)
  }

  predicate ShortForm(last: u64, call: Call)
    requires call.Instruction?
  {
    call.addr == last && !call.isPredicate
  }

  function InstructionRecord(last: u64, call: Call): (rec: Record)
    requires call.Instruction?
  {
    if ShortForm(last, call) then Simple(call.size, call.isBranch, call.taken, call.addrs)
    else Ext(call.size, call.isBranch, call.taken, call.isPredicate, call.executed, call.addr, call.addrs)
  }

  /** A C string as sent: with its terminator, cut off where the 16-bit length wraps. */
  function Sent(text: seq<byte>): (s: seq<byte>)
    ensures |s| < TWO_TO_THE_16
  {
    (text + [0])[..(|text| + 1) % TWO_TO_THE_16]
  }

  function Emit(cfg: Config, w: WState, call: Call): (e: Emission)
    requires Admissible(cfg, call)
    ensures AllWellFormed(e.recs)
  {
    match call
    case Instruction(addr, size, addrs, _, _, _, _) =>
      var code := EmitCode(cfg, w, addr, size);
      var trans := EmitTranslations(cfg, code.w, [addr] + addrs);
      Emission(code.recs + trans.recs + [InstructionRecord(w.last, call)],
               trans.w.(last := (addr + size) % TWO_TO_THE_64))
    case CacheOnly(icount, what, eip, address) =>
      var trans := EmitTranslations(cfg, w, [eip, address]);
      Emission(trans.recs + [Other(CACHE_ONLY, [icount, what] + LE8(eip) + LE8(address))], trans.w)
    case Output(fd, bytes) => Emission([Other(OUTPUT, [fd] + bytes)], w)
    case RoutineChange(event, eip, esp, callEip) =>
      Emission([Other(ROUTINE_CHANGE, [event] + LE8(eip) + LE8(esp) + LE8(callEip))], w)
    case RoutineAnnounce(eip, name, img, offset, line, column, file) =>
      Emission([Announce(eip, Sent(name), Sent(img), offset, line, column, Sent(file))], w)
    case ISAChange(isa) => Emission([Other(ISA_CHANGE, LE4(isa))], w)
  }

  ghost predicate AllAdmissible(cfg: Config, calls: seq<Call>)
  {
    forall i :: 0 <= i < |calls| ==> Admissible(cfg, calls[i])
  }

  function EmitAll(cfg: Config, w: WState, calls: seq<Call>): (e: Emission)
    requires AllAdmissible(cfg, calls)
    ensures AllWellFormed(e.recs)
    decreases |calls|
  {
    if |calls| == 0 then Emission([], w) else
    var first := Emit(cfg, w, calls[0]);
    var tail := EmitAll(cfg, first.w, calls[1..]);
    Emission(first.recs + tail.recs, tail.w)
  }

  const END_RECORD: Record := Other(END, [])

  /** The whole trace after the header: the calls' records and the closing End record. */
  function Trace(cfg: Config, calls: seq<Call>): (s: seq<byte>)
    requires AllAdmissible(cfg, calls)
  {
    EncodeAll(EmitAll(cfg, FRESH, calls).recs + [END_RECORD])
  }
}
