/**
 What the trace reader does with each record, on values: the static-instruction cache with its
 "probable next" shortcut, the code pages, the address translation table, and the callbacks.
 */
module SiftReading {
  import opened Options
  import opened Bytes
  import opened SiftRecords
  import opened SiftMemory

  datatype StaticInst = StaticInst(size: int, data: seq<byte>)

  /**
   The reader's state between records. A static instruction is named by its address: `next` holds
   the set-once successor pointers and `recent` the instruction returned last.
   */
  datatype RState = RState(
    last: u64,
    pages: Pages,
    sinsts: map<u64, StaticInst>,
    next: map<u64, u64>,
    recent: Option<u64>,
    vcache: map<u64, u64>,
    isa: int)

  const START := RState(0, map[], map[], map[], None, map[], 0)

  /** Everything the pointers can reach is in the map of static instructions. */
  ghost predicate PointersOk(r: RState)
  {
    && (r.recent.Some? ==> r.recent.value in r.sinsts)
    && (forall a :: a in r.next ==> a in r.sinsts && r.next[a] in r.sinsts)
  }

  /** What the backend sees: a returned instruction, or a callback. */
  datatype Item =
    | Inst(addr: u64, size: int, data: seq<byte>, addrs: seq<u64>, isBranch: bool, taken: bool,
           isPredicate: bool, executed: bool, isa: int)
    | CacheOnlySeen(icount: byte, what: byte, eip: u64, address: u64)
    | OutputSeen(fd: byte, bytes: seq<byte>)
    | RoutineChanged(event: byte, eip: u64, esp: u64, callEip: u64)
    | RoutineAnnounced(eip: u64, name: seq<byte>, img: seq<byte>, offset: u64, line: u32, column: u32, file: seq<byte>)
    | Requested(kind: byte, data: seq<byte>)

  datatype Found = Found(sinst: StaticInst, r: RState) | Missing(error: Error)

  /** Patch the previous instruction's `next` pointer if it is still null, and move on. */
  function Remember(r: RState, addr: u64): (r': RState)
    requires PointersOk(r) && addr in r.sinsts
    ensures PointersOk(r')
  {
    var patched := if r.recent.Some? && r.recent.value !in r.next then r.next[r.recent.value := addr] else r.next;
    r.(next := patched, recent := Some(addr))
  }

  predicate Shortcut(r: RState, addr: u64)
  {
    r.recent.Some? && r.recent.value in r.next && r.next[r.recent.value] == addr
  }

  function Lookup(r: RState, addr: u64, size: nat): (f: Found)
    requires PointersOk(r)
    ensures f.Found? ==> PointersOk(f.r)
    ensures f.Missing? ==> f.error == AssertionFailed
  {
    if Shortcut(r, addr) then Found(r.sinsts[addr], Remember(r, addr))
    else if addr in r.sinsts then
      if r.sinsts[addr].size == size then Found(r.sinsts[addr], Remember(r, addr)) else Missing(AssertionFailed)
    else match Gather(r.pages, addr, size)
      case None => Missing(AssertionFailed)
      case Some(data) =>
        var sinst := StaticInst(size, data);
        Found(sinst, Remember(r.(sinsts := r.sinsts[addr := sinst]), addr))
  }

  datatype Effect =
    | Continue(r: RState, seen: seq<Item>)
    | Return(r: RState, inst: Item)
    | Finish
    | Fail(error: Error)

  function Instruction(r: RState, addr: u64, size: nat, addrs: seq<u64>, isBranch: bool, taken: bool,
                       isPredicate: bool, executed: bool): (e: Effect)
    requires PointersOk(r)
    ensures e.Return? || e.Fail?
    ensures e.Return? ==> PointersOk(e.r) && e.inst.Inst?
  {
    var f := Lookup(r.(last := (addr + size) % TWO_TO_THE_64), addr, size);
    if f.Missing? then Fail(f.error)
    else Return(f.r, Inst(addr, f.sinst.size, f.sinst.data, addrs, isBranch, taken, isPredicate, executed, r.isa))
  }

  function Other(g: Garbage, r: RState, kind: byte, data: seq<byte>): (e: Effect)
    requires PointersOk(r) && WellFormed(Record.Other(kind, data))
    ensures e.Continue? ==> PointersOk(e.r)
    ensures !e.Return? && !e.Fail?
  {
    if kind == END then Finish
    else if kind == ICACHE then Continue(r.(pages := r.pages[U64(data[..8]) := data[8..]]), [])
    else if kind == ICACHE_VARIABLE then Continue(r.(pages := Scatter(g, r.pages, U64(data[..8]), data[8..])), [])
    else if kind == LOGICAL_TO_PHYSICAL then
      Continue(r.(vcache := r.vcache[U64(data[..8]) := U64(data[8..16])]), [])
    else if kind == ISA_CHANGE then Continue(r.(isa := Signed32(U32(data))), [])
    else if kind == CACHE_ONLY then
      Continue(r, [CacheOnlySeen(data[0], data[1], U64(data[2..10]), U64(data[10..18]))])
    else if kind == OUTPUT then Continue(r, [OutputSeen(data[0], data[1..])])
    else if kind == ROUTINE_CHANGE then
      Continue(r, [RoutineChanged(data[0], U64(data[1..9]), U64(data[9..17]), U64(data[17..25]))])
    else if kind in REQUESTS then Continue(r, [Requested(kind, data)])
    else Continue(r, [])
  }

  /** Requests that are answered on the response channel. */
  const REQUESTS: set<byte> := {SYSCALL_REQUEST, NEW_THREAD, JOIN, SYNC, MAGIC, EMU, FORK, INSTRUCTION_COUNT}

  predicate Unhandled(kind: byte)
  {
    && kind !in REQUESTS
    && kind !in {END, ICACHE, ICACHE_VARIABLE, LOGICAL_TO_PHYSICAL, ISA_CHANGE, CACHE_ONLY, OUTPUT, ROUTINE_CHANGE,
                 ROUTINE_ANNOUNCE}
  }

  function Apply(g: Garbage, r: RState, rec: Record): (e: Effect)
    requires PointersOk(r) && WellFormed(rec)
    ensures e.Continue? || e.Return? ==> PointersOk(e.r)
    ensures e.Return? ==> e.inst.Inst?
  {
    match rec
    case Simple(size, isBranch, taken, addrs) => Instruction(r, r.last, size, addrs, isBranch, taken, false, true)
    case Ext(size, isBranch, taken, isPredicate, executed, addr, addrs) =>
      Instruction(r, addr, size, addrs, isBranch, taken, isPredicate, executed)
    case Announce(eip, name, img, offset, line, column, file) =>
      Continue(r, [RoutineAnnounced(eip, name, img, offset, line, column, file)])
    case Other(kind, data) => Other(g, r, kind, data)
  }

  datatype Status = Open | Ended | Failed(error: Error)

  /** Everything seen up to a point of the trace, in order, and the state there. */
  datatype Outcome = Outcome(items: seq<Item>, r: RState, status: Status)

  function Run(g: Garbage, r: RState, recs: seq<Record>): (o: Outcome)
    requires PointersOk(r) && AllWellFormed(recs)
    ensures PointersOk(o.r)
    decreases |recs|
  {
    if |recs| == 0 then Outcome([], r, Open) else
    match Apply(g, r, recs[0])
    case Finish => Outcome([], r, Ended)
    case Fail(error) => Outcome([], r, Failed(error))
    case Continue(r', seen) => var o := Run(g, r', recs[1..]); o.(items := seen + o.items)
    case Return(r', inst) => var o := Run(g, r', recs[1..]); o.(items := [inst] + o.items)
  }

  /** The same on bytes: what repeated reading of a stream yields. */
  function RunBytes(g: Garbage, r: RState, input: seq<byte>): (o: Outcome)
    requires PointersOk(r)
    ensures PointersOk(o.r)
    decreases |input|
  {
    match Parse(input)
    case AtEnd => Outcome([], r, Open)
    case Broken(error) => Outcome([], r, Failed(error))
    case Rec(rec, rest) =>
      match Apply(g, r, rec)
      case Finish => Outcome([], r, Ended)
      case Fail(error) => Outcome([], r, Failed(error))
      case Continue(r', seen) => var o := RunBytes(g, r', rest); o.(items := seen + o.items)
      case Return(r', inst) => var o := RunBytes(g, r', rest); o.(items := [inst] + o.items)
  }

  /** Reading an encoded record list is running the records. */
  lemma {:induction false} RunEncoded(g: Garbage, r: RState, recs: seq<Record>)
    requires PointersOk(r) && AllWellFormed(recs)
    ensures RunBytes(g, r, EncodeAll(recs)) == Run(g, r, recs)
    decreases |recs|
  {
    if |recs| > 0 {
      ParseEncode(recs[0], EncodeAll(recs[1..]));
      match Apply(g, r, recs[0])
      case Finish =>
      case Fail(_) =>
      case Continue(r', _) => RunEncoded(g, r', recs[1..]);
      case Return(r', _) => RunEncoded(g, r', recs[1..]);
    }
  }

  /** Running a concatenation is running the parts in turn, as long as the first part stays open. */
  lemma {:induction false} RunConcat(g: Garbage, r: RState, a: seq<Record>, b: seq<Record>)
    requires PointersOk(r) && AllWellFormed(a) && AllWellFormed(b)
    ensures var first := Run(g, r, a);
            Run(g, r, a + b)
            == if first.status.Open? then
                 var second := Run(g, first.r, b); second.(items := first.items + second.items)
               else first
    decreases |a|
  {
    hide Apply, WellFormed, PointersOk;
    if |a| == 0 {
      assert a + b == b;
    } else {
      assert (a + b)[1..] == a[1..] + b && (a + b)[0] == a[0];
      match Apply(g, r, a[0])
      case Finish =>
      case Fail(_) =>
      case Continue(r', _) => RunConcat(g, r', a[1..], b);
      case Return(r', _) => RunConcat(g, r', a[1..], b);
    }
  }

  function WithoutUnhandled(recs: seq<Record>): (rs: seq<Record>)
    ensures AllWellFormed(recs) ==> AllWellFormed(rs)
  {
    if |recs| == 0 then []
    else if recs[0].Other? && Unhandled(recs[0].kind) then WithoutUnhandled(recs[1..])
    else [recs[0]] + WithoutUnhandled(recs[1..])
  }

  /**
   Records with type codes the reader does not know can be inserted anywhere in a trace without
   changing what the backend sees.
   */
  lemma {:induction false} UnhandledRecordsAreInvisible(g: Garbage, r: RState, recs: seq<Record>)
    requires PointersOk(r) && AllWellFormed(recs)
    ensures RunBytes(g, r, EncodeAll(recs)) == RunBytes(g, r, EncodeAll(WithoutUnhandled(recs)))
  {
    RunEncoded(g, r, recs);
    RunEncoded(g, r, WithoutUnhandled(recs));
    UnhandledRecordsAreSkipped(g, r, recs);
  }

  lemma {:induction false} UnhandledRecordsAreSkipped(g: Garbage, r: RState, recs: seq<Record>)
    requires PointersOk(r) && AllWellFormed(recs)
    ensures Run(g, r, recs) == Run(g, r, WithoutUnhandled(recs))
    decreases |recs|
  {
    if |recs| > 0 {
      match Apply(g, r, recs[0])
      case Finish =>
      case Fail(_) =>
      case Continue(r', _) => UnhandledRecordsAreSkipped(g, r', recs[1..]);
      case Return(r', _) => UnhandledRecordsAreSkipped(g, r', recs[1..]);
    }
  }

  /** A map lookup with a decode on a miss, and no pointers. */
  function PlainLookup(r: RState, addr: u64, size: nat): (s: Option<StaticInst>)
  {
    if addr in r.sinsts then Some(r.sinsts[addr])
    else match Gather(r.pages, addr, size)
      case None => None
      case Some(data) => Some(StaticInst(size, data))
  }

  /** Where an address is always used with the same size, the shortcut refines the plain map lookup. */
  lemma LookupRefinesMap(r: RState, addr: u64, size: nat)
    requires PointersOk(r) && (addr in r.sinsts ==> r.sinsts[addr].size == size)
    ensures var f := Lookup(r, addr, size);
            var plain := PlainLookup(r, addr, size);
            if plain.None? then f == Missing(AssertionFailed)
            else f.Found? && f.sinst == plain.value && f.r.sinsts == r.sinsts[addr := plain.value]
                 && f.r.pages == r.pages && f.r.vcache == r.vcache && f.r.last == r.last && f.r.isa == r.isa
  {
  }

  /** Translation of a virtual address; a trace without physical addresses maps every address to itself. */
  function Va2pa(r: RState, hasPhysical: bool, va: u64): (pa: u64)
  {
    var vp, vo := va / PAGE, va % PAGE;
    if !hasPhysical then va
    else if vp in r.vcache then r.vcache[vp] % (TWO_TO_THE_64 / PAGE) * PAGE + vo
    else 0
  }

  datatype ReadEnd = Got(inst: Item) | EndRecord | OutOfInput | Crash(error: Error)

  datatype ReadResult = ReadResult(end: ReadEnd, r: RState, rest: seq<byte>, seen: seq<Item>)

  /** One call of Read: process records up to and including the next instruction, or until the trace stops. */
  function ReadNext(g: Garbage, r: RState, input: seq<byte>): (n: ReadResult)
    requires PointersOk(r)
    ensures PointersOk(n.r)
    ensures n.end.Got? ==> |n.rest| < |input|
    decreases |input|
  {
    match Parse(input)
    case AtEnd => ReadResult(OutOfInput, r, input, [])
    case Broken(error) => ReadResult(Crash(error), r, input, [])
    case Rec(rec, rest) =>
      match Apply(g, r, rec)
      case Finish => ReadResult(EndRecord, r, rest, [])
      case Fail(error) => ReadResult(Crash(error), r, rest, [])
      case Return(r', inst) => ReadResult(Got(inst), r', rest, [])
      case Continue(r', seen) => var n := ReadNext(g, r', rest); n.(seen := seen + n.seen)
  }

  /** Repeated reading is the run: one Read covers the run up to its instruction, and the run goes on from there. */
  lemma {:induction false} ReadNextIsRunPrefix(g: Garbage, r: RState, input: seq<byte>)
    requires PointersOk(r)
    ensures var n := ReadNext(g, r, input);
      RunBytes(g, r, input)
      == match n.end
         case Got(inst) => var o := RunBytes(g, n.r, n.rest); o.(items := n.seen + [inst] + o.items)
         case EndRecord => Outcome(n.seen, n.r, Ended)
         case OutOfInput => Outcome(n.seen, n.r, Open)
         case Crash(error) => Outcome(n.seen, n.r, Failed(error))
    decreases |input|
  {
    hide Apply, WellFormed, PointersOk, Parse;
    match Parse(input)
    case AtEnd =>
    case Broken(_) =>
    case Rec(rec, rest) =>
      match Apply(g, r, rec) {
        case Finish =>
        case Fail(_) =>
        case Return(_, _) =>
        case Continue(r', seen) => ReadNextIsRunPrefix(g, r', rest);
      }
  }
}
