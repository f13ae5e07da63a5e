/** The trace reader: an object that consumes its input stream and keeps pages, pointers and tables. */
module SiftReader {
  import opened Options
  import opened Bytes
  import opened SiftRecords
  import opened SiftMemory
  import opened SiftReading

  class StaticInstruction {
    const addr: u64
    const size: int
    const data: seq<byte>
    var next: StaticInstruction?

    constructor (addr: u64, size: int, data: seq<byte>)
      ensures this.addr == addr && this.size == size && this.data == data && next == null
    {
      this.addr := addr;
      this.size := size;
      this.data := data;
      next := null;
    }
  }

  ghost function Prepend(a: seq<byte>, b: Option<seq<byte>>): (r: Option<seq<byte>>)
  {
    if b.None? then None else Some(a + b.value)
  }

  lemma PrependNothing(b: Option<seq<byte>>)
    ensures Prepend([], b) == b
  {
    if b.Some? { assert [] + b.value == b.value; }
  }

  lemma PrependTwice(a: seq<byte>, b: seq<byte>, c: Option<seq<byte>>)
    ensures Prepend(a, Prepend(b, c)) == Prepend(a + b, c)
  {
    if c.Some? { assert a + (b + c.value) == a + b + c.value; }
  }

  class Reader {
    const garbage: Garbage
    var input: seq<byte>
    var last: u64
    var icache: map<u64, array<byte>>
    var scache: map<u64, StaticInstruction>
    var vcache: map<u64, u64>
    var isa: int
    var seenEnd: bool
    var recent: StaticInstruction?
    // The callbacks made so far.
    var seen: seq<Item>

    ghost predicate Valid()
      reads this`icache, this`scache, this`recent, icache.Values, scache.Values
    {
      ValidPages() && ValidCache()
    }

    ghost predicate ValidPages()
      reads this`icache, icache.Values
    {
      && (forall b :: b in icache ==> icache[b].Length == PAGE)
      && (forall b, c :: b in icache && c in icache && b != c ==> icache[b] != icache[c])
    }

    ghost predicate ValidCache()
      reads this`scache, this`recent, scache.Values
    {
      && (forall a :: a in scache ==> scache[a].addr == a)
      && (forall a :: a in scache && scache[a].next != null ==> Known(scache[a].next))
      && (recent != null ==> Known(recent))
    }

    /** The object is the one the map holds for its address. */
    ghost predicate Known(s: StaticInstruction?)
      reads this`scache
    {
      s != null && s.addr in scache && scache[s.addr] == s
    }

    ghost function PagesView(): (p: Pages)
      reads this`icache, icache.Values
      requires ValidPages()
      ensures p.Keys == icache.Keys
    {
      map b | b in icache :: icache[b][..]
    }

    ghost function NextView(): (n: map<u64, u64>)
      reads this`scache, scache.Values
    {
      map a | a in scache && scache[a].next != null :: scache[a].next.addr
    }

    ghost function InstsView(): (m: map<u64, StaticInst>)
      reads this`scache
    {
      map a | a in scache :: StaticInst(scache[a].size, scache[a].data)
    }

    ghost function State(): (r: RState)
      reads this`last, this`icache, this`scache, this`recent, this`vcache, this`isa, icache.Values, scache.Values
      requires Valid()
      ensures PointersOk(r)
    {
      RState(last, PagesView(), InstsView(), NextView(), RecentView(), vcache, isa)
    }

    ghost function RecentView(): (a: Option<u64>)
      reads this`recent
    {
      if recent == null then None else Some(recent.addr)
    }

    constructor (garbage: Garbage, input: seq<byte>)
      ensures Valid() && State() == START && this.garbage == garbage && this.input == input && !seenEnd && seen == []
      ensures icache == map[] && scache == map[]
    {
      this.garbage := garbage;
      this.input := input;
      last := 0;
      icache := map[];
      scache := map[];
      vcache := map[];
      isa := 0;
      seenEnd := false;
      recent := null;
      seen := [];
    }

    /** Gather the bytes of an instruction from its pages; fails where the source asserts that a page is present. */
    method GatherCode(addr: u64, size: nat) returns (data: Option<seq<byte>>)
      requires Valid()
      ensures data == Gather(State().pages, addr, size)
    {
      ghost var pages := PagesView();
      var dst: seq<byte> := [];
      var base, left := PageOf(addr), size;
      ghost var goal := Gather(pages, addr, size);
      PrependNothing(goal);
      while left > 0
        invariant 0 <= left <= size && |dst| == size - left
        invariant goal == Prepend(dst, GatherFrom(pages, base, if dst == [] then addr % PAGE else 0, left))
      {
        var offset := if dst == [] then addr % PAGE else 0;
        var n := Min(left, PAGE - offset);
        if base !in icache {
          return None;
        }
        var chunk := icache[base][offset..offset + n];
        assert chunk == pages[base][offset..offset + n];
        PrependTwice(dst, chunk, GatherFrom(pages, NextPage(base), 0, left - n));
        dst := dst + chunk;
        left := left - n;
        base := NextPage(base);
      }
      assert dst + [] == dst;
      return Some(dst);
    }

    /** Patch the previous instruction's pointer if it is still null, then remember this one. */
    method Remember(s: StaticInstruction)
      requires ValidCache() && Known(s)
      modifies this`recent, scache.Values
      ensures ValidCache() && recent == s
      ensures NextView() == if old(recent) != null && old(recent).addr !in old(NextView())
                            then old(NextView())[old(recent).addr := s.addr] else old(NextView())
    {
      if recent != null && recent.next == null {
        recent.next := s;
      }
      recent := s;
    }

    /** Enter a new static instruction, with a null pointer, in the map. */
    method AddStaticInstruction(addr: u64, size: int, data: seq<byte>) returns (s: StaticInstruction)
      requires ValidCache() && addr !in scache
      modifies this`scache
      ensures ValidCache() && fresh(scache.Values - old(scache.Values))
      ensures Known(s) && s.addr == addr && s.size == size && s.data == data
      ensures InstsView() == old(InstsView())[addr := StaticInst(size, data)]
      ensures NextView() == old(NextView())
    {
      hide ValidCache, NextView, InstsView;
      s := new StaticInstruction(addr, size, data);
      scache := scache[addr := s];
      CacheStaysValid(addr, s);
      ViewsAfterAdding(addr, s);
    }

    twostate lemma CacheStaysValid(addr: u64, new s: StaticInstruction)
      requires old(ValidCache()) && addr !in old(scache) && scache == old(scache)[addr := s] && s.addr == addr
      requires s.next == null && recent == old(recent) && unchanged(old(scache.Values))
      ensures ValidCache()
    {
      forall a | a in scache ensures scache[a].addr == a && (scache[a].next != null ==> Known(scache[a].next)) {
        if a != addr {
          assert old(scache)[a] in old(scache.Values);
          assert old(scache)[a].next == old(scache[a].next);
        }
      }
    }

    twostate lemma ViewsAfterAdding(addr: u64, new s: StaticInstruction)
      requires addr !in old(scache) && scache == old(scache)[addr := s]
      requires s.next == null && unchanged(old(scache.Values))
      ensures InstsView() == old(InstsView())[addr := StaticInst(s.size, s.data)]
      ensures NextView() == old(NextView())
    {
      assert forall a :: a in old(scache) ==> scache[a] == old(scache)[a];
    }

    /** The successor of the previous instruction if its address fits, else the map's object, else a new one. */
    method FindStaticInstruction(addr: u64, size: nat) returns (s: StaticInstruction?)
      requires Valid()
      modifies this`scache
      ensures ValidCache() && fresh(scache.Values - old(scache.Values)) && NextView() == old(NextView())
      ensures s == null <==> Lookup(old(State()), addr, size).Missing?
      ensures s != null ==>
        && Known(s) && s.addr == addr && StaticInst(s.size, s.data) == Lookup(old(State()), addr, size).sinst
        && InstsView() == old(InstsView())[addr := StaticInst(s.size, s.data)]
    {
      hide Gather, SiftReading.Remember, ValidPages, PagesView, SiftReading.PointersOk;
      if recent != null && recent.next != null && recent.next.addr == addr {
        s := recent.next;
      } else if addr in scache {
        s := if scache[addr].size == size then scache[addr] else null;
      } else {
        var data := GatherCode(addr, size);
        if data.None? {
          return null;
        }
        s := AddStaticInstruction(addr, size, data.value);
      }
    }

    /**
     Look up a static instruction, trying the previous instruction's successor before the map. The
     result is always the one object the map holds for the address.
     */
    lemma ValidParts()
      ensures Valid() <==> ValidPages() && ValidCache()
    {
    }

    twostate lemma StateFound()
      requires old(Valid()) && ValidCache() && NextView() == old(NextView())
      requires unchanged(this`last, this`icache, this`recent, this`vcache, this`isa) && unchanged(old(icache.Values))
      ensures Valid() && State() == old(State()).(sinsts := InstsView()) && old(State()).sinsts == old(InstsView())
    {
      hide ValidPages, ValidCache, PagesView, InstsView, NextView;
    }

    twostate lemma StateRemembers(s: StaticInstruction)
      requires old(Valid()) && ValidCache() && recent == s && InstsView() == old(InstsView())
      requires NextView() == if old(recent) != null && old(recent).addr !in old(NextView())
                             then old(NextView())[old(recent).addr := s.addr] else old(NextView())
      requires unchanged(this`last, this`icache, this`vcache, this`isa) && unchanged(old(icache.Values))
      ensures Valid() && State() == SiftReading.Remember(old(State()), s.addr)
    {
      hide ValidPages, ValidCache, PagesView, InstsView, NextView;
    }

    method GetStaticInstruction(addr: u64, size: nat) returns (s: StaticInstruction?)
      requires Valid()
      modifies this`scache, this`recent, scache.Values
      ensures Valid() && fresh(scache.Values - old(scache.Values))
      ensures match Lookup(old(State()), addr, size)
              case Missing(_) => s == null
              case Found(sinst, r) =>
                Known(s) && s.addr == addr && StaticInst(s.size, s.data) == sinst && State() == r
    {
      hide Valid, State, Lookup, PagesView, InstsView, NextView, ValidPages, ValidCache, SiftReading.PointersOk;
      ValidParts();
      ghost var r0 := State();
      s := FindStaticInstruction(addr, size);
      StateFound();
      if s == null {
        return null;
      }
      ghost var r1 := State();
      label Found:
      Remember(s);
      StateRemembers@Found(s);
      LookupFound(r0, r1, addr, size);
    }

    /** Allocate the page of a base address, uninitialised, if there is none yet. */
    method EnsurePage(base: u64)
      requires ValidPages()
      modifies this`icache
      ensures ValidPages() && fresh(icache.Values - old(icache.Values)) && base in icache
      ensures PagesView() == if base in old(icache) then old(PagesView())
                             else old(PagesView())[base := Uninitialised(garbage, base)]
    {
      hide ValidPages, PagesView;
      if base !in icache {
        var page := new byte[PAGE](i requires 0 <= i < PAGE => garbage(base, i));
        assert page[..] == Uninitialised(garbage, base);
        icache := icache[base := page];
        PagesAfterStoring(base, page);
      }
    }

    twostate lemma PagesAfterStoring(base: u64, new page: array<byte>)
      requires old(ValidPages()) && icache == old(icache)[base := page] && fresh(page) && page.Length == PAGE
      requires unchanged(old(icache.Values))
      ensures ValidPages() && PagesView() == old(PagesView())[base := page[..]]
    {
      forall b | b in old(icache) && b != base ensures icache[b][..] == old(icache[b][..]) {
        assert old(icache)[b] in old(icache.Values);
      }
    }

    method StoreInPage(base: u64, off: nat, data: seq<byte>)
      requires ValidPages() && base in icache && off + |data| <= PAGE
      modifies icache[base]
      ensures ValidPages()
      ensures PagesView() == old(PagesView())[base := Overwrite(old(PagesView())[base], off, data)]
    {
      var page := icache[base];
      forall i | 0 <= i < |data| { page[off + i] := data[i]; }
      assert page[..] == Overwrite(old(page[..]), off, data);
      assert forall b :: b in icache && b != base ==> icache[b][..] == old(icache[b][..]);
    }

    method StoreChunk(address: u64, data: seq<byte>)
      requires ValidPages() && address % PAGE + |data| <= PAGE
      modifies this`icache, icache.Values
      ensures ValidPages() && fresh(icache.Values - old(icache.Values))
      ensures PagesView() == ScatterChunk(garbage, old(PagesView()), address, data)
    {
      hide ValidPages, PagesView, Uninitialised, Overwrite;
      EnsurePage(PageOf(address));
      assert icache[PageOf(address)] in icache.Values;
      ghost var pages := PagesView();
      StoreInPage(PageOf(address), address % PAGE, data);
      assert PagesView() == old(PagesView())[PageOf(address) := Overwrite(pages[PageOf(address)], address % PAGE,
          data)];
    }

    /** Scatter the next bytes of the input over the pages from `start` on. */
    method ScatterInput(start: u64, size: nat)
      requires ValidPages() && size <= |input|
      modifies this`input, this`icache, icache.Values
      ensures ValidPages() && fresh(icache.Values - old(icache.Values))
      ensures PagesView() == Scatter(garbage, old(PagesView()), start, old(input)[..size])
      ensures input == old(input)[size..]
    {
      hide ValidPages, ScatterChunk, Scatter, PagesView;
      var address: u64 := start;
      var left := size;
      ghost var goal := Scatter(garbage, PagesView(), start, input[..size]);
      while left > 0
        invariant 0 <= left <= size && ValidPages() && fresh(icache.Values - old(icache.Values))
        invariant input == old(input)[size - left..]
        invariant goal == Scatter(garbage, PagesView(), address, input[..left])
      {
        var n := Min(left, PAGE - address % PAGE);
        ScatterStep(garbage, PagesView(), address, input, left, n);
        StoreChunk(address, input[..n]);
        assert old(input)[size - left..][n..] == old(input)[size - left + n..];
        input := input[n..];
        left := left - n;
        address := NextPage(PageOf(address));
      }
      ScatterDone(garbage, PagesView(), address, input[..0]);
    }

    /** Everything but the pages, the callbacks, the tables and the unread input stays as it is. */
    ghost predicate Continues(e: Effect, rest: seq<byte>, seen0: seq<Item>)
      requires e.Continue?
      reads this, icache.Values, scache.Values
    {
      Valid() && State() == e.r && input == rest && seen == seen0 + e.seen
    }

    method StorePage(address: u64, data: seq<byte>)
      requires ValidPages() && |data| == PAGE
      modifies this`icache
      ensures ValidPages() && fresh(icache.Values - old(icache.Values))
      ensures PagesView() == old(PagesView())[address := data]
    {
      hide ValidPages, PagesView;
      var bytes := new byte[PAGE](i requires 0 <= i < PAGE => data[i]);
      assert bytes[..] == data;
      icache := icache[address := bytes];
      PagesAfterStoring(address, bytes);
    }

    lemma StatePages()
      requires Valid()
      ensures ValidPages() && State().pages == PagesView()
    {
    }

    /** Where only pages have changed, the state has the new pages. */
    twostate lemma PagesChanged()
      requires old(Valid()) && ValidPages()
      requires unchanged(this`last, this`scache, this`recent, this`vcache, this`isa) && unchanged(old(scache.Values))
      ensures Valid() && State() == old(State()).(pages := PagesView())
    {
      hide ValidPages, PagesView;
    }

    method ReadPage(size: nat)
      requires Valid() && size <= |input| && WellFormed(Record.Other(ICACHE, input[..size]))
      modifies this`input, this`icache
      ensures fresh(icache.Values - old(icache.Values))
      ensures Continues(SiftReading.Other(garbage, old(State()), ICACHE, old(input)[..size]), old(input)[size..],
              old(seen))
    {
      hide Valid, State, ValidPages, ValidCache, PagesView, InstsView, NextView, SiftReading.Other,
          SiftReading.PointersOk, WellFormed, U64;
      StatePages();
      PageEffect(garbage, State(), input, size);
      var address := U64(input[..8]);
      StorePage(address, input[8..size]);
      input := input[size..];
      PagesChanged();
    }

    method ReadVariable(size: nat)
      requires Valid() && size <= |input| && WellFormed(Record.Other(ICACHE_VARIABLE, input[..size]))
      modifies this`input, this`icache, icache.Values
      ensures fresh(icache.Values - old(icache.Values))
      ensures Continues(SiftReading.Other(garbage, old(State()), ICACHE_VARIABLE, old(input)[..size]),
              old(input)[size..], old(seen))
    {
      hide Valid, State, ValidPages, ValidCache, PagesView, InstsView, NextView, Scatter, SiftReading.Other,
          SiftReading.PointersOk, WellFormed, U64;
      StatePages();
      VariableEffect(garbage, State(), input, size);
      var address := U64(input[..8]);
      input := input[8..];
      ScatterInput(address, size - 8);
      PagesChanged();
    }

    method ReadTable(kind: byte, size: nat)
      requires Valid() && size <= |input| && WellFormed(Record.Other(kind, input[..size]))
      requires kind in {LOGICAL_TO_PHYSICAL, ISA_CHANGE}
      modifies this`input, this`vcache, this`isa
      ensures Continues(SiftReading.Other(garbage, old(State()), kind, old(input)[..size]), old(input)[size..],
              old(seen))
    {
      hide ValidPages, ValidCache, PagesView, InstsView, NextView, SiftReading.Other;
      TableEffect(garbage, State(), kind, input, size);
      if kind == LOGICAL_TO_PHYSICAL {
        var vp, pp := U64(input[..8]), U64(input[8..16]);
        vcache := vcache[vp := pp];
        input := input[16..];
      } else {
        isa := Signed32(U32(input[..4]));
        input := input[4..];
      }
    }

    method ReadCallback(kind: byte, size: nat)
      requires Valid() && size <= |input| && WellFormed(Record.Other(kind, input[..size]))
      requires kind !in {END, ICACHE, ICACHE_VARIABLE, LOGICAL_TO_PHYSICAL, ISA_CHANGE}
      modifies this`input, this`seen
      ensures Continues(SiftReading.Other(garbage, old(State()), kind, old(input)[..size]), old(input)[size..],
              old(seen))
    {
      hide Valid, State, ValidPages, ValidCache, PagesView, InstsView, NextView, SiftReading.Other;
      CallbackEffect(garbage, State(), kind, input, size);
      if kind == CACHE_ONLY {
        var icount, what, eip, address := input[0], input[1], U64(input[2..10]), U64(input[10..18]);
        input := input[18..];
        seen := seen + [CacheOnlySeen(icount, what, eip, address)];
      } else if kind == OUTPUT {
        var fd, bytes := input[0], input[1..size];
        input := input[size..];
        seen := seen + [OutputSeen(fd, bytes)];
      } else if kind == ROUTINE_CHANGE {
        var event, eip, esp, callEip := input[0], U64(input[1..9]), U64(input[9..17]), U64(input[17..25]);
        input := input[25..];
        seen := seen + [RoutineChanged(event, eip, esp, callEip)];
      } else {
        if kind in REQUESTS {
          seen := seen + [Requested(kind, input[..size])];
        }
        input := input[size..];
      }
    }

    /** Read the body of an "Other" record, field by field. */
    method ReadBody(kind: byte, size: nat)
      requires Valid() && size <= |input| && kind != END && WellFormed(Record.Other(kind, input[..size]))
      modifies this`input, this`icache, this`vcache, this`isa, this`seen, icache.Values
      ensures fresh(icache.Values - old(icache.Values))
      ensures Continues(SiftReading.Other(garbage, old(State()), kind, old(input)[..size]), old(input)[size..],
              old(seen))
    {
      hide Valid, State, SiftReading.Other, WellFormed;
      if kind == ICACHE {
        ReadPage(size);
      } else if kind == ICACHE_VARIABLE {
        ReadVariable(size);
      } else if kind in {LOGICAL_TO_PHYSICAL, ISA_CHANGE} {
        ReadTable(kind, size);
      } else {
        ReadCallback(kind, size);
      }
    }

    /** What one record made of the reader, against what the record is to do. */
    ghost predicate After(step: Step, p: Parsed, r0: RState, seen0: seq<Item>)
      requires PointersOk(r0) && (p.Rec? ==> WellFormed(p.rec))
      reads this, icache.Values, scache.Values
    {
      match p
      case AtEnd => false
      case Broken(error) => step == Died(error) && seen == seen0
      case Rec(rec, rest) =>
        match Apply(garbage, r0, rec)
        case Fail(error) => step == Died(error) && seen == seen0
        case Finish => step == Stopped && Valid() && State() == r0 && input == rest && seen == seen0
        case Continue(r, more) => step == Again && Valid() && State() == r && input == rest && seen == seen0 + more
        case Return(r, inst) => step == Delivered(inst) && Valid() && State() == r && input == rest && seen == seen0
    }

    /** Where the address is known: step past it, look the instruction up and hand it out. */
    method Deliver(addr: u64, size: nat, addrs: seq<u64>, isBranch: bool, taken: bool, isPredicate: bool,
                   executed: bool)
      returns (step: Step)
      requires Valid()
      modifies this`last, this`scache, this`recent, scache.Values
      ensures Valid() && fresh(scache.Values - old(scache.Values))
      ensures match Instruction(old(State()), addr, size, addrs, isBranch, taken, isPredicate, executed)
              case Fail(error) => step == Died(error)
              case Return(r, inst) => step == Delivered(inst) && State() == r
    {
      hide Lookup, ValidPages, ValidCache, PagesView, InstsView, NextView, SiftReading.PointersOk;
      last := (addr + size) % TWO_TO_THE_64;
      ghost var r1 := State();
      var s := GetStaticInstruction(addr, size);
      if s == null {
        return Died(AssertionFailed);
      }
      return Delivered(Inst(s.addr, s.size, s.data, addrs, isBranch, taken, isPredicate, executed, isa));
    }

    lemma StateLast()
      requires Valid()
      ensures State().last == last
    {
    }

    method ReadSimple() returns (step: Step)
      requires Valid() && |input| > 0 && input[0] % 16 != 0
      modifies this`input, this`last, this`scache, this`recent, scache.Values
      ensures Valid() && fresh(scache.Values - old(scache.Values))
      ensures After(step, ParseSimple(old(input)), old(State()), old(seen))
    {
      hide Valid, State, Instruction, ValidPages, ValidCache, PagesView, InstsView, NextView, SiftReading.PointersOk,
          ParseAddrs, ParseSimple;
      StateLast();
      SimpleOutcome(input);
      var b := input[0];
      var n := b / 16 % 4;
      if n > MAX_DYNAMIC_ADDRESSES {
        return Died(AddressOverrun);
      }
      var a := ReadAddresses(input[1..], n);
      if a.Short? {
        return Died(Truncated);
      }
      input := a.rest;
      step := Deliver(last, b % 16, a.addrs, b / 64 % 2 == 1, b / 128 % 2 == 1, false, true);
    }

    method ReadExt() returns (step: Step)
      requires Valid() && |input| > 0 && input[0] != 0 && input[0] % 16 == 0
      modifies this`input, this`last, this`scache, this`recent, scache.Values
      ensures Valid() && fresh(scache.Values - old(scache.Values))
      ensures After(step, ParseExt(old(input)), old(State()), old(seen))
    {
      hide Valid, State, Instruction, ValidPages, ValidCache, PagesView, InstsView, NextView, SiftReading.PointersOk,
          U64, ParseAddrs, ParseExt;
      ExtOutcome(input);
      if |input| < 10 {
        return Died(Truncated);
      }
      var size, f, addr := input[0] / 16 % 16, input[1], U64(input[2..10]);
      if f % 4 > MAX_DYNAMIC_ADDRESSES {
        return Died(AddressOverrun);
      }
      var a := ReadAddresses(input[10..], f % 4);
      if a.Short? {
        return Died(Truncated);
      }
      input := a.rest;
      step := Deliver(addr, size, a.addrs, f / 4 % 2 == 1, f / 8 % 2 == 1, f / 16 % 2 == 1, f / 32 % 2 == 1);
    }

    /** A 16-bit length and that many bytes. */
    method ReadText() returns (text: Option<seq<byte>>)
      modifies this`input
      ensures match ParseText(old(input))
              case NoText => text.None?
              case Text(bytes, rest) => text == Some(bytes) && input == rest
    {
      if |input| < 2 {
        return None;
      }
      var n: int := U16(input[..2]);
      if |input| < 2 + n {
        return None;
      }
      text := Some(input[2..2 + n]);
      input := input[2 + n..];
    }

    method ReadAnnounce() returns (step: Step)
      requires Valid()
      modifies this`input, this`seen
      ensures After(step, ParseAnnounce(old(input)), old(State()), old(seen))
    {
      hide Valid, State, ValidPages, ValidCache, PagesView, InstsView, NextView, SiftReading.PointersOk, ParseText,
          U64, U32, Apply, WellFormed;
      if |input| < 8 {
        return Died(Truncated);
      }
      var eip := U64(input[..8]);
      input := input[8..];
      var name := ReadText();
      if name.None? {
        return Died(Truncated);
      }
      var img := ReadText();
      if img.None? || |input| < 16 {
        return Died(Truncated);
      }
      var offset, line, column := U64(input[..8]), U32(input[8..12]), U32(input[12..16]);
      input := input[16..];
      var file := ReadText();
      if file.None? {
        return Died(Truncated);
      }
      seen := seen + [RoutineAnnounced(eip, name.value, img.value, offset, line, column, file.value)];
      AnnounceEffect(garbage, old(State()), Announce(eip, name.value, img.value, offset, line, column, file.value));
      return Again;
    }

    method ReadOther() returns (step: Step)
      requires Valid() && |input| > 0 && input[0] == 0
      modifies this`input, this`icache, this`vcache, this`isa, this`seen, icache.Values
      ensures fresh(icache.Values - old(icache.Values))
      ensures After(step, ParseOther(old(input)), old(State()), old(seen))
    {
      hide Valid, ValidPages, ValidCache, PagesView, InstsView, NextView, SiftReading.PointersOk, ParseAnnounce, U32;
      if |input| < 6 {
        return Died(Truncated);
      }
      var kind, size := input[1], U32(input[2..6]);
      input := input[6..];
      if kind == ROUTINE_ANNOUNCE {
        step := ReadAnnounce();
      } else if !SizeAccepted(kind, size) {
        step := Died(AssertionFailed);
      } else if size < FixedPart(kind) || |input| < size {
        step := Died(Truncated);
      } else if kind == END {
        step := Stopped;
      } else {
        ReadBody(kind, size);
        step := Again;
      }
    }

    /** One record, of whichever kind its first byte says. */
    method ReadRecord() returns (step: Step)
      requires Valid() && |input| > 0
      modifies this, icache.Values, scache.Values
      ensures fresh(icache.Values - old(icache.Values)) && fresh(scache.Values - old(scache.Values))
      ensures After(step, Parse(old(input)), old(State()), old(seen)) && seenEnd == old(seenEnd)
    {
      hide Apply, Valid, State, ParseOther, ParseSimple, ParseExt, WellFormed;
      if input[0] == 0 {
        step := ReadOther();
      } else if input[0] % 16 != 0 {
        step := ReadSimple();
      } else {
        step := ReadExt();
      }
    }

    /**
     Process records until an instruction is found. False (EndRecord, OutOfInput) ends the trace;
     once the End record was seen, the source goes on returning true without an instruction.
     */
    method Read() returns (end: ReadEnd, stale: bool)
      requires Valid()
      modifies this, icache.Values, scache.Values
      ensures stale <==> old(seenEnd)
      ensures stale ==> unchanged(this) && unchanged(old(icache.Values)) && unchanged(old(scache.Values))
      ensures !stale ==> var n := ReadNext(garbage, old(State()), old(input));
        && end == n.end
        && seen == old(seen) + n.seen
        && (!end.Crash? ==> Valid() && State() == n.r && input == n.rest)
        && (seenEnd <==> end.EndRecord?)
      ensures fresh(icache.Values - old(icache.Values)) && fresh(scache.Values - old(scache.Values))
    {
      hide Apply, Valid, State, Parse, WellFormed, SiftReading.PointersOk, ReadNext;
      if seenEnd {
        return OutOfInput, true;
      }
      stale := false;
      ghost var goal := ReadNext(garbage, State(), input);
      ghost var done: seq<Item> := [];
      ContinuesFromStart(goal);
      while true
        invariant Valid() && !seenEnd
        invariant fresh(icache.Values - old(icache.Values)) && fresh(scache.Values - old(scache.Values))
        invariant seen == old(seen) + done && ContinuesTo(goal, done, ReadNext(garbage, State(), input))
        decreases |input|
      {
        ReadNextStep(garbage, State(), input);
        if |input| == 0 {
          end := OutOfInput;
          return;
        }
        ghost var r0, input0 := State(), input;
        var step := ReadRecord();
        match step
        case Died(error) =>
          end := Crash(error);
          return;
        case Stopped =>
          seenEnd, end := true, EndRecord;
          return;
        case Delivered(inst) =>
          end := Got(inst);
          return;
        case Again =>
          ghost var more := Apply(garbage, r0, Parse(input0).rec).seen;
          ContinuesFurther(goal, done, more, ReadNext(garbage, State(), input));
          done := done + more;
      }
    }
  }

  lemma ContinuesFromStart(total: ReadResult)
    ensures ContinuesTo(total, [], total)
  {
    assert [] + total.seen == total.seen;
  }

  lemma ContinuesFurther(total: ReadResult, done: seq<Item>, more: seq<Item>, rest: ReadResult)
    requires ContinuesTo(total, done, rest.(seen := more + rest.seen))
    ensures ContinuesTo(total, done + more, rest)
  {
    assert done + (more + rest.seen) == done + more + rest.seen;
  }

  lemma ReadNextStep(g: Garbage, r: RState, input: seq<byte>)
    requires PointersOk(r)
    ensures var p, n := Parse(input), ReadNext(g, r, input);
      && (p.AtEnd? ==> n == ReadResult(OutOfInput, r, input, []))
      && (p.Broken? ==> n == ReadResult(Crash(p.error), r, input, []))
      && (p.Rec? ==>
            var e := Apply(g, r, p.rec);
            && (e.Finish? ==> n == ReadResult(EndRecord, r, p.rest, []))
            && (e.Fail? ==> n == ReadResult(Crash(e.error), r, p.rest, []))
            && (e.Return? ==> n == ReadResult(Got(e.inst), e.r, p.rest, []))
            && (e.Continue? ==> var m := ReadNext(g, e.r, p.rest); n == m.(seen := e.seen + m.seen)))
  {
  }

  /** The result `total` of a read has seen `done` already, and what is left of it is `rest`. */
  ghost predicate ContinuesTo(total: ReadResult, done: seq<Item>, rest: ReadResult)
  {
    total == rest.(seen := done + rest.seen)
  }

  datatype Step = Again | Delivered(inst: Item) | Stopped | Died(error: Error)

  /** The loop that reads the dynamic addresses of an instruction. */
  method ReadAddresses(input: seq<byte>, n: nat) returns (a: Addresses)
    ensures a == ParseAddrs(input, n)
  {
    var addrs: seq<u64>, rest := [], input;
    ghost var goal := ParseAddrs(input, n);
    AddrsPrefixNothing(goal);
    for i := 0 to n
      invariant goal == AddrsPrefix(addrs, ParseAddrs(rest, n - i))
    {
      if |rest| < 8 {
        return Short;
      }
      AddrsPrefixTwice(addrs, U64(rest[..8]), ParseAddrs(rest[8..], n - i - 1));
      addrs, rest := addrs + [U64(rest[..8])], rest[8..];
    }
    assert addrs + [] == addrs;
    return Addrs(addrs, rest);
  }

  ghost function AddrsPrefix(addrs: seq<u64>, a: Addresses): (r: Addresses)
  {
    if a.Short? then Short else Addrs(addrs + a.addrs, a.rest)
  }

  lemma AddrsPrefixNothing(a: Addresses)
    ensures AddrsPrefix([], a) == a
  {
    if a.Addrs? { assert [] + a.addrs == a.addrs; }
  }

  lemma AddrsPrefixTwice(addrs: seq<u64>, x: u64, a: Addresses)
    ensures AddrsPrefix(addrs, AddrsPrefix([x], a)) == AddrsPrefix(addrs + [x], a)
  {
    if a.Addrs? { assert addrs + ([x] + a.addrs) == addrs + [x] + a.addrs; }
  }

  lemma PageEffect(g: Garbage, r: RState, input: seq<byte>, size: nat)
    requires PointersOk(r) && size <= |input| && WellFormed(Record.Other(ICACHE, input[..size]))
    ensures size == 8 + PAGE
    ensures SiftReading.Other(g, r, ICACHE, input[..size])
            == Continue(r.(pages := r.pages[U64(input[..8]) := input[8..size]]), [])
  {
    assert input[..size][..8] == input[..8] && input[..size][8..] == input[8..size];
  }

  lemma VariableEffect(g: Garbage, r: RState, input: seq<byte>, size: nat)
    requires PointersOk(r) && size <= |input| && WellFormed(Record.Other(ICACHE_VARIABLE, input[..size]))
    ensures size >= 8
    ensures SiftReading.Other(g, r, ICACHE_VARIABLE, input[..size])
            == Continue(r.(pages := Scatter(g, r.pages, U64(input[..8]), input[8..][..size - 8])), [])
  {
    hide Scatter;
    assert input[..size][..8] == input[..8] && input[..size][8..] == input[8..][..size - 8];
  }

  lemma TableEffect(g: Garbage, r: RState, kind: byte, input: seq<byte>, size: nat)
    requires PointersOk(r) && size <= |input| && WellFormed(Record.Other(kind, input[..size]))
    requires kind in {LOGICAL_TO_PHYSICAL, ISA_CHANGE}
    ensures size == if kind == ISA_CHANGE then 4 else 16
    ensures SiftReading.Other(g, r, kind, input[..size])
            == if kind == ISA_CHANGE then Continue(r.(isa := Signed32(U32(input[..4]))), [])
               else Continue(r.(vcache := r.vcache[U64(input[..8]) := U64(input[8..16])]), [])
  {
    if kind == LOGICAL_TO_PHYSICAL {
      assert input[..size][..8] == input[..8] && input[..size][8..16] == input[8..16];
    }
  }

  lemma CallbackEffect(g: Garbage, r: RState, kind: byte, input: seq<byte>, size: nat)
    requires PointersOk(r) && size <= |input| && WellFormed(Record.Other(kind, input[..size]))
    requires kind !in {END, ICACHE, ICACHE_VARIABLE, LOGICAL_TO_PHYSICAL, ISA_CHANGE}
    ensures var e := SiftReading.Other(g, r, kind, input[..size]);
      if kind == CACHE_ONLY then
        size == 18 && e == Continue(r, [CacheOnlySeen(input[0], input[1], U64(input[2..10]), U64(input[10..18]))])
      else if kind == OUTPUT then
        size > 1 && e == Continue(r, [OutputSeen(input[0], input[1..size])])
      else if kind == ROUTINE_CHANGE then
        size == 25 && e == Continue(r,
            [RoutineChanged(input[0], U64(input[1..9]), U64(input[9..17]), U64(input[17..25]))])
      else if kind in REQUESTS then e == Continue(r, [Requested(kind, input[..size])])
      else e == Continue(r, [])
  {
    var data := input[..size];
    if kind == CACHE_ONLY {
      assert data[2..10] == input[2..10] && data[10..18] == input[10..18];
    } else if kind == OUTPUT {
      assert data[1..] == input[1..size];
    } else if kind == ROUTINE_CHANGE {
      assert data[1..9] == input[1..9];
      assert data[9..17] == input[9..17];
      assert data[17..25] == input[17..25];
    }
  }

  lemma SimpleOutcome(input: seq<byte>)
    requires |input| > 0 && input[0] % 16 != 0
    ensures var b := input[0];
      if b / 16 % 4 > MAX_DYNAMIC_ADDRESSES then ParseSimple(input) == Broken(AddressOverrun)
      else var a := ParseAddrs(input[1..], b / 16 % 4);
        if a.Short? then ParseSimple(input) == Broken(Truncated)
        else ParseSimple(input) == Rec(Simple(b % 16, b / 64 % 2 == 1, b / 128 % 2 == 1, a.addrs), a.rest)
  {
  }

  lemma AnnounceEffect(g: Garbage, r: RState, rec: Record)
    requires PointersOk(r) && rec.Announce? && WellFormed(rec)
    ensures Apply(g, r, rec)
            == Continue(r, [RoutineAnnounced(rec.eip, rec.name, rec.img, rec.offset, rec.line, rec.column, rec.file)])
  {
  }

  lemma ExtOutcome(input: seq<byte>)
    requires |input| > 0 && input[0] != 0 && input[0] % 16 == 0
    ensures |input| < 10 ==> ParseExt(input) == Broken(Truncated)
    ensures |input| >= 10 ==> var f := input[1];
      if f % 4 > MAX_DYNAMIC_ADDRESSES then ParseExt(input) == Broken(AddressOverrun)
      else var a := ParseAddrs(input[10..], f % 4);
        if a.Short? then ParseExt(input) == Broken(Truncated)
        else ParseExt(input)
             == Rec(Ext(input[0] / 16 % 16, f / 4 % 2 == 1, f / 8 % 2 == 1, f / 16 % 2 == 1, f / 32 % 2 == 1,
                        U64(input[2..10]), a.addrs), a.rest)
  {
  }

  lemma ScatterStep(g: Garbage, pages: Pages, address: u64, input: seq<byte>, left: nat, n: nat)
    requires 0 < left <= |input| && n == ChunkSize(address, left)
    ensures Scatter(g, pages, address, input[..left])
            == Scatter(g, ScatterChunk(g, pages, address, input[..n]), NextPage(PageOf(address)),
                input[n..][..left - n])
  {
    assert input[..left][..n] == input[..n] && input[..left][n..] == input[n..][..left - n];
  }

  lemma ScatterDone(g: Garbage, pages: Pages, address: u64, data: seq<byte>)
    requires data == []
    ensures Scatter(g, pages, address, data) == pages
  {
  }

  lemma LookupFound(r0: RState, r1: RState, addr: u64, size: nat)
    requires PointersOk(r0) && PointersOk(r1) && Lookup(r0, addr, size).Found?
    requires r1 == r0.(sinsts := r0.sinsts[addr := Lookup(r0, addr, size).sinst])
    ensures Lookup(r0, addr, size).r == SiftReading.Remember(r1, addr)
  {
    hide Gather;
    if addr in r0.sinsts {
      assert r0.sinsts[addr := r0.sinsts[addr]] == r0.sinsts;
    }
  }
}
