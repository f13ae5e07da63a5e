/**
 The reader's copy of code memory: 4 KiB pages, filled whole by Icache records or piecewise by
 IcacheVariable records, and gathered back when an instruction is decoded.
 */
module SiftMemory {
  import opened Options
  import opened Bytes
  import opened SiftRecords

  type Pages = p: map<u64, seq<byte>> | forall b :: b in p ==> |p[b]| == PAGE witness map[]

  /** What a freshly allocated, uninitialised page happens to hold. */
  type Garbage = (u64, nat) -> byte

  function PageOf(a: u64): (b: u64)
    ensures b <= a < b + PAGE && b % PAGE == 0 && a - b == a % PAGE
  {
    a - a % PAGE
  }

  function NextPage(base: u64): (b: u64) { (base + PAGE) % TWO_TO_THE_64 }

  function Min(a: int, b: int): (m: int) { if a <= b then a else b }

  function Uninitialised(g: Garbage, base: u64): (p: seq<byte>)
    ensures |p| == PAGE
  {
    seq(PAGE, i requires 0 <= i < PAGE => g(base, i))
  }

  /** The byte the pages hold for address x. */
  function ByteAt(pages: Pages, x: u64): (b: byte)
    requires PageOf(x) in pages
  {
    pages[PageOf(x)][x % PAGE]
  }

  function Overwrite(page: seq<byte>, off: nat, data: seq<byte>): (p: seq<byte>)
    requires |page| == PAGE && off + |data| <= PAGE
    ensures |p| == PAGE
    ensures forall i :: 0 <= i < PAGE ==> p[i] == if off <= i < off + |data| then data[i - off] else page[i]
  {
    page[..off] + data + page[off + |data|..]
  }

  /** One iteration of the scatter loop: the part of `data` that fits in the page of `addr`. */
  function ScatterChunk(g: Garbage, pages: Pages, addr: u64, data: seq<byte>): (p: Pages)
    requires addr % PAGE + |data| <= PAGE
  {
    var base := PageOf(addr);
    var page := if base in pages then pages[base] else Uninitialised(g, base);
    pages[base := Overwrite(page, addr % PAGE, data)]
  }

  function ChunkSize(addr: u64, size: nat): (n: nat)
    ensures n <= size && addr % PAGE + n <= PAGE
    ensures size > 0 ==> n > 0
  {
    Min(size, PAGE - addr % PAGE)
  }

  function Scatter(g: Garbage, pages: Pages, addr: u64, data: seq<byte>): (p: Pages)
    decreases |data|
  {
    if data == [] then pages else
    var n := ChunkSize(addr, |data|);
    Scatter(g, ScatterChunk(g, pages, addr, data[..n]), NextPage(PageOf(addr)), data[n..])
  }

  function GatherFrom(pages: Pages, base: u64, off: nat, size: nat): (r: Option<seq<byte>>)
    requires off < PAGE
    ensures r.Some? ==> |r.value| == size
    decreases size, base
  {
    if size == 0 then Some([]) else
    var n := Min(size, PAGE - off);
    if base !in pages then None else
    var tail := GatherFrom(pages, NextPage(base), 0, size - n);
    if tail.None? then None else Some(pages[base][off..off + n] + tail.value)
  }

  /** The bytes of an instruction, or None when a page it needs is missing. */
  function Gather(pages: Pages, addr: u64, size: nat): (r: Option<seq<byte>>)
    ensures r.Some? ==> |r.value| == size
  {
    GatherFrom(pages, PageOf(addr), addr % PAGE, size)
  }

  lemma PageStep(addr: u64, n: nat, x: u64)
    requires addr % PAGE + n <= PAGE
    ensures addr <= x < addr + n ==> PageOf(x) == PageOf(addr) && x % PAGE == addr % PAGE + (x - addr)
    ensures PageOf(x) == PageOf(addr) ==> x - addr == x % PAGE - addr % PAGE
  {
  }

  /** At address x, `after` is `before` with `data` stored from addr on. */
  ghost predicate Stored(before: Pages, after: Pages, addr: int, data: seq<byte>, x: u64)
  {
    && (PageOf(x) in before ==> PageOf(x) in after)
    && (addr <= x < addr + |data| ==> PageOf(x) in after && ByteAt(after, x) == data[x - addr])
    && (PageOf(x) in before && !(addr <= x < addr + |data|) ==> ByteAt(after, x) == ByteAt(before, x))
  }

  lemma ChunkBytes(g: Garbage, pages: Pages, addr: u64, data: seq<byte>, x: u64)
    requires addr % PAGE + |data| <= PAGE
    ensures Stored(pages, ScatterChunk(g, pages, addr, data), addr, data, x)
  {
    PageStep(addr, |data|, x);
  }

  lemma StoredTwice(before: Pages, mid: Pages, after: Pages, addr: int, data: seq<byte>, n: nat, x: u64)
    requires n <= |data|
    requires Stored(before, mid, addr, data[..n], x) && Stored(mid, after, addr + n, data[n..], x)
    ensures Stored(before, after, addr, data, x)
  {
  }

  lemma ChunkEnd(addr: u64, size: nat)
    requires ChunkSize(addr, size) < size && addr + size <= TWO_TO_THE_64
    ensures NextPage(PageOf(addr)) == addr + ChunkSize(addr, size)
    ensures NextPage(PageOf(addr)) % PAGE == 0
  {
  }

  /**
   Scattering stores exactly the given bytes: address x holds its data byte if it lies in
   [addr, addr + |data|), and every byte that was present before and lies outside is unchanged.
   */
  lemma {:induction false} ScatterBytes(g: Garbage, pages: Pages, addr: u64, data: seq<byte>, x: u64)
    requires addr + |data| <= TWO_TO_THE_64
    ensures Stored(pages, Scatter(g, pages, addr, data), addr, data, x)
    decreases |data|
  {
    hide ScatterChunk, ByteAt;
    if data != [] {
      var n := ChunkSize(addr, |data|);
      var mid := ScatterChunk(g, pages, addr, data[..n]);
      ChunkBytes(g, pages, addr, data[..n], x);
      if n < |data| {
        ChunkEnd(addr, |data|);
        ScatterBytes(g, mid, addr + n, data[n..], x);
        StoredTwice(pages, mid, Scatter(g, pages, addr, data), addr, data, n, x);
      } else {
        assert data[..n] == data && data[n..] == [];
        assert Scatter(g, pages, addr, data) == mid;
      }
    }
  }

  /** Every page that holds a byte of the range is present. */
  ghost predicate Covered(pages: Pages, addr: int, size: nat)
  {
    forall x: u64 :: addr <= x < addr + size ==> PageOf(x) in pages
  }

  lemma CoveredSplit(pages: Pages, addr: u64, size: nat)
    requires size > 0
    ensures Covered(pages, addr, size)
            <==> PageOf(addr) in pages && Covered(pages, addr + ChunkSize(addr, size), size - ChunkSize(addr, size))
  {
    var n := ChunkSize(addr, size);
    if PageOf(addr) in pages && Covered(pages, addr + n, size - n) {
      forall x: u64 | addr <= x < addr + size ensures PageOf(x) in pages {
        PageStep(addr, n, x);
      }
    }
  }

  /**
   Gathering succeeds exactly when every page that holds a byte of the range is present, and
   then yields the bytes the pages hold for the range, page boundaries or not.
   */
  lemma {:induction false} GatherBytes(pages: Pages, addr: u64, size: nat)
    requires addr + size <= TWO_TO_THE_64
    ensures Gather(pages, addr, size).Some? <==> Covered(pages, addr, size)
    ensures Covered(pages, addr, size) ==>
              forall x: u64 :: addr <= x < addr + size ==> Gather(pages, addr, size).value[x - addr] == ByteAt(pages, x)
    decreases size
  {
    if size > 0 {
      var n := ChunkSize(addr, size);
      CoveredSplit(pages, addr, size);
      var tail := GatherFrom(pages, NextPage(PageOf(addr)), 0, size - n);
      if n < size {
        ChunkEnd(addr, size);
        assert PageOf(addr + n) == addr + n && (addr + n) % PAGE == 0;
        assert tail == Gather(pages, addr + n, size - n);
        GatherBytes(pages, addr + n, size - n);
      } else {
        assert tail == Some([]);
      }
      assert tail.Some? <==> Covered(pages, addr + n, size - n);
      if Covered(pages, addr, size) {
        forall x: u64 | addr <= x < addr + size
          ensures Gather(pages, addr, size).value[x - addr] == ByteAt(pages, x)
        {
          PageStep(addr, n, x);
        }
      }
    }
  }
}
