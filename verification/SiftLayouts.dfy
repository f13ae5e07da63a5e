/**
 The trace format in numbers: every record is a packed little-endian structure, its fields from the
 lowest bit up, with the type codes and sizes that the format assigns.
 */
module SiftLayouts {
  import opened Bytes
  import opened SiftRecords
  import opened SiftMemory
  import opened SiftReading
  import opened SiftWriting

  // ----- packed structures

  datatype Field = Field(bits: nat, value: nat)

  function Power(n: nat): (p: nat)
    ensures p >= 1
  {
    if n == 0 then 1 else 2 * Power(n - 1)
  }

  function Bits(fs: seq<Field>): (n: nat) { if fs == [] then 0 else fs[0].bits + Bits(fs[1..]) }

  /** The fields side by side in one number, the first in the lowest bits. */
  function Number(fs: seq<Field>): (n: nat)
  {
    if fs == [] then 0 else fs[0].value + Power(fs[0].bits) * Number(fs[1..])
  }

  predicate Fits(fs: seq<Field>) { forall k :: 0 <= k < |fs| ==> fs[k].value < Power(fs[k].bits) }

  /** The bytes of a packed structure on a little-endian machine. */
  function Packed(fs: seq<Field>): (s: seq<byte>) { LE(Number(fs), Bits(fs) / 8) }

  lemma Powers()
    ensures Power(1) == 2 && Power(2) == 4 && Power(4) == 16 && Power(8) == 256
    ensures Power(16) == TWO_TO_THE_16 && Power(32) == TWO_TO_THE_32 && Power(64) == TWO_TO_THE_64
  {
    SmallPowers();
    hide Power;
    PowerSum(8, 8);
    PowerSum(16, 16);
    PowerSum(32, 32);
  }

  lemma SmallPowers()
    ensures Power(1) == 2 && Power(2) == 4 && Power(4) == 16 && Power(8) == 256
  {
    assert Power(3) == 8 && Power(6) == 64;
  }

  lemma {:induction false} PowerSum(a: nat, b: nat)
    ensures Power(a + b) == Power(a) * Power(b)
    decreases a
  {
    if a > 0 { PowerSum(a - 1, b); }
  }

  lemma {:induction false} PowerIsRadix(k: nat)
    ensures Power(8 * k) == Radix(k)
    decreases k
  {
    if k > 0 {
      PowerIsRadix(k - 1);
      PowerSum(8, 8 * (k - 1));
    }
  }

  /** The low k bytes of a number, then the rest. */
  lemma {:induction false} LESplit(n: nat, m: nat, k: nat, j: nat)
    requires n < Radix(k)
    ensures LE(n + Radix(k) * m, k + j) == LE(n, k) + LE(m, j)
    decreases k
  {
    if k > 0 {
      var r, q := Radix(k - 1), n / 256 + Radix(k - 1) * m;
      LowByte(n, r, m);
      LESplit(n / 256, m, k - 1, j);
      LEStep(n + Radix(k) * m, k + j);
      LEStep(n, k);
      assert [n % 256] + (LE(n / 256, k - 1) + LE(m, j)) == [n % 256] + LE(n / 256, k - 1) + LE(m, j);
    } else {
      assert LE(n, 0) == [] && [] + LE(m, j) == LE(m, j);
    }
  }

  lemma LowByte(n: nat, r: nat, m: nat)
    ensures (n + 256 * r * m) % 256 == n % 256 && (n + 256 * r * m) / 256 == n / 256 + r * m
  {
    var x := r * m;
    assert n + 256 * r * m == n + 256 * x;
  }

  lemma NumberCons(f: Field, fs: seq<Field>)
    ensures Number([f] + fs) == f.value + Power(f.bits) * Number(fs) && Bits([f] + fs) == f.bits + Bits(fs)
  {
    assert ([f] + fs)[1..] == fs;
  }

  lemma NumberNone()
    ensures Number([]) == 0 && Bits([]) == 0
  {
  }

  lemma NumberConcat(a: seq<Field>, b: seq<Field>)
    requires Fits(a)
    ensures Bits(a + b) == Bits(a) + Bits(b) && Number(a) < Power(Bits(a))
    ensures Number(a + b) == Number(a) + Power(Bits(a)) * Number(b)
    decreases |a|
  {
    if a == [] {
      assert a + b == b;
    } else {
      assert (a + b)[1..] == a[1..] + b;
      NumberConcat(a[1..], b);
      PowerSum(a[0].bits, Bits(a[1..]));
      var p, q, x, y := Power(a[0].bits), Power(Bits(a[1..])), Number(a[1..]), Number(b);
      Spread(p, q, x, y);
      assert a[0].value < p;
    }
  }

  lemma Spread(p: nat, q: nat, x: nat, y: nat)
    requires x < q && p >= 1
    ensures p * (x + q * y) == p * x + p * q * y && p * x + p <= p * q
  {
    assert p * (x + 1) <= p * q;
  }

  /** Whole bytes first: a structure is the bytes of its first fields and then those of the others. */
  lemma PackedConcat(a: seq<Field>, b: seq<Field>)
    requires Fits(a) && Bits(a) % 8 == 0
    ensures Packed(a + b) == Packed(a) + Packed(b)
  {
    hide LE, Bits, Number, Power, Radix;
    NumberConcat(a, b);
    var k := Bits(a) / 8;
    PowerIsRadix(k);
    LESplit(Number(a), Number(b), k, Bits(b) / 8);
  }

  lemma PackedOne(bits: nat, value: nat)
    requires bits % 8 == 0
    ensures Packed([Field(bits, value)]) == LE(value, bits / 8) && Bits([Field(bits, value)]) == bits
  {
    var f := Field(bits, value);
    assert [f] + [] == [f];
    NumberCons(f, []);
    NumberNone();
  }

  lemma PackedByte(fs: seq<Field>)
    requires Fits(fs) && Bits(fs) == 8
    ensures Number(fs) < 256 && Packed(fs) == [Number(fs)]
  {
    NumberConcat(fs, []);
    assert fs + [] == fs;
    Powers();
    LEStep(Number(fs), 1);
  }

  // ----- the three record layouts

  function AddressFields(addrs: seq<u64>): (fs: seq<Field>)
  {
    if addrs == [] then [] else [Field(64, addrs[0])] + AddressFields(addrs[1..])
  }

  function BitOf(b: bool): (n: nat) { if b then 1 else 0 }

  lemma {:induction false} PackedAddresses(addrs: seq<u64>)
    ensures Packed(AddressFields(addrs)) == EncodeAddrs(addrs)
    decreases |addrs|
  {
    hide Power, Number;
    if addrs == [] {
      assert LE(0, 0) == [];
    } else {
      Powers();
      PackedAddresses(addrs[1..]);
      PackedOne(64, addrs[0]);
      PackedConcat([Field(64, addrs[0])], AddressFields(addrs[1..]));
    }
  }

  lemma NumberOf2(a: Field, b: Field)
    ensures Number([a, b]) == a.value + Power(a.bits) * b.value && Bits([a, b]) == a.bits + b.bits
  {
    assert [b] + [] == [b] && [a, b] == [a] + [b];
    NumberCons(b, []);
    NumberNone();
    NumberCons(a, [b]);
  }

  lemma NumberOf4(a: Field, b: Field, c: Field, d: Field)
    ensures Number([a, b, c, d])
            == a.value + Power(a.bits) * (b.value + Power(b.bits) * (c.value + Power(c.bits) * d.value))
    ensures Bits([a, b, c, d]) == a.bits + b.bits + c.bits + d.bits
  {
    hide Number, Bits, Power;
    assert [b, c, d] == [b] + [c, d] && [a, b, c, d] == [a] + [b, c, d];
    NumberOf2(c, d);
    NumberCons(b, [c, d]);
    NumberCons(a, [b, c, d]);
  }

  /** Four bits of size, two of the number of addresses, one each for branch and taken. */
  function SimpleFields(size: nat, n: nat, isBranch: bool, taken: bool): (fs: seq<Field>)
  {
    [Field(4, size), Field(2, n), Field(1, BitOf(isBranch)), Field(1, BitOf(taken))]
  }

  /** Two bits of the number of addresses, one each for branch, taken, predicate and executed; two are not used. */
  function FlagFields(n: nat, isBranch: bool, taken: bool, isPredicate: bool, executed: bool): (fs: seq<Field>)
  {
    [Field(2, n), Field(1, BitOf(isBranch)), Field(1, BitOf(taken)), Field(1, BitOf(isPredicate)),
     Field(1, BitOf(executed)), Field(2, 0)]
  }

  lemma SimpleByteIs(size: nat, n: nat, isBranch: bool, taken: bool)
    requires size < 16 && n < 4
    ensures var fs := SimpleFields(size, n, isBranch, taken);
      Fits(fs) && Bits(fs) == 8 && Packed(fs) == [SimpleByte(size, n, isBranch, taken)]
  {
    hide Power, Packed, Number, Bits;
    var fs := SimpleFields(size, n, isBranch, taken);
    Powers();
    NumberOf4(fs[0], fs[1], fs[2], fs[3]);
    PackedByte(fs);
  }

  lemma FlagByteIs(n: nat, isBranch: bool, taken: bool, isPredicate: bool, executed: bool)
    requires n < 4
    ensures var fs := FlagFields(n, isBranch, taken, isPredicate, executed);
      Fits(fs) && Packed(fs) == [FlagByte(n, isBranch, taken, isPredicate, executed)]
  {
    hide Power, Packed, Number, Bits;
    var fs := FlagFields(n, isBranch, taken, isPredicate, executed);
    Powers();
    FlagsByte(fs);
    PackedByte(fs);
  }

  lemma SizeByteIs(size: nat)
    requires size < 16
    ensures Packed([Field(4, 0), Field(4, size)]) == [16 * size]
  {
    hide Power, Packed, Number, Bits;
    Powers();
    NumberOf2(Field(4, 0), Field(4, size));
    PackedByte([Field(4, 0), Field(4, size)]);
  }

  /** The one byte of the short form, then the addresses. */
  lemma SimpleLayout(rec: Record)
    requires rec.Simple? && WellFormed(rec)
    ensures Encode(rec)
            == Packed(SimpleFields(rec.size, |rec.addrs|, rec.isBranch, rec.taken) + AddressFields(rec.addrs))
  {
    hide Packed, AddressFields, SimpleFields, Bits, Fits, EncodeAddrs, SimpleByte;
    SimpleByteIs(rec.size, |rec.addrs|, rec.isBranch, rec.taken);
    PackedConcat(SimpleFields(rec.size, |rec.addrs|, rec.isBranch, rec.taken), AddressFields(rec.addrs));
    PackedAddresses(rec.addrs);
  }

  /** Four zero bits and four of size, the flags, the address, the addresses. */
  lemma ExtLayout(rec: Record)
    requires rec.Ext? && WellFormed(rec)
    ensures Encode(rec)
            == Packed([Field(4, 0), Field(4, rec.size)])
               + Packed(FlagFields(|rec.addrs|, rec.isBranch, rec.taken, rec.isPredicate, rec.executed))
               + Packed([Field(64, rec.addr)]) + Packed(AddressFields(rec.addrs))
  {
    hide Packed, AddressFields, FlagFields, EncodeAddrs, FlagByte, LE;
    SizeByteIs(rec.size);
    FlagByteIs(|rec.addrs|, rec.isBranch, rec.taken, rec.isPredicate, rec.executed);
    PackedOne(64, rec.addr);
    PackedAddresses(rec.addrs);
  }

  lemma FlagsByte(fs: seq<Field>)
    requires |fs| == 6 && fs[0].bits == 2 && fs[1].bits == fs[2].bits == fs[3].bits == fs[4].bits == 1
    requires fs[5] == Field(2, 0)
    ensures Number(fs) == fs[0].value + 4 * fs[1].value + 8 * fs[2].value + 16 * fs[3].value + 32 * fs[4].value
    ensures Bits(fs) == 8
  {
    hide Number, Bits, Power;
    var tail := fs[2..];
    assert tail == [fs[2], fs[3], fs[4], fs[5]] && fs == [fs[0]] + ([fs[1]] + tail);
    NumberOf4(fs[2], fs[3], fs[4], fs[5]);
    Powers();
    NumberCons(fs[1], tail);
    NumberCons(fs[0], [fs[1]] + tail);
  }

  /** A zero byte, the type, 32 bits of size, the data. */
  lemma OtherLayout(rec: Record)
    requires rec.Other? && WellFormed(rec)
    ensures Encode(rec) == Packed([Field(8, 0), Field(8, rec.kind), Field(32, |rec.data|)]) + rec.data
  {
    hide Packed, Power, LE;
    HeaderLayout(rec.kind, |rec.data|);
  }

  lemma OneByte(b: byte)
    ensures LE(b, 1) == [b]
  {
    LEStep(b, 1);
  }

  lemma HeaderLayout(kind: byte, size: u32)
    ensures Packed([Field(8, 0), Field(8, kind), Field(32, size)]) == OtherHeader(kind, size)
  {
    hide Power, Packed, LE, Bits;
    Powers();
    var zero, tag, len := [Field(8, 0)], [Field(8, kind)], [Field(32, size)];
    PackedOne(8, 0);
    PackedOne(8, kind);
    PackedOne(32, size);
    OneByte(0);
    OneByte(kind);
    PackedConcat(tag, len);
    PackedConcat(zero, tag + len);
    assert zero + (tag + len) == [Field(8, 0), Field(8, kind), Field(32, size)];
  }

  // ----- type codes and data

  /** The bytes of the record that a call other than an instruction ends with. */
  function CallBytes(call: Call): (s: seq<byte>)
    requires !call.Instruction? && (call.Output? ==> |call.bytes| < 0xffff_ffff)
  {
    match call
    case CacheOnly(icount, what, eip, address) => [0, 24] + LE4(18) + ([icount, what] + LE8(eip) + LE8(address))
    case Output(fd, bytes) => [0, 1] + LE4(1 + |bytes|) + ([fd] + bytes)
    case RoutineChange(event, eip, esp, callEip) =>
      [0, 17] + LE4(25) + ([event] + LE8(eip) + LE8(esp) + LE8(callEip))
    case RoutineAnnounce(eip, name, img, offset, line, column, file) =>
      var n, i, f := Sent(name), Sent(img), Sent(file);
      [0, 18] + LE4(30 + |n| + |i| + |f|)
      + (LE8(eip) + ((LE2(|n|) + n) + ((LE2(|i|) + i) + (LE8(offset) + LE4(line) + LE4(column) + (LE2(|f|) + f)))))
    case ISAChange(isa) => [0, 25] + LE4(4) + LE4(isa)
  }

  lemma CallLayout(cfg: Config, w: WState, call: Call)
    requires Admissible(cfg, call) && !call.Instruction?
    ensures var recs := Emit(cfg, w, call).recs;
      |recs| > 0 && WellFormed(recs[|recs| - 1]) && Encode(recs[|recs| - 1]) == CallBytes(call)
  {
    hide LE8, LE4, LE2, Sent, EmitTranslations;
  }

  /** A page of code, the code of one instruction, a translation, and the end. */
  lemma PageLayout(cfg: Config, base: u64)
    requires base + 4096 <= TWO_TO_THE_64
    ensures Encode(PageRecord(cfg, base)) == [0, 0] + LE4(4104) + (LE8(base) + CodeBytes(cfg, base, 4096))
  {
    hide LE8, LE4, CodeBytes;
    FieldRoundTrip();
  }

  lemma CodeLayout(cfg: Config, w: WState, addr: u64, size: nat)
    requires cfg.perInsn && addr !in w.sent && 1 <= size <= 15 && addr + size <= TWO_TO_THE_64
    ensures var recs := EmitCode(cfg, w, addr, size).recs;
      |recs| == 1 && WellFormed(recs[0])
      && Encode(recs[0]) == [0, 11] + LE4(8 + size) + (LE8(addr) + CodeBytes(cfg, addr, size))
  {
    hide LE8, LE4, CodeBytes;
    FieldRoundTrip();
  }

  lemma TranslationLayout(cfg: Config, w: WState, va: u64)
    ensures var recs := EmitTranslation(cfg, w, va).recs;
      recs == [] || (|recs| == 1 && WellFormed(recs[0])
                     && exists frame: u64 :: Encode(recs[0]) == [0, 14] + LE4(16) + (LE8(va / 4096) + LE8(frame)))
  {
    hide LE8, LE4;
    if EmitTranslation(cfg, w, va).recs != [] {
      var frame := cfg.frames(|w.lookups|, va / PAGE);
      assert Encode(EmitTranslation(cfg, w, va).recs[0]) == [0, 14] + LE4(16) + (LE8(va / 4096) + LE8(frame));
    }
  }

  lemma EndLayout()
    ensures WellFormed(END_RECORD) && Encode(END_RECORD) == [0, 255, 0, 0, 0, 0]
  {
    LEZero(4);
  }

  /** The sizes that the reader's assertions accept, type by type. */
  lemma SizesAccepted(kind: byte, size: u32)
    ensures SizeAccepted(kind, size)
            <==> match kind
                 case 0 => size == 4104
                 case 1 => size >= 2
                 case 2 => size >= 3
                 case 4 => size == 0
                 case 8 => size == 4
                 case 12 => size == 0
                 case 14 => size == 16
                 case 15 => size == 24
                 case 17 => size == 25
                 case 19 => size <= 10
                 case 21 => size == 0
                 case 23 => size == 4
                 case 24 => size == 18
                 case 25 => size == 4
                 case 255 => size == 0
                 case _ => true
  {
  }

  /** The types that reach the backend as requests, and those that the reader skips by their size. */
  lemma TypesRead(g: Garbage, r: RState, kind: byte, data: seq<byte>)
    requires PointersOk(r) && WellFormed(Other(kind, data))
    ensures SiftReading.Other(g, r, kind, data) == Continue(r, [Requested(kind, data)])
            <==> kind in {2, 4, 8, 12, 15, 19, 21, 23}
    ensures Unhandled(kind) <==> kind in {3, 5, 6, 7, 9, 10, 13, 16, 20, 22} || 26 <= kind <= 254
  {
    hide U64, U32, Scatter;
  }

  /** A number of addresses that the reader has no room for is refused in both forms. */
  lemma TooManyAddresses(input: seq<byte>)
    requires |input| >= 10 && input[0] != 0
    ensures Parse(input) == Broken(AddressOverrun)
            <==> if input[0] % 16 != 0 then input[0] / 16 % 4 == 3 else input[1] % 4 == 3
  {
    hide U64, ParseAddrs;
  }
}
