/** Whole traces through the two objects: recording a list of calls, and dumping a trace. */
module SiftReplay {
  import opened Options
  import opened Bytes
  import opened SiftRecords
  import opened SiftMemory
  import opened SiftReading
  import opened SiftWriting
  import opened SiftRoundTrip
  import opened SiftWriter
  import opened SiftReader

  datatype Stream = Stream(hasPhysical: bool, body: seq<byte>)

  /**
   Opening a trace. The size field is not checked beyond a warning; unknown option bits are
   refused, and so is compression, which is not part of this model.
   */
  function Open(trace: seq<byte>): (s: Option<Stream>)
  {
    if |trace| < 16 || U32(trace[..4]) != MAGIC_NUMBER then None else
    var options := U64(trace[8..16]);
    if options % 2 == 1 || options >= 16 then None else Some(Stream(options / 8 % 2 == 1, trace[16..]))
  }

  /** A header reads "SIFT", no extra header, and one bit each for a 32-bit program, code per instruction and frames. */
  lemma HeaderBytes(cfg: Config)
    ensures Header(cfg)[..8] == [0x53, 0x49, 0x46, 0x54, 0, 0, 0, 0] && Header(cfg)[9..] == [0, 0, 0, 0, 0, 0, 0]
    ensures var b := Header(cfg)[8];
      b % 2 == 0 && (b / 2 % 2 == 1) == cfg.arch32 && (b / 4 % 2 == 1) == cfg.perInsn
      && (b / 8 % 2 == 1) == cfg.sendPhysical && b < 16
  {
    MagicBytes();
    SmallBytes(0, 4);
    OptionBits(cfg);
    SmallBytes(SiftWriter.Options(cfg), 8);
    hide LE, SiftWriter.Options;
  }

  lemma OptionBits(cfg: Config)
    ensures var b := SiftWriter.Options(cfg);
      b % 2 == 0 && (b / 2 % 2 == 1) == cfg.arch32 && (b / 4 % 2 == 1) == cfg.perInsn
      && (b / 8 % 2 == 1) == cfg.sendPhysical && b < 16
  {
  }

  lemma SmallBytes(n: nat, k: nat)
    requires n < 256 && k > 0
    ensures LE(n, k) == [n] + seq(k - 1, _ => 0)
  {
    LEStep(n, k);
    LEZero(k - 1);
  }

  lemma MagicBytes()
    ensures LE4(0x54464953) == [0x53, 0x49, 0x46, 0x54]
  {
    LEStep(0x54464953, 4);
    LEStep(0x544649, 3);
    LEStep(0x5446, 2);
    LEStep(0x54, 1);
  }

  lemma HeaderRoundTrip(cfg: Config, body: seq<byte>)
    ensures Open(Header(cfg) + body) == Some(Stream(cfg.sendPhysical, body))
  {
    hide Header, U32, U64;
    HeaderFields(cfg, body);
  }

  lemma HeaderFields(cfg: Config, body: seq<byte>)
    ensures var trace := Header(cfg) + body;
      U32(trace[..4]) == MAGIC_NUMBER && U64(trace[8..16]) == SiftWriter.Options(cfg) && trace[16..] == body
  {
    hide U32, U64, LE4, LE8, SiftWriter.Options;
    FieldRoundTrip();
    var trace := Header(cfg) + body;
    assert trace[..4] == LE4(MAGIC_NUMBER);
    assert trace[8..16] == LE8(SiftWriter.Options(cfg));
  }

  lemma {:induction false} EmitAllAppend(cfg: Config, w: WState, calls: seq<Call>, call: Call)
    requires AllAdmissible(cfg, calls) && Admissible(cfg, call)
    ensures AllAdmissible(cfg, calls + [call])
    ensures var e := EmitAll(cfg, w, calls);
      EmitAll(cfg, w, calls + [call]) == Emission(e.recs + Emit(cfg, e.w, call).recs, Emit(cfg, e.w, call).w)
    decreases |calls|
  {
    hide Emit, Admissible;
    if |calls| == 0 {
      assert calls + [call] == [call];
      var none: seq<Call> := [call][1..];
      assert none == [];
      assert EmitAll(cfg, w, [call]) == Emission(Emit(cfg, w, call).recs + [], Emit(cfg, w, call).w);
    } else {
      assert (calls + [call])[1..] == calls[1..] + [call];
      EmitAllAppend(cfg, Emit(cfg, w, calls[0]).w, calls[1..], call);
    }
  }

  method Perform(writer: Writer, call: Call)
    requires Admissible(writer.cfg, call) && writer.isOpen
    modifies writer
    ensures writer.isOpen && writer.Wrote(old(writer.output), Emit(writer.cfg, old(writer.State()), call))
  {
    hide Emit;
    match call
    case Instruction(_, _, _, _, _, _, _) => writer.Instruction(call);
    case CacheOnly(icount, what, eip, address) => writer.CacheOnly(icount, what, eip, address);
    case Output(fd, bytes) => writer.Output(fd, bytes);
    case RoutineChange(event, eip, esp, callEip) => writer.RoutineChange(event, eip, esp, callEip);
    case RoutineAnnounce(eip, name, img, offset, line, column, file) =>
      writer.RoutineAnnounce(eip, name, img, offset, line, column, file);
    case ISAChange(isa) => writer.ISAChange(isa);
  }

  /** Make every call on a new writer and end the trace. */
  method Record(cfg: Config, calls: seq<Call>) returns (trace: seq<byte>)
    requires AllAdmissible(cfg, calls)
    ensures trace == Header(cfg) + Trace(cfg, calls)
  {
    hide EncodeAll, Emit, EmitAll, WellFormed, Header;
    var writer := new Writer(cfg);
    NothingEmitted(cfg);
    for i := 0 to |calls|
      invariant writer.isOpen && writer.cfg == cfg
      invariant writer.Wrote(Header(cfg), EmitAll(cfg, FRESH, calls[..i]))
    {
      var done := EmitAll(cfg, FRESH, calls[..i]);
      assert calls[..i + 1] == calls[..i] + [calls[i]];
      EmitAllAppend(cfg, FRESH, calls[..i], calls[i]);
      EncodeAllConcat(done.recs, Emit(cfg, done.w, calls[i]).recs);
      Perform(writer, calls[i]);
    }
    assert calls[..|calls|] == calls;
    EndWellFormed();
    EncodeAllConcat(EmitAll(cfg, FRESH, calls).recs, [END_RECORD]);
    writer.End();
    trace := writer.output;
  }

  lemma EndWellFormed()
    ensures AllWellFormed([END_RECORD])
  {
  }

  lemma NothingEmitted(cfg: Config)
    ensures EmitAll(cfg, FRESH, []) == Emission([], FRESH) && EncodeAll([]) == []
  {
  }

  /** Open a trace and read it to its end: what was seen and how it ended. */
  method Dump(garbage: Garbage, trace: seq<byte>) returns (seen: Option<(seq<Item>, Status)>)
    ensures match Open(trace)
            case None => seen.None?
            case Some(stream) =>
              var o := RunBytes(garbage, START, stream.body);
              seen == Some((o.items, o.status))
  {
    hide Apply, Parse, RunBytes, ReadNext, SiftReading.PointersOk;
    var stream := Open(trace);
    if stream.None? {
      return None;
    }
    var reader := new Reader(garbage, stream.value.body);
    var items: seq<Item>, status := [], SiftReading.Open;
    ghost var goal := RunBytes(garbage, START, stream.value.body);
    assert [] + goal.items == goal.items;
    while true
      invariant fresh(reader) && fresh(reader.icache.Values) && fresh(reader.scache.Values)
      invariant reader.Valid() && !reader.seenEnd && reader.garbage == garbage
      invariant var o := RunBytes(garbage, reader.State(), reader.input);
                goal.items == items + o.items && goal.status == o.status
      decreases |reader.input|
    {
      ReadNextIsRunPrefix(garbage, reader.State(), reader.input);
      ghost var r0, input0 := reader.State(), reader.input;
      var before := |reader.seen|;
      var end, stale := reader.Read();
      ghost var more := ReadNext(garbage, r0, input0).seen;
      assert reader.seen[before..] == more;
      match end
      case Got(inst) =>
        ghost var rest := RunBytes(garbage, reader.State(), reader.input).items;
        assert items + (more + [inst] + rest) == items + more + [inst] + rest;
        items := items + reader.seen[before..] + [inst];
      case EndRecord => return Some((items + reader.seen[before..], Ended));
      case OutOfInput => return Some((items + reader.seen[before..], SiftReading.Open));
      case Crash(error) => return Some((items + reader.seen[before..], Failed(error)));
    }
  }

  /** Dumping what was recorded shows the calls that were made, and that the trace is complete. */
  method RecordAndDump(garbage: Garbage, cfg: Config, calls: seq<Call>) returns (seen: Option<(seq<Item>, Status)>)
    requires AllAdmissible(cfg, calls)
    ensures seen == Some((ShownAll(cfg, 0, 0, calls), Ended))
  {
    hide Trace, RunBytes, Header;
    var trace := Record(cfg, calls);
    HeaderRoundTrip(cfg, Trace(cfg, calls));
    RoundTrip(garbage, cfg, calls);
    seen := Dump(garbage, trace);
  }

  /** A recording without frames is opened as such, and every address stands for itself. */
  lemma WithoutFrames(garbage: Garbage, cfg: Config, calls: seq<Call>, va: u64)
    requires AllAdmissible(cfg, calls) && !cfg.sendPhysical
    ensures var s := Open(Header(cfg) + Trace(cfg, calls));
      s.Some? && Va2pa(RunBytes(garbage, START, s.value.body).r, s.value.hasPhysical, va) == va
  {
    hide Trace, RunBytes, Header;
    HeaderRoundTrip(cfg, Trace(cfg, calls));
  }
}
