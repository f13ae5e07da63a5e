/**
 Physical addresses in a trace: the first frame found for a page is sent once, stays, and is what
 the reader translates with whenever it returns an instruction that touches the page.
 */
module SiftPhysical {
  import opened Options
  import opened Bytes
  import opened SiftRecords
  import opened SiftMemory
  import opened SiftReading
  import opened SiftWriting
  import opened SiftRoundTrip

  /** The first nonzero frame that a lookup of page vp found. */
  function FirstFrame(lookups: seq<(u64, u64)>, vp: u64): (f: Option<u64>)
  {
    if |lookups| == 0 then None
    else if lookups[0].0 == vp && lookups[0].1 != 0 then Some(lookups[0].1)
    else FirstFrame(lookups[1..], vp)
  }

  function FramesFound(lookups: seq<(u64, u64)>, vp: u64): (n: nat)
  {
    if |lookups| == 0 then 0
    else (if lookups[0].0 == vp && lookups[0].1 != 0 then 1 else 0) + FramesFound(lookups[1..], vp)
  }

  predicate Maps(rec: Record, vp: u64)
  {
    rec.Other? && rec.kind == LOGICAL_TO_PHYSICAL && |rec.data| >= 8 && U64(rec.data[..8]) == vp
  }

  /** How many translation records for page vp a record list holds. */
  function TimesSent(recs: seq<Record>, vp: u64): (n: nat)
  {
    if |recs| == 0 then 0 else (if Maps(recs[0], vp) then 1 else 0) + TimesSent(recs[1..], vp)
  }

  lemma {:induction false} TimesSentConcat(a: seq<Record>, b: seq<Record>, vp: u64)
    ensures TimesSent(a + b, vp) == TimesSent(a, vp) + TimesSent(b, vp)
    decreases |a|
  {
    if |a| == 0 {
      assert a + b == b;
    } else {
      assert (a + b)[1..] == a[1..] + b;
      TimesSentConcat(a[1..], b, vp);
    }
  }

  lemma {:induction false} FirstFrameAppend(lookups: seq<(u64, u64)>, x: (u64, u64), vp: u64)
    ensures FirstFrame(lookups + [x], vp)
            == if FirstFrame(lookups, vp).Some? then FirstFrame(lookups, vp)
               else if x.0 == vp && x.1 != 0 then Some(x.1) else None
    ensures FramesFound(lookups + [x], vp) == FramesFound(lookups, vp) + (if x.0 == vp && x.1 != 0 then 1 else 0)
    decreases |lookups|
  {
    if |lookups| == 0 {
      assert lookups + [x] == [x];
    } else {
      assert (lookups + [x])[1..] == lookups[1..] + [x];
      FirstFrameAppend(lookups[1..], x, vp);
    }
  }

  /** The writer's table is the first frame found per page, and no page is looked up again after that. */
  ghost predicate TableOk(w: WState)
  {
    forall vp: u64 ::
      && (vp in w.frames <==> FirstFrame(w.lookups, vp).Some?)
      && (vp in w.frames ==> FirstFrame(w.lookups, vp) == Some(w.frames[vp]))
      && FramesFound(w.lookups, vp) == (if vp in w.frames then 1 else 0)
  }

  function Fresh(w: WState, w': WState, vp: u64): (n: nat) { if vp in w'.frames && vp !in w.frames then 1 else 0 }

  ghost predicate Grows(w: WState, w': WState)
  {
    && (forall vp :: vp in w.frames ==> vp in w'.frames && w'.frames[vp] == w.frames[vp])
    && w.lookups <= w'.lookups
  }

  lemma TranslationOnce(cfg: Config, w: WState, va: u64, vp: u64)
    requires TableOk(w)
    ensures var e := EmitTranslation(cfg, w, va);
      && TableOk(e.w) && Grows(w, e.w)
      && TimesSent(e.recs, vp) == Fresh(w, e.w, vp)
      && (cfg.sendPhysical ==> va / PAGE in e.w.frames || (va / PAGE, 0) in e.w.lookups)
  {
    var e := EmitTranslation(cfg, w, va);
    if e.w != w {
      var x := e.w.lookups[|w.lookups|];
      assert e.w.lookups == w.lookups + [x];
      forall p: u64 { FirstFrameAppend(w.lookups, x, p); }
      if x.1 != 0 {
        var data := LE8(x.0) + LE8(x.1);
        assert data[..8] == LE8(x.0);
        assert U64(data[..8]) == x.0 by { FieldRoundTrip(); }
        assert e.recs[1..] == [];
      }
    }
  }

  lemma {:induction false} TranslationsOnce(cfg: Config, w: WState, vas: seq<u64>, vp: u64)
    requires TableOk(w)
    ensures var e := EmitTranslations(cfg, w, vas);
      && TableOk(e.w) && Grows(w, e.w)
      && TimesSent(e.recs, vp) == Fresh(w, e.w, vp)
      && (cfg.sendPhysical ==> forall va :: va in vas ==> va / PAGE in e.w.frames || (va / PAGE, 0) in e.w.lookups)
    decreases |vas|
  {
    hide TableOk;
    if |vas| > 0 {
      var first := EmitTranslation(cfg, w, vas[0]);
      TranslationOnce(cfg, w, vas[0], vp);
      TranslationsOnce(cfg, first.w, vas[1..], vp);
      TimesSentConcat(first.recs, EmitTranslations(cfg, first.w, vas[1..]).recs, vp);
    }
  }

  lemma {:induction false} PagesCarryNoTranslation(cfg: Config, w: WState, base: u64, last: u64, vp: u64)
    requires base % PAGE == 0 && last % PAGE == 0 && last + PAGE < TWO_TO_THE_64
    ensures TimesSent(EmitPages(cfg, w, base, last).recs, vp) == 0
    decreases last + PAGE - base
  {
    hide WellFormed, CodeBytes;
    if base <= last {
      if base in w.sent {
        PagesCarryNoTranslation(cfg, w, base + PAGE, last, vp);
      } else {
        var w' := w.(sent := w.sent + {base});
        PagesCarryNoTranslation(cfg, w', base + PAGE, last, vp);
        var recs := EmitPages(cfg, w, base, last).recs;
        assert recs[1..] == EmitPages(cfg, w', base + PAGE, last).recs;
      }
    }
  }

  lemma CodeCarriesNoTranslation(cfg: Config, w: WState, addr: u64, size: int, vp: u64)
    requires 1 <= size <= 15 && addr + size <= TWO_TO_THE_64 - (if cfg.perInsn then 0 else PAGE)
    ensures var e := EmitCode(cfg, w, addr, size);
      TimesSent(e.recs, vp) == 0 && e.w.frames == w.frames && e.w.lookups == w.lookups
  {
    if !cfg.perInsn {
      PagesCarryNoTranslation(cfg, w, PageOf(addr), PageOf(addr + size - 1), vp);
      PagesSent(cfg, w, PageOf(addr), PageOf(addr + size - 1));
    }
  }

  /** The addresses a call has translated. */
  function Touched(call: Call): (vas: seq<u64>)
  {
    match call
    case Instruction(addr, _, addrs, _, _, _, _) => [addr] + addrs
    case CacheOnly(_, _, eip, address) => [eip, address]
    case _ => []
  }

  lemma CallOnce(cfg: Config, w: WState, call: Call, vp: u64)
    requires TableOk(w) && Admissible(cfg, call)
    ensures var e := Emit(cfg, w, call);
      && TableOk(e.w) && Grows(w, e.w)
      && TimesSent(e.recs, vp) == Fresh(w, e.w, vp)
      && (cfg.sendPhysical ==>
            forall va :: va in Touched(call) ==> va / PAGE in e.w.frames || (va / PAGE, 0) in e.w.lookups)
  {
    var e := Emit(cfg, w, call);
    if call.Instruction? {
      var code := EmitCode(cfg, w, call.addr, call.size);
      CodeCarriesNoTranslation(cfg, w, call.addr, call.size, vp);
      TranslationsOnce(cfg, code.w, Touched(call), vp);
      var trans := EmitTranslations(cfg, code.w, Touched(call));
      var rec := InstructionRecord(w.last, call);
      assert TimesSent([rec], vp) == 0;
      TimesSentConcat(code.recs, trans.recs, vp);
      TimesSentConcat(code.recs + trans.recs, [rec], vp);
    } else {
      TranslationsOnce(cfg, w, Touched(call), vp);
      var trans := EmitTranslations(cfg, w, Touched(call));
      var rec := e.recs[|e.recs| - 1];
      assert e.recs == trans.recs + [rec];
      assert TimesSent([rec], vp) == 0;
      TimesSentConcat(trans.recs, [rec], vp);
    }
  }

  lemma {:induction false} CallsOnce(cfg: Config, w: WState, calls: seq<Call>, vp: u64)
    requires TableOk(w) && AllAdmissible(cfg, calls)
    ensures var e := EmitAll(cfg, w, calls);
      && TableOk(e.w) && Grows(w, e.w)
      && TimesSent(e.recs, vp) == Fresh(w, e.w, vp)
      && (cfg.sendPhysical && |calls| > 0 ==>
            forall va :: va in Touched(calls[|calls| - 1]) ==> va / PAGE in e.w.frames || (va / PAGE, 0) in e.w.lookups)
    decreases |calls|
  {
    hide TableOk, Emit, Admissible;
    if |calls| > 0 {
      var first := Emit(cfg, w, calls[0]);
      CallOnce(cfg, w, calls[0], vp);
      CallsOnce(cfg, first.w, calls[1..], vp);
      TimesSentConcat(first.recs, EmitAll(cfg, first.w, calls[1..]).recs, vp);
      if |calls| == 1 {
        assert EmitAll(cfg, first.w, calls[1..]) == Emission([], first.w);
      }
    }
  }

  /**
   A page is sent at most once: over the whole trace there is exactly one translation record for a
   page for which some lookup found a frame, and none for any other page.
   */
  lemma SentAtMostOnce(cfg: Config, calls: seq<Call>, vp: u64)
    requires AllAdmissible(cfg, calls)
    ensures var e := EmitAll(cfg, FRESH, calls);
      TimesSent(e.recs, vp) == (if FirstFrame(e.w.lookups, vp).Some? then 1 else 0) <= 1
  {
    CallsOnce(cfg, FRESH, calls, vp);
  }

  /**
   When the reader has just returned an instruction, or seen a cache-only access, it translates
   each address involved with the first frame found for its page, or to 0 if every lookup so far
   failed; and it does so at any later point of the trace too.
   */
  lemma TranslationIsFirstFrame(g: Garbage, cfg: Config, calls: seq<Call>, later: seq<Call>, va: u64)
    requires cfg.sendPhysical && AllAdmissible(cfg, calls) && AllAdmissible(cfg, later) && |calls| > 0
    requires va in Touched(calls[|calls| - 1])
    requires forall k: nat, vp: u64 :: cfg.frames(k, vp) < TWO_TO_THE_64 / PAGE
    ensures var w := EmitAll(cfg, FRESH, calls).w;
      var r := Run(g, START, EmitAll(cfg, FRESH, calls).recs).r;
      match FirstFrame(w.lookups, va / PAGE)
      case Some(frame) =>
        && Va2pa(r, true, va) == frame * PAGE + va % PAGE
        && Va2pa(Run(g, r, EmitAll(cfg, w, later).recs).r, true, va) == frame * PAGE + va % PAGE
      case None => Va2pa(r, true, va) == 0 && (va / PAGE, 0) in w.lookups
  {
    hide Run, EmitAll, ShownAll;
    var vp := va / PAGE;
    var w := EmitAll(cfg, FRESH, calls).w;
    CallsOnce(cfg, FRESH, calls, vp);
    assert InStep(cfg, FRESH, START);
    var r := RunCalls(g, cfg, FRESH, START, calls);
    if vp in w.frames {
      FramesBounded(cfg, FRESH, calls, vp);
      CallsOnce(cfg, w, later, vp);
      var r' := RunCalls(g, cfg, w, r, later);
      TranslateWith(r, w.frames[vp], va);
      TranslateWith(r', w.frames[vp], va);
    }
  }

  lemma TranslateWith(r: RState, frame: u64, va: u64)
    requires va / PAGE in r.vcache && r.vcache[va / PAGE] == frame < TWO_TO_THE_64 / PAGE
    ensures Va2pa(r, true, va) == frame * PAGE + va % PAGE
  {
  }

  ghost predicate Bounded(w: WState)
  {
    forall vp :: vp in w.frames ==> w.frames[vp] < TWO_TO_THE_64 / PAGE
  }

  lemma {:induction false} TranslationsBounded(cfg: Config, w: WState, vas: seq<u64>)
    requires Bounded(w) && forall k: nat, vp: u64 :: cfg.frames(k, vp) < TWO_TO_THE_64 / PAGE
    ensures Bounded(EmitTranslations(cfg, w, vas).w)
    decreases |vas|
  {
    if |vas| > 0 { TranslationsBounded(cfg, EmitTranslation(cfg, w, vas[0]).w, vas[1..]); }
  }

  lemma {:induction false} FramesBounded(cfg: Config, w: WState, calls: seq<Call>, vp: u64)
    requires Bounded(w) && AllAdmissible(cfg, calls)
    requires forall k: nat, p: u64 :: cfg.frames(k, p) < TWO_TO_THE_64 / PAGE
    ensures Bounded(EmitAll(cfg, w, calls).w)
    decreases |calls|
  {
    if |calls| > 0 {
      var call := calls[0];
      if call.Instruction? {
        CodeCarriesNoTranslation(cfg, w, call.addr, call.size, vp);
        TranslationsBounded(cfg, EmitCode(cfg, w, call.addr, call.size).w, Touched(call));
      } else {
        TranslationsBounded(cfg, w, Touched(call));
      }
      FramesBounded(cfg, Emit(cfg, w, call).w, calls[1..], vp);
    }
  }
}
