/** Which record answers which call: the type codes and sizes of the four answers, as numbers. */
module SiftAnswers {
  import opened Options
  import opened Bytes
  import opened SiftRecords
  import opened SiftProtocol

  /** Sync is answered by type 13 with 4 bytes, Syscall by 3 with 8, Magic by 16 with 8, Emulate by 20 with 49. */
  predicate Answers(call: byte, answer: byte, size: nat)
  {
    || (call == 12 && answer == 13 && size == 4)
    || (call == 2 && answer == 3 && size == 8)
    || (call == 15 && answer == 16 && size == 8)
    || (call == 19 && answer == 20 && size == 49)
  }

  /** The other records of an exchange: the call, a nested memory request and its response. */
  lemma ExchangeLayout(handlerSet: bool, s: State, a: Action)
    requires Enabled(handlerSet, s, a)
    ensures a.Start? ==> a.call.kind in {2, 12, 15, 19}
                         && Do(handlerSet, s, a).fOut == [0, a.call.kind] + LE4(|a.call.data|) + a.call.data
    ensures a.BackAccess? && |a.req.data| < 0xffff_ffec ==>
      Do(handlerSet, s, a).bOut
      == [0, 6] + LE4(20 + |a.req.data|)
         + (LE8(a.req.addr) + LE4(a.req.size) + LE4(a.req.lock) + LE4(a.req.op) + a.req.data)
    ensures a.FrontServe? && |a.reply| < 0xffff_fff4 ==>
      var r := DecodeReq(s.fIn[6..]);
      Do(handlerSet, s, a).fOut == [0, 7] + LE4(12 + |a.reply|) + (LE8(r.addr) + LE4(r.op) + a.reply)
  {
    hide DecodeReq, Sees, BackSees, LE8, LE4;
  }

  /** A request is serviceable by its numbers: operation 1 reads, operation 2 writes. */
  lemma ServiceableIff(handlerSet: bool, r: Req)
    ensures Serviceable(handlerSet, r)
            <==> handlerSet && r.size >= 1 && (r.op == 1 || (r.op == 2 && r.size <= 4294967275))
  {
  }

  /** What the backend puts on the channel when a handler is done. */
  lemma BackAnswersWith(handlerSet: bool, s: State, value: bytes) returns (k: byte)
    requires s.back.Handling? && CallOk(s.back.call) && Enabled(handlerSet, s, BackAnswer(value))
    ensures Answers(s.back.call.kind, k, |value|)
    ensures Do(handlerSet, s, BackAnswer(value)).bOut == [0, k] + LE4(|value|) + value
  {
    k := AnswerKind(s.back.call.kind);
  }

  /** Exactly the bytes on which a waiting call returns; an emulation reply may be shorter than announced. */
  lemma ReturnsIff(handlerSet: bool, c: Call, buf: bytes)
    requires CallOk(c)
    ensures Sees(handlerSet, c.kind, buf) == Returns
            <==> && |buf| >= 7 && buf[0] == 0
                 && (if c.kind == 19 then buf[1] == 20 && U32(buf[2..6]) <= 49
                     else Answers(c.kind, buf[1], U32(buf[2..6])))
                 && |buf| >= 6 + U32(buf[2..6])
  {
    hide U32, SeesRequest;
    if |buf| >= 6 && buf[0] == 0 && buf[1] == MEMORY_REQUEST { RequestIsNoReturn(handlerSet, buf); }
  }

  lemma RequestIsNoReturn(handlerSet: bool, buf: bytes)
    requires |buf| >= 6
    ensures SeesRequest(handlerSet, buf) != Returns
  {
    hide U32, DecodeReq;
  }

  /**
   Over every run with serviceable accesses: a call returns on one whole record of the type and size
   that answers it, and with the value that was given to it.
   */
  lemma ReturnedOnItsAnswer(handlerSet: bool, states: seq<State>, actions: seq<Action>, i: nat)
    returns (c: Call, k: byte, value: bytes)
    requires IsRun(handlerSet, QUIET, states, actions) && OnlyServiceable(handlerSet, actions)
    requires i < |actions| && actions[i] == FrontReturn
    ensures states[i].front == Some(c) && Answers(c.kind, k, |value|)
    ensures states[i].fIn == [0, k] + LE4(|value|) + value
    ensures states[i].answered == states[i].returned + [(c, value)] == states[i + 1].returned
  {
    hide Frame, ReqData, ReplyData, Sees;
    var s := states[i];
    assert Enabled(handlerSet, s, FrontReturn);
    var p := RunKeepsPhase(handlerSet, states, actions, i);
    c := s.front.value;
    value := OnlyWhileAnswering(handlerSet, s, p);
    k := AnswerKind(c.kind);
    FrameIs(k, value);
  }

  lemma FrameIs(k: byte, value: bytes)
    requires |value| < TWO_TO_THE_32
    ensures Frame(k, value) == [0, k] + LE4(|value|) + value
  {
  }

  lemma OnlyWhileAnswering(handlerSet: bool, s: State, p: Phase) returns (value: bytes)
    requires InPhase(handlerSet, s, p) && Enabled(handlerSet, s, FrontReturn)
    ensures CallOk(s.front.value) && |value| == AnswerSize(s.front.value.kind)
    ensures s.fIn == Frame(AnswerKind(s.front.value.kind), value)
    ensures s.answered == s.returned + [(s.front.value, value)]
  {
    hide Frame, ReqData, ReplyData, Sees, AnswerKind, AnswerSize;
    match p
    case Answering(c, v) =>
      value := v;
      AnswerPrefix(handlerSet, c, v, s.fIn, s.toFront + s.bOut);
      assert s.fIn + [] == s.fIn;
    case Requesting(c, r) => RequestPrefix(handlerSet, c.kind, r, s.fIn, s.toFront + s.bOut);
    case _ => EmptyIsMore(handlerSet, s);
  }

  lemma EmptyIsMore(handlerSet: bool, s: State)
    ensures s.front.Some? && s.fIn == [] ==> FrontSees(handlerSet, s).More?
  {
  }

  // ----- records of any other type

  lemma {:induction false} FateWithin(handlerSet: bool, kind: byte, buf: bytes, rest: bytes)
    ensures var f := FateOf(handlerSet, kind, buf, rest); f.Ends? ==> |f.record| <= |buf| + |rest|
    decreases |buf| + |rest|, |rest|
  {
    hide Sees;
    match Sees(handlerSet, kind, buf)
    case More(n) => if |rest| >= n { FateWithin(handlerSet, kind, buf + rest[..n], rest[n..]); }
    case Skips => FateWithin(handlerSet, kind, [], rest);
    case _ =>
  }

  ghost predicate ReturnsOn(handlerSet: bool, c: Call, record: bytes)
  {
    FateOf(handlerSet, c.kind, [], record) == Ends(Returns, record)
  }

  ghost predicate Returning(handlerSet: bool, c: Call, w: bytes)
  {
    FateOf(handlerSet, c.kind, [], w).Ends? && FateOf(handlerSet, c.kind, [], w).how == Returns
  }

  lemma FrameBytes(k: byte, v: bytes)
    ensures var f := Frame(k, v); f[0] == 0 && f[1] == k && f[6..] == v && U32(f[2..6]) == |v| % TWO_TO_THE_32
  {
    assert Frame(k, v) + [] == Frame(k, v);
    HeaderAt(k, v, Frame(k, v), []);
  }

  /** No call returns on the answer to another: it gives up, aborts, or skips the header. */
  lemma OtherAnswers(handlerSet: bool, c: Call, d: Call, v: bytes)
    requires CallOk(c) && CallOk(d) && c.kind != d.kind
    ensures var f := Frame(AnswerKind(d.kind), v);
      && !ReturnsOn(handlerSet, c, f)
      && FateOf(handlerSet, c.kind, [], f)
         == if c.kind == 2 then FateOf(handlerSet, c.kind, [], v)
            else Ends(if c.kind == 15 then Aborts else GivesUp, f[..6])
  {
    var f := Frame(AnswerKind(d.kind), v);
    FrameBytes(AnswerKind(d.kind), v);
    hide FateOf, Frame, U32, RequestInStray;
    StrayBytes(handlerSet, c, f);
    FateWithin(handlerSet, c.kind, [], v);
  }

  function ExpectedSize(call: byte): (n: nat) { if call == 12 then 4 else if call == 19 then 49 else 8 }

  /**
   Of all records of the expected size, a call returns on those of its answer's type and on no other.
   The record of any other type does not make it return at all, with one exception: a memory request
   that the frontend does not serve is skipped up to byte 26, and in the rest of its 49 bytes an
   emulation call may find another answer.
   */
  lemma AnswerTypeIff(handlerSet: bool, c: Call, k: byte, v: bytes)
    requires CallOk(c) && |v| == ExpectedSize(c.kind)
    ensures ReturnsOn(handlerSet, c, Frame(k, v)) <==> Answers(c.kind, k, |v|)
    ensures c.kind != 19 || k != 6 ==> (Returning(handlerSet, c, Frame(k, v)) <==> Answers(c.kind, k, |v|))
    ensures c.kind == 19 && k == 6 ==>
      (Returning(handlerSet, c, Frame(k, v))
       <==> && !(handlerSet && U32(v[16..20]) == 2 && U32(v[8..12]) == 29)
            && Returning(handlerSet, c, v[20..]))
  {
    var f := Frame(k, v);
    FrameBytes(k, v);
    hide FateOf, Frame, U32, RequestInStray;
    StrayBytes(handlerSet, c, f);
    if k == MEMORY_REQUEST {
      SkippedRequest(handlerSet, c, v);
    } else if k == AnswerKind(c.kind) {
      assert f[..6 + |v|] == f;
    } else if c.kind == SYSCALL_REQUEST {
      TooShort(handlerSet, c, v);
    }
  }

  /** The payload of an answer is too short to hold another answer. */
  lemma TooShort(handlerSet: bool, c: Call, v: bytes)
    requires CallOk(c) && c.kind != 19 && |v| == ExpectedSize(c.kind)
    ensures !Returning(handlerSet, c, v)
  {
    hide FateOf, U32, RequestInStray;
    StrayBytes(handlerSet, c, v);
    if |v| >= 6 {
      FateHeader(handlerSet, c.kind, v[6..]);
      if v[0] == 0 && v[1] == MEMORY_REQUEST { FateRequest(handlerSet, c.kind, v); }
    }
  }

  lemma SkippedRequest(handlerSet: bool, c: Call, v: bytes)
    requires CallOk(c) && |v| == ExpectedSize(c.kind)
    ensures var f := Frame(6, v);
      && !ReturnsOn(handlerSet, c, f)
      && (c.kind != 19 ==> !Returning(handlerSet, c, f))
      && (c.kind == 19 ==>
           (Returning(handlerSet, c, f)
            <==> && !(handlerSet && U32(v[16..20]) == 2 && U32(v[8..12]) == 29)
                 && Returning(handlerSet, c, v[20..])))
  {
    FrameBytes(6, v);
    hide FateOf, Frame, U32, RequestInStray;
    StrayRequest(handlerSet, c.kind, Frame(6, v));
    if c.kind == 19 {
      LongRequest(handlerSet, c.kind, v);
      FateWithin(handlerSet, c.kind, [], v[20..]);
    } else {
      ShortRequest(handlerSet, c.kind, v);
      TooShort(handlerSet, c, v);
    }
  }

  lemma ShortRequest(handlerSet: bool, kind: byte, v: bytes)
    requires |v| < 20
    ensures RequestInStray(handlerSet, kind, Frame(6, v)) == FateOf(handlerSet, kind, [], v)
  {
    FrameBytes(6, v);
    hide FateOf, Frame, U32, DecodeReq;
  }

  lemma LongRequest(handlerSet: bool, kind: byte, v: bytes)
    requires |v| == 49
    ensures RequestInStray(handlerSet, kind, Frame(6, v))
            == if handlerSet && U32(v[16..20]) == 2 && U32(v[8..12]) == 29 then Ends(Serves, Frame(6, v))
               else FateOf(handlerSet, kind, [], v[20..])
  {
    var f := Frame(6, v);
    FrameBytes(6, v);
    hide FateOf, Frame, U32, U64;
    assert f[6..26] == f[6..][..20] && f[26..] == f[6..][20..] && f[..55] == f;
    assert v[..20][8..12] == v[8..12] && v[..20][16..20] == v[16..20];
  }

  /** The exception happens: a request nobody serves, with an answer of one byte behind its fields. */
  lemma HiddenAnswer(c: Call, reply: byte, v: bytes)
    requires CallOk(c) && c.kind == 19
    requires |v| == 49 && v[20..27] == [0, 20] + LE4(1) + [reply]
    ensures Returning(false, c, Frame(6, v)) && !ReturnsOn(false, c, Frame(6, v))
  {
    hide Frame, U32, LE4;
    AnswerTypeIff(false, c, 6, v);
    FieldRoundTrip();
    var w := v[20..];
    var head := v[20..27];
    assert head == w[..7] && head[2..6] == LE4(1);
    assert w[2..6] == w[..7][2..6];
    StrayBytes(false, c, w);
  }
}
