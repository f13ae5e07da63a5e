/**
 The blocking requests between the instrumented frontend (the trace writer) and the simulator
 backend (the trace reader), as a state machine over two byte channels. Every write may reach its
 channel in pieces and every read may find only part of a record.
 */
module SiftProtocol {
  import opened Options
  import opened Bytes
  import opened SiftRecords

  type bytes = seq<byte>

  const MEM_READ: u32 := 1
  const MEM_WRITE: u32 := 2

  /** A blocking call of the frontend: Sync, Syscall, Magic or Emulate, with the fields it sends. */
  datatype Call = Call(kind: byte, data: bytes)

  /** A memory access that the backend asks for while it handles a call; `data` is what a write carries. */
  datatype Req = Req(addr: u64, size: u32, lock: u32, op: u32, data: bytes)

  datatype Access = Access(req: Req, reply: bytes)

  /** What the backend is doing: waiting for a call, running a handler, or waiting inside AccessMemory. */
  datatype Back = Reading | Handling(call: Call) | Awaiting(call: Call, req: Req)

  datatype State = State(
    front: Option<Call>,   // the frontend's call in progress
    fOut: bytes,           // what the frontend still has to write
    fIn: bytes,            // what it has read of the current record
    toBack: bytes,         // the two channels
    toFront: bytes,
    back: Back,
    bOut: bytes,
    bIn: bytes,
    // histories
    started: seq<Call>,
    answered: seq<(Call, bytes)>,
    returned: seq<(Call, bytes)>,
    served: seq<Access>,
    completed: seq<Access>,
    failed: nat,           // accesses that the backend gave up on
    gaveUp: seq<Call>,     // calls that returned a default value because of a record they did not expect
    dead: bool)            // an assertion of the frontend has failed

  const QUIET := State(None, [], [], [], [], Reading, [], [], [], [], [], [], [], 0, [], false)

  function AnswerKind(kind: byte): (k: byte)
  {
    if kind == SYNC then SYNC_RESPONSE
    else if kind == SYSCALL_REQUEST then SYSCALL_RESPONSE
    else if kind == MAGIC then MAGIC_RESPONSE
    else EMU_RESPONSE
  }

  function AnswerSize(kind: byte): (n: nat)
  {
    if kind == SYNC then 4 else if kind == EMU then 1 + SIZEOF_EMU_REPLY else 8
  }

  /** The calls the frontend can make; a system call carries at least one byte of arguments. */
  predicate CallOk(c: Call)
  {
    || (c.kind == SYNC && c.data == [])
    || (c.kind == SYSCALL_REQUEST && 2 < |c.data| < TWO_TO_THE_32)
    || (c.kind == MAGIC && |c.data| == 24)
    || (c.kind == EMU && |c.data| == 2 + SIZEOF_EMU_REQUEST)
  }

  /** What AccessMemory can put on the channel: only a write carries data. */
  predicate ReqOk(r: Req)
  {
    if r.op == MEM_WRITE then |r.data| == r.size else r.data == []
  }

  /**
   The frontend serves a request only if it has an access handler, the operation is valid, the size
   is not zero, and the size of a write's record does not wrap in its 32-bit field.
   */
  predicate Serviceable(handlerSet: bool, r: Req)
  {
    handlerSet && r.size > 0 && (r.op == MEM_READ || (r.op == MEM_WRITE && r.size < TWO_TO_THE_32 - 20))
  }

  predicate ReplyOk(r: Req, reply: bytes)
  {
    |reply| == if r.op == MEM_READ then r.size else 0
  }

  // ----- records on the channels

  /** A record as written; the size field is 32 bits wide. */
  function Frame(kind: byte, data: bytes): (f: bytes)
    ensures |f| == 6 + |data|
  {
    OtherHeader(kind, |data| % TWO_TO_THE_32) + data
  }

  function ReqData(r: Req): (d: bytes)
    ensures |d| == 20 + |r.data|
  {
    LE8(r.addr) + LE4(r.size) + LE4(r.lock) + LE4(r.op) + r.data
  }

  function ReplyData(r: Req, reply: bytes): (d: bytes)
    ensures |d| == 12 + |reply|
  {
    LE8(r.addr) + LE4(r.op) + reply
  }

  function DecodeReq(d: bytes): (r: Req)
    requires |d| >= 20
  {
    Req(U64(d[..8]), U32(d[8..12]), U32(d[12..16]), U32(d[16..20]), d[20..])
  }

  /** How many bytes of a whole record are still to be read: the header first, then the declared size. */
  function Need(buf: bytes): (n: int)
  {
    if |buf| < 6 then 6 - |buf| else 6 + U32(buf[2..6]) - |buf|
  }

  predicate Complete(buf: bytes) { |buf| >= 6 && Need(buf) == 0 }

  /** What a waiting side makes of the bytes it has read since the last record it dealt with. */
  datatype Verdict = More(n: nat) | Serves | Skips | Returns | GivesUp | Aborts

  /** A memory request. Whatever the frontend does not serve it leaves in the channel from where it stopped reading. */
  function SeesRequest(handlerSet: bool, buf: bytes): (v: Verdict)
    requires |buf| >= 6
    ensures v == Serves ==> |buf| >= 26
  {
    var size := U32(buf[2..6]);
    if size < 20 then Skips
    else if |buf| < 26 then More(26 - |buf|)
    else
      var r := DecodeReq(buf[6..]);
      if !handlerSet then Skips
      else if r.op == MEM_READ then (if size != 20 || r.size == 0 then Skips else Serves)
      else if r.op == MEM_WRITE then
        if size == 20 || size - 20 != r.size then Skips
        else if |buf| < 6 + size then More(6 + size - |buf|)
        else Serves
      else Skips
  }

  function SeesAnswer(kind: byte, buf: bytes): (v: Verdict)
    requires |buf| >= 6
  {
    var size := U32(buf[2..6]);
    if kind == EMU then
      if size > AnswerSize(kind) then Aborts
      else if |buf| < 6 + Max(size, 1) then More(6 + Max(size, 1) - |buf|)
      else Returns
    else if size != AnswerSize(kind) then (if kind == MAGIC then Aborts else GivesUp)
    else if |buf| < 6 + size then More(6 + size - |buf|)
    else Returns
  }

  function Max(a: int, b: int): (m: int) { if a < b then b else a }

  /** The four waiting loops of the frontend. They differ in what they do with a record they do not expect. */
  function Sees(handlerSet: bool, kind: byte, buf: bytes): (v: Verdict)
    ensures v.More? ==> v.n > 0
    ensures !v.More? ==> |buf| >= 6
    ensures v == Serves ==> |buf| >= 26
  {
    if |buf| < 6 then More(6 - |buf|)
    else if buf[0] != 0 then (if kind == SYNC then GivesUp else Aborts)
    else if buf[1] == MEMORY_REQUEST then SeesRequest(handlerSet, buf)
    else if buf[1] == AnswerKind(kind) then SeesAnswer(kind, buf)
    else if kind == SYSCALL_REQUEST then Skips
    else if kind == MAGIC then Aborts
    else GivesUp
  }

  /** The checks AccessMemory makes on the response to a request, in its order. */
  function BackSees(r: Req, buf: bytes): (v: Verdict)
    ensures v.More? ==> v.n > 0
    ensures v == Returns ==> |buf| >= 18
  {
    if |buf| < 6 then More(6 - |buf|)
    else if buf[1] != MEMORY_RESPONSE then GivesUp
    else if |buf| < 18 then More(18 - |buf|)
    else if U64(buf[6..14]) != r.addr then GivesUp
    else
      var payload := (U32(buf[2..6]) - 12) % TWO_TO_THE_32;
      if r.op == MEM_READ then
        if payload != r.size then GivesUp
        else if |buf| < 18 + r.size then More(18 + r.size - |buf|)
        else Returns
      else if r.op == MEM_WRITE then (if payload != 0 then GivesUp else Returns)
      else GivesUp
  }

  // ----- steps

  datatype Action =
    | Start(call: Call)
    | FrontWrite(n: nat)
    | FrontRead(n: nat)
    | FrontServe(reply: bytes)
    | FrontSkip
    | FrontReturn
    | FrontGiveUp
    | FrontAbort
    | BackWrite(n: nat)
    | BackRead(n: nat)
    | BackTake
    | BackAccess(req: Req)
    | BackResume
    | BackAnswer(value: bytes)

  predicate Waiting(s: State) { s.front.Some? && !s.dead && s.fOut == [] }

  function FrontSees(handlerSet: bool, s: State): (v: Verdict)
    requires s.front.Some?
    ensures v.More? ==> v.n > 0
    ensures v == Serves ==> |s.fIn| >= 26
    ensures !v.More? ==> |s.fIn| >= 6
  {
    Sees(handlerSet, s.front.value.kind, s.fIn)
  }

  predicate Enabled(handlerSet: bool, s: State, a: Action)
  {
    match a
    case Start(call) => s.front.None? && CallOk(call)
    case FrontWrite(n) => 0 < n <= |s.fOut|
    case FrontRead(n) => Waiting(s) && FrontSees(handlerSet, s).More? && 0 < n <= |s.toFront|
        && n <= FrontSees(handlerSet, s).n
    case FrontServe(reply) =>
      Waiting(s) && FrontSees(handlerSet, s) == Serves && ReplyOk(DecodeReq(s.fIn[6..]), reply)
    case FrontSkip => Waiting(s) && FrontSees(handlerSet, s) == Skips
    case FrontReturn => Waiting(s) && FrontSees(handlerSet, s) == Returns
    case FrontGiveUp => Waiting(s) && FrontSees(handlerSet, s) == GivesUp
    case FrontAbort => Waiting(s) && FrontSees(handlerSet, s) == Aborts
    case BackWrite(n) => 0 < n <= |s.bOut|
    case BackRead(n) =>
      && s.bOut == [] && 0 < n <= |s.toBack|
      && ((s.back.Reading? && n <= Need(s.bIn))
          || (s.back.Awaiting? && BackSees(s.back.req, s.bIn).More? && n <= BackSees(s.back.req, s.bIn).n))
    case BackTake => s.back.Reading? && s.bOut == [] && Complete(s.bIn)
    case BackAccess(req) => s.back.Handling? && s.bOut == [] && ReqOk(req)
    case BackResume => s.back.Awaiting? && s.bOut == [] && !BackSees(s.back.req, s.bIn).More?
    case BackAnswer(value) => s.back.Handling? && s.bOut == [] && |value| == AnswerSize(s.back.call.kind)
  }

  function Do(handlerSet: bool, s: State, a: Action): (s': State)
    requires Enabled(handlerSet, s, a)
  {
    match a
    case Start(call) => s.(front := Some(call), fOut := Frame(call.kind, call.data), started := s.started + [call])
    case FrontWrite(n) => s.(toBack := s.toBack + s.fOut[..n], fOut := s.fOut[n..])
    case FrontRead(n) => s.(fIn := s.fIn + s.toFront[..n], toFront := s.toFront[n..])
    case FrontServe(reply) =>
      var r := DecodeReq(s.fIn[6..]);
      s.(fIn := [], fOut := Frame(MEMORY_RESPONSE, ReplyData(r, reply)), served := s.served + [Access(r, reply)])
    case FrontSkip => s.(fIn := [])
    case FrontReturn => s.(front := None, fIn := [], returned := s.returned + [(s.front.value, s.fIn[6..])])
    case FrontGiveUp => s.(front := None, fIn := [], gaveUp := s.gaveUp + [s.front.value])
    case FrontAbort => s.(dead := true)
    case BackWrite(n) => s.(toFront := s.toFront + s.bOut[..n], bOut := s.bOut[n..])
    case BackRead(n) => s.(bIn := s.bIn + s.toBack[..n], toBack := s.toBack[n..])
    case BackTake => s.(bIn := [], back := Handling(Call(s.bIn[1], s.bIn[6..])))
    case BackAccess(req) =>
      s.(bOut := Frame(MEMORY_REQUEST, ReqData(req)), back := Awaiting(s.back.call, req))
    case BackResume =>
      if BackSees(s.back.req, s.bIn) == Returns then
        s.(bIn := [], back := Handling(s.back.call), completed := s.completed + [Access(s.back.req, s.bIn[18..])])
      else s.(bIn := [], back := Handling(s.back.call), failed := s.failed + 1)
    case BackAnswer(value) =>
      s.(bOut := Frame(AnswerKind(s.back.call.kind), value), back := Reading,
         answered := s.answered + [(s.back.call, value)])
  }

  // ----- what every run keeps

  /** Where the single exchange in progress stands. */
  datatype Phase =
    | Idle
    | Asking(call: Call)
    | Running(call: Call)
    | Requesting(call: Call, req: Req)
    | Replying(call: Call, req: Req, reply: bytes)
    | Answering(call: Call, value: bytes)

  predicate NothingToBack(s: State) { s.fOut == [] && s.toBack == [] && s.bIn == [] }

  predicate NothingToFront(s: State) { s.bOut == [] && s.toFront == [] && s.fIn == [] }

  /** One record is under way: partly read, partly in the channel, partly not yet written. */
  predicate OnWayToBack(s: State, f: bytes) { s.bIn + (s.toBack + s.fOut) == f }

  predicate OnWayToFront(s: State, f: bytes) { s.fIn + (s.toFront + s.bOut) == f }

  function Calls(h: seq<(Call, bytes)>): (cs: seq<Call>)
  {
    seq(|h|, i requires 0 <= i < |h| => h[i].0)
  }

  ghost predicate InPhase(handlerSet: bool, s: State, p: Phase)
  {
    && s.failed == 0 && s.gaveUp == [] && !s.dead
    && match p
       case Idle =>
         && s.front.None? && s.back.Reading? && NothingToBack(s) && NothingToFront(s)
         && s.returned == s.answered && s.started == Calls(s.returned) && s.completed == s.served
       case Asking(c) =>
         && CallOk(c) && s.front == Some(c) && s.back.Reading?
         && OnWayToBack(s, Frame(c.kind, c.data)) && NothingToFront(s)
         && s.returned == s.answered && s.started == Calls(s.returned) + [c] && s.completed == s.served
       case Running(c) =>
         && CallOk(c) && s.front == Some(c) && s.back == Handling(c) && NothingToBack(s) && NothingToFront(s)
         && s.returned == s.answered && s.started == Calls(s.returned) + [c] && s.completed == s.served
       case Requesting(c, r) =>
         && CallOk(c) && s.front == Some(c) && s.back == Awaiting(c, r) && ReqOk(r) && Serviceable(handlerSet, r)
         && NothingToBack(s) && OnWayToFront(s, Frame(MEMORY_REQUEST, ReqData(r)))
         && s.returned == s.answered && s.started == Calls(s.returned) + [c] && s.completed == s.served
       case Replying(c, r, reply) =>
         && CallOk(c) && s.front == Some(c) && s.back == Awaiting(c, r) && ReqOk(r) && Serviceable(handlerSet, r)
         && ReplyOk(r, reply) && OnWayToBack(s, Frame(MEMORY_RESPONSE, ReplyData(r, reply))) && NothingToFront(s)
         && s.returned == s.answered && s.started == Calls(s.returned) + [c]
         && s.served == s.completed + [Access(r, reply)]
       case Answering(c, v) =>
         && CallOk(c) && s.front == Some(c) && s.back.Reading? && |v| == AnswerSize(c.kind)
         && NothingToBack(s) && OnWayToFront(s, Frame(AnswerKind(c.kind), v))
         && s.answered == s.returned + [(c, v)] && s.started == Calls(s.answered) && s.completed == s.served
  }

  /** The header of a record, once it has arrived. */
  lemma HeaderAt(kind: byte, data: bytes, buf: bytes, rest: bytes)
    requires buf + rest == Frame(kind, data) && |buf| >= 6
    ensures buf[0] == 0 && buf[1] == kind && U32(buf[2..6]) == |data| % TWO_TO_THE_32
    ensures rest == [] ==> buf[6..] == data
  {
    var f := Frame(kind, data);
    assert buf == f[..|buf|];
    assert buf[2..6] == f[2..6] == LE4(|data| % TWO_TO_THE_32);
    FieldRoundTrip();
    if rest == [] { assert buf == f && f[6..] == data; }
  }

  /**
   While a record is under way, the reading side never takes a byte beyond it, and sees it complete
   exactly at its end.
   */
  lemma FramePrefix(kind: byte, data: bytes, buf: bytes, rest: bytes)
    requires buf + rest == Frame(kind, data) && |data| < TWO_TO_THE_32
    ensures 0 <= Need(buf) <= |rest|
    ensures Need(buf) == 0 <==> rest == []
    ensures Complete(buf) <==> rest == []
    ensures rest == [] ==> |buf| == 6 + |data| && buf[1] == kind && buf[6..] == data
  {
    hide Frame, U32;
    assert |buf| + |rest| == |buf + rest| == 6 + |data|;
    if |buf| >= 6 { HeaderAt(kind, data, buf, rest); }
  }

  /** The fields of a request, once they have arrived. */
  lemma RequestFields(r: Req, buf: bytes, rest: bytes)
    requires buf + rest == Frame(MEMORY_REQUEST, ReqData(r)) && |buf| >= 26
    ensures DecodeReq(buf[6..]) == r.(data := buf[26..]) && (rest == [] ==> DecodeReq(buf[6..]) == r)
  {
    var d := ReqData(r);
    var f := Frame(MEMORY_REQUEST, d);
    assert f[6..] == d;
    var b := buf[6..];
    assert b == d[..|b|];
    assert d[..8] == LE8(r.addr) && d[8..12] == LE4(r.size) && d[12..16] == LE4(r.lock) && d[16..20] == LE4(r.op);
    assert b[..8] == d[..8] && b[8..12] == d[8..12] && b[12..16] == d[12..16] && b[16..20] == d[16..20];
    FieldRoundTrip();
    assert b[20..] == buf[26..];
    assert d[20..] == r.data;
  }

  /** A serviceable request is read to its end, and no further, and is then served. */
  lemma RequestPrefix(handlerSet: bool, kind: byte, r: Req, buf: bytes, rest: bytes)
    requires buf + rest == Frame(MEMORY_REQUEST, ReqData(r)) && ReqOk(r) && Serviceable(handlerSet, r)
    ensures rest != [] ==> Sees(handlerSet, kind, buf).More? && Sees(handlerSet, kind, buf).n <= |rest|
    ensures rest == [] ==> Sees(handlerSet, kind, buf) == Serves && DecodeReq(buf[6..]) == r
  {
    hide Frame, ReqData, DecodeReq, AnswerKind;
    assert |buf| + |rest| == |buf + rest| == 26 + |r.data|;
    if |buf| >= 6 {
      HeaderAt(MEMORY_REQUEST, ReqData(r), buf, rest);
      if |buf| >= 26 { RequestFields(r, buf, rest); }
    }
  }

  /** So is the answer to a call, which then returns. */
  lemma AnswerPrefix(handlerSet: bool, c: Call, value: bytes, buf: bytes, rest: bytes)
    requires buf + rest == Frame(AnswerKind(c.kind), value) && |value| == AnswerSize(c.kind) && CallOk(c)
    ensures rest != [] ==> Sees(handlerSet, c.kind, buf).More? && Sees(handlerSet, c.kind, buf).n <= |rest|
    ensures rest == [] ==> Sees(handlerSet, c.kind, buf) == Returns && buf[6..] == value
  {
    hide Frame;
    assert |buf| + |rest| == |buf + rest| == 6 + |value|;
    if |buf| >= 6 { HeaderAt(AnswerKind(c.kind), value, buf, rest); }
  }

  /** And so is the response to a request, which AccessMemory accepts with the payload that was sent. */
  lemma ReplyPrefix(r: Req, reply: bytes, buf: bytes, rest: bytes)
    requires buf + rest == Frame(MEMORY_RESPONSE, ReplyData(r, reply))
    requires (r.op == MEM_READ || r.op == MEM_WRITE) && ReplyOk(r, reply)
    ensures rest != [] ==> BackSees(r, buf).More? && BackSees(r, buf).n <= |rest|
    ensures rest == [] ==> BackSees(r, buf) == Returns && buf[18..] == reply
  {
    hide Frame, ReplyData, U32, U64;
    assert |buf| + |rest| == |buf + rest| == 18 + |reply|;
    if |buf| >= 6 {
      HeaderAt(MEMORY_RESPONSE, ReplyData(r, reply), buf, rest);
      if |buf| >= 18 { ReplyFields(r, reply, buf, rest); }
    }
  }

  lemma ReplyFields(r: Req, reply: bytes, buf: bytes, rest: bytes)
    requires buf + rest == Frame(MEMORY_RESPONSE, ReplyData(r, reply)) && |buf| >= 18
    ensures U64(buf[6..14]) == r.addr && (rest == [] ==> buf[18..] == reply)
  {
    hide U64, LE8, LE4;
    FieldRoundTrip();
    var d := ReplyData(r, reply);
    var f := Frame(MEMORY_RESPONSE, d);
    assert f[6..] == d;
    assert buf[6..14] == f[6..14] == d[..8] == LE8(r.addr);
    if rest == [] { assert buf == f && f[18..] == d[12..] == reply; }
  }

  lemma MoveBytes(a: bytes, b: bytes, c: bytes, n: nat)
    ensures n <= |c| ==> a + ((b + c[..n]) + c[n..]) == a + (b + c)
    ensures n <= |b| ==> (a + b[..n]) + (b[n..] + c) == a + (b + c)
  {
    if n <= |c| { assert (b + c[..n]) + c[n..] == b + c; }
  }

  /** The record under way to the backend in a phase, if any. */
  function ToBack(p: Phase): (f: Option<(byte, bytes)>)
  {
    match p
    case Asking(c) => Some((c.kind, c.data))
    case Replying(_, r, reply) => Some((MEMORY_RESPONSE, ReplyData(r, reply)))
    case _ => None
  }

  function ToFront(p: Phase): (f: Option<(byte, bytes)>)
  {
    match p
    case Requesting(_, r) => Some((MEMORY_REQUEST, ReqData(r)))
    case Answering(c, v) => Some((AnswerKind(c.kind), v))
    case _ => None
  }

  /** What the phase says about the bytes. */
  lemma Traffic(handlerSet: bool, s: State, p: Phase)
    requires InPhase(handlerSet, s, p)
    ensures if ToBack(p).Some?
            then OnWayToBack(s, Frame(ToBack(p).value.0, ToBack(p).value.1)) && NothingToFront(s)
            else if ToFront(p).Some?
            then OnWayToFront(s, Frame(ToFront(p).value.0, ToFront(p).value.1)) && NothingToBack(s)
            else NothingToBack(s) && NothingToFront(s)
    ensures s.front.Some? <==> !p.Idle?
    ensures !p.Idle? ==> s.front == Some(p.call) && CallOk(p.call) && !s.dead
    ensures p.Requesting? ==> ReqOk(p.req) && Serviceable(handlerSet, p.req)
    ensures p.Answering? ==> |p.value| == AnswerSize(p.call.kind)
    ensures p.Replying? ==> Serviceable(handlerSet, p.req) && ReplyOk(p.req, p.reply)
    ensures s.back == match p
                      case Running(c) => Handling(c)
                      case Requesting(c, r) => Awaiting(c, r)
                      case Replying(c, r, _) => Awaiting(c, r)
                      case _ => Reading
  {
    hide Frame, ReqData, ReplyData, Calls;
  }

  /** The frontend reads the record under way, takes no byte beyond it, and acts on it exactly at its end. */
  lemma FrontReads(handlerSet: bool, s: State, p: Phase)
    requires InPhase(handlerSet, s, p) && s.front.Some?
    ensures !(p.Requesting? || p.Answering?) ==> FrontSees(handlerSet, s) == More(6) && s.toFront == [] && s.bOut == []
    ensures s.toFront + s.bOut != [] && (p.Requesting? || p.Answering?) ==>
      FrontSees(handlerSet, s).More? && FrontSees(handlerSet, s).n <= |s.toFront + s.bOut|
    ensures s.toFront + s.bOut == [] && p.Requesting? ==>
      FrontSees(handlerSet, s) == Serves && DecodeReq(s.fIn[6..]) == p.req
    ensures s.toFront + s.bOut == [] && p.Answering? ==> FrontSees(handlerSet, s) == Returns && s.fIn[6..] == p.value
  {
    hide InPhase, Frame, ReqData, ReplyData, DecodeReq, CallOk, Serviceable, ReqOk, ReplyOk, SeesRequest, SeesAnswer;
    Traffic(handlerSet, s, p);
    if p.Requesting? {
      RequestPrefix(handlerSet, p.call.kind, p.req, s.fIn, s.toFront + s.bOut);
    } else if p.Answering? {
      AnswerPrefix(handlerSet, p.call, p.value, s.fIn, s.toFront + s.bOut);
    }
  }

  /** The same for the backend, which waits for a call or for the response to its own request. */
  lemma BackReads(handlerSet: bool, s: State, p: Phase)
    requires InPhase(handlerSet, s, p)
    ensures !(p.Asking? || p.Replying?) ==> s.toBack == [] && s.bIn == []
    ensures p.Asking? ==>
      && 0 <= Need(s.bIn) <= |s.toBack + s.fOut| && (Complete(s.bIn) <==> s.toBack + s.fOut == [])
      && (s.toBack + s.fOut != [] ==> Need(s.bIn) > 0)
      && (Complete(s.bIn) ==> s.bIn[1] == p.call.kind && s.bIn[6..] == p.call.data)
    ensures p.Replying? && s.toBack + s.fOut != [] ==>
      BackSees(p.req, s.bIn).More? && BackSees(p.req, s.bIn).n <= |s.toBack + s.fOut|
    ensures p.Replying? && s.toBack + s.fOut == [] ==> BackSees(p.req, s.bIn) == Returns && s.bIn[18..] == p.reply
  {
    hide InPhase, Frame, ReqData, ReplyData, DecodeReq;
    Traffic(handlerSet, s, p);
    if p.Asking? {
      hide CallOk;
      CallFits(p.call);
      FramePrefix(p.call.kind, p.call.data, s.bIn, s.toBack + s.fOut);
    } else if p.Replying? {
      ReplyPrefix(p.req, p.reply, s.bIn, s.toBack + s.fOut);
    }
  }

  lemma CallFits(c: Call)
    requires CallOk(c)
    ensures |c.data| < TWO_TO_THE_32
  {
  }

  lemma NothingReadYet(handlerSet: bool, kind: byte, r: Req)
    ensures Need([]) == 6 && !Complete([]) && Sees(handlerSet, kind, []) == More(6) && BackSees(r, []) == More(6)
  {
  }

  /** Moving bytes along changes no phase. */
  lemma MovesKeepPhase(handlerSet: bool, s: State, p: Phase, a: Action)
    requires InPhase(handlerSet, s, p) && Enabled(handlerSet, s, a)
    requires a.FrontWrite? || a.FrontRead? || a.BackWrite? || a.BackRead?
    ensures InPhase(handlerSet, Do(handlerSet, s, a), p)
  {
    hide Frame, ReqData, ReplyData, CallOk, Serviceable, ReqOk, ReplyOk, Calls, FrontSees, BackSees;
    MoveBytes(s.bIn, s.toBack, s.fOut, a.n);
    MoveBytes(s.fIn, s.toFront, s.bOut, a.n);
  }

  lemma TakeStep(handlerSet: bool, s: State, p: Phase) returns (p': Phase)
    requires InPhase(handlerSet, s, p) && Enabled(handlerSet, s, BackTake)
    ensures InPhase(handlerSet, Do(handlerSet, s, BackTake), p') && p.Asking? && p' == Running(p.call)
    ensures s.toBack == [] && s.fOut == []
  {
    hide Frame, Calls, ReqData, ReplyData, Sees, BackSees;
    BackReads(handlerSet, s, p);
    p' := Running(s.front.value);
  }

  lemma ResumeStep(handlerSet: bool, s: State, p: Phase) returns (p': Phase)
    requires InPhase(handlerSet, s, p) && Enabled(handlerSet, s, BackResume)
    ensures InPhase(handlerSet, Do(handlerSet, s, BackResume), p') && p.Replying? && p' == Running(p.call)
    ensures s.toBack == [] && s.fOut == []
  {
    hide Frame, Calls, ReqData, ReplyData, Sees, BackSees;
    BackReads(handlerSet, s, p);
    NothingReadYet(handlerSet, 0, s.back.req);
    p' := Running(s.front.value);
  }

  lemma ServeStep(handlerSet: bool, s: State, p: Phase, reply: bytes) returns (p': Phase)
    requires InPhase(handlerSet, s, p) && Enabled(handlerSet, s, FrontServe(reply))
    ensures p.Requesting? && p' == Replying(p.call, p.req, reply)
    ensures InPhase(handlerSet, Do(handlerSet, s, FrontServe(reply)), p')
    ensures s.toFront == [] && s.bOut == []
  {
    hide Frame, Calls, ReplyData, ReqData, DecodeReq, FrontSees;
    FrontReads(handlerSet, s, p);
    var r := DecodeReq(s.fIn[6..]);
    p' := Replying(s.front.value, r, reply);
    assert [] + ([] + Frame(MEMORY_RESPONSE, ReplyData(r, reply))) == Frame(MEMORY_RESPONSE, ReplyData(r, reply));
  }

  lemma ReturnStep(handlerSet: bool, s: State, p: Phase) returns (p': Phase)
    requires InPhase(handlerSet, s, p) && Enabled(handlerSet, s, FrontReturn)
    ensures p.Answering? && p' == Idle && InPhase(handlerSet, Do(handlerSet, s, FrontReturn), p')
    ensures s.toFront == [] && s.bOut == []
  {
    hide Frame, Calls, ReqData, ReplyData, DecodeReq, FrontSees;
    FrontReads(handlerSet, s, p);
    p' := Idle;
  }

  /**
   The frontend is never handed a record it does not expect: it skips nothing, gives up on nothing
   and never aborts.
   */
  lemma NoErrors(handlerSet: bool, s: State, p: Phase)
    requires InPhase(handlerSet, s, p)
    ensures !Enabled(handlerSet, s, FrontSkip) && !Enabled(handlerSet, s, FrontGiveUp)
            && !Enabled(handlerSet, s, FrontAbort)
  {
    hide InPhase, FrontSees, DecodeReq;
    if s.front.Some? { FrontReads(handlerSet, s, p); }
  }

  lemma AccessStep(handlerSet: bool, s: State, p: Phase, req: Req) returns (p': Phase)
    requires InPhase(handlerSet, s, p) && Enabled(handlerSet, s, BackAccess(req)) && Serviceable(handlerSet, req)
    ensures p.Running? && p' == Requesting(p.call, req) && InPhase(handlerSet, Do(handlerSet, s, BackAccess(req)), p')
  {
    hide Frame, Calls, ReqData;
    p' := Requesting(s.back.call, req);
    assert [] + ([] + Frame(MEMORY_REQUEST, ReqData(req))) == Frame(MEMORY_REQUEST, ReqData(req));
  }

  lemma AnswerStep(handlerSet: bool, s: State, p: Phase, value: bytes) returns (p': Phase)
    requires InPhase(handlerSet, s, p) && Enabled(handlerSet, s, BackAnswer(value))
    ensures p.Running? && p' == Answering(p.call, value) && InPhase(handlerSet, Do(handlerSet, s, BackAnswer(value)),
            p')
  {
    hide Frame;
    var c := s.back.call;
    p' := Answering(c, value);
    var f := Frame(AnswerKind(c.kind), value);
    assert [] + ([] + f) == f;
    assert Calls(s.answered + [(c, value)]) == Calls(s.answered) + [c];
  }

  lemma StartStep(handlerSet: bool, s: State, p: Phase, call: Call) returns (p': Phase)
    requires InPhase(handlerSet, s, p) && Enabled(handlerSet, s, Start(call))
    ensures p == Idle && p' == Asking(call) && InPhase(handlerSet, Do(handlerSet, s, Start(call)), p')
  {
    hide Frame, Calls;
    p' := Asking(call);
    assert [] + ([] + Frame(call.kind, call.data)) == Frame(call.kind, call.data);
  }

  /** Every step from a state in some phase leads to a state in some phase. */
  lemma StepKeepsPhase(handlerSet: bool, s: State, p: Phase, a: Action) returns (p': Phase)
    requires InPhase(handlerSet, s, p) && Enabled(handlerSet, s, a)
    requires a.BackAccess? ==> Serviceable(handlerSet, a.req)
    ensures InPhase(handlerSet, Do(handlerSet, s, a), p')
  {
    hide InPhase, Enabled, Do;
    NoErrors(handlerSet, s, p);
    match a
    case Start(call) => p' := StartStep(handlerSet, s, p, call);
    case FrontServe(reply) => p' := ServeStep(handlerSet, s, p, reply);
    case FrontReturn => p' := ReturnStep(handlerSet, s, p);
    case BackTake => p' := TakeStep(handlerSet, s, p);
    case BackAccess(req) => p' := AccessStep(handlerSet, s, p, req);
    case BackResume => p' := ResumeStep(handlerSet, s, p);
    case BackAnswer(value) => p' := AnswerStep(handlerSet, s, p, value);
    case FrontWrite(_) => MovesKeepPhase(handlerSet, s, p, a); p' := p;
    case FrontRead(_) => MovesKeepPhase(handlerSet, s, p, a); p' := p;
    case BackWrite(_) => MovesKeepPhase(handlerSet, s, p, a); p' := p;
    case BackRead(_) => MovesKeepPhase(handlerSet, s, p, a); p' := p;
  }

  // ----- whole runs

  ghost predicate IsRun(handlerSet: bool, from: State, states: seq<State>, actions: seq<Action>)
  {
    && |states| == |actions| + 1 && states[0] == from
    && forall i :: 0 <= i < |actions| ==>
         Enabled(handlerSet, states[i], actions[i]) && states[i + 1] == Do(handlerSet, states[i], actions[i])
  }

  ghost predicate OnlyServiceable(handlerSet: bool, actions: seq<Action>)
  {
    forall i :: 0 <= i < |actions| && actions[i].BackAccess? ==> Serviceable(handlerSet, actions[i].req)
  }

  ghost predicate RepliesFit(accesses: seq<Access>)
  {
    forall i :: 0 <= i < |accesses| ==> ReplyOk(accesses[i].req, accesses[i].reply)
  }

  lemma RepliesKeepFitting(handlerSet: bool, s: State, a: Action)
    requires RepliesFit(s.served) && Enabled(handlerSet, s, a)
    ensures RepliesFit(Do(handlerSet, s, a).served)
  {
    hide DecodeReq, Frame, ReplyData, FrontSees, BackSees;
  }

  lemma {:induction false} RunKeepsPhase(handlerSet: bool, states: seq<State>, actions: seq<Action>, i: nat)
      returns (p: Phase)
    requires IsRun(handlerSet, QUIET, states, actions) && OnlyServiceable(handlerSet, actions) && i < |states|
    ensures InPhase(handlerSet, states[i], p) && RepliesFit(states[i].served)
    decreases i
  {
    hide InPhase, Enabled, Do, RepliesFit;
    if i == 0 {
      p := QuietIsIdle(handlerSet);
    } else {
      var p0 := RunKeepsPhase(handlerSet, states, actions, i - 1);
      p := StepKeepsPhase(handlerSet, states[i - 1], p0, actions[i - 1]);
      RepliesKeepFitting(handlerSet, states[i - 1], actions[i - 1]);
    }
  }

  lemma QuietIsIdle(handlerSet: bool) returns (p: Phase)
    ensures InPhase(handlerSet, QUIET, p) && RepliesFit(QUIET.served)
  {
    p := Idle;
    assert Calls([]) == [];
  }

  /**
   Safety of every run whose nested accesses are serviceable. At every moment: no access has
   failed; the accesses that returned are, in order, those that the frontend served, each with
   its own request and a reply of the right size; the calls that returned are, in order, those
   that were started, each with the answer the backend gave to it. And whenever the frontend is
   not inside a call, both channels and all buffers are empty and every answer was consumed.
   */
  lemma Safety(handlerSet: bool, states: seq<State>, actions: seq<Action>, i: nat)
    requires IsRun(handlerSet, QUIET, states, actions) && OnlyServiceable(handlerSet, actions) && i < |states|
    ensures var s := states[i];
      && s.failed == 0
      && s.completed <= s.served && |s.served| <= |s.completed| + 1 && RepliesFit(s.completed)
      && s.returned <= s.answered && |s.answered| <= |s.returned| + 1
      && Calls(s.answered) <= s.started && |s.started| <= |s.returned| + 1
      && (s.front.None? ==> NothingToBack(s) && NothingToFront(s) && s.back.Reading? && s.completed == s.served
                            && s.returned == s.answered && Calls(s.returned) == s.started)
  {
    hide Frame, ReqData, ReplyData;
    var p := RunKeepsPhase(handlerSet, states, actions, i);
  }

  /** A step that is always possible while a call is in progress. */
  function Next(handlerSet: bool, s: State): (a: Action)
  {
    if s.fOut != [] then FrontWrite(1)
    else if s.bOut != [] then BackWrite(1)
    else if s.toBack != [] then BackRead(1)
    else if s.toFront != [] then FrontRead(1)
    else if s.back.Handling? then BackAnswer(seq(AnswerSize(s.back.call.kind), _ => 0))
    else if s.bIn != [] then (if s.back.Reading? then BackTake else BackResume)
    else if s.front.Some? && FrontSees(handlerSet, s) == Serves then
      var r := DecodeReq(s.fIn[6..]);
      FrontServe(seq(if r.op == MEM_READ then r.size else 0, _ => 0))
    else FrontReturn
  }

  /** No deadlock: while a call is in progress, some side can step. */
  lemma NoDeadlock(handlerSet: bool, states: seq<State>, actions: seq<Action>, i: nat)
    requires IsRun(handlerSet, QUIET, states, actions) && OnlyServiceable(handlerSet, actions) && i < |states|
    ensures states[i].front.Some? ==> Enabled(handlerSet, states[i], Next(handlerSet, states[i]))
    ensures states[i].front.None? ==> Enabled(handlerSet, states[i], Start(Call(SYNC, [])))
  {
    hide InPhase;
    var s := states[i];
    var p := RunKeepsPhase(handlerSet, states, actions, i);
    if s.front.Some? {
      NextIsEnabled(handlerSet, s, p);
    }
  }

  lemma NextIsEnabled(handlerSet: bool, s: State, p: Phase)
    requires InPhase(handlerSet, s, p) && s.front.Some?
    ensures Enabled(handlerSet, s, Next(handlerSet, s))
  {
    hide InPhase, Frame, ReqData, ReplyData, Calls, DecodeReq, FrontSees, BackSees, Serviceable, CallOk;
    Traffic(handlerSet, s, p);
    FrontReads(handlerSet, s, p);
    BackReads(handlerSet, s, p);
    NothingReadYet(handlerSet, s.front.value.kind, Req(0, 0, 0, 0, []));
    assert |s.toBack + s.fOut| == |s.toBack| + |s.fOut| && |s.toFront + s.bOut| == |s.toFront| + |s.bOut|;
  }

  // ----- every call returns

  function Pending(s: State): (n: nat) { 2 * (|s.fOut| + |s.bOut|) + |s.toBack| + |s.toFront| }

  function ReplySize(r: Req): (n: nat) { if r.op == MEM_READ then r.size else 0 }

  function AnswerCost(c: Call): (n: nat) { 2 + 2 * (6 + AnswerSize(c.kind)) }

  /** The steps one nested access can take, from the request to the resumption, its own step included. */
  function AccessCost(r: Req): (n: nat) { 3 + 2 * (26 + |r.data|) + 2 * (18 + ReplySize(r)) }

  /** The steps left until the call in progress returns, if it asks for no further access. */
  function Energy(s: State, p: Phase): (n: nat)
  {
    match p
    case Idle => 0
    case Answering(_, _) => Pending(s) + 1
    case Running(c) => AnswerCost(c)
    case Asking(c) => Pending(s) + 1 + AnswerCost(c)
    case Replying(c, _, _) => Pending(s) + 1 + AnswerCost(c)
    case Requesting(c, r) => Pending(s) + 2 + 2 * (18 + ReplySize(r)) + AnswerCost(c)
  }

  /** Every step of either side spends some of it; a new access adds its own cost. */
  lemma StepSpends(handlerSet: bool, s: State, p: Phase, a: Action) returns (p': Phase)
    requires InPhase(handlerSet, s, p) && Enabled(handlerSet, s, a) && !a.Start?
    requires a.BackAccess? ==> Serviceable(handlerSet, a.req)
    ensures InPhase(handlerSet, Do(handlerSet, s, a), p')
    ensures Energy(Do(handlerSet, s, a), p') + 1 <= Energy(s, p) + if a.BackAccess? then AccessCost(a.req) else 0
  {
    hide InPhase, Frame, ReqData, ReplyData, DecodeReq, FrontSees, BackSees, Serviceable, CallOk, AnswerKind,
        AnswerSize;
    NoErrors(handlerSet, s, p);
    Traffic(handlerSet, s, p);
    match a
    case FrontServe(reply) =>
      p' := ServeStep(handlerSet, s, p, reply);
      FrontReads(handlerSet, s, p);
    case FrontReturn => p' := ReturnStep(handlerSet, s, p);
    case BackTake => p' := TakeStep(handlerSet, s, p);
    case BackResume => p' := ResumeStep(handlerSet, s, p);
    case BackAccess(req) => p' := AccessStep(handlerSet, s, p, req);
    case BackAnswer(value) => p' := AnswerStep(handlerSet, s, p, value);
    case FrontWrite(_) => MovesKeepPhase(handlerSet, s, p, a); p' := p; MovesSpend(handlerSet, s, p, a);
    case FrontRead(_) => MovesKeepPhase(handlerSet, s, p, a); p' := p; MovesSpend(handlerSet, s, p, a);
    case BackWrite(_) => MovesKeepPhase(handlerSet, s, p, a); p' := p; MovesSpend(handlerSet, s, p, a);
    case BackRead(_) => MovesKeepPhase(handlerSet, s, p, a); p' := p; MovesSpend(handlerSet, s, p, a);
  }

  lemma MovesSpend(handlerSet: bool, s: State, p: Phase, a: Action)
    requires InPhase(handlerSet, s, p) && Enabled(handlerSet, s, a)
    requires a.FrontWrite? || a.FrontRead? || a.BackWrite? || a.BackRead?
    ensures Pending(Do(handlerSet, s, a)) < Pending(s) && !p.Idle? && !p.Running?
  {
    hide InPhase, Frame, ReqData, ReplyData, FrontSees, BackSees;
    Traffic(handlerSet, s, p);
  }

  ghost function AccessCosts(actions: seq<Action>): (n: nat)
  {
    if actions == [] then 0
    else
      var last := actions[|actions| - 1];
      AccessCosts(actions[..|actions| - 1]) + if last.BackAccess? then AccessCost(last.req) else 0
  }

  ghost predicate NoStart(actions: seq<Action>) { forall i :: 0 <= i < |actions| ==> !actions[i].Start? }

  lemma {:induction false} RunSpends(handlerSet: bool, from: State, p: Phase, states: seq<State>, actions: seq<Action>)
      returns (p': Phase)
    requires InPhase(handlerSet, from, p) && IsRun(handlerSet, from, states, actions)
    requires OnlyServiceable(handlerSet, actions) && NoStart(actions)
    ensures InPhase(handlerSet, states[|actions|], p')
    ensures |actions| + Energy(states[|actions|], p') <= Energy(from, p) + AccessCosts(actions)
    decreases |actions|
  {
    hide InPhase, Enabled, Do, Energy, AccessCost, Serviceable;
    if actions == [] {
      p' := p;
    } else {
      var n := |actions| - 1;
      var p0 := RunSpends(handlerSet, from, p, states[..n + 1], actions[..n]);
      p' := StepSpends(handlerSet, states[n], p0, actions[n]);
    }
  }

  /** What a call costs without nested accesses. */
  function CallCost(c: Call): (n: nat) { 2 * (6 + |c.data|) + 1 + AnswerCost(c) }

  /**
   Every call returns. From the start of a call, whatever the interleaving and the pieces in which
   bytes move, the number of steps is bounded by the cost of the call and of its nested accesses;
   and as long as the call has not returned, a step other than a new access is possible.
   */
  lemma CallReturns(handlerSet: bool, s: State, c: Call, states: seq<State>, actions: seq<Action>)
    requires InPhase(handlerSet, s, Idle) && Enabled(handlerSet, s, Start(c)) && CallOk(c)
    requires IsRun(handlerSet, Do(handlerSet, s, Start(c)), states, actions)
    requires OnlyServiceable(handlerSet, actions) && NoStart(actions)
    ensures |actions| <= CallCost(c) + AccessCosts(actions)
    ensures var last := states[|actions|];
            if last.front.Some? then
              Enabled(handlerSet, last, Next(handlerSet, last)) && !Next(handlerSet, last).BackAccess?
            else Calls(last.returned) == Calls(s.returned) + [c]
  {
    hide InPhase, Do, Enabled, Energy, CallOk, Next;
    var p := StartCosts(handlerSet, s, c);
    var p' := RunSpends(handlerSet, Do(handlerSet, s, Start(c)), p, states, actions);
    var last := states[|actions|];
    if last.front.Some? {
      NextIsEnabled(handlerSet, last, p');
      NextIsNoAccess(handlerSet, last);
    } else {
      StartedOnce(handlerSet, Do(handlerSet, s, Start(c)), states, actions);
      AllReturned(handlerSet, last, p');
    }
  }

  lemma StartCosts(handlerSet: bool, s: State, c: Call) returns (p: Phase)
    requires InPhase(handlerSet, s, Idle) && CallOk(c)
    ensures Enabled(handlerSet, s, Start(c)) && InPhase(handlerSet, Do(handlerSet, s, Start(c)), p)
    ensures Energy(Do(handlerSet, s, Start(c)), p) == CallCost(c)
    ensures Do(handlerSet, s, Start(c)).started == Calls(s.returned) + [c]
  {
    hide Frame, Calls, AnswerSize;
    p := StartStep(handlerSet, s, Idle, c);
  }

  lemma NextIsNoAccess(handlerSet: bool, s: State)
    ensures !Next(handlerSet, s).BackAccess?
  {
    hide FrontSees, DecodeReq;
  }

  lemma AllReturned(handlerSet: bool, s: State, p: Phase)
    requires InPhase(handlerSet, s, p) && s.front.None?
    ensures Calls(s.returned) == s.started
  {
    hide Frame, ReqData, ReplyData, Calls;
  }

  lemma {:induction false} StartedOnce(handlerSet: bool, from: State, states: seq<State>, actions: seq<Action>)
    requires IsRun(handlerSet, from, states, actions) && NoStart(actions)
    ensures states[|actions|].started == from.started
    decreases |actions|
  {
    hide Enabled, Frame, ReqData, ReplyData, DecodeReq, FrontSees, BackSees;
    if actions != [] {
      var n := |actions| - 1;
      StartedOnce(handlerSet, from, states[..n + 1], actions[..n]);
    }
  }

  // ----- any request, serviceable or not

  /** How a waiting call ends: never, or by a verdict other than skipping on the record it has then read. */
  datatype Fate = Hangs | Ends(how: Verdict, record: bytes)

  /** What comes of a waiting call that has read `buf` and finds `rest` behind it, and nothing after that. */
  function FateOf(handlerSet: bool, kind: byte, buf: bytes, rest: bytes): (f: Fate)
    ensures f.Ends? ==> f.how in {Serves, Returns, GivesUp, Aborts} && f.how == Sees(handlerSet, kind, f.record)
    decreases |buf| + |rest|, |rest|
  {
    match Sees(handlerSet, kind, buf)
    case More(n) => if |rest| < n then Hangs else FateOf(handlerSet, kind, buf + rest[..n], rest[n..])
    case Skips => FateOf(handlerSet, kind, [], rest)
    case v => Ends(v, buf)
  }

  /** A verdict is not reached before its last byte. */
  lemma SeesPartial(handlerSet: bool, kind: byte, buf: bytes, piece: bytes)
    requires Sees(handlerSet, kind, buf).More? && |piece| < Sees(handlerSet, kind, buf).n
    ensures Sees(handlerSet, kind, buf + piece) == More(Sees(handlerSet, kind, buf).n - |piece|)
  {
    hide DecodeReq, U32;
    var b := buf + piece;
    if |buf| >= 6 {
      assert b[2..6] == buf[2..6];
      if |buf| >= 26 { DecodePartial(buf, piece); }
    }
  }

  lemma DecodePartial(buf: bytes, piece: bytes)
    requires |buf| >= 26
    ensures DecodeReq((buf + piece)[6..]).op == DecodeReq(buf[6..]).op
            && DecodeReq((buf + piece)[6..]).size == DecodeReq(buf[6..]).size
  {
    hide U32, U64;
    var a, b := (buf + piece)[6..], buf[6..];
    assert a[16..20] == b[16..20] && a[8..12] == b[8..12];
  }

  lemma FateMore(handlerSet: bool, kind: byte, buf: bytes, rest: bytes)
    requires Sees(handlerSet, kind, buf).More?
    ensures var n := Sees(handlerSet, kind, buf).n;
            FateOf(handlerSet, kind, buf, rest) == if |rest| < n then Hangs
                else FateOf(handlerSet, kind, buf + rest[..n], rest[n..])
  {
    hide Sees;
  }

  lemma Pieces(buf: bytes, rest: bytes, m: nat, n: nat)
    requires m <= n <= |rest|
    ensures buf + rest[..m] + rest[m..][..n - m] == buf + rest[..n] && rest[m..][n - m..] == rest[n..]
  {
  }

  /** Reading in pieces changes no fate. */
  lemma FateReads(handlerSet: bool, kind: byte, buf: bytes, rest: bytes, m: nat)
    requires Sees(handlerSet, kind, buf).More? && m <= Sees(handlerSet, kind, buf).n && m <= |rest|
    ensures FateOf(handlerSet, kind, buf + rest[..m], rest[m..]) == FateOf(handlerSet, kind, buf, rest)
  {
    hide Sees, FateOf;
    var n := Sees(handlerSet, kind, buf).n;
    FateMore(handlerSet, kind, buf, rest);
    if m < n {
      var b, r := buf + rest[..m], rest[m..];
      SeesPartial(handlerSet, kind, buf, rest[..m]);
      FateMore(handlerSet, kind, b, r);
      if n <= |rest| { Pieces(buf, rest, m, n); }
    }
  }

  /** A call that waits while the backend waits for the response to r, with that fate ahead of it. */
  ghost predicate Heading(handlerSet: bool, s: State, c: Call, r: Req, f: Fate)
  {
    && s.front == Some(c) && !s.dead && s.back == Awaiting(c, r) && NothingToBack(s)
    && FateOf(handlerSet, c.kind, s.fIn, s.toFront + s.bOut) == f
  }

  /** The step by which a fate is met. */
  predicate Meets(a: Action, v: Verdict)
  {
    match v
    case Serves => a.FrontServe?
    case Returns => a.FrontReturn?
    case GivesUp => a.FrontGiveUp?
    case Aborts => a.FrontAbort?
    case _ => false
  }

  function Unread(s: State): (n: nat) { 3 * |s.bOut| + 2 * |s.toFront| + |s.fIn| }

  /** Every step leads on towards the fate, or meets it with exactly the record it names. */
  lemma HeadingStep(handlerSet: bool, s: State, c: Call, r: Req, f: Fate, a: Action)
    requires Heading(handlerSet, s, c, r, f) && Enabled(handlerSet, s, a)
    ensures (f.Ends? && Meets(a, f.how) && s.fIn == f.record)
            || (Heading(handlerSet, Do(handlerSet, s, a), c, r, f) && Unread(Do(handlerSet, s, a)) < Unread(s))
  {
    hide Sees, BackSees, DecodeReq, Frame, ReqData, ReplyData;
    NothingReadYet(handlerSet, c.kind, r);
    if a.FrontRead? {
      var all := s.toFront + s.bOut;
      FateReads(handlerSet, c.kind, s.fIn, all, a.n);
      assert all[..a.n] == s.toFront[..a.n] && all[a.n..] == s.toFront[a.n..] + s.bOut;
    } else if a.BackWrite? {
      assert s.toFront + s.bOut[..a.n] + s.bOut[a.n..] == s.toFront + s.bOut;
    }
  }

  /** The step that is possible as long as bytes or a verdict are at hand. */
  function Onward(handlerSet: bool, s: State): (a: Action)
    requires s.front.Some?
  {
    if s.bOut != [] then BackWrite(1)
    else
      match FrontSees(handlerSet, s)
      case More(_) => FrontRead(1)
      case Skips => FrontSkip
      case Returns => FrontReturn
      case GivesUp => FrontGiveUp
      case Aborts => FrontAbort
      case Serves => FrontServe(seq(ReplySize(DecodeReq(s.fIn[6..])), _ => 0))
  }

  /** A fate that is an end is always within reach; a call that hangs comes to a state without any step. */
  lemma HeadingGoesOn(handlerSet: bool, s: State, c: Call, r: Req, f: Fate)
    requires Heading(handlerSet, s, c, r, f)
    ensures f.Ends? ==> Enabled(handlerSet, s, Onward(handlerSet, s))
    ensures f.Hangs? && (forall a :: !Enabled(handlerSet, s, a)) ==> s.toFront == [] && s.bOut == []
    ensures s.toFront == [] && s.bOut == [] && FrontSees(handlerSet, s).More? ==>
      f.Hangs? && forall a :: !Enabled(handlerSet, s, a)
  {
    hide Sees, BackSees, DecodeReq, Frame, ReqData, ReplyData;
    NothingReadYet(handlerSet, c.kind, r);
    assert |s.toFront + s.bOut| == |s.toFront| + |s.bOut|;
    if s.bOut != [] {
      assert Enabled(handlerSet, s, BackWrite(1));
    } else if s.toFront != [] && FrontSees(handlerSet, s).More? {
      assert Enabled(handlerSet, s, FrontRead(1));
    } else if FrontSees(handlerSet, s) == Skips {
      assert Enabled(handlerSet, s, FrontSkip);
    }
  }

  /** What comes of a call whose handler asks for r. */
  function RequestFate(handlerSet: bool, kind: byte, r: Req): (f: Fate)
  {
    FateOf(handlerSet, kind, [], Frame(MEMORY_REQUEST, ReqData(r)))
  }

  lemma HeadingStarts(handlerSet: bool, s: State, p: Phase, r: Req)
    requires InPhase(handlerSet, s, p) && Enabled(handlerSet, s, BackAccess(r))
    ensures s.front == Some(s.back.call) && CallOk(s.back.call)
    ensures Heading(handlerSet, Do(handlerSet, s, BackAccess(r)), s.back.call, r,
            RequestFate(handlerSet, s.back.call.kind, r))
  {
    hide Frame, Calls, ReqData, FateOf;
    assert [] + Frame(MEMORY_REQUEST, ReqData(r)) == Frame(MEMORY_REQUEST, ReqData(r));
  }

  /**
   After any access, serviceable or not, every run heads for the fate of its request until it meets
   it: up to step j both sides wait for each other, and step j, if the run gets there, is the one
   the fate names, on the record it names.
   */
  lemma {:induction false} AccessMeetsItsFate(
    handlerSet: bool, s: State, p: Phase, r: Req, states: seq<State>, actions: seq<Action>, i: nat) returns (j: nat)
    requires InPhase(handlerSet, s, p) && Enabled(handlerSet, s, BackAccess(r))
    requires IsRun(handlerSet, Do(handlerSet, s, BackAccess(r)), states, actions) && i < |states|
    ensures j <= i
    ensures forall k :: 0 <= k <= j ==>
      Heading(handlerSet, states[k], s.back.call, r, RequestFate(handlerSet, s.back.call.kind, r))
    ensures j + Unread(states[j]) <= Unread(states[0])
    ensures j < i ==>
      var f := RequestFate(handlerSet, s.back.call.kind, r);
      f.Ends? && Meets(actions[j], f.how) && states[j].fIn == f.record
    decreases i
  {
    assert s.back.Handling?;
    hide Enabled, Do, InPhase, Heading, RequestFate, Unread, Meets;
    var c := s.back.call;
    var f := RequestFate(handlerSet, c.kind, r);
    if i == 0 {
      HeadingStarts(handlerSet, s, p, r);
      j := 0;
    } else {
      j := AccessMeetsItsFate(handlerSet, s, p, r, states, actions, i - 1);
      if j == i - 1 {
        HeadingStep(handlerSet, states[j], c, r, f, actions[j]);
        if Heading(handlerSet, states[i], c, r, f) && Unread(states[i]) < Unread(states[j]) { j := i; }
      }
    }
  }

  /**
   A request that hangs stays unanswered in every run, and such a run comes to a halt within a
   bounded number of steps.
   */
  lemma HangsForGood(handlerSet: bool, s: State, p: Phase, r: Req, states: seq<State>, actions: seq<Action>, i: nat)
    requires InPhase(handlerSet, s, p) && Enabled(handlerSet, s, BackAccess(r))
    requires IsRun(handlerSet, Do(handlerSet, s, BackAccess(r)), states, actions) && i < |states|
    requires RequestFate(handlerSet, s.back.call.kind, r) == Hangs
    ensures states[i].front == s.front && s.front.Some? && states[i].back == Awaiting(s.back.call, r)
    ensures i + Unread(states[i]) <= Unread(states[0])
  {
    hide Do, RequestFate, Unread;
    var j := AccessMeetsItsFate(handlerSet, s, p, r, states, actions, i);
    assert Heading(handlerSet, states[i], s.back.call, r, Hangs);
    HeadingStarts(handlerSet, s, p, r);
  }

  // ----- the fate of every request

  lemma {:induction false} FateOfServiced(handlerSet: bool, kind: byte, r: Req, buf: bytes, rest: bytes)
    requires buf + rest == Frame(MEMORY_REQUEST, ReqData(r)) && ReqOk(r) && Serviceable(handlerSet, r)
    ensures FateOf(handlerSet, kind, buf, rest) == Ends(Serves, Frame(MEMORY_REQUEST, ReqData(r)))
    decreases |rest|
  {
    hide Frame, ReqData, DecodeReq, Sees, Serviceable, ReqOk;
    RequestPrefix(handlerSet, kind, r, buf, rest);
    if rest == [] {
      assert buf + rest == buf;
    } else {
      var n := Sees(handlerSet, kind, buf).n;
      assert buf + rest[..n] + rest[n..] == buf + rest;
      FateOfServiced(handlerSet, kind, r, buf + rest[..n], rest[n..]);
    }
  }

  /** A request is served, whole and as it was sent, exactly if it is serviceable. */
  lemma ServedIffServiceable(handlerSet: bool, kind: byte, r: Req)
    requires ReqOk(r)
    ensures RequestFate(handlerSet, kind, r) == Ends(Serves, Frame(MEMORY_REQUEST, ReqData(r)))
            <==> Serviceable(handlerSet, r)
    ensures DecodeReq(Frame(MEMORY_REQUEST, ReqData(r))[6..]) == r
  {
    hide FateOf, Frame, ReqData, DecodeReq, Sees, Serviceable, ReqOk;
    var f := Frame(MEMORY_REQUEST, ReqData(r));
    assert [] + f == f;
    WholeRecord(handlerSet, kind, r, f);
    if Serviceable(handlerSet, r) { FateOfServiced(handlerSet, kind, r, [], f); }
  }

  /** What the frontend makes of a request that it has read as a whole. */
  lemma WholeRecord(handlerSet: bool, kind: byte, r: Req, f: bytes)
    requires ReqOk(r) && f == Frame(MEMORY_REQUEST, ReqData(r))
    ensures Sees(handlerSet, kind, f) == Serves ==> Serviceable(handlerSet, r)
    ensures DecodeReq(f[6..]) == r
  {
    hide Frame, ReqData, DecodeReq, SeesAnswer, AnswerKind;
    assert f + [] == f;
    HeaderAt(MEMORY_REQUEST, ReqData(r), f, []);
    RequestFields(r, f, []);
    hide U32;
  }

  /** The first six bytes of what is in the channel are read as a header, whatever they are. */
  lemma FateHeader(handlerSet: bool, kind: byte, w: bytes)
    ensures |w| < 6 ==> FateOf(handlerSet, kind, [], w) == Hangs
    ensures |w| >= 6 ==> FateOf(handlerSet, kind, [], w) == FateOf(handlerSet, kind, w[..6], w[6..])
  {
    hide FateOf;
    FateMore(handlerSet, kind, [], w);
    if |w| >= 6 { assert [] + w[..6] == w[..6]; }
  }

  /** A record of a memory request, as far as the frontend reads one that it does not serve. */
  lemma FateRequest(handlerSet: bool, kind: byte, w: bytes)
    requires |w| >= 6 && w[0] == 0 && w[1] == MEMORY_REQUEST
    ensures U32(w[2..6]) < 20 ==> FateOf(handlerSet, kind, [], w) == FateOf(handlerSet, kind, [], w[6..])
    ensures U32(w[2..6]) >= 20 && |w| < 26 ==> FateOf(handlerSet, kind, [], w) == Hangs
    ensures U32(w[2..6]) >= 20 && |w| >= 26 && Sees(handlerSet, kind, w[..26]) == Skips ==>
      FateOf(handlerSet, kind, [], w) == FateOf(handlerSet, kind, [], w[26..])
  {
    hide DecodeReq, U32, SeesAnswer;
    FateHeader(handlerSet, kind, w);
    var head := w[..6];
    assert head[2..6] == w[2..6];
    if U32(w[2..6]) >= 20 {
      FateMore(handlerSet, kind, head, w[6..]);
      if |w| >= 26 { assert head + w[6..][..20] == w[..26] && w[6..][20..] == w[26..]; }
    }
  }

  /**
   Requests that are not served. Without a payload the call hangs; without a handler the payload of
   a write is read as if it were the next responses; and a write whose size field wraps leaves all
   but its header to be read that way.
   */
  lemma UnservedFate(handlerSet: bool, kind: byte, r: Req)
    requires ReqOk(r) && !Serviceable(handlerSet, r)
    ensures r.op != MEM_WRITE || r.size == 0 ==> RequestFate(handlerSet, kind, r) == Hangs
    ensures r.op == MEM_WRITE && 0 < r.size < TWO_TO_THE_32 - 20 ==>
      !handlerSet && RequestFate(handlerSet, kind, r) == FateOf(handlerSet, kind, [], r.data)
    ensures r.op == MEM_WRITE && r.size >= TWO_TO_THE_32 - 20 ==>
      RequestFate(handlerSet, kind, r) == FateOf(handlerSet, kind, [], ReqData(r))
  {
    hide FateOf, Frame, ReqData, DecodeReq;
    var f := Frame(MEMORY_REQUEST, ReqData(r));
    assert f + [] == f;
    HeaderAt(MEMORY_REQUEST, ReqData(r), f, []);
    FateRequest(handlerSet, kind, f);
    if |ReqData(r)| < TWO_TO_THE_32 {
      var head := f[..26];
      assert head + f[26..] == f && head[2..6] == f[2..6];
      RequestFields(r, head, f[26..]);
      PayloadAt(r);
      FateHeader(handlerSet, kind, f[26..]);
    }
  }

  lemma PayloadAt(r: Req)
    ensures Frame(MEMORY_REQUEST, ReqData(r))[26..] == r.data
  {
    var d := ReqData(r);
    assert Frame(MEMORY_REQUEST, d)[6..] == d && d[20..] == r.data;
    assert Frame(MEMORY_REQUEST, d)[26..] == Frame(MEMORY_REQUEST, d)[6..][20..];
  }

  /** The size an answer may declare; only an emulation reply may be shorter than expected. */
  predicate AnswerFits(kind: byte, size: u32)
  {
    if kind == EMU then size <= AnswerSize(kind) else size == AnswerSize(kind)
  }

  /** What each of the four calls makes of bytes that were never meant for it. */
  lemma StrayBytes(handlerSet: bool, c: Call, w: bytes)
    requires CallOk(c)
    ensures |w| < 6 ==> FateOf(handlerSet, c.kind, [], w) == Hangs
    ensures |w| >= 6 && w[0] != 0 ==>
      FateOf(handlerSet, c.kind, [], w) == Ends(if c.kind == SYNC then GivesUp else Aborts, w[..6])
    ensures |w| >= 6 && w[0] == 0 && w[1] == MEMORY_REQUEST ==>
      FateOf(handlerSet, c.kind, [], w) == RequestInStray(handlerSet, c.kind, w)
    ensures |w| >= 6 && w[0] == 0 && w[1] != MEMORY_REQUEST && w[1] != AnswerKind(c.kind) ==>
      FateOf(handlerSet, c.kind, [], w)
      == if c.kind == SYSCALL_REQUEST then FateOf(handlerSet, c.kind, [], w[6..])
         else Ends(if c.kind == MAGIC then Aborts else GivesUp, w[..6])
    ensures |w| >= 6 && w[0] == 0 && w[1] == AnswerKind(c.kind) && AnswerFits(c.kind, U32(w[2..6])) ==>
      FateOf(handlerSet, c.kind, [], w)
      == if |w| < 6 + Max(U32(w[2..6]), 1) then Hangs else Ends(Returns, w[..6 + Max(U32(w[2..6]), 1)])
    ensures |w| >= 6 && w[0] == 0 && w[1] == AnswerKind(c.kind) && !AnswerFits(c.kind, U32(w[2..6])) ==>
      FateOf(handlerSet, c.kind, [], w) == Ends(if c.kind == MAGIC || c.kind == EMU then Aborts else GivesUp, w[..6])
  {
    hide DecodeReq, U32, SeesRequest, RequestInStray;
    FateHeader(handlerSet, c.kind, w);
    if |w| >= 6 {
      var head := w[..6];
      assert head[2..6] == w[2..6];
      if w[0] == 0 && w[1] == MEMORY_REQUEST {
        StrayRequest(handlerSet, c.kind, w);
      } else if w[0] == 0 && w[1] == AnswerKind(c.kind) && AnswerFits(c.kind, U32(w[2..6])) {
        FateAnswer(handlerSet, c, w);
      }
    }
  }

  /**
   What comes of bytes that look like a memory request. With a handler the frontend even serves it,
   although the backend never made it.
   */
  function RequestInStray(handlerSet: bool, kind: byte, w: bytes): (f: Fate)
    requires |w| >= 6
  {
    var size := U32(w[2..6]);
    if size < 20 then FateOf(handlerSet, kind, [], w[6..])
    else if |w| < 26 then Hangs
    else
      var r := DecodeReq(w[6..26]);
      if handlerSet && r.op == MEM_READ && size == 20 && r.size > 0 then Ends(Serves, w[..26])
      else if handlerSet && r.op == MEM_WRITE && r.size > 0 && size == 20 + r.size then
        if |w| < 6 + size then Hangs else Ends(Serves, w[..6 + size])
      else FateOf(handlerSet, kind, [], w[26..])
  }

  lemma StrayRequest(handlerSet: bool, kind: byte, w: bytes)
    requires |w| >= 6 && w[0] == 0 && w[1] == MEMORY_REQUEST
    ensures FateOf(handlerSet, kind, [], w) == RequestInStray(handlerSet, kind, w)
  {
    FateRequest(handlerSet, kind, w);
    var size: int := U32(w[2..6]);
    if size >= 20 && |w| >= 26 {
      FateFields(handlerSet, kind, w);
      var head := w[..26];
      assert head[2..6] == w[2..6] && head[6..] == w[6..26];
      var r := DecodeReq(w[6..26]);
      hide DecodeReq, U32;
      if handlerSet && r.op == MEM_WRITE && r.size > 0 && size == 20 + r.size {
        assert Sees(handlerSet, kind, head) == More(r.size);
        hide Sees, SeesRequest;
        FateMore(handlerSet, kind, head, w[26..]);
        if |w| >= 6 + size {
          assert head + w[26..][..r.size] == w[..6 + size];
          PayloadRead(handlerSet, kind, w, size);
        }
      }
    }
  }

  /** The twenty bytes of the fields are read before anything else is decided. */
  lemma FateFields(handlerSet: bool, kind: byte, w: bytes)
    requires |w| >= 26 && w[0] == 0 && w[1] == MEMORY_REQUEST && U32(w[2..6]) >= 20
    ensures FateOf(handlerSet, kind, [], w) == FateOf(handlerSet, kind, w[..26], w[26..])
  {
    hide DecodeReq, U32, SeesAnswer;
    FateHeader(handlerSet, kind, w);
    var head := w[..6];
    assert head[2..6] == w[2..6];
    FateMore(handlerSet, kind, head, w[6..]);
    assert head + w[6..][..20] == w[..26] && w[6..][20..] == w[26..];
  }

  lemma PayloadRead(handlerSet: bool, kind: byte, w: bytes, size: nat)
    requires |w| >= 6 + size && w[0] == 0 && w[1] == MEMORY_REQUEST && U32(w[2..6]) == size > 20 && handlerSet
    requires DecodeReq(w[6..26]).op == MEM_WRITE && size == 20 + DecodeReq(w[6..26]).size
    ensures Sees(handlerSet, kind, w[..6 + size]) == Serves
  {
    var full := w[..6 + size];
    assert full[2..6] == w[2..6] && full == w[..26] + w[26..6 + size] && w[..26][6..] == w[6..26];
    DecodePartial(w[..26], w[26..6 + size]);
    hide DecodeReq, U32;
  }

  lemma FateAnswer(handlerSet: bool, c: Call, w: bytes)
    requires CallOk(c) && |w| >= 6 && w[0] == 0 && w[1] == AnswerKind(c.kind) && AnswerFits(c.kind, U32(w[2..6]))
    ensures FateOf(handlerSet, c.kind, [], w)
            == if |w| < 6 + Max(U32(w[2..6]), 1) then Hangs else Ends(Returns, w[..6 + Max(U32(w[2..6]), 1)])
  {
    hide DecodeReq, U32;
    FateHeader(handlerSet, c.kind, w);
    var head, n := w[..6], Max(U32(w[2..6]), 1);
    assert head[2..6] == w[2..6];
    FateMore(handlerSet, c.kind, head, w[6..]);
    if |w| >= 6 + n {
      var full := w[..6 + n];
      assert head + w[6..][..n] == full && full[2..6] == w[2..6];
    }
  }

  /** A write without a handler whose payload looks like an answer makes the call return it. */
  lemma PayloadTakenForAnswer(c: Call, r: Req, value: bytes)
    requires CallOk(c) && |value| == AnswerSize(c.kind) && r.op == MEM_WRITE && ReqOk(r)
             && r.data == Frame(AnswerKind(c.kind), value)
    ensures RequestFate(false, c.kind, r) == Ends(Returns, r.data) && r.data[6..] == value
  {
    hide FateOf, Frame, ReqData;
    assert r.data + [] == r.data;
    HeaderAt(AnswerKind(c.kind), value, r.data, []);
    UnservedFate(false, c.kind, r);
    StrayBytes(false, c, r.data);
    assert r.data[..6 + AnswerSize(c.kind)] == r.data;
  }
}
