/** The echo server's event loop as a state machine together with the kernel it talks to.

    The server part is the program's own data: token slab, buffers and their pool, backlog,
    accept budget and queues. `conns`, `closed`, `lost` and `failedAccepts` only record what
    happened; no step depends on them. A step the program would panic in leads to `Crashed`. */
module EchoServer {
  import opened Words
  import opened Wrappers

  const BUF_LEN := 2048
  const ACCEPTS := 3
  const LISTENER := 0

  datatype Token =
    | Accept
    | Poll(fd: int)
    | Read(fd: int, buf: nat)
    | Write(fd: int, buf: nat, offset: nat, len: nat)

  /** An operation as the kernel gets it; `token` is its user data. */
  datatype Op =
    | AcceptOp(token: nat)
    | PollOp(fd: int, token: nat)
    | RecvOp(fd: int, buf: nat, token: nat)
    | SendOp(fd: int, buf: nat, from: nat, len: nat, token: nat)

  /** A completion: the program sees `op.token` and `ret`. */
  datatype Cqe = Cqe(op: Op, ret: int)

  /** The submission queue as seen from the program's side: entries consumed but not yet
      known to be, entries published, entries pushed since the last `sync`. */
  datatype Queue<E> = Queue(entries: nat, stale: nat, published: seq<E>, unpublished: seq<E>)
  {
    predicate IsFull() {
      stale + |published| + |unpublished| == entries
    }

    function Push(e: E): Queue<E> {
      if IsFull() then this else this.(unpublished := unpublished + [e])
    }

    function Sync(): Queue<E> {
      Queue(entries, 0, published + unpublished, [])
    }

    function Consumed(count: nat): nat {
      if count <= |published| then count else |published|
    }

    function Submit(count: nat): Queue<E> {
      this.(stale := stale + Consumed(count), published := published[Consumed(count)..])
    }
  }

  /** One received message and what has been sent back of it. Of its sends, how many took
      less than asked, how many took nothing, and whether none that started behind its first
      byte took less than asked. */
  datatype Message = Message(received: seq<byte>, sent: seq<byte>, shorts: nat, idles: nat, clean: bool)

  datatype Conn = Conn(done: seq<Message>, current: Option<Message>)

  datatype Pc = Top | CqSync | Drain | Accepting | Handling | Stopped | Crashed

  datatype State = State(
    pc: Pc,
    tokens: map<nat, Token>,
    bufs: seq<seq<byte>>,
    pool: seq<nat>,
    backlog: seq<Op>,
    acceptCount: nat,
    sq: Queue<Op>,
    visible: nat,
    inflight: seq<Op>,
    cq: seq<Cqe>,
    conns: map<nat, Conn>,
    closed: seq<Conn>,
    lost: seq<Op>,
    failedAccepts: nat)

  datatype Step =
    | SubmitAndWait(taken: nat)     // Ok: the kernel takes so many published entries
    | SubmitBusy                    // EBUSY: carry on without it
    | SubmitFails                   // any other error ends the program
    | SyncCompletions(seen: nat)
    | DrainOne(taken: nat)
    | DrainBusy
    | PushAccepts
    | HandleOne(freshKey: nat)
    | Complete(index: nat, ret: int, data: seq<byte>)   // the kernel finishes an operation

  function Start(entries: nat): State {
    State(Accepting, map[LISTENER := Accept], [], [], [], ACCEPTS,
          Queue(entries, 0, [], []), 0, [], [], map[], [], [], 0)
  }

  function OpFor(t: nat, tok: Token): Op {
    match tok
    case Accept => AcceptOp(t)
    case Poll(fd) => PollOp(fd, t)
    case Read(fd, buf) => RecvOp(fd, buf, t)
    case Write(fd, buf, offset, len) => SendOp(fd, buf, offset, len, t)
  }

  function PushOrBacklog(s: State, op: Op): State {
    if s.sq.IsFull() then s.(backlog := s.backlog + [op]) else s.(sq := s.sq.Push(op))
  }

  /** Sets a token and issues the operation that belongs to it. */
  function Issue(s: State, t: nat, tok: Token): State {
    PushOrBacklog(s.(tokens := s.tokens[t := tok]), OpFor(t, tok))
  }

  function Submit(s: State, count: nat): State {
    s.(sq := s.sq.Submit(count), inflight := s.inflight + s.sq.published[..s.sq.Consumed(count)])
  }

  /** `AcceptCount::push_to`, its final `sync` included. */
  function PushTo(s: State): State
    decreases s.acceptCount
  {
    if s.acceptCount > 0 && !s.sq.IsFull()
    then PushTo(s.(acceptCount := s.acceptCount - 1, sq := s.sq.Push(AcceptOp(LISTENER))))
    else s.(sq := s.sq.Sync())
  }

  /** The body of the backlog loop behind the fullness check. */
  function PopBacklog(s: State): State {
    var s' := s.(sq := s.sq.Sync());
    if s.backlog == [] then s'.(pc := Accepting)
    else
      s'.(backlog := s.backlog[1..], sq := s'.sq.Push(s.backlog[0]),
          lost := if s'.sq.IsFull() then s.lost + [s.backlog[0]] else s.lost)
  }

  function HandleAccept(s: State, fd: int, freshKey: nat): State {
    Issue(s.(acceptCount := s.acceptCount + 1, conns := s.conns[freshKey := Conn([], None)]), freshKey, Poll(fd))
  }

  function HandlePoll(s: State, t: nat, fd: int): State {
    if s.pool != [] && s.pool[|s.pool| - 1] >= |s.bufs| then s.(pc := Crashed)
    else if s.pool != [] then Issue(s.(pool := s.pool[..|s.pool| - 1]), t, Read(fd, s.pool[|s.pool| - 1]))
    else Issue(s.(bufs := s.bufs + [seq(BUF_LEN, _ => 0)]), t, Read(fd, |s.bufs|))
  }

  function HandleRead(s: State, t: nat, fd: int, buf: nat, ret: nat): State {
    if ret == 0 then
      s.(pool := s.pool + [buf], tokens := s.tokens - {t}, conns := s.conns - {t},
         closed := if t in s.conns then s.closed + [s.conns[t]] else s.closed)
    else if buf >= |s.bufs| then s.(pc := Crashed)
    else Issue(s, t, Write(fd, buf, 0, ret))
  }

  /** What is left to send after `written` bytes, as the program computes it: the rest of
      `len` behind the absolute position. */
  function NextLen(offset: nat, len: nat, written: nat): nat {
    if offset + written >= len then 0 else len - (offset + written)
  }

  function Finish(c: Conn): Conn {
    if c.current.None? then c else Conn(c.done + [c.current.value], None)
  }

  function HandleWrite(s: State, t: nat, tok: Token, written: nat): State
    requires tok.Write?
  {
    if tok.offset + written >= tok.len then
      Issue(s.(pool := s.pool + [tok.buf], conns := if t in s.conns then s.conns[t := Finish(s.conns[t])] else s.conns),
            t, Poll(tok.fd))
    else if tok.buf >= |s.bufs| || tok.offset + written > |s.bufs[tok.buf]| then s.(pc := Crashed)
    else Issue(s, t, Write(tok.fd, tok.buf, tok.offset + written, NextLen(tok.offset, tok.len, written)))
  }

  function Handle(s: State, c: Cqe, freshKey: nat): State {
    var t := c.op.token;
    if c.ret < 0 then s.(failedAccepts := s.failedAccepts + if c.op.AcceptOp? then 1 else 0)
    else if t !in s.tokens then s.(pc := Crashed)
    else
      match s.tokens[t]
      case Accept => HandleAccept(s, c.ret, freshKey)
      case Poll(fd) => HandlePoll(s, t, fd)
      case Read(fd, buf) => HandleRead(s, t, fd, buf, c.ret)
      case Write(_, _, _, _) => HandleWrite(s, t, s.tokens[t], c.ret)
  }

  /** Results the kernel may report: errors, or at most the length asked for. */
  predicate Possible(op: Op, ret: int, data: seq<byte>) {
    ret >= 0 ==>
      match op
      case RecvOp(_, _, _) => ret <= BUF_LEN && |data| == ret
      case SendOp(_, _, _, len, _) => ret <= len
      case _ => true
  }

  /** A message after a send that was asked for `len` bytes from `from` on and took `written`. */
  function AfterSend(m: Message, buffer: seq<byte>, from: nat, len: nat, written: nat): Message
    requires from + written <= |buffer|
  {
    Message(m.received, m.sent + buffer[from..from + written],
            m.shorts + (if written < len then 1 else 0), m.idles + (if written == 0 then 1 else 0),
            m.clean && !(from > 0 && written < len))
  }

  /** The memory and wire effect of a finished operation. */
  function Effect(s: State, op: Op, ret: int, data: seq<byte>): State
    requires Possible(op, ret, data)
  {
    if ret < 0 then s
    else
      match op
      case RecvOp(_, buf, t) =>
        if ret == 0 then s
        else if buf >= |s.bufs| || |s.bufs[buf]| < ret || t !in s.conns then s.(pc := Crashed)
        else
          s.(bufs := s.bufs[buf := data + s.bufs[buf][ret..]],
             conns := s.conns[t := s.conns[t].(current := Some(Message(data, [], 0, 0, true)))])
      case SendOp(_, buf, from, len, t) =>
        if buf >= |s.bufs| || |s.bufs[buf]| < from + ret then s.(pc := Crashed)
        else if t !in s.conns || s.conns[t].current.None? then s.(pc := Crashed)
        else
          var m := s.conns[t].current.value;
          s.(conns := s.conns[t := s.conns[t].(current := Some(AfterSend(m, s.bufs[buf], from, len, ret)))])
      case _ => s
  }

  function Apply(s: State, step: Step): State {
    match step
    case SubmitAndWait(taken) => if s.pc != Top then s else Submit(s, taken).(pc := CqSync)
    case SubmitBusy => if s.pc != Top then s else s.(pc := CqSync)
    case SubmitFails => if s.pc != Top && !(s.pc == Drain && s.sq.IsFull()) then s else s.(pc := Stopped)
    case SyncCompletions(seen) => if s.pc != CqSync || seen > |s.cq| then s else s.(pc := Drain, visible := seen)
    case DrainOne(taken) =>
      if s.pc != Drain then s else PopBacklog(if s.sq.IsFull() then Submit(s, taken) else s)
    case DrainBusy => if s.pc != Drain || !s.sq.IsFull() then s else s.(pc := Accepting)
    case PushAccepts => if s.pc != Accepting then s else PushTo(s).(pc := Handling)
    case HandleOne(freshKey) =>
      if s.pc != Handling then s
      else if s.visible == 0 || s.cq == [] then s.(pc := Top)
      else if freshKey in s.tokens then s
      else Handle(s.(cq := s.cq[1..], visible := s.visible - 1), s.cq[0], freshKey)
    case Complete(index, ret, data) =>
      if index >= |s.inflight| || s.pc == Crashed || !Possible(s.inflight[index], ret, data) then s
      else
        var op := s.inflight[index];
        var s1 := s.(inflight := s.inflight[..index] + s.inflight[index + 1..], cq := s.cq + [Cqe(op, ret)]);
        Effect(s1, op, ret, data)
  }

  function Run(s: State, steps: seq<Step>): State
    decreases |steps|
  {
    if steps == [] then s else Run(Apply(s, steps[0]), steps[1..])
  }

  lemma {:induction false} RunConcat(s: State, a: seq<Step>, b: seq<Step>)
    ensures Run(s, a + b) == Run(Run(s, a), b)
    decreases |a|
  {
    if a == [] {
      assert a + b == b;
    } else {
      assert (a + b)[1..] == a[1..] + b;
      RunConcat(Apply(s, a[0]), a[1..], b);
    }
  }

  lemma {:induction false} RunOneMore(s: State, steps: seq<Step>, step: Step)
    ensures Run(s, steps + [step]) == Apply(Run(s, steps), step)
    decreases |steps|
  {
    if steps == [] {
      assert ([step])[1..] == [];
      assert steps + [step] == [step];
    } else {
      assert (steps + [step])[1..] == steps[1..] + [step];
      RunOneMore(Apply(s, steps[0]), steps[1..], step);
    }
  }
}
