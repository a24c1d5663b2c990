/** What each connection of the echo server receives and sends back. */
module EchoStreams {
  import opened Words
  import opened Wrappers
  import opened EchoServer
  import opened EchoOwnership
  import opened EchoOutstanding

  /** The result of connection `t`'s operation if it has completed without error and is yet
      to be handled. */
  ghost function ResultOf(cq: seq<Cqe>, t: nat): Option<nat>
    decreases |cq|
  {
    if cq == [] then None
    else if cq[0].op.token == t && cq[0].ret >= 0 then Some(cq[0].ret)
    else ResultOf(cq[1..], t)
  }

  /** Sent back so far: a prefix of what was received, all of it exactly when no send that
      started behind the first byte came out short. That takes two short sends, and of two
      short sends that both took something the second is such a one. */
  ghost predicate MessageOk(m: Message) {
    && |m.sent| <= |m.received| && m.sent == m.received[..|m.sent|]
    && (m.clean <==> |m.sent| == |m.received|)
    && CountsAgree(m)
  }

  predicate CountsAgree(m: Message) {
    if m.clean then m.shorts <= m.idles + 1 else m.shorts >= 2
  }

  ghost predicate DoneOk(done: seq<Message>) {
    forall i :: 0 <= i < |done| ==> MessageOk(done[i])
  }

  /** A message being sent back from buffer `b`, `sent` bytes of it so far and `due` more to
      come as the program reckons. */
  ghost predicate Sending(m: Message, buffer: seq<byte>, sent: nat, due: nat) {
    && |m.received| <= |buffer| && m.received == buffer[..|m.received|]
    && sent + due <= |m.received| && m.sent == m.received[..sent]
    && (m.clean <==> sent + due == |m.received|)
    && CountsAgree(m)
    && (due > 0 ==> if sent == 0 then m.clean && m.shorts == m.idles else m.shorts >= 1)
  }

  ghost predicate ConnOk(tok: Token, conn: Conn, bufs: seq<seq<byte>>, result: Option<nat>) {
    && DoneOk(conn.done)
    && match tok
       case Accept => true
       case Poll(_) => conn.current.None?
       case Read(_, buf) =>
         && buf < |bufs| && |bufs[buf]| == BUF_LEN
         && if result.Some? && result.value > 0
            then conn.current.Some? && |conn.current.value.received| == result.value
                 && Sending(conn.current.value, bufs[buf], 0, result.value)
            else conn.current.None?
       case Write(_, buf, offset, len) =>
         && buf < |bufs| && |bufs[buf]| == BUF_LEN && conn.current.Some?
         && match result
            case None => Sending(conn.current.value, bufs[buf], offset, len)
            case Some(written) =>
              && written <= len && offset + len <= |conn.current.value.received|
              && Sending(conn.current.value, bufs[buf], offset + written, NextLen(offset, len, written))
  }

  // ---------------------------------------------------------------- one connection

  /** A send finishes: its bytes are the next ones of the message. */
  lemma SendAdvances(m: Message, buffer: seq<byte>, offset: nat, len: nat, written: nat)
    requires Sending(m, buffer, offset, len) && written <= len
    ensures offset + len <= |m.received| && offset + written <= |buffer|
    ensures Sending(AfterSend(m, buffer, offset, len, written), buffer, offset + written, NextLen(offset, len, written))
  {
    assert m.received[..offset] + buffer[offset..offset + written] == m.received[..offset + written];
  }

  /** A message the program takes for sent is one. */
  lemma FinishedMessage(conn: Conn, buffer: seq<byte>, sent: nat)
    requires DoneOk(conn.done) && conn.current.Some? && Sending(conn.current.value, buffer, sent, 0)
    ensures DoneOk(Finish(conn).done) && Finish(conn).current.None?
  {
    assert |conn.current.value.sent| == sent;
  }

  lemma NewMessage(data: seq<byte>, buffer: seq<byte>)
    requires |data| <= |buffer|
    ensures Sending(Message(data, [], 0, 0, true), data + buffer[|data|..], 0, |data|)
  {
  }

  lemma PollToRead(conn: Conn, bufs: seq<seq<byte>>, bufs': seq<seq<byte>>, fd: int, buf: nat, result: Option<nat>)
    requires ConnOk(Poll(fd), conn, bufs, result) && buf < |bufs'| && |bufs'[buf]| == BUF_LEN
    ensures ConnOk(Read(fd, buf), conn, bufs', None)
  {
  }

  lemma ReadToWrite(conn: Conn, bufs: seq<seq<byte>>, fd: int, buf: nat, ret: nat)
    requires ConnOk(Read(fd, buf), conn, bufs, Some(ret)) && ret > 0
    ensures buf < |bufs| && ConnOk(Write(fd, buf, 0, ret), conn, bufs, None)
  {
  }

  /** The cursor of a writing connection stays inside what was received; the bytes sent are
      those before it and those of a finished send yet to be handled, in order and without
      repetition; and the buffer still holds the message. */
  ghost predicate CursorInside(tok: Token, conn: Conn, bufs: seq<seq<byte>>, result: Option<nat>)
    requires tok.Write?
  {
    && conn.current.Some?
    && var m, written := conn.current.value, result.GetOr(0);
       && written <= tok.len && tok.offset + tok.len <= |m.received| <= BUF_LEN
       && m.sent == m.received[..tok.offset + written]
       && tok.buf < |bufs| && |bufs[tok.buf]| == BUF_LEN && bufs[tok.buf][..|m.received|] == m.received
  }

  lemma WriteCursor(tok: Token, conn: Conn, bufs: seq<seq<byte>>, result: Option<nat>)
    requires tok.Write? && ConnOk(tok, conn, bufs, result)
    ensures CursorInside(tok, conn, bufs, result)
  {
  }

  lemma ReadToEnd(conn: Conn, bufs: seq<seq<byte>>, fd: int, buf: nat)
    requires ConnOk(Read(fd, buf), conn, bufs, Some(0))
    ensures conn.current.None? && DoneOk(conn.done)
  {
  }

  lemma WriteToPoll(conn: Conn, bufs: seq<seq<byte>>, fd: int, buf: nat, offset: nat, len: nat, ret: nat)
    requires ConnOk(Write(fd, buf, offset, len), conn, bufs, Some(ret)) && offset + ret >= len
    ensures ConnOk(Poll(fd), Finish(conn), bufs, None)
  {
    FinishedMessage(conn, bufs[buf], offset + ret);
  }

  lemma WriteToWrite(conn: Conn, bufs: seq<seq<byte>>, fd: int, buf: nat, offset: nat, len: nat, ret: nat)
    requires ConnOk(Write(fd, buf, offset, len), conn, bufs, Some(ret)) && offset + ret < len
    ensures buf < |bufs| && offset + ret <= |bufs[buf]|
    ensures ConnOk(Write(fd, buf, offset + ret, NextLen(offset, len, ret)), conn, bufs, None)
  {
  }

  /** Only the buffer a token names matters to its connection. */
  lemma OtherBuffersDoNotMatter(tok: Token, conn: Conn, bufs: seq<seq<byte>>, bufs': seq<seq<byte>>,
                                result: Option<nat>)
    requires ConnOk(tok, conn, bufs, result)
    requires Holds(tok).Some? && Holds(tok).value < |bufs| ==>
               Holds(tok).value < |bufs'| && bufs'[Holds(tok).value] == bufs[Holds(tok).value]
    ensures ConnOk(tok, conn, bufs', result)
  {
  }

  // ---------------------------------------------------------------- completions by token

  lemma {:induction false} ResultOfAppend(cq: seq<Cqe>, c: Cqe, t: nat)
    ensures ResultOf(cq + [c], t) ==
            if ResultOf(cq, t).Some? then ResultOf(cq, t)
            else if c.op.token == t && c.ret >= 0 then Some(c.ret) else None
    decreases |cq|
  {
    if cq == [] {
      assert (cq + [c])[1..] == [];
    } else {
      assert (cq + [c])[1..] == cq[1..] + [c];
      ResultOfAppend(cq[1..], c, t);
    }
  }

  lemma {:induction false} NoResult(cq: seq<Cqe>, t: nat)
    requires forall i :: 0 <= i < |cq| ==> cq[i].op.token != t
    ensures ResultOf(cq, t) == None
    decreases |cq|
  {
    if cq != [] {
      NoResult(cq[1..], t);
    }
  }

  lemma IdleHasNoResult(s: State, t: nat)
    requires Idle(s, t)
    ensures ResultOf(s.cq, t) == None
  {
    forall i | 0 <= i < |s.cq|
      ensures s.cq[i].op.token != t
    {
      assert OpsOf(s.cq)[i] in AllOps(s);
    }
    NoResult(s.cq, t);
  }

  lemma InKernelHasNoResult(s: State, index: nat)
    requires Linked(s) && index < |s.inflight| && s.inflight[index].token != LISTENER
    ensures ResultOf(s.cq, s.inflight[index].token) == None
  {
    var x := s.inflight[index];
    forall i | 0 <= i < |s.cq|
      ensures s.cq[i].op.token != x.token
    {
      var y := s.cq[i].op;
      assert OpsOf(s.cq)[i] == y;
      assert x in AllOps(s) && y in AllOps(s);
    }
    NoResult(s.cq, x.token);
  }

  // ---------------------------------------------------------------- all connections

  ghost predicate ConnsOk(s: State) {
    && s.conns.Keys == s.tokens.Keys - {LISTENER}
    && (forall b :: 0 <= b < |s.bufs| ==> |s.bufs[b]| == BUF_LEN)
    && (forall t <- s.conns :: ConnOk(s.tokens[t], s.conns[t], s.bufs, ResultOf(s.cq, t)))
    && (forall c <- s.closed :: c.current.None? && DoneOk(c.done))
  }

  ghost predicate Owned(s: State) {
    Ownership(s.tokens, s.pool, |s.bufs|)
  }

  ghost predicate Inv(s: State) {
    Linked(s) && Owned(s) && ConnsOk(s) && s.pc != Crashed
  }
}
