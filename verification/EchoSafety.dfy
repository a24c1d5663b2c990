/** The echo server's invariant over every run, and what follows from it. */
module EchoSafety {
  import opened Words
  import opened Wrappers
  import opened EchoServer
  import opened EchoOwnership
  import opened EchoOutstanding
  import opened EchoStreams

  // ---------------------------------------------------------------- the kernel's step

  /** Appending a completion changes the result of its own token only. */
  lemma MoveKeepsOtherResults(s: State, index: nat, ret: int, t: nat)
    requires index < |s.inflight| && (s.inflight[index].token != t || ret < 0)
    ensures ResultOf(MoveToCq(s, index, ret).cq, t) == ResultOf(s.cq, t)
  {
    ResultOfAppend(s.cq, Cqe(s.inflight[index], ret), t);
  }

  lemma MoveSetsResult(s: State, index: nat, ret: nat)
    requires Linked(s) && index < |s.inflight| && s.inflight[index].token != LISTENER
    ensures ResultOf(s.cq, s.inflight[index].token) == None
    ensures ResultOf(MoveToCq(s, index, ret).cq, s.inflight[index].token) == Some(ret)
  {
    hide Linked;
    InKernelHasNoResult(s, index);
    ResultOfAppend(s.cq, Cqe(s.inflight[index], ret), s.inflight[index].token);
  }

  /** `s'` differs from `s` in connection `t`, its buffer and its result only. */
  ghost predicate ChangesOnly(s: State, s': State, t: nat) {
    && s'.tokens == s.tokens && s'.pool == s.pool && s'.closed == s.closed
    && s'.conns.Keys == s.conns.Keys && |s'.bufs| == |s.bufs|
    && (forall b :: 0 <= b < |s.bufs| ==> |s'.bufs[b]| == |s.bufs[b]|)
    && (forall u <- s.conns :: u != t ==> s'.conns[u] == s.conns[u] && ResultOf(s'.cq, u) == ResultOf(s.cq, u))
    && (forall b: nat :: b < |s.bufs| && !Holder(s.tokens, t, b) ==> s'.bufs[b] == s.bufs[b])
  }

  lemma LocalChangeKeepsConns(s: State, s': State, t: nat)
    requires ConnsOk(s) && Owned(s) && ChangesOnly(s, s', t)
    requires t in s.conns ==> ConnOk(s'.tokens[t], s'.conns[t], s'.bufs, ResultOf(s'.cq, t))
    ensures ConnsOk(s') && Owned(s')
  {
    hide ConnOk, ResultOf;
    forall u <- s'.conns
      ensures ConnOk(s'.tokens[u], s'.conns[u], s'.bufs, ResultOf(s'.cq, u))
    {
      if u != t {
        if Holds(s.tokens[u]).Some? {
          assert Holder(s.tokens, u, Holds(s.tokens[u]).value);
        }
        OtherBuffersDoNotMatter(s.tokens[u], s.conns[u], s.bufs, s'.bufs, ResultOf(s.cq, u));
      }
    }
  }

  /** What the queues say about the operation at `index` of the kernel's. */
  lemma InKernelOp(s: State, index: nat, ret: int)
    requires Linked(s) && index < |s.inflight|
    ensures var op, s1 := s.inflight[index], MoveToCq(s, index, ret);
            && op.token in s.tokens && op == OpFor(op.token, s.tokens[op.token])
            && (op.AcceptOp? <==> op.token == LISTENER)
            && (forall u :: u != op.token || ret < 0 ==> ResultOf(s1.cq, u) == ResultOf(s.cq, u))
            && (op.token != LISTENER ==> ResultOf(s.cq, op.token) == None)
            && (op.token != LISTENER && ret >= 0 ==> ResultOf(s1.cq, op.token) == Some(ret))
  {
    assert s.inflight[index] in AllOps(s);
    hide Linked, AllOps, ResultOf;
    var op, s1 := s.inflight[index], MoveToCq(s, index, ret);
    OpNamesLiveToken(s, op);
    forall u | u != op.token || ret < 0
      ensures ResultOf(s1.cq, u) == ResultOf(s.cq, u)
    {
      MoveKeepsOtherResults(s, index, ret, u);
    }
    if op.token != LISTENER {
      InKernelHasNoResult(s, index);
      if ret >= 0 {
        MoveSetsResult(s, index, ret);
      }
    }
  }

  /** Bytes arrive in the buffer of a reading connection and become its message. */
  lemma ReceiveIsLocal(s: State, index: nat, ret: nat, data: seq<byte>)
    requires Linked(s) && Owned(s) && ConnsOk(s) && index < |s.inflight| && s.inflight[index].RecvOp?
    requires Possible(s.inflight[index], ret, data)
    ensures var op := s.inflight[index];
            var s' := Effect(MoveToCq(s, index, ret), op, ret, data);
            && s'.pc == s.pc && ChangesOnly(s, s', op.token) && op.token in s.conns
            && ConnOk(s'.tokens[op.token], s'.conns[op.token], s'.bufs, ResultOf(s'.cq, op.token))
  {
    hide Linked, ResultOf;
    InKernelOp(s, index, ret);
    var op := s.inflight[index];
    assert Holder(s.tokens, op.token, op.buf);
    if ret > 0 {
      NewMessage(data, s.bufs[op.buf]);
    }
  }

  /** Bytes leave from the buffer of a writing connection, the next ones of its message. */
  lemma SendIsLocal(s: State, index: nat, ret: nat, data: seq<byte>)
    requires Linked(s) && Owned(s) && ConnsOk(s) && index < |s.inflight| && s.inflight[index].SendOp?
    requires Possible(s.inflight[index], ret, data)
    ensures var op := s.inflight[index];
            var s' := Effect(MoveToCq(s, index, ret), op, ret, data);
            && s'.pc == s.pc && ChangesOnly(s, s', op.token) && op.token in s.conns
            && ConnOk(s'.tokens[op.token], s'.conns[op.token], s'.bufs, ResultOf(s'.cq, op.token))
  {
    hide Linked, ResultOf, Sending, DoneOk;
    InKernelOp(s, index, ret);
    var op := s.inflight[index];
    assert Holder(s.tokens, op.token, op.buf);
    SendAdvances(s.conns[op.token].current.value, s.bufs[op.buf], op.from, op.len, ret);
  }

  /** An error, or a finished accept or poll, moves no bytes. */
  lemma NoBytesMove(s: State, index: nat, ret: int, data: seq<byte>)
    requires Linked(s) && Owned(s) && ConnsOk(s) && index < |s.inflight| && Possible(s.inflight[index], ret, data)
    requires ret < 0 || s.inflight[index].AcceptOp? || s.inflight[index].PollOp?
    ensures var op := s.inflight[index];
            var s' := Effect(MoveToCq(s, index, ret), op, ret, data);
            && s'.pc == s.pc && ChangesOnly(s, s', op.token)
            && (op.token in s.conns ==>
                  ConnOk(s'.tokens[op.token], s'.conns[op.token], s'.bufs, ResultOf(s'.cq, op.token)))
  {
    hide Linked, ResultOf, Sending, DoneOk;
    InKernelOp(s, index, ret);
  }

  lemma CompleteKeepsInv(s: State, index: nat, ret: int, data: seq<byte>)
    requires Inv(s) && index < |s.inflight| && Possible(s.inflight[index], ret, data)
    ensures Inv(Apply(s, Complete(index, ret, data)))
  {
    hide Linked, Owned, ConnsOk, ConnOk, ChangesOnly, Possible, Effect;
    CompleteKeepsLinked(s, index, ret, data);
    var op := s.inflight[index];
    var s' := Effect(MoveToCq(s, index, ret), op, ret, data);
    assert s' == Apply(s, Complete(index, ret, data));
    if ret < 0 || op.AcceptOp? || op.PollOp? {
      NoBytesMove(s, index, ret, data);
    } else if op.RecvOp? {
      ReceiveIsLocal(s, index, ret, data);
    } else {
      SendIsLocal(s, index, ret, data);
    }
    LocalChangeKeepsConns(s, s', op.token);
  }

  // ---------------------------------------------------------------- the program's step

  lemma TakenResults(s: State)
    requires Linked(s) && s.visible > 0 && s.cq != []
    ensures var c, s' := s.cq[0], Taken(s);
            && c.op.token in s.tokens && c.op == OpFor(c.op.token, s.tokens[c.op.token])
            && (c.op.AcceptOp? <==> c.op.token == LISTENER)
            && (s.tokens[c.op.token].Accept? <==> c.op.token == LISTENER)
            && (forall u :: u != c.op.token ==> ResultOf(s'.cq, u) == ResultOf(s.cq, u))
            && (c.op.token != LISTENER ==>
                  && ResultOf(s'.cq, c.op.token) == None
                  && ResultOf(s.cq, c.op.token) == if c.ret >= 0 then Some(c.ret) else None)
  {
    hide Linked, AllOps;
    TakeCqe(s);
    OpNamesLiveToken(s, s.cq[0].op);
    if s.cq[0].op.token != LISTENER {
      ConnectionTaken(s);
      IdleHasNoResult(Taken(s), s.cq[0].op.token);
    }
  }

  /** `s'` is `s` with one connection given a token, new or changed. */
  ghost predicate Retokens(s: State, s': State, t: nat, tok: Token) {
    && t != LISTENER && !tok.Accept?
    && s'.tokens == s.tokens[t := tok] && s'.closed == s.closed
    && s'.conns.Keys == s.conns.Keys + {t} && s.bufs <= s'.bufs
    && (forall b :: |s.bufs| <= b < |s'.bufs| ==> |s'.bufs[b]| == BUF_LEN)
    && (forall u <- s.conns :: u != t ==> s'.conns[u] == s.conns[u] && ResultOf(s'.cq, u) == ResultOf(s.cq, u))
  }

  lemma RetokenKeepsConns(s: State, s': State, t: nat, tok: Token)
    requires ConnsOk(s) && Retokens(s, s', t, tok)
    requires ConnOk(tok, s'.conns[t], s'.bufs, ResultOf(s'.cq, t))
    ensures ConnsOk(s')
  {
    hide ConnOk, ResultOf;
    forall u <- s'.conns
      ensures ConnOk(s'.tokens[u], s'.conns[u], s'.bufs, ResultOf(s'.cq, u))
    {
      if u != t {
        OtherBuffersDoNotMatter(s.tokens[u], s.conns[u], s.bufs, s'.bufs, ResultOf(s.cq, u));
      }
    }
  }

  lemma InListener(s: State)
    requires Linked(s)
    ensures LISTENER in s.tokens
  {
  }

  lemma IssueFields(s: State, t: nat, tok: Token)
    ensures var s' := Issue(s, t, tok);
            s' == s.(tokens := s.tokens[t := tok], sq := s'.sq, backlog := s'.backlog)
  {
  }

  lemma AcceptKeepsOwned(s: State, fd: int, freshKey: nat)
    requires Owned(s) && s.visible > 0 && s.cq != [] && freshKey !in s.tokens
    ensures var s' := HandleAccept(Taken(s), fd, freshKey);
            Owned(s') && s'.pc == s.pc
  {
    hide Ownership, Issue;
    var s1 := Taken(s).(acceptCount := s.acceptCount + 1, conns := s.conns[freshKey := Conn([], None)]);
    IssueFields(s1, freshKey, Poll(fd));
    KeepBuffer(s.tokens, s.pool, |s.bufs|, freshKey, Poll(fd));
  }

  lemma AcceptKeepsConns(s: State, fd: int, freshKey: nat)
    requires Linked(s) && ConnsOk(s) && s.visible > 0 && s.cq != [] && freshKey !in s.tokens
    requires s.cq[0].op.token == LISTENER
    ensures ConnsOk(HandleAccept(Taken(s), fd, freshKey))
  {
    AcceptRetokens(s, fd, freshKey);
    hide *;
    var s' := HandleAccept(Taken(s), fd, freshKey);
    NewConn(fd, s'.bufs, ResultOf(s'.cq, freshKey));
    RetokenKeepsConns(s, s', freshKey, Poll(fd));
  }

  lemma AcceptRetokens(s: State, fd: int, freshKey: nat)
    requires Linked(s) && ConnsOk(s) && s.visible > 0 && s.cq != [] && freshKey !in s.tokens
    requires s.cq[0].op.token == LISTENER
    ensures var s' := HandleAccept(Taken(s), fd, freshKey);
            Retokens(s, s', freshKey, Poll(fd)) && s'.conns[freshKey] == Conn([], None)
  {
    hide *;
    ListenerTaken(s);
    ConnKeys(s);
    HandleAcceptFields(s, fd, freshKey);
    var s' := HandleAccept(Taken(s), fd, freshKey);
    assert s'.conns.Keys == s.conns.Keys + {freshKey};
    NewTokenRetokens(s, s', freshKey, Poll(fd));
  }

  lemma NewTokenRetokens(s: State, s': State, t: nat, tok: Token)
    requires t != LISTENER && !tok.Accept? && t !in s.conns
    requires s'.tokens == s.tokens[t := tok] && s'.closed == s.closed && s'.bufs == s.bufs
    requires s'.conns == s.conns[t := Conn([], None)]
    requires forall u <- s.conns :: ResultOf(s'.cq, u) == ResultOf(s.cq, u)
    ensures Retokens(s, s', t, tok)
  {
    hide ResultOf;
  }

  /** A completion of the listener's changes no connection's result. */
  lemma ListenerTaken(s: State)
    requires Linked(s) && ConnsOk(s) && s.visible > 0 && s.cq != [] && s.cq[0].op.token == LISTENER
    ensures LISTENER in s.tokens && forall u <- s.conns :: ResultOf(Taken(s).cq, u) == ResultOf(s.cq, u)
  {
    TakenResults(s);
    InListener(s);
    ConnKeys(s);
    hide *;
  }

  lemma HandleAcceptFields(s: State, fd: int, freshKey: nat)
    requires s.visible > 0 && s.cq != []
    ensures var s' := HandleAccept(Taken(s), fd, freshKey);
            && s'.tokens == s.tokens[freshKey := Poll(fd)] && s'.conns == s.conns[freshKey := Conn([], None)]
            && s'.bufs == s.bufs && s'.cq == Taken(s).cq && s'.closed == s.closed
  {
    hide Issue;
    var s1 := Taken(s).(acceptCount := s.acceptCount + 1, conns := s.conns[freshKey := Conn([], None)]);
    IssueFields(s1, freshKey, Poll(fd));
  }

  lemma ConnKeys(s: State)
    requires ConnsOk(s)
    ensures s.conns.Keys == s.tokens.Keys - {LISTENER}
  {
  }

  lemma NewConn(fd: int, bufs: seq<seq<byte>>, result: Option<nat>)
    ensures ConnOk(Poll(fd), Conn([], None), bufs, result)
  {
  }

  /** The completion of connection `t` has been taken, buffers and records updated to `s1`;
      `t` gets its next token. */
  lemma NextTokenKeepsConns(s: State, s1: State, t: nat, tok: Token)
    requires Linked(s) && ConnsOk(s) && s.visible > 0 && s.cq != [] && s.cq[0].op.token == t
    requires t != LISTENER && !tok.Accept? && t in s.conns
    requires s1 == Taken(s).(pool := s1.pool, bufs := s1.bufs, conns := s1.conns)
    requires s1.conns.Keys == s.conns.Keys && forall u <- s.conns :: u != t ==> s1.conns[u] == s.conns[u]
    requires s1.bufs == s.bufs || exists b: seq<byte> :: |b| == BUF_LEN && s1.bufs == s.bufs + [b]
    requires ConnOk(tok, s1.conns[t], s1.bufs, None)
    requires Ownership(s.tokens[t := tok], s1.pool, |s1.bufs|)
    ensures var s' := Issue(s1, t, tok);
            Owned(s') && ConnsOk(s') && s'.pc == s.pc
  {
    hide Linked, ResultOf, ConnOk, Ownership, ConnsOk, Issue;
    TakenResults(s);
    IssueFields(s1, t, tok);
    RetokenKeepsConns(s, Issue(s1, t, tok), t, tok);
  }

  lemma ConnOf(s: State, t: nat)
    requires ConnsOk(s) && t in s.tokens && t != LISTENER
    ensures t in s.conns && ConnOk(s.tokens[t], s.conns[t], s.bufs, ResultOf(s.cq, t))
  {
  }

  lemma BufferLength(s: State, b: nat)
    requires ConnsOk(s) && b < |s.bufs|
    ensures |s.bufs[b]| == BUF_LEN
  {
  }

  lemma PollKeepsConns(s: State, t: nat, fd: int)
    requires Linked(s) && Owned(s) && ConnsOk(s) && s.visible > 0 && s.cq != [] && s.cq[0].op.token == t
    requires t != LISTENER && t in s.tokens && s.tokens[t] == Poll(fd)
    ensures var s' := HandlePoll(Taken(s), t, fd);
            Owned(s') && ConnsOk(s') && s'.pc == s.pc
  {
    hide Linked, ResultOf, ConnOk, Issue, Ownership, ConnsOk;
    ConnOf(s, t);
    if s.pool != [] {
      var b := s.pool[|s.pool| - 1];
      var s1 := Taken(s).(pool := s.pool[..|s.pool| - 1]);
      InPool(s.tokens, s.pool, |s.bufs|);
      BufferLength(s, b);
      TakeFromPool(s.tokens, s.pool, |s.bufs|, t, Read(fd, b));
      PollToRead(s.conns[t], s.bufs, s.bufs, fd, b, ResultOf(s.cq, t));
      NextTokenKeepsConns(s, s1, t, Read(fd, b));
    } else {
      var s1, b := Taken(s).(bufs := s.bufs + [seq(BUF_LEN, _ => 0)]), |s.bufs|;
      TakeNew(s.tokens, s.pool, |s.bufs|, t, Read(fd, b));
      PollToRead(s.conns[t], s.bufs, s1.bufs, fd, b, ResultOf(s.cq, t));
      NextTokenKeepsConns(s, s1, t, Read(fd, b));
    }
  }

  lemma InPool(tokens: map<nat, Token>, pool: seq<nat>, count: nat)
    requires Ownership(tokens, pool, count) && pool != []
    ensures pool[|pool| - 1] < count
  {
    assert pool[|pool| - 1] in pool;
  }

  lemma ReadKeepsConns(s: State, t: nat, fd: int, buf: nat)
    requires Linked(s) && Owned(s) && ConnsOk(s) && s.visible > 0 && s.cq != [] && s.cq[0].op.token == t
    requires t != LISTENER && t in s.tokens && s.tokens[t] == Read(fd, buf) && s.cq[0].ret > 0
    ensures var s' := HandleRead(Taken(s), t, fd, buf, s.cq[0].ret);
            Owned(s') && ConnsOk(s') && s'.pc == s.pc
  {
    hide Linked, ResultOf, ConnOk, Issue, Ownership, ConnsOk;
    TakenResults(s);
    ConnOf(s, t);
    var tok := Write(fd, buf, 0, s.cq[0].ret);
    ReadToWrite(s.conns[t], s.bufs, fd, buf, s.cq[0].ret);
    KeepBuffer(s.tokens, s.pool, |s.bufs|, t, tok);
    NextTokenKeepsConns(s, Taken(s), t, tok);
  }

  lemma EndKeepsConns(s: State, t: nat, fd: int, buf: nat)
    requires Linked(s) && Owned(s) && ConnsOk(s) && s.visible > 0 && s.cq != [] && s.cq[0].op.token == t
    requires t != LISTENER && t in s.tokens && s.tokens[t] == Read(fd, buf) && s.cq[0].ret == 0
    ensures var s' := HandleRead(Taken(s), t, fd, buf, 0);
            Owned(s') && ConnsOk(s') && s'.pc == s.pc
  {
    hide Linked, ResultOf, ConnOk, Ownership;
    TakenResults(s);
    ReadToEnd(s.conns[t], s.bufs, fd, buf);
    GiveBackOnRemoval(s.tokens, s.pool, |s.bufs|, t);
  }

  lemma WriteKeepsConns(s: State, t: nat, fd: int, buf: nat, offset: nat, len: nat)
    requires Linked(s) && Owned(s) && ConnsOk(s) && s.visible > 0 && s.cq != [] && s.cq[0].op.token == t
    requires t != LISTENER && t in s.tokens && s.tokens[t] == Write(fd, buf, offset, len) && s.cq[0].ret >= 0
    ensures var s' := HandleWrite(Taken(s), t, s.tokens[t], s.cq[0].ret);
            Owned(s') && ConnsOk(s') && s'.pc == s.pc
  {
    hide Linked, ResultOf, ConnOk, Issue, Ownership, ConnsOk, Finish, NextLen;
    TakenResults(s);
    ConnOf(s, t);
    var ret := s.cq[0].ret;
    if offset + ret >= len {
      var s1 := Taken(s).(pool := s.pool + [buf], conns := s.conns[t := Finish(s.conns[t])]);
      WriteToPoll(s.conns[t], s.bufs, fd, buf, offset, len, ret);
      GiveBackOnChange(s.tokens, s.pool, |s.bufs|, t, Poll(fd));
      NextTokenKeepsConns(s, s1, t, Poll(fd));
    } else {
      var tok := Write(fd, buf, offset + ret, NextLen(offset, len, ret));
      WriteToWrite(s.conns[t], s.bufs, fd, buf, offset, len, ret);
      KeepBuffer(s.tokens, s.pool, |s.bufs|, t, tok);
      NextTokenKeepsConns(s, Taken(s), t, tok);
    }
  }

  lemma ErrorKeepsConns(s: State, freshKey: nat)
    requires Linked(s) && Owned(s) && ConnsOk(s) && s.visible > 0 && s.cq != [] && s.cq[0].ret < 0
    ensures var s' := Handle(Taken(s), s.cq[0], freshKey);
            Owned(s') && ConnsOk(s') && s'.pc == s.pc
  {
    TakenResults(s);
    InListener(s);
    hide Linked, ResultOf;
  }

  lemma InvMeansRunning(s: State)
    requires Inv(s)
    ensures s.pc != Crashed && s.visible <= |s.cq|
  {
  }

  lemma HandleKeepsPc(s: State, c: Cqe, freshKey: nat)
    ensures var s' := Handle(s, c, freshKey);
            s'.visible == s.visible && (s'.pc == s.pc || s'.pc == Crashed)
  {
    hide PushOrBacklog;
    forall s: State, op
      ensures PushOrBacklog(s, op).visible == s.visible && PushOrBacklog(s, op).pc == s.pc
    {
      PushFields(s, op);
    }
  }

  lemma PushFields(s: State, op: Op)
    ensures PushOrBacklog(s, op).visible == s.visible && PushOrBacklog(s, op).pc == s.pc
  {
  }

  lemma PooledIsAllocated(s: State)
    requires Owned(s)
    ensures s.pool != [] ==> s.pool[|s.pool| - 1] < |s.bufs|
  {
    hide Ownership;
    if s.pool != [] {
      InPool(s.tokens, s.pool, |s.bufs|);
    }
  }

  /** The completion handled next names a live token, and the buffer its branch indexes is
      allocated and long enough. */
  lemma HandlingStaysInBounds(s: State)
    requires Inv(s) && 0 < s.visible <= |s.cq|
    ensures var c := s.cq[0];
            && c.op.token in s.tokens
            && (c.ret >= 0 ==>
                  match s.tokens[c.op.token]
                  case Poll(_) => s.pool != [] ==> s.pool[|s.pool| - 1] < |s.bufs|
                  case Read(_, buf) => buf < |s.bufs|
                  case Write(_, buf, offset, len) =>
                    offset + c.ret < len ==> buf < |s.bufs| && offset + c.ret <= |s.bufs[buf]|
                  case _ => true)
  {
    TakenResults(s);
    hide Linked, Ownership, ConnsOk, ResultOf;
    PooledIsAllocated(s);
    hide Owned;
    var t := s.cq[0].op.token;
    if t != LISTENER {
      ConnOf(s, t);
    }
  }

  lemma HandleKeepsInv(s: State, freshKey: nat)
    requires Inv(s) && s.visible > 0 && s.cq != [] && freshKey !in s.tokens
    ensures Inv(Handle(Taken(s), s.cq[0], freshKey))
  {
    HandleKeepsLinked(s, freshKey);
    TakenResults(s);
    hide Linked, Owned, ConnsOk, HandleAccept, HandlePoll, HandleRead, HandleWrite;
    var c := s.cq[0];
    var t := c.op.token;
    if c.ret < 0 {
      ErrorKeepsConns(s, freshKey);
    } else {
      match s.tokens[t]
      case Accept =>
        AcceptKeepsOwned(s, c.ret, freshKey);
        AcceptKeepsConns(s, c.ret, freshKey);
      case Poll(fd) => PollKeepsConns(s, t, fd);
      case Read(fd, buf) =>
        if c.ret == 0 {
          EndKeepsConns(s, t, fd, buf);
        } else {
          ReadKeepsConns(s, t, fd, buf);
        }
      case Write(fd, buf, offset, len) => WriteKeepsConns(s, t, fd, buf, offset, len);
    }
  }

  lemma EffectFields(s: State, op: Op, ret: int, data: seq<byte>)
    requires Possible(op, ret, data)
    ensures var s' := Effect(s, op, ret, data);
            && s' == s.(pc := s'.pc, bufs := s'.bufs, conns := s'.conns)
            && (s'.pc == s.pc || s'.pc == Crashed)
            && (s'.pc != Crashed ==>
                  if op.RecvOp? && ret > 0
                  then op.buf < |s.bufs| && ret <= |s.bufs[op.buf]|
                      && s'.bufs == s.bufs[op.buf := data + s.bufs[op.buf][ret..]]
                  else s'.bufs == s.bufs)
  {
  }

  // ---------------------------------------------------------------- every run

  /** Queues, backlog and counters play no part in what connections hold and send. */
  lemma QueuesDoNotMatter(s: State, s': State)
    requires Owned(s) && ConnsOk(s)
    requires s' == s.(pc := s'.pc, backlog := s'.backlog, acceptCount := s'.acceptCount, sq := s'.sq,
                      visible := s'.visible, inflight := s'.inflight, lost := s'.lost)
    ensures Owned(s') && ConnsOk(s')
  {
  }

  lemma {:induction false} PushToFields(s: State)
    ensures var s' := PushTo(s);
            s' == s.(acceptCount := s'.acceptCount, sq := s'.sq)
    decreases s.acceptCount
  {
    if s.acceptCount > 0 && !s.sq.IsFull() {
      PushToFields(s.(acceptCount := s.acceptCount - 1, sq := s.sq.Push(AcceptOp(LISTENER))));
    }
  }

  lemma QueueStepFields(s: State, step: Step)
    requires !step.HandleOne? && !step.Complete?
    ensures var s' := Apply(s, step);
            s' == s.(pc := s'.pc, backlog := s'.backlog, acceptCount := s'.acceptCount, sq := s'.sq,
                     visible := s'.visible, inflight := s'.inflight, lost := s'.lost)
    ensures s.pc != Crashed ==> Apply(s, step).pc != Crashed
  {
    hide PushTo;
    PushToFields(s);
  }

  lemma ApplyKeepsInv(s: State, step: Step)
    requires Inv(s)
    ensures Inv(Apply(s, step))
  {
    hide Linked, Owned, ConnsOk, Handle, Effect, PushTo, PopBacklog;
    match step
    case HandleOne(freshKey) =>
      if s.pc == Handling && s.visible > 0 && s.cq != [] && freshKey !in s.tokens {
        HandleKeepsInv(s, freshKey);
      } else {
        ApplyKeepsLinked(s, step);
        QueuesDoNotMatter(s, Apply(s, step));
      }
    case Complete(index, ret, data) =>
      if index < |s.inflight| && Possible(s.inflight[index], ret, data) {
        CompleteKeepsInv(s, index, ret, data);
      }
    case _ =>
      ApplyKeepsLinked(s, step);
      QueueStepFields(s, step);
      QueuesDoNotMatter(s, Apply(s, step));
  }

  lemma {:induction false} RunKeepsInv(s: State, steps: seq<Step>)
    requires Inv(s)
    ensures Inv(Run(s, steps))
    decreases |steps|
  {
    if steps != [] {
      hide Inv, Apply;
      ApplyKeepsInv(s, steps[0]);
      RunKeepsInv(Apply(s, steps[0]), steps[1..]);
    }
  }

  lemma StartHolds(entries: nat)
    ensures Inv(Start(entries))
  {
  }

  /** The program never indexes its slabs or buffers out of range. */
  lemma NeverCrashes(entries: nat, steps: seq<Step>)
    ensures Run(Start(entries), steps).pc != Crashed
  {
    StartHolds(entries);
    RunKeepsInv(Start(entries), steps);
  }

  /** The buffer the kernel may read or write for an operation. */
  function BufferOf(op: Op): Option<nat> {
    match op
    case RecvOp(_, buf, _) => Some(buf)
    case SendOp(_, buf, _, _, _) => Some(buf)
    case _ => None
  }

  /** In every reachable state each allocated buffer is in the pool, once, or held by exactly
      one reading or writing connection, even after failed operations; and two operations on
      their way never name the same buffer. */
  lemma BuffersHaveOneOwner(entries: nat, steps: seq<Step>)
    ensures var s := Run(Start(entries), steps);
            && Ownership(s.tokens, s.pool, |s.bufs|)
            && (forall x, y :: x in AllOps(s) && y in AllOps(s) && BufferOf(x).Some? && BufferOf(x) == BufferOf(y) ==>
                  x == y && AllOps(s)[x] == 1)
  {
    StartHolds(entries);
    RunKeepsInv(Start(entries), steps);
    SharedBufferMeansSameOp(Run(Start(entries), steps));
  }

  lemma SharedBufferMeansSameOp(s: State)
    requires Linked(s) && Owned(s)
    ensures forall x, y :: x in AllOps(s) && y in AllOps(s) && BufferOf(x).Some? && BufferOf(x) == BufferOf(y) ==>
              x == y && AllOps(s)[x] == 1
  {
    forall x, y | x in AllOps(s) && y in AllOps(s) && BufferOf(x).Some? && BufferOf(x) == BufferOf(y)
      ensures x == y && AllOps(s)[x] == 1
    {
      OpNamesLiveToken(s, x);
      OpNamesLiveToken(s, y);
      var b := BufferOf(x).value;
      assert Holder(s.tokens, x.token, b) && Holder(s.tokens, y.token, b);
    }
  }

  /** In every reachable state an operation on its way names a live token and is the one its
      token calls for; a connection has no second one; and accepts still to be issued, on
      their way and failed are three together. */
  lemma OneOperationPerConnection(entries: nat, steps: seq<Step>)
    ensures var s := Run(Start(entries), steps);
            && (forall x :: x in AllOps(s) ==> x.token in s.tokens && x == OpFor(x.token, s.tokens[x.token]))
            && (forall x, y :: x in AllOps(s) && y in AllOps(s) && x.token == y.token && x.token != LISTENER ==>
                  x == y && AllOps(s)[x] == 1)
            && s.acceptCount + AllOps(s)[AcceptOp(LISTENER)] + s.failedAccepts == ACCEPTS
  {
    StartHolds(entries);
    RunKeepsInv(Start(entries), steps);
    SameTokenMeansSameOp(Run(Start(entries), steps));
  }

  lemma SameTokenMeansSameOp(s: State)
    requires Linked(s)
    ensures forall x, y :: x in AllOps(s) && y in AllOps(s) && x.token == y.token && x.token != LISTENER ==>
              x == y && AllOps(s)[x] == 1
  {
    forall x, y | x in AllOps(s) && y in AllOps(s) && x.token == y.token && x.token != LISTENER
      ensures x == y && AllOps(s)[x] == 1
    {
      OpNamesLiveToken(s, x);
      OpNamesLiveToken(s, y);
    }
  }

  // ---------------------------------------------------------------- bytes

  function ReceivedBytes(done: seq<Message>): seq<byte> {
    if done == [] then [] else ReceivedBytes(done[..|done| - 1]) + done[|done| - 1].received
  }

  function SentBytes(done: seq<Message>): seq<byte> {
    if done == [] then [] else SentBytes(done[..|done| - 1]) + done[|done| - 1].sent
  }

  ghost predicate AllClean(done: seq<Message>) {
    forall i :: 0 <= i < |done| ==> done[i].clean
  }

  lemma {:induction false} StreamsEqualIffClean(done: seq<Message>)
    requires DoneOk(done)
    ensures |SentBytes(done)| <= |ReceivedBytes(done)|
    ensures SentBytes(done) == ReceivedBytes(done) <==> AllClean(done)
    ensures |SentBytes(done)| == |ReceivedBytes(done)| ==> AllClean(done)
    decreases |done|
  {
    if done != [] {
      var rest, m := done[..|done| - 1], done[|done| - 1];
      StreamsEqualIffClean(rest);
      assert MessageOk(m);
      assert AllClean(done) <==> AllClean(rest) && m.clean;
      if m.clean {
        assert m.sent == m.received;
      }
    }
  }

  /** In every reachable state, for every connection, open or closed: each message was sent
      back as a prefix of itself, and the bytes sent back are the bytes received if and only
      if no send that started behind the first byte of its message came out short. */
  lemma EchoIsFaithfulIffSendsComplete(entries: nat, steps: seq<Step>)
    ensures var s := Run(Start(entries), steps);
            && (forall t <- s.conns ::
                  && DoneOk(s.conns[t].done)
                  && (SentBytes(s.conns[t].done) == ReceivedBytes(s.conns[t].done) <==> AllClean(s.conns[t].done)))
            && (forall c <- s.closed ::
                  && c.current.None? && DoneOk(c.done)
                  && (SentBytes(c.done) == ReceivedBytes(c.done) <==> AllClean(c.done)))
  {
    StartHolds(entries);
    RunKeepsInv(Start(entries), steps);
    ConnectionsAreFaithful(Run(Start(entries), steps));
  }

  lemma ConnectionsAreFaithful(s: State)
    requires ConnsOk(s)
    ensures forall t <- s.conns ::
              && DoneOk(s.conns[t].done)
              && (SentBytes(s.conns[t].done) == ReceivedBytes(s.conns[t].done) <==> AllClean(s.conns[t].done))
    ensures forall c <- s.closed ::
              && c.current.None? && DoneOk(c.done)
              && (SentBytes(c.done) == ReceivedBytes(c.done) <==> AllClean(c.done))
  {
    forall t <- s.conns
      ensures DoneOk(s.conns[t].done)
      ensures SentBytes(s.conns[t].done) == ReceivedBytes(s.conns[t].done) <==> AllClean(s.conns[t].done)
    {
      assert ConnOk(s.tokens[t], s.conns[t], s.bufs, ResultOf(s.cq, t));
      StreamsEqualIffClean(s.conns[t].done);
    }
    forall c <- s.closed
      ensures SentBytes(c.done) == ReceivedBytes(c.done) <==> AllClean(c.done)
    {
      StreamsEqualIffClean(c.done);
    }
  }

  /** The condition in terms of the sends' results alone: at most one that took less than
      asked, and all was sent back; and if each took something, only then. */
  predicate ShortsTell(m: Message) {
    && (m.shorts <= 1 ==> m.sent == m.received)
    && (m.idles == 0 ==> (m.sent == m.received <==> m.shorts <= 1))
  }

  /** A message loses bytes only if two of its sends come out short; if every send takes at
      least one byte, exactly then. */
  lemma BytesLostMeansTwoShortSends(entries: nat, steps: seq<Step>)
    ensures var s := Run(Start(entries), steps);
            && (forall t, m :: t in s.conns && m in s.conns[t].done ==> ShortsTell(m))
            && (forall c, m :: c in s.closed && m in c.done ==> ShortsTell(m))
  {
    StartHolds(entries);
    RunKeepsInv(Start(entries), steps);
    MessagesTell(Run(Start(entries), steps));
  }

  lemma MessagesTell(s: State)
    requires ConnsOk(s)
    ensures forall t, m :: t in s.conns && m in s.conns[t].done ==> ShortsTell(m)
    ensures forall c, m :: c in s.closed && m in c.done ==> ShortsTell(m)
  {
    forall t, m | t in s.conns && m in s.conns[t].done
      ensures ShortsTell(m)
    {
      assert ConnOk(s.tokens[t], s.conns[t], s.bufs, ResultOf(s.cq, t));
      MessageTells(m);
    }
    forall c, m | c in s.closed && m in c.done
      ensures ShortsTell(m)
    {
      MessageTells(m);
    }
  }

  lemma MessageTells(m: Message)
    requires MessageOk(m)
    ensures ShortsTell(m)
  {
    if m.clean {
      assert m.sent == m.received;
    }
  }

  /** At every moment while a connection sends a message back its cursor is inside. */
  lemma WriteCursorStaysInside(entries: nat, steps: seq<Step>, t: nat)
    ensures var s := Run(Start(entries), steps);
            t in s.conns && t in s.tokens && s.tokens[t].Write? ==>
              CursorInside(s.tokens[t], s.conns[t], s.bufs, ResultOf(s.cq, t))
  {
    StartHolds(entries);
    RunKeepsInv(Start(entries), steps);
    var s := Run(Start(entries), steps);
    hide Run, ResultOf, Linked, Owned, ConnOk, CursorInside;
    if t in s.conns && t in s.tokens && s.tokens[t].Write? {
      WriteCursor(s.tokens[t], s.conns[t], s.bufs, ResultOf(s.cq, t));
    }
  }
}
