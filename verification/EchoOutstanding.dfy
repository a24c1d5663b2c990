/** Where the echo server's operations are: each connection has at most one, it is the one
    its token calls for, and the accept budget is never exceeded. */
module EchoOutstanding {
  import opened Words
  import opened Wrappers
  import opened EchoServer

  function OpsOf(cq: seq<Cqe>): (ops: seq<Op>)
    ensures |ops| == |cq|
  {
    seq(|cq|, i requires 0 <= i < |cq| => cq[i].op)
  }

  /** Every operation on its way: completed but not handled, in the kernel, in the
      submission queue, or in the backlog. */
  ghost function AllOps(s: State): multiset<Op> {
    multiset(OpsOf(s.cq)) + multiset(s.inflight) + multiset(s.sq.published) + multiset(s.sq.unpublished) +
        multiset(s.backlog)
  }

  ghost predicate Outstanding(ops: multiset<Op>, tokens: map<nat, Token>, accepts: nat, failed: nat) {
    && LISTENER in tokens
    && (forall t <- tokens :: tokens[t].Accept? <==> t == LISTENER)
    && (forall x <- ops :: x.token in tokens && x == OpFor(x.token, tokens[x.token]))
    && (forall t <- tokens :: t != LISTENER ==> ops[OpFor(t, tokens[t])] <= 1)
    && accepts + ops[AcceptOp(LISTENER)] + failed == ACCEPTS
  }

  // ---------------------------------------------------------------- changes of the slab

  lemma Retire(ops: multiset<Op>, tokens: map<nat, Token>, accepts: nat, failed: nat, x: Op)
    requires Outstanding(ops, tokens, accepts, failed) && x in ops && x.token != LISTENER
    ensures Outstanding(ops - multiset{x}, tokens, accepts, failed)
    ensures forall y <- ops - multiset{x} :: y.token != x.token
  {
    assert forall y <- ops - multiset{x} :: y in ops;
    forall t <- tokens | t != LISTENER
      ensures (ops - multiset{x})[OpFor(t, tokens[t])] <= 1
    {
    }
    assert x == OpFor(x.token, tokens[x.token]) && x != AcceptOp(LISTENER);
  }

  /** A connection without operation gets a token, new or changed, and its operation. */
  lemma IssueKeeps(ops: multiset<Op>, tokens: map<nat, Token>, accepts: nat, failed: nat, t: nat, tok: Token)
    requires Outstanding(ops, tokens, accepts, failed)
    requires t != LISTENER && !tok.Accept? && forall y <- ops :: y.token != t
    ensures Outstanding(ops + multiset{OpFor(t, tok)}, tokens[t := tok], accepts, failed)
  {
    var tokens', ops' := tokens[t := tok], ops + multiset{OpFor(t, tok)};
    forall x <- ops'
      ensures x.token in tokens' && x == OpFor(x.token, tokens'[x.token])
    {
    }
    forall u <- tokens' | u != LISTENER
      ensures ops'[OpFor(u, tokens'[u])] <= 1
    {
      if u == t {
        assert ops[OpFor(t, tok)] == 0;
      }
    }
  }

  lemma Remove(ops: multiset<Op>, tokens: map<nat, Token>, accepts: nat, failed: nat, t: nat)
    requires Outstanding(ops, tokens, accepts, failed)
    requires t != LISTENER && forall y <- ops :: y.token != t
    ensures Outstanding(ops, tokens - {t}, accepts, failed)
  {
  }

  lemma AcceptIssued(ops: multiset<Op>, tokens: map<nat, Token>, accepts: nat, failed: nat)
    requires Outstanding(ops, tokens, accepts, failed) && accepts > 0
    ensures Outstanding(ops + multiset{AcceptOp(LISTENER)}, tokens, accepts - 1, failed)
  {
    assert OpFor(LISTENER, tokens[LISTENER]) == AcceptOp(LISTENER);
  }

  lemma AcceptRetired(ops: multiset<Op>, tokens: map<nat, Token>, accepts: nat, failed: nat, accepts': nat,
                      failed': nat)
    requires Outstanding(ops, tokens, accepts, failed) && AcceptOp(LISTENER) in ops
    requires accepts' + failed' == accepts + failed + 1
    ensures Outstanding(ops - multiset{AcceptOp(LISTENER)}, tokens, accepts', failed')
  {
    var ops' := ops - multiset{AcceptOp(LISTENER)};
    assert forall y <- ops' :: y in ops;
    forall t <- tokens | t != LISTENER
      ensures ops'[OpFor(t, tokens[t])] <= 1
    {
      assert !tokens[t].Accept?;
    }
  }

  // ---------------------------------------------------------------- moving operations

  lemma PushAddsOp(s: State, op: Op)
    ensures AllOps(PushOrBacklog(s, op)) == AllOps(s) + multiset{op}
  {
  }

  lemma SubmitKeepsOps(s: State, count: nat)
    ensures AllOps(Submit(s, count)) == AllOps(s)
  {
    var n := s.sq.Consumed(count);
    assert s.sq.published == s.sq.published[..n] + s.sq.published[n..];
  }

  lemma SyncKeepsOps(s: State)
    ensures AllOps(s.(sq := s.sq.Sync())) == AllOps(s)
  {
  }

  lemma MoveFromBacklog(s: State)
    requires s.backlog != []
    ensures var s' := s.(backlog := s.backlog[1..], sq := s.sq.Push(s.backlog[0]));
            AllOps(s') == if s.sq.IsFull() then AllOps(s) - multiset{s.backlog[0]} else AllOps(s)
  {
    var s' := s.(backlog := s.backlog[1..], sq := s.sq.Push(s.backlog[0]));
    var others := multiset(OpsOf(s.cq)) + multiset(s.inflight) + multiset(s.sq.published);
    TakeFirst(s.backlog);
    assert AllOps(s) == others + multiset(s.sq.unpublished) + multiset(s.backlog);
    assert AllOps(s') == others + multiset(s'.sq.unpublished) + multiset(s'.backlog);
    hide OpsOf, AllOps;
  }

  lemma TakeFirst(ops: seq<Op>)
    requires ops != []
    ensures multiset(ops) == multiset{ops[0]} + multiset(ops[1..])
  {
    assert ops == [ops[0]] + ops[1..];
  }

  /** The pop of the backlog loop moves the oldest entry into the queue, unless the queue is
      still full after `sync`: then, and only then, the entry is dropped. */
  lemma PopBacklogOps(s: State)
    ensures var s' := PopBacklog(s);
            if s.backlog == [] || !s.sq.Sync().IsFull()
            then AllOps(s') == AllOps(s) && s'.lost == s.lost
            else AllOps(s') == AllOps(s) - multiset{s.backlog[0]} && s'.lost == s.lost + [s.backlog[0]]
  {
    SyncKeepsOps(s);
    var s1 := s.(sq := s.sq.Sync());
    if s.backlog != [] {
      MoveFromBacklog(s1);
      OpsOfSameQueues(s1.(backlog := s.backlog[1..], sq := s1.sq.Push(s.backlog[0])), PopBacklog(s));
    }
  }

  lemma OpsOfSameQueues(s: State, s': State)
    requires s.cq == s'.cq && s.inflight == s'.inflight && s.sq == s'.sq && s.backlog == s'.backlog
    ensures AllOps(s) == AllOps(s')
  {
  }

  lemma CompleteKeepsOps(s: State, index: nat, ret: int)
    requires index < |s.inflight|
    ensures AllOps(s.(inflight := s.inflight[..index] + s.inflight[index + 1..],
                      cq := s.cq + [Cqe(s.inflight[index], ret)])) == AllOps(s)
  {
    var op := s.inflight[index];
    assert OpsOf(s.cq + [Cqe(op, ret)]) == OpsOf(s.cq) + [op];
    assert s.inflight == s.inflight[..index] + [op] + s.inflight[index + 1..];
  }

  lemma TakeCqe(s: State)
    requires s.cq != []
    ensures s.cq[0].op in AllOps(s)
    ensures AllOps(s.(cq := s.cq[1..])) == AllOps(s) - multiset{s.cq[0].op}
  {
    assert OpsOf(s.cq) == [s.cq[0].op] + OpsOf(s.cq[1..]);
  }

  // ---------------------------------------------------------------- the invariant

  ghost predicate Linked(s: State) {
    && Outstanding(AllOps(s), s.tokens, s.acceptCount, s.failedAccepts)
    && (forall op <- s.backlog :: op.token != LISTENER)
    && s.visible <= |s.cq|
  }

  /** Connection `t` has no operation anywhere. */
  ghost predicate Idle(s: State, t: nat) {
    t != LISTENER && forall y <- AllOps(s) :: y.token != t
  }

  /** Buffers, pool, program counter and records play no part. */
  lemma OtherFieldsDoNotMatter(s: State, s': State, t: nat)
    requires Linked(s) && s' == s.(pc := s'.pc, bufs := s'.bufs, pool := s'.pool, conns := s'.conns,
                                   closed := s'.closed, lost := s'.lost)
    ensures AllOps(s') == AllOps(s) && Linked(s') && (Idle(s, t) ==> Idle(s', t))
  {
  }

  lemma FreshKeyIsIdle(s: State, key: nat)
    requires Linked(s) && key !in s.tokens
    ensures Idle(s, key)
  {
  }

  lemma OneAcceptKeepsLinked(s: State)
    requires Linked(s) && s.acceptCount > 0 && !s.sq.IsFull()
    ensures Linked(s.(acceptCount := s.acceptCount - 1, sq := s.sq.Push(AcceptOp(LISTENER))))
  {
    AcceptIssued(AllOps(s), s.tokens, s.acceptCount, s.failedAccepts);
    AcceptAddsOp(s);
    hide AllOps, Outstanding;
  }

  lemma AcceptAddsOp(s: State)
    requires s.acceptCount > 0 && !s.sq.IsFull()
    ensures AllOps(s.(acceptCount := s.acceptCount - 1, sq := s.sq.Push(AcceptOp(LISTENER)))) ==
            AllOps(s) + multiset{AcceptOp(LISTENER)}
  {
  }

  lemma {:induction false} PushToKeepsLinked(s: State)
    requires Linked(s)
    ensures Linked(PushTo(s))
    decreases s.acceptCount
  {
    if s.acceptCount > 0 && !s.sq.IsFull() {
      OneAcceptKeepsLinked(s);
      hide Linked;
      PushToKeepsLinked(s.(acceptCount := s.acceptCount - 1, sq := s.sq.Push(AcceptOp(LISTENER))));
    } else {
      SyncKeepsOps(s);
      hide AllOps, Outstanding;
    }
  }

  lemma IssueKeepsLinked(s: State, t: nat, tok: Token)
    requires Linked(s) && Idle(s, t) && !tok.Accept?
    ensures Linked(Issue(s, t, tok))
  {
    hide Outstanding, AllOps;
    IssueKeeps(AllOps(s), s.tokens, s.acceptCount, s.failedAccepts, t, tok);
    IssueAddsOp(s, t, tok);
  }

  /** Issuing adds the operation of the token, in the queue or in the backlog, and nothing
      else. */
  lemma IssueAddsOp(s: State, t: nat, tok: Token)
    ensures var s' := Issue(s, t, tok);
            && AllOps(s') == AllOps(s) + multiset{OpFor(t, tok)}
            && s' == s.(tokens := s.tokens[t := tok], sq := s'.sq, backlog := s'.backlog)
            && (s'.backlog == s.backlog || s'.backlog == s.backlog + [OpFor(t, tok)])
  {
    hide AllOps;
    var s1 := s.(tokens := s.tokens[t := tok]);
    PushAddsOp(s1, OpFor(t, tok));
    OpsOfSameQueues(s, s1);
  }

  lemma HandleAcceptKeepsLinked(s: State, fd: int, freshKey: nat)
    requires Linked(s.(acceptCount := s.acceptCount + 1)) && freshKey !in s.tokens
    ensures Linked(HandleAccept(s, fd, freshKey))
  {
    hide Linked, Idle;
    var s1 := s.(acceptCount := s.acceptCount + 1);
    var s2 := s1.(conns := s.conns[freshKey := Conn([], None)]);
    FreshKeyIsIdle(s1, freshKey);
    OtherFieldsDoNotMatter(s1, s2, freshKey);
    IssueKeepsLinked(s2, freshKey, Poll(fd));
    assert HandleAccept(s, fd, freshKey) == Issue(s2, freshKey, Poll(fd));
  }

  lemma HandlePollKeepsLinked(s: State, t: nat, fd: int)
    requires Linked(s) && Idle(s, t)
    ensures Linked(HandlePoll(s, t, fd))
  {
    hide Linked, Idle;
    if s.pool != [] && s.pool[|s.pool| - 1] >= |s.bufs| {
      OtherFieldsDoNotMatter(s, s.(pc := Crashed), t);
    } else if s.pool != [] {
      var s1 := s.(pool := s.pool[..|s.pool| - 1]);
      OtherFieldsDoNotMatter(s, s1, t);
      IssueKeepsLinked(s1, t, Read(fd, s.pool[|s.pool| - 1]));
    } else {
      var s1 := s.(bufs := s.bufs + [seq(BUF_LEN, _ => 0)]);
      OtherFieldsDoNotMatter(s, s1, t);
      IssueKeepsLinked(s1, t, Read(fd, |s.bufs|));
    }
  }

  lemma HandleReadKeepsLinked(s: State, t: nat, fd: int, buf: nat, ret: nat)
    requires Linked(s) && Idle(s, t)
    ensures Linked(HandleRead(s, t, fd, buf, ret))
  {
    if ret == 0 {
      Remove(AllOps(s), s.tokens, s.acceptCount, s.failedAccepts, t);
      assert AllOps(HandleRead(s, t, fd, buf, ret)) == AllOps(s);
    } else if buf < |s.bufs| {
      IssueKeepsLinked(s, t, Write(fd, buf, 0, ret));
    } else {
      OtherFieldsDoNotMatter(s, s.(pc := Crashed), t);
    }
  }

  lemma HandleWriteKeepsLinked(s: State, t: nat, tok: Token, written: nat)
    requires Linked(s) && Idle(s, t) && tok.Write?
    ensures Linked(HandleWrite(s, t, tok, written))
  {
    hide Linked, Idle, AllOps, Issue, NextLen, Finish;
    if tok.offset + written >= tok.len {
      var conns := if t in s.conns then s.conns[t := Finish(s.conns[t])] else s.conns;
      var s1 := s.(pool := s.pool + [tok.buf], conns := conns);
      OtherFieldsDoNotMatter(s, s1, t);
      IssueKeepsLinked(s1, t, Poll(tok.fd));
    } else if tok.buf >= |s.bufs| || tok.offset + written > |s.bufs[tok.buf]| {
      OtherFieldsDoNotMatter(s, s.(pc := Crashed), t);
    } else {
      IssueKeepsLinked(s, t, Write(tok.fd, tok.buf, tok.offset + written, NextLen(tok.offset, tok.len, written)));
    }
  }

  function Taken(s: State): State
    requires s.cq != [] && s.visible > 0
  {
    s.(cq := s.cq[1..], visible := s.visible - 1)
  }

  /** Taking the completion of a connection's operation leaves the connection without one. */
  lemma ConnectionTaken(s: State)
    requires Linked(s) && s.visible > 0 && s.cq != [] && s.cq[0].op.token != LISTENER
    ensures Linked(Taken(s)) && Idle(Taken(s), s.cq[0].op.token)
  {
    hide Outstanding;
    TakeCqe(s);
    assert AllOps(Taken(s)) == AllOps(s) - multiset{s.cq[0].op};
    Retire(AllOps(s), s.tokens, s.acceptCount, s.failedAccepts, s.cq[0].op);
  }

  /** Taking the completion of an accept leaves room in the budget for another, or for the
      failure. */
  lemma AcceptTaken(s: State, s': State)
    requires Linked(s) && s.visible > 0 && s.cq != [] && s.cq[0].op == AcceptOp(LISTENER)
    requires s' == Taken(s).(acceptCount := s'.acceptCount, failedAccepts := s'.failedAccepts)
    requires s'.acceptCount + s'.failedAccepts == s.acceptCount + s.failedAccepts + 1
    ensures Linked(s')
  {
    hide Outstanding;
    TakeCqe(s);
    AcceptRetired(AllOps(s), s.tokens, s.acceptCount, s.failedAccepts, s'.acceptCount, s'.failedAccepts);
    OpsOfSameQueues(s.(cq := s.cq[1..]), s');
  }

  /** An operation anywhere names a live token and is the one that token calls for. */
  lemma OpNamesLiveToken(s: State, x: Op)
    requires Linked(s) && x in AllOps(s)
    ensures x.token in s.tokens && x == OpFor(x.token, s.tokens[x.token])
    ensures x.AcceptOp? <==> x.token == LISTENER
    ensures s.tokens[x.token].Accept? <==> x.token == LISTENER
  {
  }

  lemma HandleKeepsLinked(s: State, freshKey: nat)
    requires Linked(s) && s.visible > 0 && s.cq != [] && freshKey !in s.tokens
    ensures Linked(Handle(Taken(s), s.cq[0], freshKey))
  {
    hide Linked, Idle, AllOps, HandleAccept, HandlePoll, HandleRead, HandleWrite;
    TakeCqe(s);
    OpNamesLiveToken(s, s.cq[0].op);
    var c, t, s' := s.cq[0], s.cq[0].op.token, Taken(s);
    if t == LISTENER {
      if c.ret >= 0 {
        AcceptTaken(s, s'.(acceptCount := s.acceptCount + 1));
        HandleAcceptKeepsLinked(s', c.ret, freshKey);
      } else {
        AcceptTaken(s, s'.(failedAccepts := s.failedAccepts + 1));
      }
    } else {
      ConnectionTaken(s);
      if c.ret >= 0 {
        match s.tokens[t]
        case Poll(fd) => HandlePollKeepsLinked(s', t, fd);
        case Read(fd, buf) => HandleReadKeepsLinked(s', t, fd, buf, c.ret);
        case Write(_, _, _, _) => HandleWriteKeepsLinked(s', t, s.tokens[t], c.ret);
      } else {
        assert Handle(s', c, freshKey) == s';
      }
    }
  }

  lemma PopBacklogKeepsLinked(s: State)
    requires Linked(s)
    ensures Linked(PopBacklog(s))
  {
    PopBacklogOps(s);
    if s.backlog != [] {
      assert s.backlog[0] in AllOps(s);
      Retire(AllOps(s), s.tokens, s.acceptCount, s.failedAccepts, s.backlog[0]);
    }
  }

  lemma SubmitKeepsLinked(s: State, count: nat, pc: Pc)
    requires Linked(s)
    ensures Linked(Submit(s, count)) && Linked(Submit(s, count).(pc := pc))
  {
    SubmitKeepsOps(s, count);
    assert AllOps(Submit(s, count).(pc := pc)) == AllOps(s);
  }

  function MoveToCq(s: State, index: nat, ret: int): State
    requires index < |s.inflight|
  {
    s.(inflight := s.inflight[..index] + s.inflight[index + 1..], cq := s.cq + [Cqe(s.inflight[index], ret)])
  }

  lemma MoveKeepsLinked(s: State, index: nat, ret: int)
    requires Linked(s) && index < |s.inflight|
    ensures Linked(MoveToCq(s, index, ret))
  {
    hide Outstanding;
    CompleteKeepsOps(s, index, ret);
  }

  lemma CompleteKeepsLinked(s: State, index: nat, ret: int, data: seq<byte>)
    requires Linked(s) && index < |s.inflight|
    ensures Linked(Apply(s, Complete(index, ret, data)))
  {
    hide Linked, Effect, Possible;
    MoveKeepsLinked(s, index, ret);
    var op := s.inflight[index];
    if s.pc != Crashed && Possible(op, ret, data) {
      EffectKeepsLinked(MoveToCq(s, index, ret), op, ret, data);
    }
  }

  lemma EffectKeepsLinked(s: State, op: Op, ret: int, data: seq<byte>)
    requires Linked(s) && Possible(op, ret, data)
    ensures Linked(Effect(s, op, ret, data))
  {
    hide Linked;
    OtherFieldsDoNotMatter(s, Effect(s, op, ret, data), LISTENER);
  }

  lemma PcKeepsLinked(s: State, s': State)
    requires Linked(s) && s' == s.(pc := s'.pc, visible := s'.visible)
             && (s'.visible == s.visible || s'.visible <= |s.cq|)
    ensures Linked(s')
  {
    assert AllOps(s') == AllOps(s);
  }

  lemma ApplyKeepsLinked(s: State, step: Step)
    requires Linked(s)
    ensures Linked(Apply(s, step))
  {
    hide Linked, AllOps, PushTo, Handle, PopBacklog, Effect;
    match step
    case SubmitAndWait(taken) => SubmitKeepsLinked(s, taken, CqSync);
    case DrainOne(taken) =>
      SubmitKeepsLinked(s, taken, s.pc);
      PopBacklogKeepsLinked(if s.sq.IsFull() then Submit(s, taken) else s);
    case PushAccepts =>
      PushToKeepsLinked(s);
      PcKeepsLinked(PushTo(s), PushTo(s).(pc := Handling));
    case HandleOne(freshKey) =>
      if s.pc == Handling && s.visible > 0 && s.cq != [] && freshKey !in s.tokens {
        HandleKeepsLinked(s, freshKey);
      } else {
        PcKeepsLinked(s, Apply(s, step));
      }
    case Complete(index, ret, data) =>
      if index < |s.inflight| {
        CompleteKeepsLinked(s, index, ret, data);
      }
    case _ => PcKeepsLinked(s, Apply(s, step));
  }
}
