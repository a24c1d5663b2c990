/** Which operation follows which, and on which descriptor. The operations tell it by
    themselves: what the server keeps in its slab plays no part in these statements. */
module EchoDescriptors {
  import opened Words
  import opened Wrappers
  import opened EchoServer
  import opened EchoOutstanding
  import opened EchoStreams
  import opened EchoSafety
  import opened EchoConservation

  // ---------------------------------------------------------------- what follows

  /** The operation that the completion `c` calls for: a new connection is polled, a ready one
      is read, what was read is sent back to where it came from, the rest of a short send is
      sent (the program takes the absolute position off the remaining length), and a finished
      message makes room for the next poll. */
  predicate CallsFor(c: Cqe, freshKey: nat, next: Op)
    requires c.ret >= 0
  {
    match c.op
    case AcceptOp(_) => next == PollOp(c.ret, freshKey)
    case PollOp(fd, t) => next.RecvOp? && next.fd == fd && next.token == t
    case RecvOp(fd, buf, t) => c.ret > 0 && next == SendOp(fd, buf, 0, c.ret, t)
    case SendOp(fd, buf, from, len, t) =>
      var sent := from + c.ret;
      if sent >= len then next == PollOp(fd, t) else next == SendOp(fd, buf, sent, len - sent, t)
  }

  /** The peer has closed: nothing follows. */
  predicate Ends(c: Cqe) {
    c.op.RecvOp? && c.ret == 0
  }

  lemma PollToken(s: State, t: nat, fd: int)
    requires s.pool != [] ==> s.pool[|s.pool| - 1] < |s.bufs|
    ensures exists buf: nat :: HandlePoll(s, t, fd).tokens == s.tokens[t := Read(fd, buf)]
  {
    hide Issue;
    if s.pool != [] {
      var s1, b := s.(pool := s.pool[..|s.pool| - 1]), s.pool[|s.pool| - 1];
      IssueFields(s1, t, Read(fd, b));
      assert HandlePoll(s, t, fd).tokens == s.tokens[t := Read(fd, b)];
    } else {
      var s1 := s.(bufs := s.bufs + [seq(BUF_LEN, _ => 0)]);
      IssueFields(s1, t, Read(fd, |s.bufs|));
      assert HandlePoll(s, t, fd).tokens == s.tokens[t := Read(fd, |s.bufs|)];
    }
  }

  lemma ReadToken(s: State, t: nat, fd: int, buf: nat, ret: nat)
    requires buf < |s.bufs|
    ensures HandleRead(s, t, fd, buf, ret).tokens == if ret == 0 then s.tokens - {t}
            else s.tokens[t := Write(fd, buf, 0, ret)]
  {
    hide Issue;
    IssueFields(s, t, Write(fd, buf, 0, ret));
  }

  lemma WriteToken(s: State, t: nat, tok: Token, written: nat)
    requires tok.Write?
    requires tok.offset + written < tok.len ==> tok.buf < |s.bufs| && tok.offset + written <= |s.bufs[tok.buf]|
    ensures var sent := tok.offset + written;
            HandleWrite(s, t, tok, written).tokens ==
            s.tokens[t := if sent >= tok.len then Poll(tok.fd) else Write(tok.fd, tok.buf, sent, tok.len - sent)]
  {
    hide Issue, Finish;
    if tok.offset + written >= tok.len {
      var conns := if t in s.conns then s.conns[t := Finish(s.conns[t])] else s.conns;
      IssueFields(s.(pool := s.pool + [tok.buf], conns := conns), t, Poll(tok.fd));
    } else {
      IssueFields(s, t, Write(tok.fd, tok.buf, tok.offset + written, NextLen(tok.offset, tok.len, written)));
    }
  }

  lemma AcceptToken(s: State, fd: int, freshKey: nat)
    ensures HandleAccept(s, fd, freshKey).tokens == s.tokens[freshKey := Poll(fd)]
  {
    hide Issue;
    IssueFields(s.(acceptCount := s.acceptCount + 1, conns := s.conns[freshKey := Conn([], None)]), freshKey, Poll(fd));
  }

  /** The token that handling a completion leaves belongs to the operation it calls for. */
  lemma TokenCallsFor(s: State, freshKey: nat)
    requires Inv(s) && s.visible > 0 && s.cq != [] && s.cq[0].ret >= 0 && freshKey !in s.tokens
    ensures var c, s' := s.cq[0], Handle(Taken(s), s.cq[0], freshKey);
            var t := Target(c, freshKey);
            if Ends(c) then s'.tokens == s.tokens - {t}
            else
              && t in s'.tokens && s'.tokens == s.tokens[t := s'.tokens[t]]
              && CallsFor(c, freshKey, OpFor(t, s'.tokens[t]))
  {
    InvMeansRunning(s);
    HandlingStaysInBounds(s);
    TakenResults(s);
    TakenFields(s);
    hide Inv, HandleAccept, HandlePoll, HandleRead, HandleWrite, AllOps, ResultOf, Taken;
    HandledToken(Taken(s), s.cq[0], freshKey);
  }

  lemma TakenFields(s: State)
    requires s.visible > 0 && s.cq != []
    ensures Taken(s).tokens == s.tokens && Taken(s).pool == s.pool && Taken(s).bufs == s.bufs
  {
  }

  lemma HandledToken(s: State, c: Cqe, freshKey: nat)
    requires c.ret >= 0 && c.op.token in s.tokens && c.op == OpFor(c.op.token, s.tokens[c.op.token])
    requires match s.tokens[c.op.token]
             case Poll(_) => s.pool != [] ==> s.pool[|s.pool| - 1] < |s.bufs|
             case Read(_, buf) => buf < |s.bufs|
             case Write(_, buf, offset, len) =>
               offset + c.ret < len ==> buf < |s.bufs| && offset + c.ret <= |s.bufs[buf]|
             case _ => true
    ensures var s' := Handle(s, c, freshKey);
            var t := Target(c, freshKey);
            if Ends(c) then s'.tokens == s.tokens - {t}
            else
              && t in s'.tokens && s'.tokens == s.tokens[t := s'.tokens[t]]
              && CallsFor(c, freshKey, OpFor(t, s'.tokens[t]))
  {
    hide HandleAccept, HandlePoll, HandleRead, HandleWrite;
    var t := c.op.token;
    match s.tokens[t]
    case Accept => AcceptToken(s, c.ret, freshKey);
    case Poll(fd) => PollToken(s, t, fd);
    case Read(fd, buf) => ReadToken(s, t, fd, buf, c.ret);
    case Write(_, _, _, _) => WriteToken(s, t, s.tokens[t], c.ret);
  }

  /** In every run: a completion without error is followed by exactly the operation it calls
      for, or by none if the peer has closed. */
  lemma EachCompletionIsAnswered(entries: nat, steps: seq<Step>, step: Step)
    ensures var s := Run(Start(entries), steps);
            Handles(s, step) && s.cq[0].ret >= 0 ==>
              var c, next := s.cq[0], Successor(Apply(s, step).tokens, s.cq[0], step.freshKey);
              if Ends(c) then next == multiset{}
              else exists op :: next == multiset{op} && CallsFor(c, step.freshKey, op)
  {
    StartHolds(entries);
    RunKeepsInv(Start(entries), steps);
    var s := Run(Start(entries), steps);
    if Handles(s, step) && s.cq[0].ret >= 0 {
      AnswerOf(s, step);
    }
  }

  lemma AnswerOf(s: State, step: Step)
    requires Inv(s) && Handles(s, step) && s.cq[0].ret >= 0
    ensures var c, next := s.cq[0], Successor(Apply(s, step).tokens, s.cq[0], step.freshKey);
            if Ends(c) then next == multiset{}
            else exists op :: next == multiset{op} && CallsFor(c, step.freshKey, op)
  {
    TokenCallsFor(s, step.freshKey);
    ApplyHandles(s, step);
    var c, s' := s.cq[0], Apply(s, step);
    var t := Target(c, step.freshKey);
    hide Inv, Apply, Handle, Taken, CallsFor;
    if !Ends(c) {
      assert Successor(s'.tokens, c, step.freshKey) == multiset{OpFor(t, s'.tokens[t])};
    }
  }

  // ---------------------------------------------------------------- descriptors

  function OpFd(op: Op): Option<int> {
    match op
    case AcceptOp(_) => None
    case PollOp(fd, _) => Some(fd)
    case RecvOp(fd, _, _) => Some(fd)
    case SendOp(fd, _, _, _, _) => Some(fd)
  }

  /** The connections there are, with the descriptors their accepts returned, after a step: an
      accept adds one, a receive of nothing takes one away. */
  function Accepted(fds: map<nat, int>, s: State, step: Step): map<nat, int> {
    if !Handles(s, step) || s.cq[0].ret < 0 then fds
    else if s.cq[0].op.AcceptOp? then fds[step.freshKey := s.cq[0].ret]
    else if Ends(s.cq[0]) then fds - {s.cq[0].op.token}
    else fds
  }

  function AllAccepted(fds: map<nat, int>, s: State, steps: seq<Step>): map<nat, int>
    decreases |steps|
  {
    if steps == [] then fds else AllAccepted(Accepted(fds, s, steps[0]), Apply(s, steps[0]), steps[1..])
  }

  /** Each connection's token leads to operations on its own descriptor. */
  ghost predicate OwnDescriptors(tokens: map<nat, Token>, fds: map<nat, int>) {
    && fds.Keys == tokens.Keys - {LISTENER}
    && forall t <- fds :: OpFd(OpFor(t, tokens[t])) == Some(fds[t])
  }

  lemma StepKeepsDescriptors(s: State, step: Step, entries: nat, fds: map<nat, int>)
    requires Inv(s) && Bounded(s, entries) && OwnDescriptors(s.tokens, fds)
    ensures OwnDescriptors(Apply(s, step).tokens, Accepted(fds, s, step))
  {
    if !Handles(s, step) {
      StepBalance(s, step, entries);
      hide Inv, Apply, Bounded, AllOps;
    } else if s.cq[0].ret < 0 {
      HandledBalance(s, step);
      hide Inv, Apply, AllOps;
    } else {
      ApplyHandles(s, step);
      TokenCallsFor(s, step.freshKey);
      TakenResults(s);
      InListener(s);
      hide Inv, Apply, AllOps, Handle, ResultOf, Taken;
      HandlingKeepsDescriptors(s.tokens, Apply(s, step).tokens, fds, s.cq[0], step.freshKey);
    }
  }

  lemma HandlingKeepsDescriptors(tokens: map<nat, Token>, tokens': map<nat, Token>, fds: map<nat, int>, c: Cqe,
                                 freshKey: nat)
    requires OwnDescriptors(tokens, fds) && LISTENER in tokens && freshKey !in tokens && c.ret >= 0
    requires c.op.token in tokens && c.op == OpFor(c.op.token, tokens[c.op.token])
    requires c.op.AcceptOp? <==> c.op.token == LISTENER
    requires var t := Target(c, freshKey);
             if Ends(c) then tokens' == tokens - {t}
             else t in tokens' && tokens' == tokens[t := tokens'[t]] && CallsFor(c, freshKey, OpFor(t, tokens'[t]))
    ensures OwnDescriptors(tokens', if c.op.AcceptOp? then fds[freshKey := c.ret]
                                    else if Ends(c) then fds - {c.op.token} else fds)
  {
    var fds' := if c.op.AcceptOp? then fds[freshKey := c.ret] else if Ends(c) then fds - {c.op.token} else fds;
    assert fds'.Keys == tokens'.Keys - {LISTENER};
  }

  lemma {:induction false} RunKeepsDescriptors(s: State, steps: seq<Step>, entries: nat, fds: map<nat, int>)
    requires Inv(s) && Bounded(s, entries) && OwnDescriptors(s.tokens, fds)
    ensures OwnDescriptors(Run(s, steps).tokens, AllAccepted(fds, s, steps))
    decreases |steps|
  {
    hide Inv, Bounded, OwnDescriptors, Apply, Accepted;
    if steps != [] {
      StepKeepsDescriptors(s, steps[0], entries, fds);
      KeepsBound(s, steps[0], entries);
      ApplyKeepsInv(s, steps[0]);
      RunKeepsDescriptors(Apply(s, steps[0]), steps[1..], entries, Accepted(fds, s, steps[0]));
    }
  }

  /** In every run there are just the connections that were accepted and have not been closed
      by their peers, and every operation on its way for one of them is on the descriptor its
      accept returned. */
  lemma OperationsUseOwnDescriptor(entries: nat, steps: seq<Step>)
    ensures var s, fds := Run(Start(entries), steps), AllAccepted(map[], Start(entries), steps);
            && fds.Keys == s.tokens.Keys - {LISTENER}
            && (forall x <- AllOps(s) :: x.token != LISTENER ==> x.token in fds && OpFd(x) == Some(fds[x.token]))
  {
    StartHolds(entries);
    RunKeepsInv(Start(entries), steps);
    RunKeepsDescriptors(Start(entries), steps, entries, map[]);
    UnderWayOnOwn(Run(Start(entries), steps), AllAccepted(map[], Start(entries), steps));
  }

  lemma UnderWayOnOwn(s: State, fds: map<nat, int>)
    requires Inv(s) && OwnDescriptors(s.tokens, fds)
    ensures forall x <- AllOps(s) :: x.token != LISTENER ==> x.token in fds && OpFd(x) == Some(fds[x.token])
  {
    forall x <- AllOps(s) | x.token != LISTENER
      ensures x.token in fds && OpFd(x) == Some(fds[x.token])
    {
      OpNamesLiveToken(s, x);
    }
  }
}
