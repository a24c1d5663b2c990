/** No operation of the echo server appears from nowhere or vanishes, but for the one that the
    backlog loop drops: every step of program and kernel, as a balance of the operations on
    their way. */
module EchoConservation {
  import opened Words
  import opened Wrappers
  import opened EchoServer
  import opened EchoOutstanding
  import opened EchoStreams
  import opened EchoSafety

  ghost predicate Bounded(s: State, entries: nat) {
    s.sq.entries == entries && s.sq.stale + |s.sq.published| + |s.sq.unpublished| <= entries
  }

  /** The loop takes an entry from the backlog with the queue full and nothing in it that the
      kernel has taken, before the submit or by it. */
  predicate Drops(s: State, step: Step) {
    && step.DrainOne? && s.pc == Drain && s.backlog != []
    && s.sq.IsFull() && s.sq.stale + s.sq.Consumed(step.taken) == 0
  }

  /** The program handles the oldest completion. */
  predicate Handles(s: State, step: Step) {
    step.HandleOne? && s.pc == Handling && s.visible > 0 && s.cq != [] && step.freshKey !in s.tokens
  }

  /** The token that handling `c` is about: the operation's own, or the new one of an accept. */
  function Target(c: Cqe, freshKey: nat): nat {
    if c.op.AcceptOp? then freshKey else c.op.token
  }

  /** The operation that handling `c` brings in, given the tokens after it: the next one of
      its connection, the first one of a new connection, or none after an error or the end of
      a connection. */
  ghost function Successor(tokens: map<nat, Token>, c: Cqe, freshKey: nat): multiset<Op> {
    var t := Target(c, freshKey);
    if c.ret >= 0 && t in tokens then multiset{OpFor(t, tokens[t])} else multiset{}
  }

  /** Handling `c` touches the one token it is about, and none after an error. */
  predicate Moves(tokens: map<nat, Token>, tokens': map<nat, Token>, c: Cqe, freshKey: nat) {
    var t := Target(c, freshKey);
    if c.ret < 0 then tokens' == tokens
    else if t in tokens' then tokens' == tokens[t := tokens'[t]]
    else tokens' == tokens - {t}
  }

  /** What a step takes away. */
  ghost function Leaving(s: State, step: Step): multiset<Op> {
    if Drops(s, step) then multiset{s.backlog[0]}
    else if Handles(s, step) then multiset{s.cq[0].op}
    else multiset{}
  }

  function Accepts(count: nat): multiset<Op> {
    multiset{}[AcceptOp(LISTENER) := count]
  }

  /** What a step brings in. */
  ghost function Coming(s: State, step: Step): multiset<Op> {
    if Handles(s, step) then Successor(Apply(s, step).tokens, s.cq[0], step.freshKey)
    else if step.PushAccepts? && s.pc == Accepting then Accepts(Min(s.acceptCount, Room(s.sq)))
    else multiset{}
  }

  function Room<E>(q: Queue<E>): nat {
    var used := q.stale + |q.published| + |q.unpublished|;
    if used <= q.entries then q.entries - used else 0
  }

  // ---------------------------------------------------------------- one step

  /** `s'` is `s` with token `t` set and its operation issued, or without `t`. */
  ghost predicate Brings(s: State, s': State, t: nat) {
    if t in s'.tokens
    then s'.tokens == s.tokens[t := s'.tokens[t]] && AllOps(s') == AllOps(s) + multiset{OpFor(t, s'.tokens[t])}
    else s'.tokens == s.tokens - {t} && AllOps(s') == AllOps(s)
  }

  lemma PollIssues(s: State, t: nat, fd: int)
    requires s.pool != [] ==> s.pool[|s.pool| - 1] < |s.bufs|
    ensures Brings(s, HandlePoll(s, t, fd), t)
  {
    hide Issue, AllOps;
    if s.pool != [] {
      var s1 := s.(pool := s.pool[..|s.pool| - 1]);
      OpsOfSameQueues(s, s1);
      IssueAddsOp(s1, t, Read(fd, s.pool[|s.pool| - 1]));
    } else {
      var s1 := s.(bufs := s.bufs + [seq(BUF_LEN, _ => 0)]);
      OpsOfSameQueues(s, s1);
      IssueAddsOp(s1, t, Read(fd, |s.bufs|));
    }
  }

  lemma ReadIssues(s: State, t: nat, fd: int, buf: nat, ret: nat)
    requires t in s.tokens && buf < |s.bufs|
    ensures Brings(s, HandleRead(s, t, fd, buf, ret), t)
  {
    hide Issue, AllOps;
    if ret == 0 {
      OpsOfSameQueues(s, HandleRead(s, t, fd, buf, ret));
    } else {
      IssueAddsOp(s, t, Write(fd, buf, 0, ret));
    }
  }

  lemma WriteIssues(s: State, t: nat, tok: Token, written: nat)
    requires tok.Write?
    requires tok.offset + written < tok.len ==> tok.buf < |s.bufs| && tok.offset + written <= |s.bufs[tok.buf]|
    ensures Brings(s, HandleWrite(s, t, tok, written), t)
  {
    hide Issue, AllOps, NextLen, Finish;
    if tok.offset + written >= tok.len {
      var conns := if t in s.conns then s.conns[t := Finish(s.conns[t])] else s.conns;
      var s1 := s.(pool := s.pool + [tok.buf], conns := conns);
      OpsOfSameQueues(s, s1);
      IssueAddsOp(s1, t, Poll(tok.fd));
    } else {
      IssueAddsOp(s, t, Write(tok.fd, tok.buf, tok.offset + written, NextLen(tok.offset, tok.len, written)));
    }
  }

  lemma AcceptIssues(s: State, fd: int, freshKey: nat)
    ensures Brings(s, HandleAccept(s, fd, freshKey), freshKey)
  {
    hide Issue, AllOps;
    var s1 := s.(acceptCount := s.acceptCount + 1, conns := s.conns[freshKey := Conn([], None)]);
    OpsOfSameQueues(s, s1);
    IssueAddsOp(s1, freshKey, Poll(fd));
  }

  /** Handling a completion takes its operation away and brings in the successor, if there is
      one; nothing else comes or goes. */
  lemma HandleBalance(s: State, freshKey: nat)
    requires Inv(s) && s.visible > 0 && s.cq != [] && freshKey !in s.tokens
    ensures var c, s' := s.cq[0], Handle(Taken(s), s.cq[0], freshKey);
            AllOps(s') == AllOps(s) - multiset{c.op} + Successor(s'.tokens, c, freshKey)
    ensures Moves(s.tokens, Handle(Taken(s), s.cq[0], freshKey).tokens, s.cq[0], freshKey)
  {
    TakenOps(s);
    if s.cq[0].ret < 0 {
      ErrorIssues(s, freshKey);
    } else {
      SuccessIssues(s, freshKey);
    }
    hide AllOps, Handle, Taken, OpFor;
  }

  lemma TakenOps(s: State)
    requires s.visible > 0 && s.cq != []
    ensures AllOps(Taken(s)) == AllOps(s) - multiset{s.cq[0].op} && Taken(s).tokens == s.tokens
  {
    hide AllOps;
    TakeCqe(s);
    OpsOfSameQueues(s.(cq := s.cq[1..]), Taken(s));
  }

  lemma ErrorIssues(s: State, freshKey: nat)
    requires s.visible > 0 && s.cq != [] && s.cq[0].ret < 0
    ensures var s' := Handle(Taken(s), s.cq[0], freshKey);
            s'.tokens == s.tokens && AllOps(s') == AllOps(Taken(s))
  {
    hide AllOps;
    OpsOfSameQueues(Taken(s), Handle(Taken(s), s.cq[0], freshKey));
  }

  lemma SuccessIssues(s: State, freshKey: nat)
    requires Inv(s) && s.visible > 0 && s.cq != [] && s.cq[0].ret >= 0
    ensures Brings(Taken(s), Handle(Taken(s), s.cq[0], freshKey), Target(s.cq[0], freshKey))
  {
    InvMeansRunning(s);
    HandlingStaysInBounds(s);
    TakenResults(s);
    hide Inv, HandleAccept, HandlePoll, HandleRead, HandleWrite, Brings;
    var c, s1 := s.cq[0], Taken(s);
    var t := c.op.token;
    match s.tokens[t]
    case Accept => AcceptIssues(s1, c.ret, freshKey);
    case Poll(fd) => PollIssues(s1, t, fd);
    case Read(fd, buf) => ReadIssues(s1, t, fd, buf, c.ret);
    case Write(_, _, _, _) => WriteIssues(s1, t, s.tokens[t], c.ret);
  }

  lemma PushOneAccept(s: State)
    requires s.acceptCount > 0 && !s.sq.IsFull()
    ensures var s' := s.(acceptCount := s.acceptCount - 1, sq := s.sq.Push(AcceptOp(LISTENER)));
            PushTo(s) == PushTo(s') && AllOps(s') == AllOps(s) + Accepts(1)
  {
  }

  lemma AcceptsSum(ops: multiset<Op>, a: nat, b: nat)
    ensures ops + Accepts(a) + Accepts(b) == ops + Accepts(a + b) && ops + Accepts(0) == ops
  {
  }

  lemma {:induction false} PushToFacts(s: State, entries: nat)
    requires Bounded(s, entries)
    ensures var s' := PushTo(s);
            Bounded(s', entries) && s'.lost == s.lost && s'.tokens == s.tokens
    decreases s.acceptCount
  {
    if s.acceptCount > 0 && !s.sq.IsFull() {
      PushToFacts(s.(acceptCount := s.acceptCount - 1, sq := s.sq.Push(AcceptOp(LISTENER))), entries);
    }
  }

  /** As many accepts as budget and room allow. */
  lemma {:induction false} PushToOps(s: State, entries: nat)
    requires Bounded(s, entries)
    ensures var n := Min(s.acceptCount, Room(s.sq));
            AllOps(PushTo(s)) == AllOps(s) + Accepts(n) && PushTo(s).acceptCount == s.acceptCount - n
    decreases s.acceptCount
  {
    AcceptsSum(AllOps(s), 1, Min(s.acceptCount, Room(s.sq)) - if s.acceptCount > 0 && !s.sq.IsFull() then 1 else 0);
    if s.acceptCount > 0 && !s.sq.IsFull() {
      PushOneAccept(s);
      hide AllOps, Accepts, PushTo;
      PushToOps(s.(acceptCount := s.acceptCount - 1, sq := s.sq.Push(AcceptOp(LISTENER))), entries);
    } else {
      SyncKeepsOps(s);
      hide AllOps, Accepts;
    }
  }

  /** The balance from its three cases. */
  lemma Balance(before: multiset<Op>, after: multiset<Op>, leaving: multiset<Op>, coming: multiset<Op>)
    requires coming == multiset{} ==> after == if leaving == multiset{} then before else before - leaving
    requires leaving == multiset{} ==> after == before + coming
    requires leaving == multiset{} || coming == multiset{}
    ensures after == before - leaving + coming
  {
  }

  lemma DrainOps(s: State, taken: nat, entries: nat)
    requires Bounded(s, entries) && s.pc == Drain
    ensures var s' := Apply(s, DrainOne(taken));
            && AllOps(s') == (if Drops(s, DrainOne(taken)) then AllOps(s) - multiset{s.backlog[0]} else AllOps(s))
            && Bounded(s', entries) && s'.tokens == s.tokens
            && s'.lost == (if Drops(s, DrainOne(taken)) then s.lost + [s.backlog[0]] else s.lost)
  {
    hide AllOps;
    var s1 := if s.sq.IsFull() then Submit(s, taken) else s;
    SubmitKeepsOps(s, taken);
    PopBacklogOps(s1);
    assert s1.sq.Sync().IsFull() <==> s.sq.IsFull() && s.sq.stale + s.sq.Consumed(taken) == 0;
  }

  lemma DrainBalance(s: State, taken: nat, entries: nat)
    requires Bounded(s, entries)
    ensures Balanced(s, DrainOne(taken), entries)
  {
    var step := DrainOne(taken);
    if s.pc == Drain {
      DrainOps(s, taken, entries);
    }
    Balance(AllOps(s), AllOps(Apply(s, step)), Leaving(s, step), Coming(s, step));
  }

  lemma PushBounded(s: State, op: Op, entries: nat)
    requires Bounded(s, entries)
    ensures Bounded(PushOrBacklog(s, op), entries) && PushOrBacklog(s, op).lost == s.lost
  {
  }

  lemma HandleBounded(s: State, c: Cqe, freshKey: nat, entries: nat)
    requires Bounded(s, entries)
    ensures Bounded(Handle(s, c, freshKey), entries) && Handle(s, c, freshKey).lost == s.lost
  {
    hide PushOrBacklog;
    forall s: State, op | Bounded(s, entries)
      ensures Bounded(PushOrBacklog(s, op), entries) && PushOrBacklog(s, op).lost == s.lost
    {
      PushBounded(s, op, entries);
    }
  }

  /** What `s'` has of the queues and the log is the same as in `s`. */
  ghost predicate SameOps(s: State, s': State, entries: nat) {
    AllOps(s') == AllOps(s) && Bounded(s', entries) && s'.lost == s.lost && s'.tokens == s.tokens
  }

  lemma CompleteBalance(s: State, index: nat, ret: int, data: seq<byte>, entries: nat)
    requires Inv(s) && Bounded(s, entries)
    ensures SameOps(s, Apply(s, Complete(index, ret, data)), entries)
  {
    hide Inv, AllOps, Effect;
    if index < |s.inflight| && Possible(s.inflight[index], ret, data) {
      CompleteKeepsOps(s, index, ret);
      EffectFields(MoveToCq(s, index, ret), s.inflight[index], ret, data);
      OpsOfSameQueues(MoveToCq(s, index, ret), Effect(MoveToCq(s, index, ret), s.inflight[index], ret, data));
    }
  }

  lemma SubmitBalance(s: State, taken: nat, entries: nat)
    requires Bounded(s, entries)
    ensures SameOps(s, Apply(s, SubmitAndWait(taken)), entries)
  {
    hide AllOps;
    SubmitKeepsOps(s, taken);
    OpsOfSameQueues(Submit(s, taken), Submit(s, taken).(pc := CqSync));
  }

  lemma PcBalance(s: State, step: Step, entries: nat)
    requires Bounded(s, entries)
    requires step.SubmitBusy? || step.SubmitFails? || step.SyncCompletions? || step.DrainBusy?
    ensures SameOps(s, Apply(s, step), entries)
  {
    hide AllOps;
    OpsOfSameQueues(s, Apply(s, step));
  }

  lemma HandleOps(s: State, freshKey: nat, entries: nat)
    requires Inv(s) && Bounded(s, entries) && Handles(s, HandleOne(freshKey))
    ensures var s' := Apply(s, HandleOne(freshKey));
            && AllOps(s') == AllOps(s) - multiset{s.cq[0].op} + Successor(s'.tokens, s.cq[0], freshKey)
            && Bounded(s', entries) && s'.lost == s.lost
  {
    TakenBounded(s, entries);
    ApplyHandles(s, HandleOne(freshKey));
    hide *;
    HandleBalance(s, freshKey);
    HandleBounded(Taken(s), s.cq[0], freshKey, entries);
  }

  lemma ApplyHandles(s: State, step: Step)
    requires Handles(s, step)
    ensures Apply(s, step) == Handle(Taken(s), s.cq[0], step.freshKey)
  {
    hide Handle;
  }

  lemma TakenBounded(s: State, entries: nat)
    requires Bounded(s, entries) && s.visible > 0 && s.cq != []
    ensures Bounded(Taken(s), entries) && Taken(s).lost == s.lost
  {
  }

  lemma IdleOps(s: State, freshKey: nat, entries: nat)
    requires Bounded(s, entries) && !Handles(s, HandleOne(freshKey))
    ensures SameOps(s, Apply(s, HandleOne(freshKey)), entries)
  {
    hide AllOps, Handle;
    OpsOfSameQueues(s, Apply(s, HandleOne(freshKey)));
  }

  lemma HandleOneBalance(s: State, freshKey: nat, entries: nat)
    requires Inv(s) && Bounded(s, entries)
    ensures Balanced(s, HandleOne(freshKey), entries)
  {
    var step := HandleOne(freshKey);
    if Handles(s, step) {
      HandleOps(s, freshKey, entries);
      hide Inv, AllOps, Apply, Bounded;
    } else {
      IdleOps(s, freshKey, entries);
      hide Inv, AllOps, Apply, Bounded;
      Balance(AllOps(s), AllOps(Apply(s, step)), Leaving(s, step), Coming(s, step));
    }
  }

  lemma AcceptsBalance(s: State, entries: nat)
    requires Bounded(s, entries)
    ensures Balanced(s, PushAccepts, entries)
  {
    AcceptsOps(s, entries);
    hide AllOps, Apply, Bounded;
    Balance(AllOps(s), AllOps(Apply(s, PushAccepts)), Leaving(s, PushAccepts), Coming(s, PushAccepts));
  }

  lemma AcceptsOps(s: State, entries: nat)
    requires Bounded(s, entries)
    ensures var s' := Apply(s, PushAccepts);
            && AllOps(s') == AllOps(s) + Coming(s, PushAccepts)
            && Bounded(s', entries) && s'.lost == s.lost && s'.tokens == s.tokens
  {
    hide AllOps, PushTo, Accepts;
    AcceptsSum(AllOps(s), 0, 0);
    NothingLeaves(AllOps(s));
    if s.pc == Accepting {
      PushToFacts(s, entries);
      PushToOps(s, entries);
      OpsOfSameQueues(PushTo(s), PushTo(s).(pc := Handling));
    }
  }

  /** What a step does to the operations on their way, the queue's bound and the log. */
  ghost predicate Balanced(s: State, step: Step, entries: nat) {
    var s' := Apply(s, step);
    && AllOps(s') == AllOps(s) - Leaving(s, step) + Coming(s, step)
    && Bounded(s', entries)
    && s'.lost == (if Drops(s, step) then s.lost + [s.backlog[0]] else s.lost)
    && (!Handles(s, step) ==> s'.tokens == s.tokens)
  }

  lemma SameOpsBalance(s: State, step: Step, entries: nat)
    requires !step.HandleOne? && !step.PushAccepts? && !step.DrainOne? && SameOps(s, Apply(s, step), entries)
    ensures Balanced(s, step, entries)
  {
    hide AllOps, Apply, Bounded;
  }

  /** The balance of every step of program and kernel. */
  lemma StepBalance(s: State, step: Step, entries: nat)
    requires Inv(s) && Bounded(s, entries)
    ensures Balanced(s, step, entries)
  {
    hide Inv, AllOps, Apply, Bounded;
    match step
    case HandleOne(freshKey) => HandleOneBalance(s, freshKey, entries);
    case PushAccepts => AcceptsBalance(s, entries);
    case DrainOne(taken) => DrainBalance(s, taken, entries);
    case Complete(index, ret, data) =>
      CompleteBalance(s, index, ret, data, entries);
      SameOpsBalance(s, step, entries);
    case SubmitAndWait(taken) =>
      SubmitBalance(s, taken, entries);
      SameOpsBalance(s, step, entries);
    case _ =>
      PcBalance(s, step, entries);
      SameOpsBalance(s, step, entries);
  }

  // ---------------------------------------------------------------- every run

  lemma {:induction false} RunBounded(s: State, steps: seq<Step>, entries: nat)
    requires Inv(s) && Bounded(s, entries)
    ensures Bounded(Run(s, steps), entries)
    decreases |steps|
  {
    if steps != [] {
      hide Bounded, Inv;
      StepBalance(s, steps[0], entries);
      ApplyKeepsInv(s, steps[0]);
      RunBounded(Apply(s, steps[0]), steps[1..], entries);
    }
  }

  /** In any run, every step changes the operations on their way by exactly these: the handled
      one is replaced by its successor, accepts are issued as far as budget and room allow, and
      a drop takes one away. */
  lemma OperationsAreConserved(entries: nat, steps: seq<Step>, step: Step)
    ensures var s := Run(Start(entries), steps);
            AllOps(Apply(s, step)) == AllOps(s) - Leaving(s, step) + Coming(s, step)
  {
    StartHolds(entries);
    RunKeepsInv(Start(entries), steps);
    RunBounded(Start(entries), steps, entries);
    StepBalance(Run(Start(entries), steps), step, entries);
  }

  /** Some operation other than the one just handled is on its way before the step and no
      longer after it. */
  ghost predicate LosesOperation(s: State, step: Step) {
    exists op :: AllOps(Apply(s, step))[op] < AllOps(s)[op] && !(Handles(s, step) && op == s.cq[0].op)
  }

  lemma LossMeansDrop(s: State, step: Step, entries: nat)
    requires Inv(s) && Bounded(s, entries)
    ensures LosesOperation(s, step) <==> Drops(s, step)
  {
    hide Inv, AllOps, Apply, Bounded, Drops;
    if Drops(s, step) {
      DropOps(s, step, entries);
    } else {
      forall op
        ensures AllOps(Apply(s, step))[op] < AllOps(s)[op] ==> Handles(s, step) && op == s.cq[0].op
      {
        OthersStay(s, step, entries, op);
      }
    }
  }

  lemma DropOps(s: State, step: Step, entries: nat)
    requires Inv(s) && Bounded(s, entries) && Drops(s, step)
    ensures s.backlog != [] && !Handles(s, step) && s.backlog[0] in AllOps(s) && s.backlog[0].token != LISTENER
    ensures AllOps(Apply(s, step)) == AllOps(s) - multiset{s.backlog[0]} && Apply(s, step).tokens == s.tokens
  {
    StepBalance(s, step, entries);
    BacklogHasConnections(s);
    hide Inv, AllOps, Apply, Bounded;
    NothingComes(AllOps(s) - multiset{s.backlog[0]});
  }

  lemma NothingComes(ops: multiset<Op>)
    ensures ops + multiset{} == ops
  {
  }

  lemma QuietOps(s: State, step: Step, entries: nat)
    requires Inv(s) && Bounded(s, entries) && !Drops(s, step) && !Handles(s, step)
    ensures exists count: nat :: AllOps(Apply(s, step)) == AllOps(s) + Accepts(count)
    ensures Apply(s, step).tokens == s.tokens
  {
    StepBalance(s, step, entries);
    hide Inv, AllOps, Apply, Bounded;
    NothingLeaves(AllOps(s));
    var count := if step.PushAccepts? && s.pc == Accepting then Min(s.acceptCount, Room(s.sq)) else 0;
    assert Coming(s, step) == Accepts(count);
  }

  lemma NothingLeaves(ops: multiset<Op>)
    ensures ops - multiset{} == ops && multiset{} == Accepts(0)
  {
  }

  lemma OthersStay(s: State, step: Step, entries: nat, op: Op)
    requires Inv(s) && Bounded(s, entries) && !Drops(s, step)
    ensures AllOps(Apply(s, step))[op] < AllOps(s)[op] ==> Handles(s, step) && op == s.cq[0].op
  {
    StepBalance(s, step, entries);
    hide Inv, AllOps, Apply, Bounded, Coming;
    AtLeast(AllOps(s), Leaving(s, step), Coming(s, step), op);
  }

  lemma AtLeast(before: multiset<Op>, leaving: multiset<Op>, coming: multiset<Op>, op: Op)
    ensures op !in leaving ==> (before - leaving + coming)[op] >= before[op]
  {
  }

  /** In any run, a step loses an operation if and only if it takes an entry from the backlog
      while the queue is full and the kernel has taken nothing from it since the last `sync`. */
  lemma OperationLostIffQueueStaysFull(entries: nat, steps: seq<Step>, step: Step)
    ensures var s := Run(Start(entries), steps);
            && (LosesOperation(s, step) <==> Drops(s, step))
            && Apply(s, step).lost == if Drops(s, step) then s.lost + [s.backlog[0]] else s.lost
  {
    StartHolds(entries);
    RunKeepsInv(Start(entries), steps);
    RunBounded(Start(entries), steps, entries);
    LossMeansDrop(Run(Start(entries), steps), step, entries);
    StepBalance(Run(Start(entries), steps), step, entries);
  }

  // ---------------------------------------------------------------- exactly one operation

  /** The connection whose operation the step drops, or whose operation it finds failed. */
  function Orphaned(s: State, step: Step): set<nat> {
    if Drops(s, step) then {s.backlog[0].token}
    else if Handles(s, step) && s.cq[0].ret < 0 then {s.cq[0].op.token} - {LISTENER}
    else {}
  }

  function Orphans(s: State, steps: seq<Step>): set<nat>
    decreases |steps|
  {
    if steps == [] then {} else Orphaned(s, steps[0]) + Orphans(Apply(s, steps[0]), steps[1..])
  }

  ghost predicate Exact(ops: multiset<Op>, tokens: map<nat, Token>, orphans: set<nat>) {
    && LISTENER !in orphans && orphans <= tokens.Keys
    && (forall x <- ops :: x.token in tokens && x == OpFor(x.token, tokens[x.token]))
    && (forall t <- tokens :: t != LISTENER ==> ops[OpFor(t, tokens[t])] == if t in orphans then 0 else 1)
  }

  /** An operation leaves and no other takes its place. */
  lemma OrphanKeepsExact(ops: multiset<Op>, tokens: map<nat, Token>, orphans: set<nat>, x: Op)
    requires Exact(ops, tokens, orphans) && x in ops && x.token != LISTENER
    ensures Exact(ops - multiset{x}, tokens, orphans + {x.token})
  {
    assert forall y <- ops - multiset{x} :: y in ops;
  }

  lemma AcceptLeaves(ops: multiset<Op>, tokens: map<nat, Token>, orphans: set<nat>, x: Op)
    requires Exact(ops, tokens, orphans) && x in ops && x.token == LISTENER
    ensures Exact(ops - multiset{x}, tokens, orphans)
  {
    assert forall y <- ops - multiset{x} :: y in ops;
  }

  /** A token without operation gets its next one. */
  lemma NextKeepsExact(ops: multiset<Op>, tokens: map<nat, Token>, orphans: set<nat>, t: nat, tok: Token)
    requires Exact(ops, tokens, orphans) && t != LISTENER && forall y <- ops :: y.token != t
    ensures Exact(ops + multiset{OpFor(t, tok)}, tokens[t := tok], orphans - {t})
  {
    var x := OpFor(t, tok);
    var ops', tokens' := ops + multiset{x}, tokens[t := tok];
    assert x.token == t && ops[x] == 0;
    hide OpFor;
    forall y <- ops'
      ensures y.token in tokens' && y == OpFor(y.token, tokens'[y.token])
    {
      assert y in ops || y == x;
    }
    forall u <- tokens' | u != LISTENER
      ensures ops'[OpFor(u, tokens'[u])] == if u in orphans - {t} then 0 else 1
    {
      if u != t {
        OpForToken(u, tokens[u]);
      }
    }
  }

  lemma OpForToken(t: nat, tok: Token)
    ensures OpFor(t, tok).token == t
  {
  }

  lemma EndKeepsExact(ops: multiset<Op>, tokens: map<nat, Token>, orphans: set<nat>, t: nat)
    requires Exact(ops, tokens, orphans) && t != LISTENER && forall y <- ops :: y.token != t
    ensures Exact(ops, tokens - {t}, orphans - {t})
  {
  }

  lemma AcceptsKeepExact(ops: multiset<Op>, tokens: map<nat, Token>, orphans: set<nat>, count: nat)
    requires Exact(ops, tokens, orphans) && LISTENER in tokens && tokens[LISTENER].Accept?
    ensures Exact(ops + Accepts(count), tokens, orphans)
  {
    var ops' := ops + Accepts(count);
    assert forall y <- ops' :: y in ops || y == AcceptOp(LISTENER);
    assert OpFor(LISTENER, tokens[LISTENER]) == AcceptOp(LISTENER);
  }

  lemma HandlingKeepsExact(s: State, step: Step, orphans: set<nat>)
    requires Inv(s) && Handles(s, step) && Exact(AllOps(s), s.tokens, orphans)
    ensures var s' := Apply(s, step);
            Exact(AllOps(s'), s'.tokens, orphans + Orphaned(s, step))
  {
    var c, s' := s.cq[0], Apply(s, step);
    HandledOp(s);
    HandledBalance(s, step);
    hide Inv, AllOps, Handle, Apply, OpFor, Exact;
    ReplaceKeepsExact(AllOps(s), s.tokens, orphans, c, step.freshKey, s'.tokens);
  }

  lemma HandledOp(s: State)
    requires Inv(s) && s.visible > 0 && s.cq != []
    ensures s.cq[0].op in AllOps(s) && LISTENER in s.tokens
    ensures s.cq[0].op.AcceptOp? <==> s.cq[0].op.token == LISTENER
  {
    TakeCqe(s);
    TakenResults(s);
    InListener(s);
  }

  lemma HandledBalance(s: State, step: Step)
    requires Inv(s) && Handles(s, step)
    ensures var c, s' := s.cq[0], Apply(s, step);
            AllOps(s') == AllOps(s) - multiset{c.op} + Successor(s'.tokens, c, step.freshKey)
    ensures Moves(s.tokens, Apply(s, step).tokens, s.cq[0], step.freshKey)
  {
    ApplyHandles(s, step);
    hide *;
    HandleBalance(s, step.freshKey);
  }

  /** Removing the handled operation and bringing in its successor. */
  lemma ReplaceKeepsExact(ops: multiset<Op>, tokens: map<nat, Token>, orphans: set<nat>, c: Cqe, freshKey: nat,
                          tokens': map<nat, Token>)
    requires Exact(ops, tokens, orphans) && c.op in ops && LISTENER in tokens && freshKey !in tokens
    requires (c.op.AcceptOp? <==> c.op.token == LISTENER) && Moves(tokens, tokens', c, freshKey)
    ensures var failed := if c.ret < 0 then {c.op.token} - {LISTENER} else {};
            Exact(ops - multiset{c.op} + Successor(tokens', c, freshKey), tokens', orphans + failed)
  {
    var t, rest := Target(c, freshKey), ops - multiset{c.op};
    var orphans' := if c.op.AcceptOp? then orphans else orphans + {c.op.token};
    if c.op.AcceptOp? {
      AcceptLeaves(ops, tokens, orphans, c.op);
    } else {
      OrphanKeepsExact(ops, tokens, orphans, c.op);
    }
    OrphansAreIdle(rest, tokens, orphans', t);
    if c.ret < 0 {
      assert rest + multiset{} == rest;
    } else if t in tokens' {
      NextKeepsExact(rest, tokens, orphans', t, tokens'[t]);
      NotOrphan(ops, tokens, orphans, c.op);
      assert orphans' - {t} == orphans;
    } else {
      EndKeepsExact(rest, tokens, orphans', t);
      NotOrphan(ops, tokens, orphans, c.op);
      assert rest + multiset{} == rest && orphans' - {t} == orphans;
    }
  }

  lemma OrphansAreIdle(ops: multiset<Op>, tokens: map<nat, Token>, orphans: set<nat>, t: nat)
    requires Exact(ops, tokens, orphans) && (t in orphans || t !in tokens)
    ensures forall y <- ops :: y.token != t
  {
    forall y <- ops
      ensures y.token != t
    {
      assert ops[y] > 0 && y == OpFor(y.token, tokens[y.token]);
    }
  }

  lemma NotOrphan(ops: multiset<Op>, tokens: map<nat, Token>, orphans: set<nat>, x: Op)
    requires Exact(ops, tokens, orphans) && x in ops
    ensures x.token !in orphans
  {
    assert ops[x] > 0 && x == OpFor(x.token, tokens[x.token]);
  }

  lemma StepKeepsExact(s: State, step: Step, entries: nat, orphans: set<nat>)
    requires Inv(s) && Bounded(s, entries) && Exact(AllOps(s), s.tokens, orphans)
    ensures var s' := Apply(s, step);
            Exact(AllOps(s'), s'.tokens, orphans + Orphaned(s, step))
  {
    hide AllOps, Apply, Bounded, Inv, Exact, Accepts, Drops, Handles;
    if Handles(s, step) {
      HandlingKeepsExact(s, step, orphans);
    } else if Drops(s, step) {
      DropOps(s, step, entries);
      OrphanKeepsExact(AllOps(s), s.tokens, orphans, s.backlog[0]);
    } else {
      ListenerIsAccept(s);
      QuietOps(s, step, entries);
      var count: nat :| AllOps(Apply(s, step)) == AllOps(s) + Accepts(count);
      assert orphans + {} == orphans;
      AcceptsKeepExact(AllOps(s), s.tokens, orphans, count);
    }
  }

  lemma BacklogHasConnections(s: State)
    requires Inv(s) && s.backlog != []
    ensures s.backlog[0] in AllOps(s) && s.backlog[0].token != LISTENER
  {
  }

  lemma ListenerIsAccept(s: State)
    requires Inv(s)
    ensures LISTENER in s.tokens && s.tokens[LISTENER].Accept?
  {
  }

  lemma {:induction false} RunKeepsExact(s: State, steps: seq<Step>, entries: nat, orphans: set<nat>)
    requires Inv(s) && Bounded(s, entries) && Exact(AllOps(s), s.tokens, orphans)
    ensures var s' := Run(s, steps);
            Exact(AllOps(s'), s'.tokens, orphans + Orphans(s, steps))
    decreases |steps|
  {
    hide AllOps, Apply, Bounded, Inv, Exact, Orphaned;
    if steps == [] {
      assert orphans + {} == orphans;
    } else {
      var s' := Apply(s, steps[0]);
      StepKeepsExact(s, steps[0], entries, orphans);
      KeepsBound(s, steps[0], entries);
      ApplyKeepsInv(s, steps[0]);
      RunKeepsExact(s', steps[1..], entries, orphans + Orphaned(s, steps[0]));
      assert orphans + Orphaned(s, steps[0]) + Orphans(s', steps[1..]) == orphans + Orphans(s, steps);
    }
  }

  lemma KeepsBound(s: State, step: Step, entries: nat)
    requires Inv(s) && Bounded(s, entries)
    ensures Bounded(Apply(s, step), entries)
  {
    hide Inv, AllOps, Apply, Bounded;
    StepBalance(s, step, entries);
  }

  /** In every reachable state each connection has exactly one operation on its way, unless
      the backlog loop has dropped it or the program has found it failed: then it has none,
      and never will have. */
  lemma ExactlyOneOperation(entries: nat, steps: seq<Step>)
    ensures var s, orphans := Run(Start(entries), steps), Orphans(Start(entries), steps);
            && orphans <= s.tokens.Keys - {LISTENER}
            && forall t <- s.tokens :: t != LISTENER ==>
                 AllOps(s)[OpFor(t, s.tokens[t])] == if t in orphans then 0 else 1
  {
    StartHolds(entries);
    RunKeepsExact(Start(entries), steps, entries, {});
    assert {} + Orphans(Start(entries), steps) == Orphans(Start(entries), steps);
  }
  // ---------------------------------------------------------------- runs that lose nothing

  /** Nothing waits and nothing is lost. */
  ghost predicate Calm(s: State, entries: nat) {
    Bounded(s, entries) && s.backlog == [] && s.lost == [] && (s.pc == Handling ==> s.sq.stale == 0)
  }

  /** The step is no handling of a completion with the queue full. */
  predicate HasRoom(s: State, step: Step) {
    Handles(s, step) ==> !s.sq.IsFull()
  }

  predicate HasRoomThroughout(s: State, steps: seq<Step>)
    decreases |steps|
  {
    steps == [] || (HasRoom(s, steps[0]) && HasRoomThroughout(Apply(s, steps[0]), steps[1..]))
  }

  lemma PushKeepsCalm(s: State, op: Op)
    requires !s.sq.IsFull()
    ensures PushOrBacklog(s, op).backlog == s.backlog && PushOrBacklog(s, op).sq.stale == s.sq.stale
    ensures PushOrBacklog(s, op).pc == s.pc
  {
  }

  /** Handling a completion pushes at most one operation. */
  lemma HandleKeepsCalm(s: State, c: Cqe, freshKey: nat)
    requires !s.sq.IsFull()
    ensures Handle(s, c, freshKey).backlog == s.backlog && Handle(s, c, freshKey).sq.stale == s.sq.stale
  {
    hide PushOrBacklog;
    forall s: State, op | !s.sq.IsFull()
      ensures PushOrBacklog(s, op).backlog == s.backlog && PushOrBacklog(s, op).sq.stale == s.sq.stale
    {
      PushKeepsCalm(s, op);
    }
  }

  lemma {:induction false} PushToFreshens(s: State)
    ensures PushTo(s).sq.stale == 0 && PushTo(s).backlog == s.backlog
    decreases s.acceptCount
  {
    if s.acceptCount > 0 && !s.sq.IsFull() {
      PushToFreshens(s.(acceptCount := s.acceptCount - 1, sq := s.sq.Push(AcceptOp(LISTENER))));
    }
  }

  lemma StepKeepsBacklog(s: State, step: Step)
    requires s.backlog == [] && HasRoom(s, step) && (s.pc == Handling ==> s.sq.stale == 0)
    ensures var s' := Apply(s, step);
            s'.backlog == [] && (s'.pc == Handling ==> s'.sq.stale == 0)
  {
    hide Handle, PushTo, Effect, Possible;
    match step
    case HandleOne(freshKey) =>
      if Handles(s, step) {
        HandleKeepsCalm(Taken(s), s.cq[0], freshKey);
        HandleKeepsPc(Taken(s), s.cq[0], freshKey);
      }
    case PushAccepts => PushToFreshens(s);
    case Complete(index, ret, data) =>
      if index < |s.inflight| && Possible(s.inflight[index], ret, data) {
        EffectFields(MoveToCq(s, index, ret), s.inflight[index], ret, data);
      }
    case _ =>
  }

  lemma StepKeepsCalm(s: State, step: Step, entries: nat)
    requires Inv(s) && Calm(s, entries) && HasRoom(s, step)
    ensures Inv(Apply(s, step)) && Calm(Apply(s, step), entries)
  {
    ApplyKeepsInv(s, step);
    StepKeepsBacklog(s, step);
    StepBalance(s, step, entries);
    hide Inv, AllOps, Apply, Bounded, HasRoom;
  }

  lemma {:induction false} RunKeepsCalm(s: State, steps: seq<Step>, entries: nat)
    requires Inv(s) && Calm(s, entries) && HasRoomThroughout(s, steps)
    ensures Calm(Run(s, steps), entries)
    decreases |steps|
  {
    hide Inv, Calm, Apply, HasRoom;
    if steps != [] {
      StepKeepsCalm(s, steps[0], entries);
      RunKeepsCalm(Apply(s, steps[0]), steps[1..], entries);
    }
  }

  /** As long as no completion is handled with the queue full, the backlog stays empty and no
      operation is ever lost. */
  lemma RoomMeansNoLoss(entries: nat, steps: seq<Step>)
    requires HasRoomThroughout(Start(entries), steps)
    ensures Run(Start(entries), steps).backlog == [] && Run(Start(entries), steps).lost == []
  {
    StartHolds(entries);
    RunKeepsCalm(Start(entries), steps, entries);
  }

  // ---------------------------------------------------------------- few connections

  /** There are no more operations than connections and accepts in the budget's use. */
  lemma {:induction false} OpsAreFew(ops: multiset<Op>, tokens: map<nat, Token>, accepts: nat, failed: nat)
    requires Outstanding(ops, tokens, accepts, failed)
    ensures |ops| <= |tokens.Keys - {LISTENER}| + ACCEPTS - accepts
    decreases |tokens|
  {
    var keys := tokens.Keys - {LISTENER};
    if keys == {} {
      OnlyAccepts(ops, tokens, accepts, failed);
    } else {
      var t :| t in keys;
      var x := OpFor(t, tokens[t]);
      var rest := if x in ops then ops - multiset{x} else ops;
      if x in ops {
        Retire(ops, tokens, accepts, failed, x);
        assert |ops| == |rest| + 1;
      } else {
        NoOpOf(ops, tokens, accepts, failed, t);
      }
      Remove(rest, tokens, accepts, failed, t);
      OneFewer(tokens, t);
      OpsAreFew(rest, tokens - {t}, accepts, failed);
    }
  }

  lemma OneFewer(tokens: map<nat, Token>, t: nat)
    requires t in tokens && t != LISTENER
    ensures |tokens - {t}| < |tokens|
    ensures |tokens.Keys - {LISTENER}| == |(tokens - {t}).Keys - {LISTENER}| + 1
  {
    assert (tokens - {t}).Keys == tokens.Keys - {t};
    assert tokens.Keys - {LISTENER} == (tokens.Keys - {t} - {LISTENER}) + {t};
    assert |tokens.Keys| == |tokens| && |(tokens - {t}).Keys| == |tokens - {t}|;
  }

  lemma NoOpOf(ops: multiset<Op>, tokens: map<nat, Token>, accepts: nat, failed: nat, t: nat)
    requires Outstanding(ops, tokens, accepts, failed) && t in tokens && OpFor(t, tokens[t]) !in ops
    ensures forall y <- ops :: y.token != t
  {
  }

  lemma OnlyAccepts(ops: multiset<Op>, tokens: map<nat, Token>, accepts: nat, failed: nat)
    requires Outstanding(ops, tokens, accepts, failed) && tokens.Keys - {LISTENER} == {}
    ensures |ops| <= ACCEPTS - accepts
  {
    forall y <- ops
      ensures y == AcceptOp(LISTENER)
    {
      assert y.token !in tokens.Keys - {LISTENER};
      assert tokens[LISTENER].Accept?;
    }
    assert ops == Accepts(ops[AcceptOp(LISTENER)]);
    AcceptsSize(ops[AcceptOp(LISTENER)]);
  }

  lemma {:induction false} AcceptsSize(count: nat)
    ensures |Accepts(count)| == count
    decreases count
  {
    if count > 0 {
      assert Accepts(count) == Accepts(count - 1) + multiset{AcceptOp(LISTENER)};
      AcceptsSize(count - 1);
    } else {
      assert Accepts(0) == multiset{};
    }
  }

  /** In every state along the run, connections and accepts together are at most as many as
      the queue has entries. */
  predicate FewConnections(s: State, steps: seq<Step>, entries: nat)
    decreases |steps|
  {
    |s.conns| + ACCEPTS <= entries && (steps == [] || FewConnections(Apply(s, steps[0]), steps[1..], entries))
  }
  lemma QueuedOps(s: State)
    requires s.cq != []
    ensures |s.sq.published| + |s.sq.unpublished| < |AllOps(s)|
  {
  }

  lemma ConnectionTokens(s: State)
    requires Inv(s)
    ensures |s.tokens.Keys - {LISTENER}| == |s.conns|
  {
    assert s.conns.Keys == s.tokens.Keys - {LISTENER};
    assert |s.conns.Keys| == |s.conns|;
  }

  /** The operation handled is not in the queue, and the others are too few to fill it. */
  lemma FewMeansRoom(s: State, step: Step, entries: nat)
    requires Inv(s) && Calm(s, entries) && |s.conns| + ACCEPTS <= entries
    ensures HasRoom(s, step)
  {
    if Handles(s, step) {
      OpsAreFew(AllOps(s), s.tokens, s.acceptCount, s.failedAccepts);
      ConnectionTokens(s);
      QueuedOps(s);
      hide Inv, AllOps;
    }
  }

  lemma {:induction false} FewStayCalm(s: State, steps: seq<Step>, entries: nat)
    requires Inv(s) && Calm(s, entries) && FewConnections(s, steps, entries)
    ensures Calm(Run(s, steps), entries)
    decreases |steps|
  {
    hide Inv, Calm, Apply, HasRoom;
    if steps != [] {
      FewMeansRoom(s, steps[0], entries);
      StepKeepsCalm(s, steps[0], entries);
      FewStayCalm(Apply(s, steps[0]), steps[1..], entries);
    }
  }

  /** As long as connections and accepts together never outnumber the queue's entries, no
      completion finds the queue full, the backlog stays empty and no operation is lost: with
      256 entries, up to 253 connections at a time. */
  lemma FewConnectionsLoseNothing(entries: nat, steps: seq<Step>)
    requires FewConnections(Start(entries), steps, entries)
    ensures Run(Start(entries), steps).backlog == [] && Run(Start(entries), steps).lost == []
  {
    StartHolds(entries);
    FewStayCalm(Start(entries), steps, entries);
  }
}
