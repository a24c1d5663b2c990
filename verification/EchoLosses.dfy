/** Runs in which the echo server loses something: an operation, dropped because the queue is
    still full, and a byte, forgotten when a second send comes out short.

    The kernel answers in them as it does: descriptors differ, a send takes at least a byte,
    and a wait returns once there is a completion. A turn without a new one directly follows
    the handling of another, whose slot the program has not yet given back. */
module EchoLosses {
  import opened Words
  import opened Wrappers
  import opened EchoServer
  import opened EchoOutstanding
  import opened EchoSafety

  /** When none of a full queue has been published, no reply of the kernel's can help. */
  lemma UnpublishedFullQueueAlwaysDrops(s: State, taken: nat)
    requires s.pc == Drain && s.backlog != [] && s.sq.IsFull() && s.sq.stale == 0 && s.sq.published == []
    ensures Apply(s, DrainOne(taken)).lost == s.lost + [s.backlog[0]]
  {
    hide Handle, PushTo, Effect, Possible;
    assert s.sq.published[0..] == [] && s.inflight + [] == s.inflight;
    assert Submit(s, taken) == s;
  }

  // ---------------------------------------------------------------- turns

  /** At the top of the loop with nothing to handle; what is queued has been published. */
  predicate AtRest(s: State, entries: nat) {
    && s.pc == Top && s.visible == 0 && s.cq == [] && s.backlog == [] && s.acceptCount == 0
    && s.sq == Queue(entries, 0, s.sq.published, [])
  }

  function Accepts(count: nat): seq<Op> {
    seq(count, _ => AcceptOp(LISTENER))
  }

  lemma Run4(s: State, a: Step, b: Step, c: Step, d: Step)
    ensures Run(s, [a, b, c, d]) == Apply(Apply(Apply(Apply(s, a), b), c), d)
  {
    hide Apply;
    assert [a, b, c, d][1..] == [b, c, d] && [b, c, d][1..] == [c, d] && [c, d][1..] == [d] && [d][1..] == [];
    var s1 := Apply(s, a);
    assert Run(s, [a, b, c, d]) == Run(s1, [b, c, d]);
    var s2 := Apply(s1, b);
    assert Run(s1, [b, c, d]) == Run(s2, [c, d]);
    assert Run(s2, [c, d]) == Run(Apply(s2, c), [d]);
    assert Run(Apply(s2, c), [d]) == Run(Apply(Apply(s2, c), d), []);
  }

  lemma RunTwo(s: State, a: Step, b: Step)
    ensures Run(s, [a, b]) == Apply(Apply(s, a), b)
  {
    hide Apply;
    assert [a, b][1..] == [b] && [b][1..] == [];
    assert Run(Apply(s, a), [b]) == Run(Apply(Apply(s, a), b), []);
  }

  /** The kernel takes all that is published. */
  function Submitted(s: State): State {
    s.(pc := CqSync, sq := Queue(s.sq.entries, 0, [], []), inflight := s.inflight + s.sq.published)
  }

  lemma SubmitTakesAll(s: State, entries: nat)
    requires AtRest(s, entries) && |s.sq.published| < entries
    ensures Apply(s, SubmitAndWait(|s.sq.published|)) == Submitted(s).(sq := Queue(entries, |s.sq.published|, [], []))
  {
    assert s.sq.published[..|s.sq.published|] == s.sq.published;
  }

  /** From the sync on, the rest of a turn as far as the first completion. */
  function TurnSteps(seen: nat, key: nat): seq<Step> {
    [SyncCompletions(seen), DrainOne(0), PushAccepts, HandleOne(key)]
  }

  lemma {:induction false} PushToAll(s: State, entries: nat, published: seq<Op>, pushed: seq<Op>)
    requires s.sq == Queue(entries, 0, published, pushed) && |published| + |pushed| + s.acceptCount < entries
    ensures PushTo(s) == s.(acceptCount := 0, sq := Queue(entries, 0, published + pushed + Accepts(s.acceptCount), []))
    decreases s.acceptCount
  {
    if s.acceptCount > 0 {
      var s' := s.(acceptCount := s.acceptCount - 1, sq := s.sq.Push(AcceptOp(LISTENER)));
      PushToAll(s', entries, published, pushed + [AcceptOp(LISTENER)]);
      assert pushed + Accepts(s.acceptCount) == pushed + [AcceptOp(LISTENER)] + Accepts(s.acceptCount - 1);
      assert published + pushed + Accepts(s.acceptCount) ==
          published + (pushed + [AcceptOp(LISTENER)]) + Accepts(s.acceptCount - 1);
    } else {
      assert published + pushed + Accepts(0) == published + pushed;
    }
  }

  lemma DrainNothing(s: State, entries: nat, stale: nat, pushed: seq<Op>)
    requires s.pc == Drain && s.backlog == [] && s.sq == Queue(entries, stale, [], pushed) && stale + |pushed| < entries
    ensures Apply(s, DrainOne(0)) == s.(pc := Accepting, sq := Queue(entries, 0, pushed, []))
  {
    assert [] + pushed == pushed;
  }

  lemma AcceptNothing(s: State, entries: nat)
    requires s.pc == Accepting && s.acceptCount == 0 && s.sq == Queue(entries, 0, [], [])
    ensures Apply(s, PushAccepts) == s.(pc := Handling)
  {
    assert PushTo(s) == s.(sq := s.sq.Sync());
  }

  /** One turn without completion publishes what the last one pushed. */
  lemma PublishTurn(s: State, entries: nat, pushed: seq<Op>)
    requires s.pc == Top && s.visible == 0 && s.cq == [] && s.backlog == [] && s.sq == Queue(entries, 0, [], pushed)
    requires |pushed| + s.acceptCount < entries
    ensures Run(s, [SubmitAndWait(0)] + TurnSteps(0, 0)) ==
            s.(acceptCount := 0, sq := Queue(entries, 0, pushed + Accepts(s.acceptCount), []))
  {
    var waited := s.(pc := CqSync);
    WaitForNothing(s, entries, pushed);
    Run4(waited, SyncCompletions(0), DrainOne(0), PushAccepts, HandleOne(0));
    assert ([SubmitAndWait(0)] + TurnSteps(0, 0))[1..] == TurnSteps(0, 0);
    hide PushTo, PopBacklog;
    DrainNothing(s.(pc := Drain), entries, 0, pushed);
    var drained := s.(pc := Accepting, sq := Queue(entries, 0, pushed, []));
    PushToAll(drained, entries, pushed, []);
    assert pushed + [] == pushed;
  }

  lemma WaitForNothing(s: State, entries: nat, pushed: seq<Op>)
    requires s.pc == Top && s.sq == Queue(entries, 0, [], pushed)
    ensures Apply(s, SubmitAndWait(0)) == s.(pc := CqSync)
  {
    assert s.inflight + [] == s.inflight;
  }

  // ---------------------------------------------------------------- one completion

  /** The state in which the completion of the kernel's operation `index` has been handled. */
  function Handled(s: State, index: nat, ret: int, data: seq<byte>, key: nat): State
    requires index < |s.inflight| && Possible(s.inflight[index], ret, data)
  {
    var op := s.inflight[index];
    Handle(Effect(MoveToCq(s, index, ret), op, ret, data).(cq := [], pc := Handling), Cqe(op, ret), key)
  }

  function Settled(h: State): State {
    h.(pc := Top, acceptCount := 0, sq := Queue(h.sq.entries, 0, h.sq.unpublished + Accepts(h.acceptCount), []))
  }

  /** The queue of a resting server once the kernel has taken what was in it. */
  predicate Emptied(s: State, entries: nat) {
    && s.visible == 0 && s.cq == [] && s.backlog == [] && s.acceptCount == 0 && s.sq == Queue(entries, 0, [], [])
  }

  lemma HandledFields(s: State, entries: nat, index: nat, ret: int, data: seq<byte>, key: nat)
    requires Emptied(s, entries) && entries > 0 && index < |s.inflight| && Possible(s.inflight[index], ret, data)
    ensures var h := Handled(s, index, ret, data, key);
            && h.visible == 0 && h.cq == [] && h.backlog == [] && h.acceptCount <= 1
            && h.sq == Queue(entries, 0, [], h.sq.unpublished) && |h.sq.unpublished| <= 1
  {
    var op := s.inflight[index];
    var m := Effect(MoveToCq(s, index, ret), op, ret, data).(cq := [], pc := Handling);
    EffectFields(MoveToCq(s, index, ret), op, ret, data);
    assert m.sq == Queue(entries, 0, [], []);
    hide Effect, Possible;
    HandlePushesOne(m, entries, Cqe(op, ret), key);
  }

  lemma HandlePushesOne(m: State, entries: nat, c: Cqe, key: nat)
    requires Emptied(m, entries) && entries > 0
    ensures var h := Handle(m, c, key);
            && h.visible == 0 && h.cq == [] && h.backlog == [] && h.acceptCount <= 1
            && h.sq == Queue(entries, 0, [], h.sq.unpublished) && |h.sq.unpublished| <= 1
  {
    hide PushOrBacklog;
    forall s: State, op | s.sq == Queue(entries, 0, [], [])
      ensures PushOrBacklog(s, op) == s.(sq := Queue(entries, 0, [], [op]))
    {
      PushIntoEmpty(s, entries, op);
    }
  }

  lemma PushIntoEmpty(s: State, entries: nat, op: Op)
    requires s.sq == Queue(entries, 0, [], []) && entries > 0
    ensures PushOrBacklog(s, op) == s.(sq := Queue(entries, 0, [], [op]))
  {
  }

  /** A turn that sees one completion, up to the handling of it. */
  lemma HandleTurn(s: State, entries: nat, stale: nat, c: Cqe, key: nat)
    requires Emptied(s.(cq := [], sq := Queue(entries, 0, [], [])), entries) && s.sq == Queue(entries, stale, [], [])
    requires s.pc == CqSync && stale < entries && s.cq == [c] && key !in s.tokens
    ensures Run(s, TurnSteps(1, key)) == Handle(s.(cq := [], pc := Handling, sq := Queue(entries, 0, [], [])), c, key)
  {
    hide Handle, PushTo, PopBacklog;
    Run4(s, SyncCompletions(1), DrainOne(0), PushAccepts, HandleOne(key));
    var shown := s.(pc := Drain, visible := 1);
    assert Apply(s, SyncCompletions(1)) == shown;
    DrainNothing(shown, entries, stale, []);
    var drained := shown.(pc := Accepting, sq := Queue(entries, 0, [], []));
    AcceptNothing(drained, entries);
    assert s.cq[1..] == [];
  }

  /** The steps of a turn in which one operation finishes, and of the turn after it. */
  function ServeSteps(taken: nat, index: nat, ret: int, data: seq<byte>, key: nat): seq<Step> {
    [SubmitAndWait(taken), Complete(index, ret, data)] + TurnSteps(1, key) + [HandleOne(0)] +
        ([SubmitAndWait(0)] + TurnSteps(0, 0))
  }

  /** The kernel takes what is published and finishes one of its operations; handling that and
      publishing what it pushed leaves the server at rest again. */
  lemma CompletionServed(s: State, entries: nat, index: nat, ret: int, data: seq<byte>, key: nat)
    requires AtRest(s, entries) && |s.sq.published| < entries && entries > 3 && key !in s.tokens
    requires var u := Submitted(s);
             && index < |u.inflight| && Possible(u.inflight[index], ret, data)
             && Effect(MoveToCq(u, index, ret), u.inflight[index], ret, data).pc != Crashed
             && Handled(u, index, ret, data, key).pc == Handling
    ensures Run(s, ServeSteps(|s.sq.published|, index, ret, data, key)) ==
            Settled(Handled(Submitted(s), index, ret, data, key))
  {
    var u, n := Submitted(s), |s.sq.published|;
    var h, k := Handled(u, index, ret, data, key), Cqe(u.inflight[index], ret);
    var a, b, c := [SubmitAndWait(n), Complete(index, ret, data)], TurnSteps(1, key),
        [SubmitAndWait(0)] + TurnSteps(0, 0);
    SubmitTakesAll(s, entries);
    var taken := u.(sq := Queue(entries, n, [], []));
    RunTwo(s, SubmitAndWait(n), Complete(index, ret, data));
    CompleteIgnoresQueue(u, taken, index, ret, data);
    HandledFields(u, entries, index, ret, data, key);
    hide Handle, Effect, Possible, Settled;
    var m := Apply(taken, Complete(index, ret, data));
    HandleTurn(m, entries, n, k, key);
    RunConcat(s, a, b);
    assert Run(s, a + b) == h;
    RunOneMore(s, a + b, HandleOne(0));
    BackToTop(h);
    RunConcat(s, a + b + [HandleOne(0)], c);
    PublishTurn(h.(pc := Top), entries, h.sq.unpublished);
    SettledIsPublished(h, entries);
  }

  lemma BackToTop(h: State)
    requires h.pc == Handling && h.visible == 0
    ensures Apply(h, HandleOne(0)) == h.(pc := Top)
  {
  }

  lemma SettledIsPublished(h: State, entries: nat)
    requires h.sq.entries == entries
    ensures Settled(h) == h.(pc := Top, acceptCount := 0,
                             sq := Queue(entries, 0, h.sq.unpublished + Accepts(h.acceptCount), []))
  {
  }

  /** A finishing operation does not see the submission queue. */
  lemma CompleteIgnoresQueue(u: State, taken: State, index: nat, ret: int, data: seq<byte>)
    requires u.pc == CqSync && u.cq == [] && taken == u.(sq := taken.sq) && index < |u.inflight|
             && Possible(u.inflight[index], ret, data)
    requires Effect(MoveToCq(u, index, ret), u.inflight[index], ret, data).pc != Crashed
    ensures var m := Apply(taken, Complete(index, ret, data));
            && m.(sq := u.sq) == Effect(MoveToCq(u, index, ret), u.inflight[index], ret, data)
            && m == m.(pc := CqSync, cq := [Cqe(u.inflight[index], ret)], sq := taken.sq, visible := u.visible,
                       backlog := u.backlog, acceptCount := u.acceptCount, tokens := u.tokens)
  {
    assert u.cq + [Cqe(u.inflight[index], ret)] == [Cqe(u.inflight[index], ret)];
    EffectFields(MoveToCq(u, index, ret), u.inflight[index], ret, data);
  }

  // ---------------------------------------------------------------- connections waiting

  /** Descriptors as the kernel hands them out, each connection its own. */
  function Fd(t: nat): int {
    t + 4
  }

  function Polls(count: nat): seq<Op> {
    seq(count, i requires 0 <= i => PollOp(Fd(i + 1), i + 1))
  }

  function PollTokens(count: nat): (tokens: map<nat, Token>)
    ensures forall t: nat :: t in tokens <==> t <= count
    ensures forall t: nat :: t in tokens ==> tokens[t] == if t == LISTENER then Accept else Poll(Fd(t))
  {
    if count == 0 then map[LISTENER := Accept] else PollTokens(count - 1)[count := Poll(Fd(count))]
  }

  function NewConns(count: nat): map<nat, Conn> {
    if count == 0 then map[] else NewConns(count - 1)[count := Conn([], None)]
  }

  /** At rest with `count` connections, each waiting for input, and three accepts; what the
      last one brought about is published. */
  function Waiting(entries: nat, count: nat): State {
    State(Top, PollTokens(count), [], [], [], 0,
          Queue(entries, 0, if count == 0 then Accepts(3) else [PollOp(Fd(count), count), AcceptOp(LISTENER)], []), 0,
          if count == 0 then [] else Accepts(2) + Polls(count - 1), [], NewConns(count), [], [], 0)
  }

  lemma WaitingSubmitted(entries: nat, count: nat)
    ensures Submitted(Waiting(entries, count)) ==
            Waiting(entries, count).(pc := CqSync, sq := Queue(entries, 0, [], []),
                                     inflight := Accepts(2) + Polls(count) + Accepts(1))
  {
    if count == 0 {
      assert [] + Accepts(3) == Accepts(2) + Polls(0) + Accepts(1);
    } else {
      assert Accepts(2) + Polls(count - 1) + [PollOp(Fd(count), count), AcceptOp(LISTENER)] ==
          Accepts(2) + Polls(count) + Accepts(1);
    }
  }

  lemma FirstAccepts(entries: nat)
    requires entries > 3
    ensures Run(Start(entries), [PushAccepts, HandleOne(0)]) == Waiting(entries, 0)
  {
    RunTwo(Start(entries), PushAccepts, HandleOne(0));
    PushToAll(Start(entries), entries, [], []);
    assert [] + [] + Accepts(3) == Accepts(3);
  }

  /** An accept has been handled: the new connection's poll is pushed, the budget is one up. */
  function JustAccepted(entries: nat, count: nat): State {
    State(Handling, PollTokens(count + 1), [], [], [], 1, Queue(entries, 0, [], [PollOp(Fd(count + 1), count + 1)]), 0,
          Accepts(2) + Polls(count), [], NewConns(count + 1), [], [], 0)
  }

  lemma AcceptHandled(entries: nat, count: nat)
    requires entries > 3
    ensures var u := Submitted(Waiting(entries, count));
            && |u.inflight| == count + 3 && u.inflight[count + 2] == AcceptOp(LISTENER)
            && Effect(MoveToCq(u, count + 2, Fd(count + 1)), AcceptOp(LISTENER), Fd(count + 1), []).pc == CqSync
            && Handled(u, count + 2, Fd(count + 1), [], count + 1) == JustAccepted(entries, count)
  {
    AcceptFinishes(entries, count);
    hide Accepts, Polls, PollTokens, NewConns, Submitted, Effect, MoveToCq, HandleAccept, JustAccepted;
    NewConnection(entries, count);
  }

  lemma NewConnection(entries: nat, count: nat)
    requires entries > 3
    ensures var m := Waiting(entries, count).(pc := Handling, sq := Queue(entries, 0, [], []),
                                              inflight := Accepts(2) + Polls(count));
            && LISTENER in m.tokens && m.tokens[LISTENER] == Accept
            && HandleAccept(m, Fd(count + 1), count + 1) == JustAccepted(entries, count)
  {
    var m := Waiting(entries, count).(pc := Handling, sq := Queue(entries, 0, [], []),
                                      inflight := Accepts(2) + Polls(count));
    assert PollTokens(count)[count + 1 := Poll(Fd(count + 1))] == PollTokens(count + 1);
    assert NewConns(count)[count + 1 := Conn([], None)] == NewConns(count + 1);
    assert m.tokens[LISTENER] == Accept;
    hide Accepts, Polls, PollTokens, NewConns, HandleAccept;
    AcceptIntoEmpty(m, entries, Fd(count + 1), count + 1);
  }

  lemma AcceptFinishes(entries: nat, count: nat)
    ensures var u := Submitted(Waiting(entries, count));
            && |u.inflight| == count + 3 && u.inflight[count + 2] == AcceptOp(LISTENER)
            && var e := Effect(MoveToCq(u, count + 2, Fd(count + 1)), AcceptOp(LISTENER), Fd(count + 1), []);
               && e.pc == CqSync
               && e.(cq := [], pc := Handling) ==
                  Waiting(entries, count).(pc := Handling, sq := Queue(entries, 0, [], []),
                                           inflight := Accepts(2) + Polls(count))
  {
    WaitingSubmitted(entries, count);
    LastAccept(count);
    hide Accepts, Polls, PollTokens, NewConns, Submitted;
  }

  lemma AcceptIntoEmpty(m: State, entries: nat, fd: int, key: nat)
    requires m.sq == Queue(entries, 0, [], []) && entries > 0
    ensures HandleAccept(m, fd, key) ==
            m.(acceptCount := m.acceptCount + 1, conns := m.conns[key := Conn([], None)],
               tokens := m.tokens[key := Poll(fd)],
               sq := Queue(entries, 0, [], [PollOp(fd, key)]))
  {
    hide PushOrBacklog;
    PushIntoEmpty(m.(acceptCount := m.acceptCount + 1, conns := m.conns[key := Conn([], None)],
                     tokens := m.tokens[key := Poll(fd)]),
                  entries, PollOp(fd, key));
  }

  lemma LastAccept(count: nat)
    ensures var ops := Accepts(2) + Polls(count) + Accepts(1);
            && |ops| == count + 3 && ops[count + 2] == AcceptOp(LISTENER)
            && ops[..count + 2] + ops[count + 3..] == Accepts(2) + Polls(count)
  {
  }

  lemma WaitingIsRest(entries: nat, count: nat)
    requires entries > 3
    ensures AtRest(Waiting(entries, count), entries) && count + 1 !in Waiting(entries, count).tokens
    ensures |Waiting(entries, count).sq.published| < entries
    ensures Settled(JustAccepted(entries, count)) == Waiting(entries, count + 1)
    ensures JustAccepted(entries, count).pc == Handling
  {
    assert [PollOp(Fd(count + 1), count + 1)] + Accepts(1) == [PollOp(Fd(count + 1), count + 1), AcceptOp(LISTENER)];
  }

  lemma {:induction false} ReachWaiting(entries: nat, count: nat) returns (steps: seq<Step>)
    requires entries > 3
    ensures Run(Start(entries), steps) == Waiting(entries, count)
    decreases count
  {
    if count == 0 {
      FirstAccepts(entries);
      steps := [PushAccepts, HandleOne(0)];
    } else {
      var before := ReachWaiting(entries, count - 1);
      hide Handled, Effect, Waiting, JustAccepted, Settled, AtRest, Run, MoveToCq, Submitted, ServeSteps, Fd;
      AcceptHandled(entries, count - 1);
      WaitingIsRest(entries, count - 1);
      var s := Waiting(entries, count - 1);
      CompletionServed(s, entries, count + 1, Fd(count), [], count);
      var more := ServeSteps(|s.sq.published|, count + 1, Fd(count), [], count);
      RunConcat(Start(entries), before, more);
      steps := before + more;
    }
  }

  // ---------------------------------------------------------------- an operation lost

  function Ready(count: nat): seq<Cqe> {
    seq(count, i requires 0 <= i => Cqe(PollOp(Fd(i + 1), i + 1), 1))
  }

  /** The program waits, and all connections become ready: the first `done` polls of `count`
      have finished. */
  function SomeReady(entries: nat, count: nat, stale: nat, done: nat): State
    requires done <= count
  {
    Waiting(entries, count).(pc := CqSync, sq := Queue(entries, stale, [], []),
                             inflight := Accepts(2) + Polls(count)[done..] + Accepts(1), cq := Ready(count)[..done])
  }

  lemma {:induction false} AllBecomeReady(entries: nat, count: nat, done: nat) returns (steps: seq<Step>)
    requires done <= count && entries > 3
    ensures Run(Waiting(entries, count), steps) ==
            SomeReady(entries, count, |Waiting(entries, count).sq.published|, done)
    decreases done
  {
    var start := Waiting(entries, count);
    var n := |start.sq.published|;
    if done == 0 {
      steps := [SubmitAndWait(n)];
      WaitingIsRest(entries, count);
      WaitingSubmitted(entries, count);
      SubmitTakesAll(start, entries);
      assert steps[1..] == [] && Run(Apply(start, steps[0]), []) == Apply(start, steps[0]);
      assert Polls(count)[0..] == Polls(count) && Ready(count)[..0] == [];
    } else {
      var before := AllBecomeReady(entries, count, done - 1);
      var step := Complete(2, 1, []);
      OneBecomesReady(entries, count, n, done);
      RunOneMore(start, before, step);
      steps := before + [step];
    }
  }

  lemma OneBecomesReady(entries: nat, count: nat, stale: nat, done: nat)
    requires 0 < done <= count
    ensures Apply(SomeReady(entries, count, stale, done - 1), Complete(2, 1, [])) ==
            SomeReady(entries, count, stale, done)
  {
    NextPoll(count, done);
    hide Accepts, Polls, Ready, Waiting;
  }

  lemma NextPoll(count: nat, done: nat)
    requires 0 < done <= count
    ensures var ops := Accepts(2) + Polls(count)[done - 1..] + Accepts(1);
            && |ops| > 2 && ops[2] == PollOp(Fd(done), done)
            && ops[..2] + ops[3..] == Accepts(2) + Polls(count)[done..] + Accepts(1)
    ensures Ready(count)[..done - 1] + [Cqe(PollOp(Fd(done), done), 1)] == Ready(count)[..done]
  {
  }

  /** Connection `t` reads into a buffer of its own. */
  function Recvs(count: nat): seq<Op> {
    seq(count, i requires 0 <= i => RecvOp(Fd(i + 1), i, i + 1))
  }

  function ReadTokens(count: nat, done: nat): (tokens: map<nat, Token>)
    ensures forall t: nat :: t in tokens <==> t <= count || 1 <= t <= done
    ensures forall t: nat :: done < t <= count ==> tokens[t] == Poll(Fd(t))
  {
    if done == 0 then PollTokens(count) else ReadTokens(count, done - 1)[done := Read(Fd(done), done - 1)]
  }

  function Zeros(count: nat): seq<seq<byte>> {
    seq(count, _ => seq(BUF_LEN, _ => 0))
  }

  /** In the completion loop: of `count` ready connections the first `done` have been handled.
      The queue takes what fits, unpublished; the rest goes to the backlog. */
  function SomeHandled(entries: nat, count: nat, done: nat): State
    requires done <= count
  {
    var kept := Min(done, entries);
    State(Handling, ReadTokens(count, done), Zeros(done), [], Recvs(done)[kept..], 0,
          Queue(entries, 0, [], Recvs(done)[..kept]), count - done,
          Accepts(3), Ready(count)[done..], NewConns(count), [], [], 0)
  }

  lemma HandleOneReady(entries: nat, count: nat, done: nat)
    requires done < count
    ensures Apply(SomeHandled(entries, count, done), HandleOne(count + 1)) == SomeHandled(entries, count, done + 1)
  {
    var s, op := SomeHandled(entries, count, done), RecvOp(Fd(done + 1), done, done + 1);
    assert s.cq[0] == Cqe(PollOp(Fd(done + 1), done + 1), 1) && s.cq[1..] == Ready(count)[done + 1..];
    assert s.tokens[done + 1] == Poll(Fd(done + 1)) && count + 1 !in s.tokens;
    NextRecv(entries, done);
    hide Ready, Recvs, Zeros, PollTokens, NewConns, Accepts;
  }

  /** The queue takes the next read if it has room, else the backlog does. */
  lemma NextRecv(entries: nat, done: nat)
    ensures var op, kept := RecvOp(Fd(done + 1), done, done + 1), Min(done, entries);
            && |Recvs(done)| == done && |Zeros(done)| == done
            && if done < entries then
                 && Recvs(done)[..kept] + [op] == Recvs(done + 1)[..done + 1]
                 && Recvs(done)[kept..] == [] == Recvs(done + 1)[done + 1..]
               else
                 && Recvs(done)[..kept] == Recvs(done + 1)[..entries]
                 && Recvs(done)[kept..] + [op] == Recvs(done + 1)[entries..]
    ensures Zeros(done) + [seq(BUF_LEN, _ => 0)] == Zeros(done + 1)
  {
    assert Recvs(done) + [RecvOp(Fd(done + 1), done, done + 1)] == Recvs(done + 1);
  }

  lemma {:induction false} AllGetHandled(entries: nat, count: nat, done: nat) returns (steps: seq<Step>)
    requires done <= count
    ensures Run(SomeHandled(entries, count, 0), steps) == SomeHandled(entries, count, done)
    decreases done
  {
    if done == 0 {
      steps := [];
    } else {
      var before := AllGetHandled(entries, count, done - 1);
      HandleOneReady(entries, count, done - 1);
      RunOneMore(SomeHandled(entries, count, 0), before, HandleOne(count + 1));
      steps := before + [HandleOne(count + 1)];
    }
  }

  lemma ReadyAreSeen(entries: nat, count: nat, stale: nat)
    requires stale < entries
    ensures Run(SomeReady(entries, count, stale, count), [SyncCompletions(count), DrainOne(0)] + [PushAccepts]) ==
            SomeHandled(entries, count, 0)
  {
    hide Apply;
    var s := SomeReady(entries, count, stale, count);
    RunTwo(s, SyncCompletions(count), DrainOne(0));
    RunOneMore(s, [SyncCompletions(count), DrainOne(0)], PushAccepts);
    AllSeen(entries, count, stale);
  }

  lemma AllSeen(entries: nat, count: nat, stale: nat)
    requires stale < entries
    ensures Apply(Apply(Apply(SomeReady(entries, count, stale, count), SyncCompletions(count)), DrainOne(0)),
                  PushAccepts) ==
            SomeHandled(entries, count, 0)
  {
    var s := SomeReady(entries, count, stale, count);
    assert Polls(count)[count..] == [] && Ready(count)[..count] == Ready(count) == Ready(count)[0..];
    assert s.inflight == Accepts(3);
    assert Recvs(0)[..0] == [] && Recvs(0)[0..] == [] && Zeros(0) == [];
    hide PushTo, PopBacklog;
    var shown := s.(pc := Drain, visible := count);
    assert Apply(s, SyncCompletions(count)) == shown;
    DrainNothing(shown, entries, stale, []);
    AcceptNothing(shown.(pc := Accepting, sq := Queue(entries, 0, [], [])), entries);
  }

  lemma LastTurn(entries: nat)
    ensures var s := SomeHandled(entries, entries + 1, entries + 1);
            Run(s, TurnToDrop()).lost == [RecvOp(Fd(entries + 1), entries, entries + 1)]
  {
    var s := SomeHandled(entries, entries + 1, entries + 1);
    Run4(s, HandleOne(0), SubmitAndWait(0), SyncCompletions(0), DrainOne(0));
    assert s.backlog == [RecvOp(Fd(entries + 1), entries, entries + 1)];
    assert |s.sq.unpublished| == entries;
    hide ReadTokens, Zeros, Recvs, Ready, NewConns, Accepts;
  }

  function TurnToDrop(): seq<Step> {
    [HandleOne(0), SubmitAndWait(0), SyncCompletions(0), DrainOne(0)]
  }

  /** For every ring size above three, 256 included, the loop can lose an operation: when one
      connection more than the ring has slots becomes ready at once, the read of the last
      goes to the backlog and is dropped by the next turn. */
  lemma OperationCanBeLost(entries: nat) returns (steps: seq<Step>)
    requires entries > 3
    ensures Run(Start(entries), steps).lost == [RecvOp(Fd(entries + 1), entries, entries + 1)]
  {
    var start, count := Start(entries), entries + 1;
    var stale := |Waiting(entries, count).sq.published|;
    WaitingIsRest(entries, count);
    hide Run, Apply, Waiting, SomeReady, SomeHandled, TurnToDrop, AtRest;
    var a := ReachWaiting(entries, count);
    var b := AllBecomeReady(entries, count, count);
    RunConcat(start, a, b);
    var c := [SyncCompletions(count), DrainOne(0)] + [PushAccepts];
    ReadyAreSeen(entries, count, stale);
    RunConcat(start, a + b, c);
    var d := AllGetHandled(entries, count, count);
    RunConcat(start, a + b + c, d);
    LastTurn(entries);
    RunConcat(start, a + b + c + d, TurnToDrop());
    steps := a + b + c + d + TurnToDrop();
  }

  // ---------------------------------------------------------------- bytes lost

  /** At rest with one connection, in the given state, and its operation published. */
  function OneConnection(entries: nat, tok: Token, bufs: seq<seq<byte>>, pool: seq<nat>, conn: Conn): State {
    State(Top, map[LISTENER := Accept, 1 := tok], bufs, pool, [], 0, Queue(entries, 0, [OpFor(1, tok)], []), 0,
          Accepts(3), [], map[1 := conn], [], [], 0)
  }

  /** The single connection's operation finishes and its token changes to `tok'`. */
  lemma ConnectionServed(entries: nat, tok: Token, bufs: seq<seq<byte>>, pool: seq<nat>, conn: Conn, ret: nat,
                         data: seq<byte>, tok': Token, bufs': seq<seq<byte>>, pool': seq<nat>, conn': Conn)
    requires entries > 3
    requires Possible(OpFor(1, tok), ret, data)
    requires var u := OneConnection(entries, tok, bufs, pool, conn).(pc := CqSync, sq := Queue(entries, 0, [], []),
                                                                     inflight := Accepts(3) + [OpFor(1, tok)]);
             var e := Effect(MoveToCq(u, 3, ret), OpFor(1, tok), ret, data);
             && e.pc == CqSync
             && Handle(e.(cq := [], pc := Handling), Cqe(OpFor(1, tok), ret), 2) ==
                e.(cq := [], pc := Handling, tokens := map[LISTENER := Accept, 1 := tok'], bufs := bufs', pool := pool',
                   conns := map[1 := conn'], sq := Queue(entries, 0, [], [OpFor(1, tok')]))
    ensures Run(OneConnection(entries, tok, bufs, pool, conn), ServeSteps(1, 3, ret, data, 2)) ==
            OneConnection(entries, tok', bufs', pool', conn')
  {
    var s := OneConnection(entries, tok, bufs, pool, conn);
    var u := Submitted(s);
    assert u.inflight[3] == OpFor(1, tok) && u.inflight[..3] + u.inflight[4..] == Accepts(3);
    EffectFields(MoveToCq(u, 3, ret), OpFor(1, tok), ret, data);
    hide Effect, Handle, Possible;
    CompletionServed(s, entries, 3, ret, data, 2);
    assert [OpFor(1, tok')] + Accepts(0) == [OpFor(1, tok')];
  }

  lemma FirstConnection(entries: nat) returns (steps: seq<Step>)
    requires entries > 3
    ensures Run(Start(entries), steps) ==
            OneConnection(entries, Read(Fd(1), 0), [seq(BUF_LEN, _ => 0)], [], Conn([], None))
  {
    var s := Waiting(entries, 1);
    var before := ReachWaiting(entries, 1);
    FirstPoll(entries);
    WaitingIsRest(entries, 1);
    hide Waiting, Handled, Submitted, AtRest, Effect, Settled, ServeSteps, Run, MoveToCq;
    CompletionServed(s, entries, 2, 1, [], 2);
    steps := before + ServeSteps(2, 2, 1, [], 2);
    RunConcat(Start(entries), before, ServeSteps(2, 2, 1, [], 2));
  }

  lemma FirstPoll(entries: nat)
    requires entries > 3
    ensures var u := Submitted(Waiting(entries, 1));
            && 2 < |u.inflight| && u.inflight[2] == PollOp(Fd(1), 1) && |Waiting(entries, 1).sq.published| == 2
            && Effect(MoveToCq(u, 2, 1), u.inflight[2], 1, []).pc != Crashed
            && Handled(u, 2, 1, [], 2).pc == Handling
            && Settled(Handled(u, 2, 1, [], 2)) ==
               OneConnection(entries, Read(Fd(1), 0), [seq(BUF_LEN, _ => 0)], [], Conn([], None))
  {
    WaitingSubmitted(entries, 1);
    var u := Submitted(Waiting(entries, 1));
    assert u.inflight[2] == PollOp(Fd(1), 1) && u.inflight[..2] + u.inflight[3..] == Accepts(3);
    assert PollTokens(1) == PollTokens(0)[1 := Poll(Fd(1))] && NewConns(1) == NewConns(0)[1 := Conn([], None)];
    assert [RecvOp(Fd(1), 0, 1)] + Accepts(0) == [RecvOp(Fd(1), 0, 1)];
    assert PollTokens(1)[1 := Read(Fd(1), 0)] == map[LISTENER := Accept, 1 := Read(Fd(1), 0)];
    hide Polls, Accepts;
  }

  function Buffer(data: seq<byte>): seq<byte>
    requires |data| == 10
  {
    data + seq(BUF_LEN - 10, _ => 0)
  }

  function Sending6(data: seq<byte>): Message
    requires |data| == 10
  {
    Message(data, data[..6], 1, 0, true)
  }

  /** The connection has received `data` and has to send it back. */
  function Received(entries: nat, data: seq<byte>): State
    requires |data| == 10
  {
    OneConnection(entries, Write(Fd(1), 0, 0, 10), [Buffer(data)], [], Conn([], Some(Message(data, [], 0, 0, true))))
  }

  /** It has sent six bytes of it and asks to send the other four. */
  function SixSent(entries: nat, data: seq<byte>): State
    requires |data| == 10
  {
    OneConnection(entries, Write(Fd(1), 0, 6, 4), [Buffer(data)], [], Conn([], Some(Sending6(data))))
  }

  lemma DataArrives(entries: nat, data: seq<byte>)
    requires entries > 3 && |data| == 10
    ensures Run(OneConnection(entries, Read(Fd(1), 0), [seq(BUF_LEN, _ => 0)], [], Conn([], None)),
                ServeSteps(1, 3, 10, data, 2)) ==
            Received(entries, data)
  {
    var zeros := seq(BUF_LEN, _ => 0);
    assert data + zeros[10..] == Buffer(data) && [zeros][0 := Buffer(data)] == [Buffer(data)];
    ConnectionServed(entries, Read(Fd(1), 0), [zeros], [], Conn([], None), 10, data,
                     Write(Fd(1), 0, 0, 10), [Buffer(data)], [], Conn([], Some(Message(data, [], 0, 0, true))));
  }

  lemma SixBytesLeave(entries: nat, data: seq<byte>)
    requires entries > 3 && |data| == 10
    ensures Run(Received(entries, data), ServeSteps(1, 3, 6, [], 2)) == SixSent(entries, data)
  {
    assert [] + Buffer(data)[0..6] == data[..6];
    ConnectionServed(entries, Write(Fd(1), 0, 0, 10), [Buffer(data)], [],
                     Conn([], Some(Message(data, [], 0, 0, true))), 6, [],
                     Write(Fd(1), 0, 6, 4), [Buffer(data)], [], Conn([], Some(Sending6(data))));
  }

  lemma ThreeBytesLeave(entries: nat, data: seq<byte>)
    requires entries > 3 && |data| == 10
    ensures Run(SixSent(entries, data), ServeSteps(1, 3, 3, [], 2)) ==
            OneConnection(entries, Poll(Fd(1)), [Buffer(data)], [0],
                          Conn([Message(data, data[..9], 2, 0, false)], None))
  {
    assert data[..6] + Buffer(data)[6..9] == data[..9];
    var m := Message(data, data[..9], 2, 0, false);
    assert Finish(Conn([], Some(m))) == Conn([m], None);
    assert [] + [0] == [0];
    ConnectionServed(entries, Write(Fd(1), 0, 6, 4), [Buffer(data)], [], Conn([], Some(Sending6(data))), 3, [],
                     Poll(Fd(1)), [Buffer(data)], [0], Conn([m], None));
  }

  /** Ten bytes arrive; the first send takes six of them, the second three of the other four.
      The program then compares nine, its absolute position, with four, its remaining length,
      and takes the message for sent. */
  lemma BytesCanBeLost(entries: nat, data: seq<byte>) returns (steps: seq<Step>)
    requires entries > 3 && |data| == 10
    ensures var s := Run(Start(entries), steps);
            1 in s.conns && s.conns[1] == Conn([Message(data, data[..9], 2, 0, false)], None)
  {
    hide Run, Apply, Received, SixSent, ServeSteps;
    var a := FirstConnection(entries);
    DataArrives(entries, data);
    SixBytesLeave(entries, data);
    ThreeBytesLeave(entries, data);
    var b, c, d := ServeSteps(1, 3, 10, data, 2), ServeSteps(1, 3, 6, [], 2), ServeSteps(1, 3, 3, [], 2);
    RunConcat(Start(entries), a, b);
    RunConcat(Start(entries), a + b, c);
    RunConcat(Start(entries), a + b + c, d);
    steps := a + b + c + d;
  }
}
