/** How many buffers the echo server allocates. */
module EchoBuffers {
  import opened Words
  import opened Wrappers
  import opened EchoServer
  import opened EchoOwnership
  import opened EchoOutstanding
  import opened EchoStreams
  import opened EchoSafety
  import opened EchoConservation

  /** In every state along the run there are at most `most` connections. */
  predicate AtMost(s: State, steps: seq<Step>, most: nat)
    decreases |steps|
  {
    |s.conns| <= most && (steps == [] || AtMost(Apply(s, steps[0]), steps[1..], most))
  }

  /** Buffers that all have a holder are no more than the holders. */
  lemma {:induction false} HoldersAreEnough(tokens: map<nat, Token>, count: nat, keys: set<nat>)
    requires forall b: nat :: b < count ==> HeldAmong(tokens, keys, b)
    ensures count <= |keys|
    decreases count
  {
    if count > 0 {
      assert HeldAmong(tokens, keys, count - 1);
      var t: nat :| t in keys && Holder(tokens, t, count - 1);
      forall b: nat | b < count - 1
        ensures HeldAmong(tokens, keys - {t}, b)
      {
        assert HeldAmong(tokens, keys, b);
        var u: nat :| u in keys && Holder(tokens, u, b);
        assert u in keys - {t};
      }
      HoldersAreEnough(tokens, count - 1, keys - {t});
    }
  }

  ghost predicate HeldAmong(tokens: map<nat, Token>, keys: set<nat>, b: nat) {
    exists t: nat :: t in keys && Holder(tokens, t, b)
  }

  lemma HeldBuffers(s: State)
    requires Inv(s) && s.pool == []
    ensures |s.bufs| <= |s.conns|
  {
    var keys := s.tokens.Keys - {LISTENER};
    ConnectionTokens(s);
    ListenerIsAccept(s);
    AllHeld(s.tokens, |s.bufs|, keys);
    hide Inv;
    HoldersAreEnough(s.tokens, |s.bufs|, keys);
  }

  lemma AllHeld(tokens: map<nat, Token>, count: nat, keys: set<nat>)
    requires Ownership(tokens, [], count) && LISTENER in tokens && tokens[LISTENER].Accept?
    requires keys == tokens.Keys - {LISTENER}
    ensures forall b: nat :: b < count ==> HeldAmong(tokens, keys, b)
  {
    var pool: seq<nat> := [];
    forall b: nat | b < count
      ensures HeldAmong(tokens, keys, b)
    {
      assert b !in pool;
      var t: nat :| Holder(tokens, t, b);
      assert t in keys;
    }
  }

  /** A buffer is allocated only when the pool is empty. */
  lemma StepAllocates(s: State, step: Step)
    ensures var s' := Apply(s, step);
            |s'.bufs| <= |s.bufs| || s'.pool == []
  {
    hide Handle, PushTo, Effect, Possible, PopBacklog;
    match step
    case HandleOne(freshKey) =>
      if Handles(s, step) {
        HandleAllocates(Taken(s), s.cq[0], freshKey);
      }
    case Complete(index, ret, data) =>
      if index < |s.inflight| && Possible(s.inflight[index], ret, data) {
        EffectAllocates(MoveToCq(s, index, ret), s.inflight[index], ret, data);
      }
    case _ =>
      QueueStepFields(s, step);
      hide Apply;
  }

  lemma EffectAllocates(s: State, op: Op, ret: int, data: seq<byte>)
    requires Possible(op, ret, data)
    ensures |Effect(s, op, ret, data).bufs| == |s.bufs|
  {
  }

  lemma HandleAllocates(s: State, c: Cqe, freshKey: nat)
    ensures var s' := Handle(s, c, freshKey);
            |s'.bufs| <= |s.bufs| || s'.pool == []
  {
    hide PushOrBacklog;
    forall s: State, op
      ensures PushOrBacklog(s, op).bufs == s.bufs && PushOrBacklog(s, op).pool == s.pool
    {
      PushKeepsBuffers(s, op);
    }
  }

  lemma PushKeepsBuffers(s: State, op: Op)
    ensures PushOrBacklog(s, op).bufs == s.bufs && PushOrBacklog(s, op).pool == s.pool
  {
  }

  lemma {:induction false} RunAllocates(s: State, steps: seq<Step>, most: nat)
    requires Inv(s) && |s.bufs| <= most && AtMost(s, steps, most)
    ensures |Run(s, steps).bufs| <= most
    decreases |steps|
  {
    hide Inv, Apply;
    if steps != [] {
      ApplyKeepsInv(s, steps[0]);
      StepAllocates(s, steps[0]);
      var s' := Apply(s, steps[0]);
      if s'.pool == [] {
        HeldBuffers(s');
      }
      RunAllocates(s', steps[1..], most);
    }
  }

  /** Buffers are used again: there are never more than there were connections at a time. */
  lemma BuffersAreReused(entries: nat, steps: seq<Step>, most: nat)
    requires AtMost(Start(entries), steps, most)
    ensures |Run(Start(entries), steps).bufs| <= most
  {
    StartHolds(entries);
    RunAllocates(Start(entries), steps, most);
  }
}
