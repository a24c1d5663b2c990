/** The echo server as written: one object whose slabs, pool, backlog, budget and queues the
    event loop updates in place. Every method is proved to be a step, or a sequence of
    steps, of the machine in `EchoServer`.

    What the kernel does is given: how a submit fares and how many completions a sync shows
    are arguments; what finishes, and when, is laid out ahead, a batch for each point between
    two steps of the program. */
module TcpEcho {
  import opened Words
  import opened Wrappers
  import opened EchoServer
  import opened EchoOutstanding
  import opened EchoStreams
  import opened EchoSafety
  import opened EchoConservation
  import opened EchoTurns

  datatype Finished = Finished(index: nat, ret: int, data: seq<byte>)

  /** How one pass of the backlog loop ends. */
  datatype Pass = Again | Done | Failed

  class Server {
    var tokens: map<nat, Token>
    var bufs: seq<seq<byte>>
    var pool: seq<nat>
    var backlog: seq<Op>
    var acceptCount: nat
    var sq: Queue<Op>
    var visible: nat
    var inflight: seq<Op>
    var cq: seq<Cqe>
    var ahead: seq<seq<Finished>>
    ghost var pc: Pc
    ghost var conns: map<nat, Conn>
    ghost var closed: seq<Conn>
    ghost var lost: seq<Op>
    ghost var failedAccepts: nat

    ghost function View(): State
      reads this
    {
      State(pc, tokens, bufs, pool, backlog, acceptCount, sq, visible, inflight, cq, conns, closed, lost, failedAccepts)
    }

    constructor (entries: nat, ahead: seq<seq<Finished>>)
      ensures View() == Start(entries) && this.ahead == ahead
    {
      this.ahead := ahead;
      tokens, bufs, pool, backlog := map[LISTENER := Accept], [], [], [];
      acceptCount, sq, visible, inflight, cq := ACCEPTS, Queue(entries, 0, [], []), 0, [], [];
      pc, conns, closed, lost, failedAccepts := Accepting, map[], [], [], 0;
    }

    method SubmitAccepted(taken: nat)
      modifies this`sq, this`inflight
      ensures View() == Submit(old(View()), taken)
    {
      inflight := inflight + sq.published[..sq.Consumed(taken)];
      sq := sq.Submit(taken);
    }

    /** `AcceptCount::push_to`. */
    method PushAccepts()
      requires pc == Accepting
      modifies this`acceptCount, this`sq, this`pc
      ensures View() == Apply(old(View()), EchoServer.Step.PushAccepts) && pc == Handling
    {
      while acceptCount > 0
        invariant pc == Accepting
        invariant PushTo(View()) == PushTo(old(View()))
        invariant View() == old(View()).(acceptCount := acceptCount, sq := sq)
      {
        if sq.IsFull() {
          break;
        }
        sq := sq.Push(AcceptOp(LISTENER));
        acceptCount := acceptCount - 1;
      }
      sq := sq.Sync();
      pc := Handling;
    }

    /** One pass of the loop that cleans the backlog: an error of the submit ends the program,
        EBUSY and an empty backlog the loop. */
    method DrainPass(reply: Reply) returns (pass: Pass)
      requires pc == Drain
      modifies this`backlog, this`sq, this`inflight, this`lost, this`pc
      ensures View() == Apply(old(View()), DrainStep(old(View()), reply))
      ensures pass == if old(sq.IsFull()) && reply.Error? then Failed
                      else if (old(sq.IsFull()) && reply.Busy?) || old(backlog) == [] then Done
                      else Again
      ensures pc == match pass case Again => Drain case Done => Accepting case Failed => Stopped
      ensures pass == Again ==> |backlog| < |old(backlog)|
    {
      hide PopBacklog, Submit;
      ghost var before := View();
      if sq.IsFull() {
        match reply
        case Busy =>
          pc := Accepting;
          return Done;
        case Error =>
          pc := Stopped;
          return Failed;
        case Accepted(taken) => SubmitAccepted(taken);
      }
      assert View() == if before.sq.IsFull() then Submit(before, reply.taken) else before;
      var popped := PopFront();
      pass := if popped then Again else Done;
    }

    /** Syncs and moves the oldest entry of the backlog into the queue, or tries to. */
    method PopFront() returns (popped: bool)
      requires pc == Drain
      modifies this`backlog, this`sq, this`lost, this`pc
      ensures View() == PopBacklog(old(View()))
      ensures popped == (old(backlog) != []) && pc == if popped then Drain else Accepting
      ensures popped ==> |backlog| < |old(backlog)|
    {
      sq := sq.Sync();
      popped := backlog != [];
      if !popped {
        pc := Accepting;
      } else {
        if sq.IsFull() {
          lost := lost + [backlog[0]];
        }
        sq := sq.Push(backlog[0]);
        backlog := backlog[1..];
      }
    }

    /** The loop that cleans the backlog. It ends the program exactly on an error. */
    method DrainBacklog(replies: seq<Reply>, ghost c: Course) returns (goOn: bool, ghost c': Course)
      requires pc == Drain && Inv(View()) && c.Kept() && c.End() == View()
      requires c.Rest().turn.replies == replies && c.Rest().passes == 0
      modifies this
      ensures Inv(View()) && c'.Kept() && c'.SameOrigin(c) && c'.End() == View()
      ensures c'.Rest().turn == c.Rest().turn && c'.Rest().turns == c.Rest().turns
      ensures pc == if goOn then Accepting else Stopped
    {
      hide Inv, Apply, DrainStep;
      c' := c;
      var pass, i := Again, 0;
      while pass == Again
        invariant pc == match pass case Again => Drain case Done => Accepting case Failed => Stopped
        invariant Inv(View()) && c'.Kept() && c'.SameOrigin(c) && c'.End() == View()
        invariant c'.Rest().turn == c.Rest().turn && c'.Rest().turns == c.Rest().turns
        invariant pass == Again ==> c'.Rest().passes == i
        decreases pass == Again, |backlog|
      {
        c' := KernelRuns(c');
        ghost var s, step := View(), DrainStep(View(), ReplyAt(replies, i));
        DrainIsOwn(s, ReplyAt(replies, i));
        pass := DrainPass(ReplyAt(replies, i));
        ApplyKeepsInv(s, step);
        c' := Then(c', step);
        i := i + 1;
      }
      goOn := pass == Done;
    }

    /** The next batch of operations finishes. */
    method KernelRuns(ghost c: Course) returns (ghost c': Course)
      requires Inv(View()) && c.Kept() && c.End() == View()
      modifies this`ahead, this`inflight, this`cq, this`bufs, this`conns
      ensures Inv(View()) && c'.Kept() && c'.SameOrigin(c) && c'.End() == View() && c'.Rest() == c.Rest()
    {
      hide Inv, Apply;
      c' := c;
      if ahead != [] {
        var batch := ahead[0];
        ahead := ahead[1..];
        for i := 0 to |batch|
          invariant Inv(View()) && c'.Kept() && c'.SameOrigin(c) && c'.End() == View() && c'.Rest() == c.Rest()
        {
          KernelFinishes(batch[i]);
          c' := Then(c', Complete(batch[i].index, batch[i].ret, batch[i].data));
        }
      }
    }

    method PushOrDefer(op: Op)
      modifies this`sq, this`backlog
      ensures View() == PushOrBacklog(old(View()), op)
    {
      if sq.IsFull() {
        backlog := backlog + [op];
      } else {
        sq := sq.Push(op);
      }
    }

    /** A vacant key of the token slab. */
    method VacantKey() returns (key: nat)
      ensures key !in tokens
    {
      key := 0;
      ghost var below: set<nat> := {};
      while key in tokens
        invariant below <= tokens.Keys && |below| == key && forall k <- below :: k < key
        decreases |tokens.Keys - below|
      {
        ghost var larger := below + {key};
        assert tokens.Keys - larger < tokens.Keys - below by {
          assert key in tokens.Keys - below && key !in tokens.Keys - larger;
        }
        SmallerSet(tokens.Keys - larger, tokens.Keys - below);
        below := larger;
        key := key + 1;
      }
    }

    method Accepted(fd: int, freshKey: nat)
      modifies this`acceptCount, this`conns, this`tokens, this`sq, this`backlog
      ensures View() == HandleAccept(old(View()), fd, freshKey)
    {
      hide PushOrBacklog;
      acceptCount := acceptCount + 1;
      conns := conns[freshKey := Conn([], None)];
      tokens := tokens[freshKey := Poll(fd)];
      PushOrDefer(PollOp(fd, freshKey));
    }

    method Ready(t: nat, fd: int)
      requires pool != [] ==> pool[|pool| - 1] < |bufs|
      modifies this`pool, this`bufs, this`tokens, this`sq, this`backlog
      ensures View() == HandlePoll(old(View()), t, fd)
    {
      hide PushOrBacklog;
      var buf: nat;
      if pool != [] {
        buf := pool[|pool| - 1];
        pool := pool[..|pool| - 1];
      } else {
        buf := |bufs|;
        bufs := bufs + [seq(BUF_LEN, _ => 0)];
      }
      tokens := tokens[t := Read(fd, buf)];
      PushOrDefer(RecvOp(fd, buf, t));
    }

    method Received(t: nat, fd: int, buf: nat, ret: nat)
      requires buf < |bufs|
      modifies this`pool, this`conns, this`closed, this`tokens, this`sq, this`backlog
      ensures View() == HandleRead(old(View()), t, fd, buf, ret)
    {
      hide PushOrBacklog;
      if ret == 0 {
        pool := pool + [buf];
        closed := if t in conns then closed + [conns[t]] else closed;
        conns := conns - {t};
        tokens := tokens - {t};
      } else {
        tokens := tokens[t := Write(fd, buf, 0, ret)];
        PushOrDefer(SendOp(fd, buf, 0, ret, t));
      }
    }

    method Sent(t: nat, fd: int, buf: nat, offset: nat, len: nat, written: nat)
      requires offset + written < len ==> buf < |bufs| && offset + written <= |bufs[buf]|
      modifies this`pool, this`conns, this`tokens, this`sq, this`backlog
      ensures View() == HandleWrite(old(View()), t, Write(fd, buf, offset, len), written)
    {
      hide PushOrBacklog;
      if offset + written >= len {
        pool := pool + [buf];
        conns := if t in conns then conns[t := Finish(conns[t])] else conns;
        tokens := tokens[t := Poll(fd)];
        PushOrDefer(PollOp(fd, t));
      } else {
        var newOffset := offset + written;
        var newLen := len - newOffset;
        tokens := tokens[t := Write(fd, buf, newOffset, newLen)];
        PushOrDefer(SendOp(fd, buf, newOffset, newLen, t));
      }
    }

    /** The body of the completion loop. */
    method HandleCompletion() returns (ghost step: Step)
      requires pc == Handling && 0 < visible <= |cq| && Inv(View())
      modifies this
      ensures step.HandleOne? && step.freshKey !in old(tokens)
      ensures View() == Apply(old(View()), step)
      ensures Inv(View()) && pc == Handling && visible == old(visible) - 1
    {
      hide Inv, HandleAccept, HandlePoll, HandleRead, HandleWrite;
      ghost var s := View();
      var freshKey := VacantKey();
      step := HandleOne(freshKey);
      ApplyKeepsInv(s, step);
      HandlingStaysInBounds(s);
      HandleKeepsPc(Taken(s), s.cq[0], freshKey);
      InvMeansRunning(Apply(s, step));
      var c := cq[0];
      cq, visible := cq[1..], visible - 1;
      assert View() == Taken(s);
      if c.ret < 0 {
        failedAccepts := failedAccepts + if c.op.AcceptOp? then 1 else 0;
        return;
      }
      var t := c.op.token;
      match tokens[t]
      case Accept => Accepted(c.ret, freshKey);
      case Poll(fd) => Ready(t, fd);
      case Read(fd, buf) => Received(t, fd, buf, c.ret);
      case Write(fd, buf, offset, len) => Sent(t, fd, buf, offset, len, c.ret);
    }

    /** An operation of the kernel's finishes. */
    method KernelFinishes(f: Finished)
      requires Inv(View())
      modifies this`inflight, this`cq, this`bufs, this`conns
      ensures View() == Apply(old(View()), Complete(f.index, f.ret, f.data)) && Inv(View())
    {
      hide Inv, Effect, Possible;
      ghost var s := View();
      ApplyKeepsInv(s, Complete(f.index, f.ret, f.data));
      InvMeansRunning(s);
      InvMeansRunning(Apply(s, Complete(f.index, f.ret, f.data)));
      if f.index < |inflight| && Possible(inflight[f.index], f.ret, f.data) {
        var op := inflight[f.index];
        EffectFields(MoveToCq(s, f.index, f.ret), op, f.ret, f.data);
        if op.RecvOp? && f.ret > 0 {
          bufs := bufs[op.buf := f.data + bufs[op.buf][f.ret..]];
        }
        inflight := inflight[..f.index] + inflight[f.index + 1..];
        cq := cq + [Cqe(op, f.ret)];
        conns := Effect(MoveToCq(s, f.index, f.ret), op, f.ret, f.data).conns;
      }
    }

    /** Handles every completion seen, then goes back to the top of the loop. */
    method HandleCompletions(ghost c: Course) returns (ghost c': Course)
      requires pc == Handling && Inv(View()) && c.Kept() && c.End() == View()
      modifies this
      ensures Inv(View()) && c'.Kept() && c'.SameOrigin(c) && c'.End() == View() && c'.Rest() == c.Rest()
      ensures pc == Top && visible == 0
    {
      hide Inv, Apply;
      c' := c;
      while visible > 0
        invariant pc == Handling
        invariant Inv(View()) && c'.Kept() && c'.SameOrigin(c) && c'.End() == View() && c'.Rest() == c.Rest()
        decreases visible
      {
        c' := KernelRuns(c');
        InvMeansRunning(View());
        ghost var step := HandleCompletion();
        c' := Then(c', step);
      }
      ghost var s := View();
      pc := Top;
      ApplyKeepsInv(s, HandleOne(0));
      BackToTop(s);
      c' := Then(c', HandleOne(0));
    }

    /** `submit_and_wait(1)`, with its three outcomes: only an error ends the program. */
    method Wait(reply: Reply, ghost c: Course) returns (goOn: bool, ghost c': Course)
      requires pc == Top && Inv(View()) && c.Kept() && c.End() == View()
      requires c.Rest().turns != [] && c.Rest().turns[0].wait == reply
      modifies this
      ensures Inv(View()) && c'.Kept() && c'.SameOrigin(c) && c'.End() == View()
      ensures c'.Rest() == Script(c.Rest().turns[0], 0, c.Rest().turns[1..])
      ensures (goOn <==> !reply.Error?) && visible == old(visible) && pc == if goOn then CqSync else Stopped
    {
      hide Inv;
      ghost var s := View();
      goOn := !reply.Error?;
      match reply {
        case Error => pc := Stopped;
        case Busy => pc := CqSync;
        case Accepted(taken) =>
          SubmitAccepted(taken);
          pc := CqSync;
      }
      ApplyKeepsInv(s, WaitStep(reply));
      c' := Then(c, WaitStep(reply));
    }

    /** `cq.sync()` shows as many completions as it may, of those that are there. */
    method SyncCompletions(seen: nat, ghost c: Course) returns (ghost c': Course)
      requires pc == CqSync && Inv(View()) && c.Kept() && c.End() == View() && c.Rest().turn.seen == seen
      modifies this
      ensures Inv(View()) && c'.Kept() && c'.SameOrigin(c) && c'.End() == View() && c'.Rest() == c.Rest()
      ensures pc == Drain && visible == Min(seen, |old(cq)|) && cq == old(cq)
    {
      hide Inv;
      ghost var s := View();
      visible, pc := Min(seen, |cq|), Drain;
      ApplyKeepsInv(s, EchoServer.Step.SyncCompletions(visible));
      c' := Then(c, EchoServer.Step.SyncCompletions(visible));
    }

    /** The backlog loop and the accepts after it. */
    method FillQueue(replies: seq<Reply>, ghost c: Course) returns (goOn: bool, ghost c': Course)
      requires pc == Drain && Inv(View()) && c.Kept() && c.End() == View()
      requires c.Rest().turn.replies == replies && c.Rest().passes == 0
      modifies this
      ensures Inv(View()) && c'.Kept() && c'.SameOrigin(c) && c'.End() == View()
      ensures c'.Rest().turns == c.Rest().turns
      ensures pc == if goOn then Handling else Stopped
    {
      hide Inv, Apply;
      goOn, c' := DrainBacklog(replies, c);
      if goOn {
        c' := KernelRuns(c');
        ghost var s := View();
        PushAccepts();
        ApplyKeepsInv(s, EchoServer.Step.PushAccepts);
        c' := Then(c', EchoServer.Step.PushAccepts);
      }
    }

    /** One turn of the event loop, ending at its top or, after an error, for good. It does
        what the program owes for this turn, all of it, and so achieves what a turn should. */
    method RunTurn(turn: Turn) returns (goOn: bool, ghost steps: seq<Step>)
      requires pc == Top && Inv(View())
      modifies this
      ensures Inv(View()) && View() == Run(old(View()), steps)
      ensures Serves(old(View()), turn, steps) && Achieves(old(View()), turn, steps)
      ensures pc == (if goOn then Top else Stopped) && (goOn ==> visible == 0)
      ensures goOn <==> Error !in AskedIn(old(View()), Script(turn, 0, [turn]), steps)
    {
      hide Inv, Apply, Achieves;
      ghost var start := View();
      ghost var c := Course(start, Script(turn, 0, [turn]), []);
      c := KernelRuns(c);
      goOn, c := Wait(turn.wait, c);
      if goOn {
        c := KernelRuns(c);
        c := SyncCompletions(turn.seen, c);
        goOn, c := FillQueue(turn.replies, c);
        if goOn {
          c := HandleCompletions(c);
        }
      }
      steps := c.steps;
      TurnAchieves(start, turn, steps);
      StopsExactlyOnError(start, Script(turn, 0, [turn]), steps);
    }

    /** What comes before the loop: the first accepts. */
    method Begin() returns (ghost first: seq<Step>)
      requires pc == Accepting && visible == 0 && Inv(View())
      modifies this
      ensures Inv(View()) && View() == Run(old(View()), first) && pc == Top && visible == 0
      ensures Keeps(old(View()), NoTurns(), first)
    {
      hide Inv, Apply;
      ghost var start := View();
      ghost var c := Course(start, NoTurns(), []);
      PushAccepts();
      ApplyKeepsInv(start, EchoServer.Step.PushAccepts);
      c := Then(c, EchoServer.Step.PushAccepts);
      c := HandleCompletions(c);
      first := c.steps;
    }

    /** The program: first accepts, then turn after turn until an error. Whatever the kernel
        does in however many turns, and whenever, the run is one of the machine's, and every
        turn up to the first error is served. */
    method Serve(turns: seq<Turn>) returns (ghost first: seq<Step>, ghost runs: seq<seq<Step>>)
      requires pc == Accepting && visible == 0 && Inv(View())
      modifies this
      ensures Inv(View()) && View() == RunAll(Run(old(View()), first), runs)
      ensures Run(old(View()), first).pc == Top && Keeps(old(View()), NoTurns(), first)
      ensures |runs| <= |turns| && AllServed(Run(old(View()), first), turns[..|runs|], runs)
      ensures (pc == Top && |runs| == |turns|) || (pc == Stopped && runs != [])
    {
      hide Inv, Apply, AllServed, RunAll, Serves, Achieves, Run, Keeps;
      first := Begin();
      runs := [];
      ghost var top := View();
      NoneServed(top);
      var i, goOn := 0, true;
      while goOn && i < |turns|
        invariant 0 <= i == |runs| <= |turns| && (goOn || runs != [])
        invariant pc == (if goOn then Top else Stopped) && Inv(View())
        invariant View() == RunAll(top, runs) && AllServed(top, turns[..i], runs)
      {
        ghost var steps;
        goOn, steps := RunTurn(turns[i]);
        ServedOneMore(top, turns[..i], runs, turns[i], steps);
        assert turns[..i] + [turns[i]] == turns[..i + 1];
        runs := runs + [steps];
        i := i + 1;
      }
    }
  }

  lemma SmallerSet(a: set<nat>, b: set<nat>)
    requires a < b
    ensures |a| < |b|
  {
    var x :| x in b && x !in a;
    assert a <= b - {x};
    SubsetSize(a, b - {x});
  }

  lemma {:induction false} SubsetSize(a: set<nat>, b: set<nat>)
    requires a <= b
    ensures |a| <= |b|
    decreases |a|
  {
    if a != {} {
      var x :| x in a;
      SubsetSize(a - {x}, b - {x});
    }
  }
}
