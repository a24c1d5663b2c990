/** What the program does next, given what the kernel replies, and what one turn of its loop
    achieves: which completions are handled, what becomes of the backlog, and when it stops. */
module EchoTurns {
  import opened Words
  import opened Wrappers
  import opened EchoServer
  import opened EchoOutstanding
  import opened EchoStreams
  import opened EchoSafety
  import opened EchoConservation

  /** How a submit fares. */
  datatype Reply = Accepted(taken: nat) | Busy | Error

  /** What one turn meets: the reply to its wait, how many completions its sync may show, and
      the replies to the submits of its backlog loop, pass by pass. */
  datatype Turn = Turn(wait: Reply, seen: nat, replies: seq<Reply>)

  /** The turn under way, how many passes of its backlog loop are done, and the turns to come. */
  datatype Script = Script(turn: Turn, passes: nat, turns: seq<Turn>)

  function NoTurns(): Script {
    Script(Turn(Busy, 0, []), 0, [])
  }

  function ReplyAt(replies: seq<Reply>, i: nat): Reply {
    if i < |replies| then replies[i] else Accepted(0)
  }

  function WaitStep(reply: Reply): Step {
    match reply
    case Accepted(taken) => SubmitAndWait(taken)
    case Busy => SubmitBusy
    case Error => SubmitFails
  }

  /** The backlog loop submits only when the queue is full. */
  function DrainStep(s: State, reply: Reply): Step {
    if !s.sq.IsFull() then DrainOne(0)
    else
      match reply
      case Accepted(taken) => DrainOne(taken)
      case Busy => DrainBusy
      case Error => SubmitFails
  }

  /** The program's next step. */
  predicate Due(s: State, script: Script, step: Step) {
    match s.pc
    case Top => script.turns != [] && step == WaitStep(script.turns[0].wait)
    case CqSync => step == SyncCompletions(Min(script.turn.seen, |s.cq|))
    case Drain => step == DrainStep(s, ReplyAt(script.turn.replies, script.passes))
    case Accepting => step == PushAccepts
    case Handling => step.HandleOne? && (s.visible > 0 ==> step.freshKey !in s.tokens)
    case _ => false
  }

  function Next(s: State, script: Script, step: Step): Script {
    if step.Complete? then script
    else
      match s.pc
      case Top => if script.turns == [] then script else Script(script.turns[0], 0, script.turns[1..])
      case Drain => script.(passes := script.passes + 1)
      case _ => script
  }

  function After(s: State, script: Script, steps: seq<Step>): Script
    decreases |steps|
  {
    if steps == [] then script else After(Apply(s, steps[0]), Next(s, script, steps[0]), steps[1..])
  }

  /** Every step is one the program owes, or an operation finishing. */
  predicate Keeps(s: State, script: Script, steps: seq<Step>)
    decreases |steps|
  {
    steps == [] ||
    (&& (steps[0].Complete? || Due(s, script, steps[0]))
     && Keeps(Apply(s, steps[0]), Next(s, script, steps[0]), steps[1..]))
  }

  /** `steps` is what the program does with `turn` from the top of its loop until it is back
      there or has stopped. */
  predicate Serves(s: State, turn: Turn, steps: seq<Step>) {
    && Keeps(s, Script(turn, 0, [turn]), steps)
    && After(s, Script(turn, 0, [turn]), steps).turns == []
    && Run(s, steps).pc in {Top, Stopped}
  }

  /** A run under way, in which the program has done what it owes. */
  datatype Course = Course(start: State, script: Script, steps: seq<Step>)
  {
    function End(): State {
      Run(start, steps)
    }

    function Rest(): Script {
      After(start, script, steps)
    }

    predicate Kept() {
      Keeps(start, script, steps)
    }

    predicate SameOrigin(c: Course) {
      start == c.start && script == c.script
    }
  }

  ghost function Then(c: Course, step: Step): (c': Course)
    requires c.Kept() && (step.Complete? || Due(c.End(), c.Rest(), step))
    ensures c'.Kept() && c'.SameOrigin(c)
    ensures c'.End() == Apply(c.End(), step) && c'.Rest() == Next(c.End(), c.Rest(), step)
  {
    OneMoreStep(c.start, c.script, c.steps, step);
    RunOneMore(c.start, c.steps, step);
    c.(steps := c.steps + [step])
  }

  lemma {:induction false} OneMoreStep(s: State, script: Script, steps: seq<Step>, step: Step)
    requires Keeps(s, script, steps)
    requires step.Complete? || Due(Run(s, steps), After(s, script, steps), step)
    ensures Keeps(s, script, steps + [step])
    ensures After(s, script, steps + [step]) == Next(Run(s, steps), After(s, script, steps), step)
    decreases |steps|
  {
    hide Apply, Next, Due;
    if steps == [] {
      assert ([step])[1..] == [] && steps + [step] == [step];
    } else {
      assert (steps + [step])[1..] == steps[1..] + [step];
      OneMoreStep(Apply(s, steps[0]), Next(s, script, steps[0]), steps[1..], step);
    }
  }

  // ---------------------------------------------------------------- records of a run

  function HandledIn(s: State, steps: seq<Step>): seq<Cqe>
    decreases |steps|
  {
    if steps == [] then []
    else (if Handles(s, steps[0]) then [s.cq[0]] else []) + HandledIn(Apply(s, steps[0]), steps[1..])
  }

  /** The step finishes an operation. */
  predicate Finishes(s: State, step: Step) {
    && step.Complete? && step.index < |s.inflight| && s.pc != Crashed
    && Possible(s.inflight[step.index], step.ret, step.data)
  }

  function FinishedIn(s: State, steps: seq<Step>): seq<Cqe>
    decreases |steps|
  {
    if steps == [] then []
    else
      (if Finishes(s, steps[0]) then [Cqe(s.inflight[steps[0].index], steps[0].ret)] else [])
      + FinishedIn(Apply(s, steps[0]), steps[1..])
  }

  /** The step takes an entry from the backlog. */
  predicate Pops(s: State, step: Step) {
    step.DrainOne? && s.pc == Drain && s.backlog != []
  }

  function PoppedIn(s: State, steps: seq<Step>): seq<Op>
    decreases |steps|
  {
    if steps == [] then []
    else (if Pops(s, steps[0]) then [s.backlog[0]] else []) + PoppedIn(Apply(s, steps[0]), steps[1..])
  }

  /** The reply the step meets. */
  function AskedBy(s: State, script: Script, step: Step): seq<Reply> {
    if step.Complete? then []
    else if s.pc == Top && script.turns != [] then [script.turns[0].wait]
    else if s.pc == Drain && s.sq.IsFull() then [ReplyAt(script.turn.replies, script.passes)]
    else []
  }

  /** The replies to submits along a run. */
  function AskedIn(s: State, script: Script, steps: seq<Step>): seq<Reply>
    decreases |steps|
  {
    if steps == [] then []
    else
      AskedBy(s, script, steps[0]) + AskedIn(Apply(s, steps[0]), Next(s, script, steps[0]), steps[1..])
  }

  /** The completions there when the first sync of the run looks. */
  function AtSync(s: State, steps: seq<Step>): seq<Cqe>
    decreases |steps|
  {
    if steps == [] then []
    else if steps[0].SyncCompletions? && s.pc == CqSync then s.cq
    else AtSync(Apply(s, steps[0]), steps[1..])
  }

  // ---------------------------------------------------------------- first come, first served

  lemma HandleKeepsCq(s: State, c: Cqe, freshKey: nat)
    ensures Handle(s, c, freshKey).cq == s.cq
  {
    hide PushOrBacklog;
    forall s: State, op
      ensures PushOrBacklog(s, op).cq == s.cq
    {
      PushKeepsCq(s, op);
    }
  }

  lemma PushKeepsCq(s: State, op: Op)
    ensures PushOrBacklog(s, op).cq == s.cq
  {
  }

  lemma EffectKeepsCq(s: State, op: Op, ret: int, data: seq<byte>)
    requires Possible(op, ret, data)
    ensures Effect(s, op, ret, data).cq == s.cq
  {
  }

  /** A step takes the oldest completion, or adds one behind the others, or leaves them be. */
  lemma StepOnCompletions(s: State, step: Step)
    ensures var s' := Apply(s, step);
            s'.cq == if Handles(s, step) then s.cq[1..]
                     else if Finishes(s, step) then s.cq + [Cqe(s.inflight[step.index], step.ret)]
                     else s.cq
  {
    hide Handle, Effect, PushTo, Possible;
    match step
    case HandleOne(freshKey) =>
      if Handles(s, step) {
        HandleKeepsCq(Taken(s), s.cq[0], freshKey);
      }
    case PushAccepts => PushToFields(s);
    case Complete(index, ret, data) =>
      if Finishes(s, step) {
        EffectKeepsCq(MoveToCq(s, index, ret), s.inflight[index], ret, data);
      }
    case _ =>
  }

  /** Over any run: the completions handled and those still there are the ones that were there
      and those that came, in the order they came. */
  lemma {:induction false} CompletionsAreHandledInOrder(s: State, steps: seq<Step>)
    ensures HandledIn(s, steps) + Run(s, steps).cq == s.cq + FinishedIn(s, steps)
    decreases |steps|
  {
    if steps == [] {
      assert [] + s.cq == s.cq + [];
    } else {
      StepOnCompletions(s, steps[0]);
      hide Apply, Possible;
      var s' := Apply(s, steps[0]);
      var handled := if Handles(s, steps[0]) then [s.cq[0]] else [];
      var finished := if Finishes(s, steps[0]) then [Cqe(s.inflight[steps[0].index], steps[0].ret)] else [];
      assert handled + s'.cq == s.cq + finished;
      CompletionsAreHandledInOrder(s', steps[1..]);
      Chain(handled, HandledIn(s', steps[1..]), Run(s', steps[1..]).cq, s'.cq, s.cq, finished,
            FinishedIn(s', steps[1..]));
    }
  }

  lemma Chain<T>(out: seq<T>, outs: seq<T>, end: seq<T>, mid: seq<T>, start: seq<T>, entered: seq<T>, more: seq<T>)
    requires out + mid == start + entered && outs + end == mid + more
    ensures (out + outs) + end == start + (entered + more)
  {
    assert (out + outs) + end == out + (outs + end);
    assert out + (mid + more) == (out + mid) + more;
    assert (start + entered) + more == start + (entered + more);
  }

  // ---------------------------------------------------------------- one step of the program

  /** An operation finishing leaves alone what the program decides from. */
  lemma FinishingFields(s: State, step: Step)
    requires Inv(s) && step.Complete?
    ensures var s' := Apply(s, step);
            && Inv(s') && s'.pc == s.pc && s'.visible == s.visible && s'.backlog == s.backlog && s'.sq == s.sq
            && s'.acceptCount == s.acceptCount && s'.tokens == s.tokens
            && s.cq <= s'.cq && !Handles(s, step) && !Pops(s, step)
  {
    hide Inv, Apply, Possible;
    ApplyKeepsInv(s, step);
    InvMeansRunning(s);
    InvMeansRunning(Apply(s, step));
    StepOnCompletions(s, step);
    CompleteFields(s, step);
  }

  lemma CompleteFields(s: State, step: Step)
    requires step.Complete?
    ensures var s' := Apply(s, step);
            && (s'.pc == s.pc || s'.pc == Crashed) && s'.visible == s.visible && s'.backlog == s.backlog
            && s'.sq == s.sq && s'.acceptCount == s.acceptCount && s'.tokens == s.tokens
  {
    hide Effect, Possible;
    if step.index < |s.inflight| && Possible(s.inflight[step.index], step.ret, step.data) {
      EffectFields(MoveToCq(s, step.index, step.ret), s.inflight[step.index], step.ret, step.data);
    }
  }

  lemma WaitFields(s: State, reply: Reply)
    requires s.pc == Top
    ensures var s' := Apply(s, WaitStep(reply));
            && s'.pc == (if reply.Error? then Stopped else CqSync)
            && s'.visible == s.visible && s'.cq == s.cq && s'.backlog == s.backlog
  {
  }

  lemma DrainFields(s: State, reply: Reply)
    requires s.pc == Drain
    ensures var step, s' := DrainStep(s, reply), Apply(s, DrainStep(s, reply));
            && s'.visible == s.visible && s'.cq == s.cq
            && (if s.sq.IsFull() && reply.Error? then s'.pc == Stopped && !Pops(s, step)
                else if s.sq.IsFull() && reply.Busy? then s'.pc == Accepting && !Pops(s, step)
                else if s.backlog == [] then s'.pc == Accepting && s'.backlog == [] && !Pops(s, step)
                else s'.pc == Drain && s'.backlog == s.backlog[1..] && Pops(s, step))
  {
  }

  lemma AcceptsFields(s: State)
    requires s.pc == Accepting
    ensures var s' := Apply(s, PushAccepts);
            s'.pc == Handling && s'.visible == s.visible && s'.cq == s.cq && s'.backlog == s.backlog
  {
    hide PushTo;
    PushToFields(s);
  }

  lemma HandlingFields(s: State, step: Step)
    requires Inv(s) && s.pc == Handling && step.HandleOne? && (s.visible > 0 ==> step.freshKey !in s.tokens)
    ensures var s' := Apply(s, step);
            && Inv(s')
            && (if s.visible == 0 then s'.pc == Top && s'.visible == 0 && s'.cq == s.cq && !Handles(s, step)
                else s'.pc == Handling && s'.visible == s.visible - 1 && s'.cq == s.cq[1..] && Handles(s, step))
  {
    hide Inv, Apply;
    ApplyKeepsInv(s, step);
    InvMeansRunning(s);
    InvMeansRunning(Apply(s, step));
    StepOnCompletions(s, step);
    HandleOneFields(s, step);
  }

  lemma HandleOneFields(s: State, step: Step)
    requires s.pc == Handling && step.HandleOne? && s.visible <= |s.cq|
    requires s.visible > 0 ==> step.freshKey !in s.tokens
    ensures var s' := Apply(s, step);
            if s.visible == 0 then s'.pc == Top && s'.visible == 0 && !Handles(s, step)
            else (s'.pc == Handling || s'.pc == Crashed) && s'.visible == s.visible - 1 && Handles(s, step)
  {
    hide Handle;
    if s.visible > 0 {
      HandleKeepsPc(Taken(s), s.cq[0], step.freshKey);
    }
  }

  // ---------------------------------------------------------------- when the program stops

  lemma {:induction false} StoppedStays(s: State, script: Script, steps: seq<Step>)
    requires Inv(s) && s.pc == Stopped && Keeps(s, script, steps)
    ensures Run(s, steps).pc == Stopped && AskedIn(s, script, steps) == []
    decreases |steps|
  {
    if steps != [] {
      FinishingFields(s, steps[0]);
      hide Inv, Apply;
      StoppedStays(Apply(s, steps[0]), script, steps[1..]);
    }
  }

  /** The program stops exactly when a reply it gets is an error other than EBUSY. */
  lemma {:induction false} StopsExactlyOnError(s: State, script: Script, steps: seq<Step>)
    requires Inv(s) && s.pc != Stopped && Keeps(s, script, steps)
    ensures Run(s, steps).pc == Stopped <==> Error in AskedIn(s, script, steps)
    decreases |steps|
  {
    if steps != [] {
      var s', script' := Apply(s, steps[0]), Next(s, script, steps[0]);
      ApplyKeepsInv(s, steps[0]);
      StepStops(s, script, steps[0]);
      hide Inv, Apply, Next, DrainStep, WaitStep;
      if s'.pc == Stopped {
        StoppedStays(s', script', steps[1..]);
      } else {
        StopsExactlyOnError(s', script', steps[1..]);
      }
    }
  }

  lemma StepStops(s: State, script: Script, step: Step)
    requires Inv(s) && s.pc != Stopped && (step.Complete? || Due(s, script, step))
    ensures Apply(s, step).pc == Stopped <==>
              && !step.Complete?
              && (if s.pc == Top then script.turns[0].wait == Error
                  else s.pc == Drain && s.sq.IsFull() && ReplyAt(script.turn.replies, script.passes) == Error)
    ensures !step.Complete? && s.pc == Top ==> script.turns != []
  {
    if step.Complete? {
      FinishingFields(s, step);
      hide Inv, Apply;
    } else {
      match s.pc
      case Top =>
        WaitFields(s, script.turns[0].wait);
        hide Inv, Apply;
      case Drain =>
        DrainFields(s, ReplyAt(script.turn.replies, script.passes));
        hide Inv, Apply;
      case Accepting =>
        AcceptsFields(s);
        hide Inv, Apply;
      case Handling =>
        HandlingFields(s, step);
        hide Inv, Apply;
      case _ => hide Inv;
    }
  }

  // ---------------------------------------------------------------- what a turn achieves

  /** What is still to happen from inside a turn to its end. */
  datatype Outlook = Outlook(handled: seq<Cqe>, atSync: seq<Cqe>, busy: bool, popped: seq<Op>, issues: bool)

  ghost function OutlookOf(s: State, script: Script, steps: seq<Step>): Outlook {
    Outlook(HandledIn(s, steps), AtSync(s, steps), Busy in AskedIn(s, script, steps), PoppedIn(s, steps),
            IssuesAccepts(s, steps))
  }

  /** It is what it should be, given where the program is, what it can see and what waits. */
  ghost predicate Fits(pc: Pc, visible: nat, cq: seq<Cqe>, backlog: seq<Op>, seen: nat, o: Outlook) {
    && visible <= |cq|
    && o.handled == (if pc == Top then []
                     else if pc == CqSync then o.atSync[..Min(seen, |o.atSync|)]
                     else cq[..visible])
    && (!o.busy ==> o.popped == if pc == CqSync || pc == Drain then backlog else [])
    && (pc in {CqSync, Drain, Accepting} ==> o.issues)
  }

  ghost predicate TurnEnds(s: State, script: Script, steps: seq<Step>) {
    Fits(s.pc, s.visible, s.cq, s.backlog, script.turn.seen, OutlookOf(s, script, steps))
  }

  /** Step `i` of the run is where the accepts are issued. */
  predicate AcceptsAt(s: State, steps: seq<Step>, i: int) {
    0 <= i < |steps| && steps[i] == PushAccepts && Run(s, steps[..i]).pc == Accepting
  }

  ghost predicate IssuesAccepts(s: State, steps: seq<Step>) {
    exists i :: AcceptsAt(s, steps, i)
  }

  lemma AcceptsLater(s: State, steps: seq<Step>)
    requires steps != [] && IssuesAccepts(Apply(s, steps[0]), steps[1..])
    ensures IssuesAccepts(s, steps)
  {
    var i :| AcceptsAt(Apply(s, steps[0]), steps[1..], i);
    assert steps[..i + 1][1..] == steps[1..][..i];
    assert AcceptsAt(s, steps, i + 1);
  }

  lemma AcceptsNow(s: State, steps: seq<Step>)
    requires steps != [] && steps[0] == PushAccepts && s.pc == Accepting
    ensures IssuesAccepts(s, steps)
  {
    assert Run(s, steps[..0]) == s;
    assert AcceptsAt(s, steps, 0);
  }

  /** What the first step adds to each record. */
  lemma RecordsUnfold(s: State, steps: seq<Step>)
    requires steps != []
    ensures var step, s', rest := steps[0], Apply(s, steps[0]), steps[1..];
            && Run(s, steps) == Run(s', rest)
            && HandledIn(s, steps) == (if Handles(s, step) then [s.cq[0]] + HandledIn(s', rest)
                                       else HandledIn(s', rest))
            && PoppedIn(s, steps) == (if Pops(s, step) then [s.backlog[0]] + PoppedIn(s', rest) else PoppedIn(s', rest))
            && AtSync(s, steps) == (if step.SyncCompletions? && s.pc == CqSync then s.cq else AtSync(s', rest))
  {
    hide Apply;
    var s', rest := Apply(s, steps[0]), steps[1..];
    assert [] + HandledIn(s', rest) == HandledIn(s', rest) && [] + PoppedIn(s', rest) == PoppedIn(s', rest);
  }

  lemma AskedUnfolds(s: State, script: Script, steps: seq<Step>)
    requires steps != []
    ensures AskedIn(s, script, steps) ==
            AskedBy(s, script, steps[0]) + AskedIn(Apply(s, steps[0]), Next(s, script, steps[0]), steps[1..])
  {
    hide Apply, Next;
  }

  lemma {:induction false} TurnsShrink(s: State, script: Script, steps: seq<Step>)
    ensures |After(s, script, steps).turns| <= |script.turns|
    decreases |steps|
  {
    if steps != [] {
      TurnsShrink(Apply(s, steps[0]), Next(s, script, steps[0]), steps[1..]);
    }
  }

  /** How the first step changes the outlook. */
  lemma OutlookUnfolds(s: State, script: Script, steps: seq<Step>)
    requires steps != []
    ensures var step, s' := steps[0], Apply(s, steps[0]);
            var o, o' := OutlookOf(s, script, steps), OutlookOf(s', Next(s, script, step), steps[1..]);
            && o.handled == (if Handles(s, step) then [s.cq[0]] + o'.handled else o'.handled)
            && o.popped == (if Pops(s, step) then [s.backlog[0]] + o'.popped else o'.popped)
            && o.atSync == (if step.SyncCompletions? && s.pc == CqSync then s.cq else o'.atSync)
            && (o.busy <==> Busy in AskedBy(s, script, step) || o'.busy)
            && (o'.issues || (step == PushAccepts && s.pc == Accepting) ==> o.issues)
  {
    RecordsUnfold(s, steps);
    AskedUnfolds(s, script, steps);
    hide Apply, Next, Run, HandledIn, PoppedIn, AtSync, AskedIn, AskedBy, IssuesAccepts;
    if IssuesAccepts(Apply(s, steps[0]), steps[1..]) {
      AcceptsLater(s, steps);
    }
    if steps[0] == PushAccepts && s.pc == Accepting {
      AcceptsNow(s, steps);
    }
  }

  lemma FitsBeforeFinish(pc: Pc, visible: nat, cq: seq<Cqe>, cq': seq<Cqe>, backlog: seq<Op>, seen: nat, o: Outlook,
                         o': Outlook)
    requires Fits(pc, visible, cq', backlog, seen, o') && cq <= cq' && visible <= |cq|
    requires o == o'.(issues := o.issues) && (o'.issues ==> o.issues)
    ensures Fits(pc, visible, cq, backlog, seen, o)
  {
    assert cq'[..visible] == cq[..visible];
  }

  lemma OthersMeetNothing(s: State, script: Script, step: Step)
    requires s.pc in {CqSync, Accepting, Handling} && Due(s, script, step)
    ensures AskedBy(s, script, step) == [] && !Pops(s, step) && Next(s, script, step) == script
    ensures match s.pc
            case CqSync => step == SyncCompletions(Min(script.turn.seen, |s.cq|)) && !Handles(s, step)
            case Accepting => step == PushAccepts && !Handles(s, step)
            case Handling => step.HandleOne? && (s.visible > 0 ==> step.freshKey !in s.tokens)
            case _ => true
  {
  }

  lemma EndsAfterFinish(s: State, script: Script, steps: seq<Step>)
    requires Inv(s) && steps != [] && steps[0].Complete?
    requires TurnEnds(Apply(s, steps[0]), script, steps[1..])
    ensures TurnEnds(s, script, steps)
  {
    OutlookUnfolds(s, script, steps);
    FinishingFields(s, steps[0]);
    InvMeansRunning(s);
    hide Inv, Apply, OutlookOf, Possible, Fits, Handles, Pops;
    var s' := Apply(s, steps[0]);
    FitsBeforeFinish(s.pc, s.visible, s.cq, s'.cq, s.backlog, script.turn.seen,
                     OutlookOf(s, script, steps), OutlookOf(s', script, steps[1..]));
  }

  lemma EndsAfterSync(s: State, script: Script, steps: seq<Step>)
    requires Inv(s) && steps != [] && s.pc == CqSync && Due(s, script, steps[0])
    requires TurnEnds(Apply(s, steps[0]), script, steps[1..])
    ensures TurnEnds(s, script, steps)
  {
    OthersMeetNothing(s, script, steps[0]);
    hide Inv, Apply, OutlookOf, Handles, Pops, Next, AskedBy, Due, Fits;
    OutlookUnfolds(s, script, steps);
    InvMeansRunning(s);
    SyncFields(s, Min(script.turn.seen, |s.cq|));
    FitsBeforeSync(s.visible, s.cq, s.backlog, script.turn.seen,
                   OutlookOf(s, script, steps), OutlookOf(Apply(s, steps[0]), script, steps[1..]));
  }

  lemma FitsBeforeSync(visible: nat, cq: seq<Cqe>, backlog: seq<Op>, seen: nat, o: Outlook, o': Outlook)
    requires visible <= |cq| && Fits(Drain, Min(seen, |cq|), cq, backlog, seen, o')
    requires o == o'.(atSync := cq, issues := o.issues) && (o'.issues ==> o.issues)
    ensures Fits(CqSync, visible, cq, backlog, seen, o)
  {
  }

  lemma SyncFields(s: State, seen: nat)
    requires s.pc == CqSync && seen <= |s.cq|
    ensures var s' := Apply(s, SyncCompletions(seen));
            s'.pc == Drain && s'.visible == seen && s'.cq == s.cq && s'.backlog == s.backlog
  {
  }

  lemma FitsBeforeDrain(pc': Pc, visible: nat, cq: seq<Cqe>, backlog: seq<Op>, backlog': seq<Op>, seen: nat,
                        met: bool, o: Outlook, o': Outlook)
    requires Fits(pc', visible, cq, backlog', seen, o')
    requires o.handled == o'.handled && (o.busy <==> met || o'.busy) && (o'.issues ==> o.issues)
    requires pc' == Drain || (pc' == Accepting && (met || backlog == []))
    requires if pc' == Drain then backlog != [] && backlog' == backlog[1..] && o.popped == [backlog[0]] + o'.popped
             else o.popped == o'.popped
    ensures Fits(Drain, visible, cq, backlog, seen, o)
  {
    assert backlog != [] ==> [backlog[0]] + backlog[1..] == backlog;
  }

  lemma DrainMeets(s: State, script: Script, step: Step)
    requires s.pc == Drain && Due(s, script, step)
    ensures var reply := ReplyAt(script.turn.replies, script.passes);
            && step == DrainStep(s, reply) && !Handles(s, step) && !step.SyncCompletions? && step != PushAccepts
            && Next(s, script, step).turn == script.turn
            && (Busy in AskedBy(s, script, step) <==> s.sq.IsFull() && reply == Busy)
  {
  }

  lemma EndsAfterDrain(s: State, script: Script, steps: seq<Step>)
    requires Inv(s) && steps != [] && s.pc == Drain && Due(s, script, steps[0]) && Apply(s, steps[0]).pc != Stopped
    requires TurnEnds(Apply(s, steps[0]), Next(s, script, steps[0]), steps[1..])
    ensures TurnEnds(s, script, steps)
  {
    DrainMeets(s, script, steps[0]);
    hide Inv, Apply, OutlookOf, Fits, Handles, Pops, Next, AskedBy, DrainStep, ReplyAt, Due;
    var reply := ReplyAt(script.turn.replies, script.passes);
    var s', script' := Apply(s, steps[0]), Next(s, script, steps[0]);
    OutlookUnfolds(s, script, steps);
    DrainFields(s, reply);
    FitsBeforeDrain(s'.pc, s.visible, s.cq, s.backlog, s'.backlog, script.turn.seen, s.sq.IsFull() && reply == Busy,
                    OutlookOf(s, script, steps), OutlookOf(s', script', steps[1..]));
  }

  lemma EndsAfterAccepts(s: State, script: Script, steps: seq<Step>)
    requires Inv(s) && steps != [] && s.pc == Accepting && Due(s, script, steps[0])
    requires TurnEnds(Apply(s, steps[0]), script, steps[1..])
    ensures TurnEnds(s, script, steps)
  {
    OthersMeetNothing(s, script, steps[0]);
    hide Inv, Apply, OutlookOf, Handles, Pops, Next, AskedBy, Due, Fits;
    OutlookUnfolds(s, script, steps);
    InvMeansRunning(s);
    AcceptsFields(s);
    FitsBeforeAccepts(s.visible, s.cq, s.backlog, script.turn.seen,
                      OutlookOf(s, script, steps), OutlookOf(Apply(s, steps[0]), script, steps[1..]));
  }

  lemma FitsBeforeAccepts(visible: nat, cq: seq<Cqe>, backlog: seq<Op>, seen: nat, o: Outlook, o': Outlook)
    requires Fits(Handling, visible, cq, backlog, seen, o') && o == o'.(issues := true)
    ensures Fits(Accepting, visible, cq, backlog, seen, o)
  {
  }

  lemma FitsBeforeHandling(visible: nat, cq: seq<Cqe>, backlog: seq<Op>, backlog': seq<Op>, seen: nat, o: Outlook,
                           o': Outlook)
    requires 0 < visible <= |cq| && Fits(Handling, visible - 1, cq[1..], backlog', seen, o')
    requires o.handled == [cq[0]] + o'.handled && o.popped == o'.popped && (o.busy <==> o'.busy)
    ensures Fits(Handling, visible, cq, backlog, seen, o)
  {
    assert [cq[0]] + cq[1..][..visible - 1] == cq[..visible];
  }

  lemma FitsBeforeTop(cq: seq<Cqe>, backlog: seq<Op>, backlog': seq<Op>, seen: nat, o: Outlook, o': Outlook)
    requires Fits(Top, 0, cq, backlog', seen, o') && o == o'.(issues := o.issues)
    ensures Fits(Handling, 0, cq, backlog, seen, o)
  {
  }

  lemma EndsAfterHandling(s: State, script: Script, steps: seq<Step>)
    requires Inv(s) && steps != [] && s.pc == Handling && Due(s, script, steps[0])
    requires TurnEnds(Apply(s, steps[0]), script, steps[1..])
    ensures TurnEnds(s, script, steps)
  {
    hide Inv, Apply, TurnEnds, Due;
    if s.visible == 0 {
      EndsAtTop(s, script, steps);
    } else {
      EndsAfterOne(s, script, steps);
    }
  }

  lemma EndsAtTop(s: State, script: Script, steps: seq<Step>)
    requires Inv(s) && steps != [] && s.pc == Handling && s.visible == 0 && Due(s, script, steps[0])
    requires TurnEnds(Apply(s, steps[0]), script, steps[1..])
    ensures TurnEnds(s, script, steps)
  {
    OthersMeetNothing(s, script, steps[0]);
    hide Inv, Apply, OutlookOf, Fits, Handles, Pops, Next, AskedBy, Due;
    OutlookUnfolds(s, script, steps);
    HandlingFields(s, steps[0]);
    FitsBeforeTop(s.cq, s.backlog, Apply(s, steps[0]).backlog, script.turn.seen,
                  OutlookOf(s, script, steps), OutlookOf(Apply(s, steps[0]), script, steps[1..]));
  }

  lemma EndsAfterOne(s: State, script: Script, steps: seq<Step>)
    requires Inv(s) && steps != [] && s.pc == Handling && s.visible > 0 && Due(s, script, steps[0])
    requires TurnEnds(Apply(s, steps[0]), script, steps[1..])
    ensures TurnEnds(s, script, steps)
  {
    OthersMeetNothing(s, script, steps[0]);
    hide Inv, Apply, OutlookOf, Fits, Handles, Pops, Next, AskedBy, Due;
    OutlookUnfolds(s, script, steps);
    InvMeansRunning(s);
    HandlingFields(s, steps[0]);
    FitsBeforeHandling(s.visible, s.cq, s.backlog, Apply(s, steps[0]).backlog, script.turn.seen,
                       OutlookOf(s, script, steps), OutlookOf(Apply(s, steps[0]), script, steps[1..]));
  }

  lemma {:induction false} TailEnds(s: State, script: Script, steps: seq<Step>)
    requires Inv(s) && Keeps(s, script, steps) && After(s, script, steps).turns == script.turns
    requires s.pc != Stopped && Run(s, steps).pc == Top
    ensures TurnEnds(s, script, steps)
    decreases |steps|
  {
    if steps == [] {
      InvMeansRunning(s);
    } else {
      hide Inv, Apply, TurnEnds, Due, Next;
      var s', script' := Apply(s, steps[0]), Next(s, script, steps[0]);
      ApplyKeepsInv(s, steps[0]);
      TurnsShrink(s', script', steps[1..]);
      StoppedAtEnd(s', script', steps[1..]);
      if steps[0].Complete? {
        FinishingKeepsScript(s, script, steps[0]);
        TailEnds(s', script', steps[1..]);
        EndsAfterFinish(s, script, steps);
      } else {
        OwnStep(s, script, steps[0]);
        TailEnds(s', script', steps[1..]);
        match s.pc
        case CqSync => EndsAfterSync(s, script, steps);
        case Drain => EndsAfterDrain(s, script, steps);
        case Accepting => EndsAfterAccepts(s, script, steps);
        case Handling => EndsAfterHandling(s, script, steps);
      }
    }
  }

  lemma FinishingKeepsScript(s: State, script: Script, step: Step)
    requires Inv(s) && step.Complete?
    ensures Next(s, script, step) == script && Apply(s, step).pc == s.pc
  {
    FinishingFields(s, step);
    hide Inv, Apply;
  }

  /** The program takes a turn of the script at the top of its loop and nowhere else. */
  lemma OwnStep(s: State, script: Script, step: Step)
    requires !step.Complete? && Due(s, script, step)
    ensures var script' := Next(s, script, step);
            && s.pc in {Top, CqSync, Drain, Accepting, Handling}
            && (s.pc == Top ==> |script'.turns| < |script.turns|)
            && (s.pc != Top ==> script'.turns == script.turns && script'.turn == script.turn)
            && (s.pc in {CqSync, Accepting, Handling} ==> script' == script)
  {
  }

  lemma StoppedAtEnd(s: State, script: Script, steps: seq<Step>)
    requires Inv(s) && Keeps(s, script, steps)
    ensures s.pc == Stopped ==> Run(s, steps).pc == Stopped
  {
    hide Inv, Keeps, Run;
    if s.pc == Stopped {
      StoppedStays(s, script, steps);
    }
  }

  /** What the program does with `turn`, seen from the top of its loop: it stops exactly when
      the wait, or a submit of the backlog loop, fails with an error other than EBUSY. Else
      the completions that the sync shows are handled, all of them, in order; the backlog has
      been emptied into the queue unless a submit there met EBUSY; and accepts are issued. */
  ghost predicate Achieves(s: State, turn: Turn, steps: seq<Step>) {
    var asked, end := AskedIn(s, Script(turn, 0, [turn]), steps), Run(s, steps);
    && asked != [] && asked[0] == turn.wait
    && (if Error in asked then end.pc == Stopped
        else
          var q := AtSync(s, steps);
          && end.pc == Top
          && HandledIn(s, steps) == q[..Min(turn.seen, |q|)]
          && HandledIn(s, steps) + end.cq == s.cq + FinishedIn(s, steps)
          && (Busy !in asked[1..] ==> PoppedIn(s, steps) == s.backlog)
          && IssuesAccepts(s, steps))
  }

  lemma AchievesAfterFinish(s: State, turn: Turn, steps: seq<Step>)
    requires Inv(s) && steps != [] && steps[0].Complete? && Achieves(Apply(s, steps[0]), turn, steps[1..])
    ensures Achieves(s, turn, steps)
  {
    RecordsUnfold(s, steps);
    AskedUnfolds(s, Script(turn, 0, [turn]), steps);
    FinishingFields(s, steps[0]);
    CompletionsAreHandledInOrder(s, steps);
    hide Inv, Apply, Run, HandledIn, FinishedIn, PoppedIn, AtSync, AskedIn, IssuesAccepts;
    var s', script := Apply(s, steps[0]), Script(turn, 0, [turn]);
    assert AskedIn(s, script, steps) == AskedIn(s', script, steps[1..]);
    if IssuesAccepts(s', steps[1..]) {
      AcceptsLater(s, steps);
    }
  }

  lemma WaitRecords(s: State, turn: Turn, steps: seq<Step>)
    requires s.pc == Top && steps != [] && !steps[0].Complete? && Serves(s, turn, steps)
    ensures var s', rest, script := Apply(s, steps[0]), Script(turn, 0, []), Script(turn, 0, [turn]);
            && steps[0] == WaitStep(turn.wait)
            && Run(s, steps) == Run(s', steps[1..]) && HandledIn(s, steps) == HandledIn(s', steps[1..])
            && PoppedIn(s, steps) == PoppedIn(s', steps[1..]) && AtSync(s, steps) == AtSync(s', steps[1..])
            && AskedIn(s, script, steps) == [turn.wait] + AskedIn(s', rest, steps[1..])
            && Keeps(s', rest, steps[1..]) && After(s', rest, steps[1..]).turns == []
            && Run(s, steps).pc in {Top, Stopped}
  {
    var script := Script(turn, 0, [turn]);
    RecordsUnfold(s, steps);
    AskedUnfolds(s, script, steps);
    assert Next(s, script, steps[0]) == Script(turn, 0, []);
    hide Apply, Run, HandledIn, PoppedIn, AtSync, AskedIn;
  }

  lemma AchievesAfterWait(s: State, turn: Turn, steps: seq<Step>)
    requires Inv(s) && s.pc == Top && steps != [] && !steps[0].Complete? && Serves(s, turn, steps)
    ensures Achieves(s, turn, steps)
  {
    WaitRecords(s, turn, steps);
    hide Inv, Apply, Run, HandledIn, FinishedIn, PoppedIn, AtSync, AskedIn, Next, After, Keeps, Serves, WaitStep,
        Achieves;
    var s', rest := Apply(s, steps[0]), Script(turn, 0, []);
    WaitFields(s, turn.wait);
    ApplyKeepsInv(s, steps[0]);
    if turn.wait.Error? {
      StoppedStays(s', rest, steps[1..]);
      AchievesByStopping(s, turn, steps, []);
    } else {
      StopsExactlyOnError(s', rest, steps[1..]);
      if Error in AskedIn(s', rest, steps[1..]) {
        AchievesByStopping(s, turn, steps, AskedIn(s', rest, steps[1..]));
      } else {
        CompletionsAreHandledInOrder(s, steps);
        AchievesFromTail(s, turn, s', rest, steps);
      }
    }
  }

  lemma AchievesByStopping(s: State, turn: Turn, steps: seq<Step>, asked: seq<Reply>)
    requires AskedIn(s, Script(turn, 0, [turn]), steps) == [turn.wait] + asked && Run(s, steps).pc == Stopped
    requires turn.wait.Error? || Error in asked
    ensures Achieves(s, turn, steps)
  {
    hide Run, HandledIn, FinishedIn, PoppedIn, AtSync, AskedIn, IssuesAccepts;
    assert ([turn.wait] + asked)[0] == turn.wait;
    assert Error in [turn.wait] + asked;
  }

  lemma AchievesFromTail(s: State, turn: Turn, s': State, rest: Script, steps: seq<Step>)
    requires steps != [] && s' == Apply(s, steps[0]) && rest == Script(turn, 0, []) && Inv(s')
    requires s'.pc == CqSync && s'.backlog == s.backlog
    requires Keeps(s', rest, steps[1..]) && After(s', rest, steps[1..]).turns == [] && Run(s', steps[1..]).pc == Top
    requires Run(s, steps) == Run(s', steps[1..]) && HandledIn(s, steps) == HandledIn(s', steps[1..])
    requires PoppedIn(s, steps) == PoppedIn(s', steps[1..]) && AtSync(s, steps) == AtSync(s', steps[1..])
    requires AskedIn(s, Script(turn, 0, [turn]), steps) == [turn.wait] + AskedIn(s', rest, steps[1..])
    requires !turn.wait.Error? && Error !in AskedIn(s', rest, steps[1..])
    requires HandledIn(s, steps) + Run(s, steps).cq == s.cq + FinishedIn(s, steps)
    ensures Achieves(s, turn, steps)
  {
    hide Inv, Apply, Run, HandledIn, FinishedIn, PoppedIn, AtSync, AskedIn, IssuesAccepts, Keeps, After;
    TailEnds(s', rest, steps[1..]);
    AcceptsLater(s, steps);
    assert ([turn.wait] + AskedIn(s', rest, steps[1..]))[1..] == AskedIn(s', rest, steps[1..]);
  }

  lemma {:induction false} TurnAchieves(s: State, turn: Turn, steps: seq<Step>)
    requires Inv(s) && s.pc == Top && Serves(s, turn, steps)
    ensures Achieves(s, turn, steps)
    decreases |steps|
  {
    assert steps != [];
    if steps[0].Complete? {
      FinishingFields(s, steps[0]);
      hide Inv, Apply, Achieves;
      TurnAchieves(Apply(s, steps[0]), turn, steps[1..]);
      AchievesAfterFinish(s, turn, steps);
    } else {
      AchievesAfterWait(s, turn, steps);
    }
  }

  // ---------------------------------------------------------------- turn after turn

  function RunAll(s: State, runs: seq<seq<Step>>): State
    decreases |runs|
  {
    if runs == [] then s else RunAll(Run(s, runs[0]), runs[1..])
  }

  /** Each turn is served from where the one before it has led, and achieves what it should. */
  ghost predicate AllServed(s: State, turns: seq<Turn>, runs: seq<seq<Step>>)
    decreases |runs|
  {
    && |turns| == |runs|
    && (runs != [] ==>
          && s.pc == Top && Serves(s, turns[0], runs[0]) && Achieves(s, turns[0], runs[0])
          && AllServed(Run(s, runs[0]), turns[1..], runs[1..]))
  }

  lemma {:induction false} ServedOneMore(s: State, turns: seq<Turn>, runs: seq<seq<Step>>, turn: Turn, steps: seq<Step>)
    requires AllServed(s, turns, runs) && RunAll(s, runs).pc == Top
    requires Serves(RunAll(s, runs), turn, steps) && Achieves(RunAll(s, runs), turn, steps)
    ensures AllServed(s, turns + [turn], runs + [steps])
    ensures RunAll(s, runs + [steps]) == Run(RunAll(s, runs), steps)
    decreases |runs|
  {
    hide Run, Serves, Achieves;
    if runs == [] {
      assert runs + [steps] == [steps] && turns + [turn] == [turn];
      assert [steps][1..] == [] && [turn][1..] == [];
    } else {
      assert (runs + [steps])[1..] == runs[1..] + [steps] && (turns + [turn])[1..] == turns[1..] + [turn];
      ServedOneMore(Run(s, runs[0]), turns[1..], runs[1..], turn, steps);
    }
  }

  lemma NoneServed(s: State)
    ensures AllServed(s, [], []) && RunAll(s, []) == s
  {
  }

  lemma DrainIsOwn(s: State, reply: Reply)
    ensures !DrainStep(s, reply).Complete?
  {
  }

  lemma BackToTop(s: State)
    requires s.pc == Handling && s.visible == 0
    ensures Apply(s, HandleOne(0)) == s.(pc := Top)
  {
  }
}
