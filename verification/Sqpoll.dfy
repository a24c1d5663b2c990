/** Going to sleep against submitting, under SQPOLL.

    Stores of the program and of the poller wait in first-in-first-out buffers before they
    reach memory, and each side reads memory while its own stores may still be waiting.
    The program publishes a tail, executes a SeqCst fence, reads NEED_WAKEUP and decides as
    `Submit.Decision` says; the poller raises NEED_WAKEUP, executes a full barrier, reads the
    tail and sleeps if it shows nothing new. Either fence can be left out of the machine.

    Heads and tails are kept as counters; every comparison is one of their 32-bit words. */
module Sqpoll {
  import opened Words
  import Submit

  datatype UserPc = Idle | Loaded | Fenced

  datatype PollerPc = Polling | Raised | Rechecking | Asleep | Lowering

  datatype PollerStore = StoreFlag(up: bool) | StoreHead(head: nat)

  datatype Machine = Machine(
    entries: u32, params: Submit.Parameters, userFence: bool, pollerFence: bool,
    tail: nat, head: nat, needWakeup: bool,
    user: UserPc, userBuffer: seq<nat>, published: nat, known: nat,
    poller: PollerPc, pollerBuffer: seq<PollerStore>, consumed: nat, woken: bool,
    promised: nat)

  datatype Step =
    | Publish(count: nat)   // `sync` or `Drop`: store the tail
    | Reload                // `sync`: load the head
    | BeginSubmit           // `submit`: the length and the overflow flag are loaded
    | Fence                 // its SeqCst fence
    | Decide(want: nat, overflown: bool, extArg: bool)   // its load of NEED_WAKEUP, and the syscall if it makes one
    | UserFlush
    | Take                  // the poller reads one published entry
    | Raise                 // it announces that it will sleep
    | Barrier               // its full barrier
    | Recheck               // it reads the tail again; sleeps unless there is an entry
    | Wake                  // it returns from sleep after a wake-up
    | Lower                 // it withdraws the announcement
    | PollerFlush

  function Start(entries: u32, params: Submit.Parameters, userFence: bool, pollerFence: bool): Machine {
    Machine(entries, params, userFence, pollerFence, 0, 0, false, Idle, [], 0, 0, Polling, [], 0, false, 0)
  }

  /** Entries the tail in memory shows beyond what the poller has taken. */
  predicate ShowsEntry(m: Machine) {
    Residue(m.tail) != Residue(m.consumed)
  }

  /** Whether a submit that finds NEED_WAKEUP as `asleep` enters with SQ_WAKEUP. */
  function Wakes(p: Submit.Parameters, want: nat, overflown: bool, asleep: bool, extArg: bool): bool {
    var d := Submit.Decision(p, want, overflown, asleep, extArg);
    d.Some? && d.value.sqWakeup
  }

  function Apply(m: Machine, step: Step): Machine {
    match step
    case Publish(count) =>
      if m.user != Idle || m.published + count > m.known + m.entries then m
      else m.(userBuffer := m.userBuffer + [m.published + count], published := m.published + count)
    case Reload => if m.user != Idle then m else m.(known := m.head)
    case BeginSubmit => if m.user != Idle then m else m.(user := Loaded)
    case Fence =>
      if m.user != Loaded || (m.userFence && m.userBuffer != []) then m else m.(user := Fenced)
    case Decide(want, overflown, extArg) =>
      if m.user != Fenced then m
      else
        m.(user := Idle, promised := m.published,
           woken := m.woken || Wakes(m.params, want, overflown, m.needWakeup, extArg))
    case UserFlush =>
      if m.userBuffer == [] then m else m.(tail := m.userBuffer[0], userBuffer := m.userBuffer[1..])
    case Take =>
      if m.poller != Polling || !ShowsEntry(m) then m
      else m.(consumed := m.consumed + 1, pollerBuffer := m.pollerBuffer + [StoreHead(m.consumed + 1)])
    case Raise =>
      if m.poller != Polling then m
      else m.(poller := Raised, woken := false, pollerBuffer := m.pollerBuffer + [StoreFlag(true)])
    case Barrier =>
      if m.poller != Raised || (m.pollerFence && m.pollerBuffer != []) then m else m.(poller := Rechecking)
    case Recheck =>
      if m.poller != Rechecking then m
      else m.(poller := if ShowsEntry(m) || m.woken then Lowering else Asleep)
    case Wake => if m.poller != Asleep || !m.woken then m else m.(poller := Lowering)
    case Lower =>
      if m.poller != Lowering then m
      else m.(poller := Polling, pollerBuffer := m.pollerBuffer + [StoreFlag(false)])
    case PollerFlush =>
      if m.pollerBuffer == [] then m
      else
        match m.pollerBuffer[0]
        case StoreFlag(up) => m.(needWakeup := up, pollerBuffer := m.pollerBuffer[1..])
        case StoreHead(head) => m.(head := head, pollerBuffer := m.pollerBuffer[1..])
  }

  function Run(m: Machine, steps: seq<Step>): Machine
    decreases |steps|
  {
    if steps == [] then m else Run(Apply(m, steps[0]), steps[1..])
  }

  /** A lost wake-up: a submit has returned, the poller sleeps with nobody about to wake it,
      and entries published before that submit are still unread. */
  predicate Stuck(m: Machine) {
    m.poller == Asleep && !m.woken && m.consumed < m.promised
  }

  ghost predicate CanLoseWakeup(start: Machine) {
    exists steps :: Stuck(Run(start, steps))
  }

  // ---------------------------------------------------------------- both fences

  ghost predicate Ascending(low: nat, buffer: seq<nat>, high: nat) {
    && (forall i :: 0 <= i < |buffer| ==> low <= buffer[i] <= high)
    && (forall i, j :: 0 <= i < j < |buffer| ==> buffer[i] <= buffer[j])
    && (if buffer == [] then low == high else buffer[|buffer| - 1] == high)
  }

  ghost predicate HeadsBelow(buffer: seq<PollerStore>, bound: nat) {
    forall i :: 0 <= i < |buffer| && buffer[i].StoreHead? ==> buffer[i].head <= bound
  }

  /** The flag once the poller's stores have all reached memory. */
  function FlagAfter(needWakeup: bool, buffer: seq<PollerStore>): bool
    decreases |buffer|
  {
    if buffer == [] then needWakeup
    else FlagAfter(if buffer[0].StoreFlag? then buffer[0].up else needWakeup, buffer[1..])
  }

  lemma {:induction false} FlagAfterAppend(needWakeup: bool, buffer: seq<PollerStore>, store: PollerStore)
    ensures FlagAfter(needWakeup, buffer + [store]) ==
            if store.StoreFlag? then store.up else FlagAfter(needWakeup, buffer)
    decreases |buffer|
  {
    if buffer == [] {
      assert (buffer + [store])[1..] == [];
    } else {
      assert (buffer + [store])[1..] == buffer[1..] + [store];
      FlagAfterAppend(if buffer[0].StoreFlag? then buffer[0].up else needWakeup, buffer[1..], store);
    }
  }

  ghost predicate Inv(m: Machine) {
    && 0 < m.entries <= 0x8000_0000 && m.params.IsSetupSqpoll() && m.userFence && m.pollerFence
    && Ascending(m.tail, m.userBuffer, m.published)
    && (m.user == Fenced ==> m.userBuffer == [])
    && m.known <= m.consumed && m.head <= m.consumed && HeadsBelow(m.pollerBuffer, m.consumed)
    && m.consumed <= m.tail && m.published <= m.consumed + m.entries
    && FlagAfter(m.needWakeup, m.pollerBuffer) == (m.poller != Polling)
    && (m.poller in {Rechecking, Asleep, Lowering} ==> m.pollerBuffer == [])
    && m.promised <= m.tail
    && !Stuck(m)
  }

  lemma EntryMeaning(m: Machine)
    requires Inv(m)
    ensures ShowsEntry(m) <==> m.consumed < m.tail
  {
    DistanceOfCounters(m.tail, m.consumed);
  }

  lemma UserStepKeepsInv(m: Machine, step: Step)
    requires Inv(m) && step in {Reload, BeginSubmit, Fence}
    ensures Inv(Apply(m, step))
  {
  }

  /** The decision of the submitter: the wake-up is sent just when the flag was seen. */
  lemma DecideKeepsInv(m: Machine, want: nat, overflown: bool, extArg: bool)
    requires Inv(m)
    ensures Inv(Apply(m, Decide(want, overflown, extArg)))
  {
    Submit.SleepingPollerIsWoken(m.params, want, overflown, m.needWakeup, extArg);
    hide Submit.Decision;
  }

  lemma PublishKeepsInv(m: Machine, count: nat)
    requires Inv(m)
    ensures Inv(Apply(m, Publish(count)))
  {
    if m.user == Idle && m.published + count <= m.known + m.entries {
      var b, n := m.userBuffer, m.published + count;
      assert forall i :: 0 <= i < |b + [n]| ==> (b + [n])[i] == if i < |b| then b[i] else n;
    }
  }

  lemma UserFlushKeepsInv(m: Machine)
    requires Inv(m)
    ensures Inv(Apply(m, UserFlush))
  {
    if m.userBuffer != [] {
      assert Ascending(m.userBuffer[0], m.userBuffer[1..], m.published);
    }
  }

  lemma PollerFlushKeepsInv(m: Machine)
    requires Inv(m)
    ensures Inv(Apply(m, PollerFlush))
  {
    if m.pollerBuffer != [] {
      assert HeadsBelow(m.pollerBuffer[1..], m.consumed);
    }
  }

  lemma PollerStepKeepsInv(m: Machine, step: Step)
    requires Inv(m) && step in {Take, Raise, Barrier, Recheck, Wake, Lower}
    ensures Inv(Apply(m, step))
  {
    EntryMeaning(m);
    match step
    case Take => FlagAfterAppend(m.needWakeup, m.pollerBuffer, StoreHead(m.consumed + 1));
    case Raise => FlagAfterAppend(m.needWakeup, m.pollerBuffer, StoreFlag(true));
    case Lower => FlagAfterAppend(m.needWakeup, m.pollerBuffer, StoreFlag(false));
    case _ =>
  }

  lemma ApplyKeepsInv(m: Machine, step: Step)
    requires Inv(m)
    ensures Inv(Apply(m, step))
  {
    match step
    case Publish(count) => PublishKeepsInv(m, count);
    case UserFlush => UserFlushKeepsInv(m);
    case PollerFlush => PollerFlushKeepsInv(m);
    case Reload => UserStepKeepsInv(m, step);
    case BeginSubmit => UserStepKeepsInv(m, step);
    case Fence => UserStepKeepsInv(m, step);
    case Decide(want, overflown, extArg) => DecideKeepsInv(m, want, overflown, extArg);
    case _ => PollerStepKeepsInv(m, step);
  }

  lemma {:induction false} RunKeepsInv(m: Machine, steps: seq<Step>)
    requires Inv(m)
    ensures Inv(Run(m, steps))
    decreases |steps|
  {
    if steps != [] {
      ApplyKeepsInv(m, steps[0]);
      RunKeepsInv(Apply(m, steps[0]), steps[1..]);
    }
  }

  /** With both fences no interleaving loses a wake-up. */
  lemma NoLostWakeup(entries: u32, params: Submit.Parameters, steps: seq<Step>)
    requires IsRingSize(entries) && params.IsSetupSqpoll()
    ensures !Stuck(Run(Start(entries, params, true, true), steps))
  {
    RingSizeBounds(entries);
    RunKeepsInv(Start(entries, params, true, true), steps);
  }

  // ---------------------------------------------------------------- a fence left out

  lemma RunThree(m: Machine, a: Step, b: Step, c: Step)
    ensures Run(m, [a, b, c]) == Apply(Apply(Apply(m, a), b), c)
  {
    hide Apply;
    assert [a, b, c][1..] == [b, c] && [b, c][1..] == [c] && [c][1..] == [];
    assert Run(Apply(m, a), [b, c]) == Run(Apply(Apply(m, a), b), [c]);
  }

  /** Three groups of steps, one after the other. */
  lemma RunGroups(m: Machine, a: seq<Step>, b: seq<Step>, c: seq<Step>)
    ensures Run(m, a + b + c) == Run(Run(Run(m, a), b), c)
  {
    RunConcat(m, a + b, c);
    RunConcat(m, a, b);
  }

  lemma PublishWaitsInBuffer(m: Machine)
    requires m.user == Idle && !m.userFence && m.published < m.known + m.entries
    ensures Run(m, [Publish(1), BeginSubmit, Fence]) ==
            m.(userBuffer := m.userBuffer + [m.published + 1], published := m.published + 1, user := Fenced)
  {
    RunThree(m, Publish(1), BeginSubmit, Fence);
  }

  /** A submit that waits for nothing and sees no overflow. */
  const DecideNow := Decide(0, false, false)

  lemma FlagReadTooEarly(m: Machine)
    requires m.user == Fenced && !m.needWakeup && m.poller == Polling && m.pollerBuffer == []
    ensures Run(m, [DecideNow, Raise, PollerFlush]) ==
            m.(user := Idle, promised := m.published, woken := false, poller := Raised, needWakeup := true)
  {
    RunThree(m, DecideNow, Raise, PollerFlush);
  }

  lemma TailReadTooEarly(m: Machine)
    requires m.poller == Raised && m.pollerBuffer == [] && !m.woken && !ShowsEntry(m) && |m.userBuffer| == 1
    ensures Run(m, [Barrier, Recheck, UserFlush]) ==
            m.(poller := Asleep, tail := m.userBuffer[0], userBuffer := [])
  {
    RunThree(m, Barrier, Recheck, UserFlush);
  }

  /** The publish waits in the buffer while the flag is read, and the poller rechecks a tail
      that does not show it yet. */
  lemma MissingUserFenceLosesWakeup(entries: u32, params: Submit.Parameters, pollerFence: bool)
    requires entries > 0
    ensures CanLoseWakeup(Start(entries, params, false, pollerFence))
  {
    hide Run, Apply;
    var m0 := Start(entries, params, false, pollerFence);
    var publish, decide, sleep := [Publish(1), BeginSubmit, Fence], [DecideNow, Raise, PollerFlush],
        [Barrier, Recheck, UserFlush];
    PublishWaitsInBuffer(m0);
    var m1 := Run(m0, publish);
    FlagReadTooEarly(m1);
    TailReadTooEarly(Run(m1, decide));
    RunGroups(m0, publish, decide, sleep);
    assert Stuck(Run(m0, publish + decide + sleep));
  }

  lemma SleepsOnUnseenFlag(m: Machine)
    requires m.poller == Polling && !m.pollerFence && !m.woken && !ShowsEntry(m)
    ensures Run(m, [Raise, Barrier, Recheck]) ==
            m.(poller := Asleep, pollerBuffer := m.pollerBuffer + [StoreFlag(true)])
  {
    RunThree(m, Raise, Barrier, Recheck);
  }

  lemma PublishReachesMemory(m: Machine)
    requires m.user == Idle && m.userBuffer == [] && m.published < m.known + m.entries
    ensures Run(m, [Publish(1), UserFlush, BeginSubmit]) ==
            m.(published := m.published + 1, tail := m.published + 1, user := Loaded)
  {
    RunThree(m, Publish(1), UserFlush, BeginSubmit);
  }

  lemma ClearFlagIsRead(m: Machine)
    requires m.user == Loaded && m.userBuffer == [] && !m.needWakeup && !m.woken && m.pollerBuffer == [StoreFlag(true)]
    ensures Run(m, [Fence, DecideNow, PollerFlush]) ==
            m.(user := Idle, promised := m.published, needWakeup := true, pollerBuffer := [])
  {
    RunThree(m, Fence, DecideNow, PollerFlush);
  }

  /** The flag waits in the poller's buffer while it rechecks, and the submit reads it as
      clear. */
  lemma MissingPollerFenceLosesWakeup(entries: u32, params: Submit.Parameters, userFence: bool)
    requires entries > 0
    ensures CanLoseWakeup(Start(entries, params, userFence, false))
  {
    hide Run, Apply;
    var m0 := Start(entries, params, userFence, false);
    var sleep, publish, decide := [Raise, Barrier, Recheck], [Publish(1), UserFlush, BeginSubmit],
        [Fence, DecideNow, PollerFlush];
    SleepsOnUnseenFlag(m0);
    var m1 := Run(m0, sleep);
    PublishReachesMemory(m1);
    ClearFlagIsRead(Run(m1, publish));
    RunGroups(m0, sleep, publish, decide);
    assert Stuck(Run(m0, sleep + publish + decide));
  }

  /** Some interleaving loses a wake-up if and only if one of the two fences is missing. */
  lemma WakeupLostIffFenceMissing(entries: u32, params: Submit.Parameters, userFence: bool, pollerFence: bool)
    requires IsRingSize(entries) && params.IsSetupSqpoll()
    ensures CanLoseWakeup(Start(entries, params, userFence, pollerFence)) <==> !(userFence && pollerFence)
  {
    var start := Start(entries, params, userFence, pollerFence);
    if !userFence {
      RingSizeBounds(entries);
      MissingUserFenceLosesWakeup(entries, params, pollerFence);
    } else if !pollerFence {
      RingSizeBounds(entries);
      MissingPollerFenceLosesWakeup(entries, params, userFence);
    } else {
      forall steps
        ensures !Stuck(Run(start, steps))
      {
        NoLostWakeup(entries, params, steps);
      }
    }
  }

  // ---------------------------------------------------------------- progress

  lemma {:induction false} RunConcat(m: Machine, a: seq<Step>, b: seq<Step>)
    ensures Run(m, a + b) == Run(Run(m, a), b)
    decreases |a|
  {
    if a == [] {
      assert a + b == b;
    } else {
      assert (a + b)[1..] == a[1..] + b;
      RunConcat(Apply(m, a[0]), a[1..], b);
    }
  }

  /** What the poller does besides announcing its sleep, and the flushing of its buffer. */
  predicate PollerStep(step: Step) {
    step in {Take, Barrier, Recheck, Wake, Lower, PollerFlush}
  }

  function Backlog(m: Machine, target: nat): nat {
    if m.consumed < target then target - m.consumed else 0
  }

  /** How far the poller is from having read `target` entries. */
  function Distance(m: Machine, target: nat): nat {
    2 * Backlog(m, target) + |m.pollerBuffer| +
    match m.poller
    case Polling => 0
    case Lowering => 2
    case Asleep => 3
    case Rechecking => 4
    case Raised => 5
  }

  /** How often along a run the poller gets to do something. */
  function Turns(m: Machine, steps: seq<Step>): nat
    decreases |steps|
  {
    if steps == [] then 0
    else (if PollerStep(steps[0]) && Apply(m, steps[0]) != m then 1 else 0) + Turns(Apply(m, steps[0]), steps[1..])
  }

  /** And how often it announces that it will sleep. */
  function Raises(m: Machine, steps: seq<Step>): nat
    decreases |steps|
  {
    if steps == [] then 0
    else (if steps[0] == Raise && m.poller == Polling then 1 else 0) + Raises(Apply(m, steps[0]), steps[1..])
  }

  /** While entries published before the last submit are unread, the poller can always do
      something other than announce its sleep. */
  lemma PollerCanAct(m: Machine)
    requires Inv(m) && m.consumed < m.promised
    ensures exists step :: PollerStep(step) && Apply(m, step) != m
  {
    EntryMeaning(m);
    var step := match m.poller
      case Polling => Take
      case Lowering => Lower
      case Asleep => Wake
      case Rechecking => Recheck
      case Raised => if m.pollerBuffer != [] then PollerFlush else Barrier;
    assert PollerStep(step) && Apply(m, step).(woken := m.woken) != m;
  }

  /** Each such action brings it nearer, an announcement sets it back by six at most, and
      nothing the program does makes a difference. */
  lemma StepsApproach(m: Machine, step: Step, target: nat)
    ensures var m' := Apply(m, step);
            m'.consumed < target ==>
              && m.consumed < target
              && Distance(m', target) + (if PollerStep(step) && m' != m then 1 else 0)
                 <= Distance(m, target) + if step == Raise && m.poller == Polling then 6 else 0
  {
  }

  lemma {:induction false} RunApproaches(m: Machine, steps: seq<Step>, target: nat)
    ensures Run(m, steps).consumed < target ==>
              && m.consumed < target
              && Distance(Run(m, steps), target) + Turns(m, steps) <= Distance(m, target) + 6 * Raises(m, steps)
    decreases |steps|
  {
    hide Apply, Distance;
    if steps != [] {
      StepsApproach(m, steps[0], target);
      RunApproaches(Apply(m, steps[0]), steps[1..], target);
    }
  }

  /** Whatever both sides do from here on, the entries published before the last submit are
      read as soon as the poller has had its turns: so many as it is away from having read
      them now, and six for each time that it announces its sleep meanwhile. */
  lemma PromisedEntriesGetRead(m: Machine, steps: seq<Step>)
    requires Turns(m, steps) > Distance(m, m.promised) + 6 * Raises(m, steps)
    ensures Run(m, steps).consumed >= m.promised
  {
    RunApproaches(m, steps, m.promised);
  }

  lemma PollerActs(m: Machine) returns (first: Step)
    requires Inv(m) && m.consumed < m.promised
    ensures PollerStep(first)
    ensures var next := Apply(m, first);
            && Inv(next) && next.promised == m.promised
            && (next.consumed < m.promised ==> Distance(next, m.promised) < Distance(m, m.promised))
  {
    hide Inv, Apply, Distance, PollerStep;
    PollerCanAct(m);
    first :| PollerStep(first) && Apply(m, first) != m;
    ApplyKeepsInv(m, first);
    StepsApproach(m, first, m.promised);
    PollerPromisesNothing(m, first);
  }

  lemma PollerPromisesNothing(m: Machine, step: Step)
    requires PollerStep(step)
    ensures Apply(m, step).promised == m.promised && step != Raise
  {
  }

  /** So the poller needs nobody else for it. */
  lemma {:induction false} PollerAloneReads(m: Machine) returns (steps: seq<Step>)
    requires Inv(m)
    ensures Run(m, steps).consumed >= m.promised && forall step <- steps :: PollerStep(step)
    decreases Distance(m, m.promised)
  {
    hide Inv, Apply, Distance, PollerStep;
    steps := [];
    if m.consumed < m.promised {
      var first := PollerActs(m);
      var next := Apply(m, first);
      var rest: seq<Step> := [];
      if next.consumed < m.promised {
        rest := PollerAloneReads(next);
      }
      steps := [first] + rest;
      assert steps[1..] == rest;
    }
  }
}
