/** Which ring a system call reaches. A submitter passes its raw descriptor, or, once it has
    registered it, the index of a slot in the task's table together with a flag bit that
    says so. All submitters of a task share that table. A kernel without REG_REG_RING refuses
    an index in any call but `io_uring_enter`. */
module RingDescriptors {
  import opened Wrappers

  const IO_RINGFD_REG_MAX := 16
  const EEXIST := 17
  const EINVAL := 22

  datatype Target = RawFd(fd: int) | RegisteredIndex(index: int)

  /** A submitter: its own descriptor, the remembered table index (negative for none), and
      whether registration calls may use the index too. */
  datatype Sub = Sub(fd: int, enterRingFd: int, regRegRing: bool)

  function EnterTarget(s: Sub): Target {
    if s.enterRingFd >= 0 then RegisteredIndex(s.enterRingFd) else RawFd(s.fd)
  }

  function RegisterTarget(s: Sub): Target {
    if s.enterRingFd >= 0 && s.regRegRing then RegisteredIndex(s.enterRingFd) else RawFd(s.fd)
  }

  /** What a registration or its undoing comes to: the submitter afterwards, what its caller is
      told, and where the call went, `None` when there was none. */
  datatype Outcome = Outcome(sub: Sub, result: Result<(), int>, call: Option<Target>)

  /** `register_ring_fd` given the kernel's reply: the slot, or an error number. */
  function Registered(s: Sub, reply: Result<int, int>): Outcome {
    if s.enterRingFd >= 0 then Outcome(s, Failure(EEXIST), None)
    else
      match reply
      case Success(slot) => Outcome(s.(enterRingFd := slot), Success(()), Some(RegisterTarget(s)))
      case Failure(e) => Outcome(s, Failure(e), Some(RegisterTarget(s)))
  }

  function Unregistered(s: Sub, reply: Result<(), int>): Outcome {
    if s.enterRingFd < 0 then Outcome(s, Failure(EINVAL), None)
    else if reply.Success? then Outcome(s.(enterRingFd := -1), Success(()), Some(RegisterTarget(s)))
    else Outcome(s, reply, Some(RegisterTarget(s)))
  }

  // ---------------------------------------------------------------- a task's run

  datatype Kind = Entering | Registering | Cloning

  /** A call as the kernel saw it: by which submitter and for whose ring it was, what was
      passed, and the ring found, `None` if the kernel refused the target. */
  datatype Call = Call(caller: nat, owner: int, kind: Kind, target: Target, found: Option<int>)

  /** What a submitter told its caller, and the kernel's table before and after. */
  datatype Report = Report(caller: nat, result: Result<(), int>, before: map<int, int>, after: map<int, int>)

  datatype Task = Task(regRegRing: bool, table: map<int, int>, subs: map<nat, Sub>, calls: seq<Call>,
                       reports: seq<Report>)

  datatype Step =
    | Create(id: nat, fd: int)
    | Forget(id: nat)
    | Register(id: nat, reply: Result<int, int>)
    | Unregister(id: nat, outcome: Result<(), int>)
    | Enter(id: nat)
    | Execute(id: nat)
    | CloneBuffers(id: nat)

  function Find(t: Task, kind: Kind, target: Target): Option<int> {
    match target
    case RawFd(fd) => Some(fd)
    case RegisteredIndex(index) =>
      if index in t.table && (kind.Entering? || t.regRegRing) then Some(t.table[index]) else None
  }

  function Record(t: Task, id: nat, s: Sub, kind: Kind, target: Target): Task {
    t.(calls := t.calls + [Call(id, s.fd, kind, target, Find(t, kind, target))])
  }

  /** The outcome of a registration call or its undoing, with the table as it leaves it. */
  function Conclude(t: Task, id: nat, s: Sub, o: Outcome, table: map<int, int>): Task {
    var t1 := if o.call.Some? then Record(t, id, s, Registering, o.call.value).(table := table) else t;
    t1.(subs := t.subs[id := o.sub], reports := t.reports + [Report(id, o.result, t.table, t1.table)])
  }

  /** The kernel registers into a free slot of its table only. */
  predicate SlotAvailable(t: Task, reply: Result<int, int>) {
    reply.Success? ==> 0 <= reply.value < IO_RINGFD_REG_MAX && reply.value !in t.table
  }

  function Apply(t: Task, step: Step): Task {
    match step
    case Create(id, fd) => if id in t.subs then t else t.(subs := t.subs[id := Sub(fd, -1, t.regRegRing)])
    case Forget(id) => t.(subs := t.subs - {id})
    case Register(id, reply) =>
      if id !in t.subs || !SlotAvailable(t, reply) then t
      else
        var s := t.subs[id];
        Conclude(t, id, s, Registered(s, reply), if reply.Success? then t.table[reply.value := s.fd] else t.table)
    case Unregister(id, reply) =>
      if id !in t.subs then t
      else
        var s := t.subs[id];
        Conclude(t, id, s, Unregistered(s, reply), if reply.Success? then t.table - {s.enterRingFd} else t.table)
    case Enter(id) =>
      if id !in t.subs then t else Record(t, id, t.subs[id], Entering, EnterTarget(t.subs[id]))
    case Execute(id) =>
      if id !in t.subs then t else Record(t, id, t.subs[id], Registering, RegisterTarget(t.subs[id]))
    case CloneBuffers(id) =>
      if id !in t.subs then t else Record(t, id, t.subs[id], Cloning, RawFd(t.subs[id].fd))
  }

  function Run(t: Task, steps: seq<Step>): Task
    decreases |steps|
  {
    if steps == [] then t else Run(Apply(t, steps[0]), steps[1..])
  }

  /** What a caller is told is true: it is told of success exactly when the table changed. */
  predicate Honest(r: Report) {
    r.result.Success? <==> r.before != r.after
  }

  ghost predicate Inv(t: Task) {
    && (forall id <- t.subs :: SlotOk(t, t.subs[id]))
    && (forall a, b :: a in t.subs && b in t.subs && a != b && t.subs[a].enterRingFd >= 0 ==>
          t.subs[a].enterRingFd != t.subs[b].enterRingFd)
    && (forall c <- t.calls :: c.found == Some(c.owner))
    && (forall r <- t.reports :: Honest(r))
  }

  /** A submitter's index, if it has one, leads to its own ring, and it knows of the kernel's
      feature. */
  ghost predicate SlotOk(t: Task, s: Sub) {
    && s.regRegRing == t.regRegRing
    && (s.enterRingFd >= 0 ==> s.enterRingFd in t.table && t.table[s.enterRingFd] == s.fd)
  }

  lemma RecordKeepsInv(t: Task, id: nat, s: Sub, kind: Kind, target: Target)
    requires Inv(t) && SlotOk(t, s)
    requires target == match kind
                       case Entering => EnterTarget(s)
                       case Registering => RegisterTarget(s)
                       case Cloning => RawFd(s.fd)
    ensures Inv(Record(t, id, s, kind, target))
  {
    assert Find(t, kind, target) == Some(s.fd);
  }

  lemma CreateKeepsInv(t: Task, id: nat, fd: int)
    requires Inv(t) && id !in t.subs
    ensures Inv(t.(subs := t.subs[id := Sub(fd, -1, t.regRegRing)]))
  {
  }

  lemma ForgetKeepsInv(t: Task, id: nat)
    requires Inv(t)
    ensures Inv(t.(subs := t.subs - {id}))
  {
  }

  lemma RegisterKeepsInv(t: Task, id: nat, slot: int)
    requires Inv(t) && id in t.subs && t.subs[id].enterRingFd < 0 && slot !in t.table
    ensures Inv(t.(subs := t.subs[id := t.subs[id].(enterRingFd := slot)], table := t.table[slot := t.subs[id].fd]))
  {
  }

  lemma UnregisterKeepsInv(t: Task, id: nat)
    requires Inv(t) && id in t.subs && t.subs[id].enterRingFd >= 0
    ensures Inv(t.(subs := t.subs[id := t.subs[id].(enterRingFd := -1)], table := t.table - {t.subs[id].enterRingFd}))
  {
  }

  lemma ReportKeepsInv(t: Task, r: Report)
    requires Inv(t) && Honest(r)
    ensures Inv(t.(reports := t.reports + [r]))
  {
  }

  lemma SlotOf(t: Task, id: nat)
    requires Inv(t) && id in t.subs
    ensures SlotOk(t, t.subs[id])
  {
  }

  lemma RegisterStepKeepsInv(t: Task, id: nat, reply: Result<int, int>)
    requires Inv(t) && id in t.subs && SlotAvailable(t, reply)
    ensures Inv(Apply(t, Register(id, reply)))
  {
    var s := t.subs[id];
    SlotOf(t, id);
    hide Inv, SlotOk;
    if s.enterRingFd >= 0 {
      assert t.subs[id := s] == t.subs;
      ReportKeepsInv(t, Report(id, Failure(EEXIST), t.table, t.table));
    } else {
      var t1 := Record(t, id, s, Registering, RegisterTarget(s));
      RecordKeepsInv(t, id, s, Registering, RegisterTarget(s));
      if reply.Success? {
        RegisterKeepsInv(t1, id, reply.value);
        var t2 := t1.(subs := t1.subs[id := s.(enterRingFd := reply.value)], table := t1.table[reply.value := s.fd]);
        assert reply.value in t2.table;
        ReportKeepsInv(t2, Report(id, Success(()), t.table, t2.table));
      } else {
        assert t.subs[id := s] == t.subs;
        ReportKeepsInv(t1, Report(id, Failure(reply.error), t.table, t.table));
      }
    }
  }

  lemma UnregisterStepKeepsInv(t: Task, id: nat, reply: Result<(), int>)
    requires Inv(t) && id in t.subs
    ensures Inv(Apply(t, Unregister(id, reply)))
  {
    var s := t.subs[id];
    SlotOf(t, id);
    if s.enterRingFd < 0 {
      hide Inv, SlotOk;
      assert t.subs[id := s] == t.subs;
      ReportKeepsInv(t, Report(id, Failure(EINVAL), t.table, t.table));
    } else {
      assert s.enterRingFd in t.table;
      hide Inv, SlotOk;
      var t1 := Record(t, id, s, Registering, RegisterTarget(s));
      RecordKeepsInv(t, id, s, Registering, RegisterTarget(s));
      if reply.Success? {
        UnregisterKeepsInv(t1, id);
        var t2 := t1.(subs := t1.subs[id := s.(enterRingFd := -1)], table := t1.table - {s.enterRingFd});
        assert s.enterRingFd !in t2.table;
        ReportKeepsInv(t2, Report(id, Success(()), t.table, t2.table));
      } else {
        assert t.subs[id := s] == t.subs;
        ReportKeepsInv(t1, Report(id, reply, t.table, t.table));
      }
    }
  }

  lemma ApplyKeepsInv(t: Task, step: Step)
    requires Inv(t)
    ensures Inv(Apply(t, step))
  {
    if step.id in t.subs {
      SlotOf(t, step.id);
    }
    hide Inv, SlotOk, Conclude;
    match step
    case Create(id, fd) =>
      if id !in t.subs {
        CreateKeepsInv(t, id, fd);
      }
    case Forget(id) => ForgetKeepsInv(t, id);
    case Register(id, reply) =>
      if id in t.subs && SlotAvailable(t, reply) {
        RegisterStepKeepsInv(t, id, reply);
      }
    case Unregister(id, reply) =>
      if id in t.subs {
        UnregisterStepKeepsInv(t, id, reply);
      }
    case Enter(id) =>
      if id in t.subs {
        RecordKeepsInv(t, id, t.subs[id], Entering, EnterTarget(t.subs[id]));
      }
    case Execute(id) =>
      if id in t.subs {
        RecordKeepsInv(t, id, t.subs[id], Registering, RegisterTarget(t.subs[id]));
      }
    case CloneBuffers(id) =>
      if id in t.subs {
        RecordKeepsInv(t, id, t.subs[id], Cloning, RawFd(t.subs[id].fd));
      }
  }

  lemma {:induction false} RunKeepsInv(t: Task, steps: seq<Step>)
    requires Inv(t)
    ensures Inv(Run(t, steps))
    decreases |steps|
  {
    hide Inv, Apply;
    if steps != [] {
      ApplyKeepsInv(t, steps[0]);
      RunKeepsInv(Apply(t, steps[0]), steps[1..]);
    }
  }

  /** A task that has not made any submitter yet. */
  function Fresh(regRegRing: bool): Task {
    Task(regRegRing, map[], map[], [], [])
  }

  /** Over any sequence of creations, registrations, unregistrations, enters and
      registration calls of any number of submitters, each succeeding or failing, every
      call reaches the ring of the submitter that made it, none being refused for its target;
      a remembered index always names a slot that still holds this ring, and no two submitters
      remember the same one. */
  lemma EveryCallReachesItsRing(regRegRing: bool, steps: seq<Step>)
    ensures var t := Run(Fresh(regRegRing), steps);
            && (forall c <- t.calls :: c.found == Some(c.owner))
            && (forall id <- t.subs :: t.subs[id].enterRingFd >= 0 ==>
                  t.subs[id].enterRingFd in t.table && t.table[t.subs[id].enterRingFd] == t.subs[id].fd)
            && (forall a, b :: a in t.subs && b in t.subs && a != b && t.subs[a].enterRingFd >= 0 ==>
                  t.subs[a].enterRingFd != t.subs[b].enterRingFd)
  {
    RunKeepsInv(Fresh(regRegRing), steps);
    var t := Run(Fresh(regRegRing), steps);
    forall id <- t.subs
      ensures SlotOk(t, t.subs[id])
    {
      SlotOf(t, id);
    }
  }

  /** In any such run a caller is told of success exactly when the call did take effect. */
  lemma ReportsAreHonest(regRegRing: bool, steps: seq<Step>)
    ensures forall r <- Run(Fresh(regRegRing), steps).reports :: r.result.Success? <==> r.before != r.after
  {
    RunKeepsInv(Fresh(regRegRing), steps);
    forall r <- Run(Fresh(regRegRing), steps).reports
      ensures r.result.Success? <==> r.before != r.after
    {
      assert Honest(r);
    }
  }

  // ---------------------------------------------------------------- one registration

  /** A step that cannot end the registration of submitter `id`. */
  predicate Spares(step: Step, id: nat) {
    step.id == id ==> !step.Unregister? && !step.Forget?
  }

  /** Of the calls from number `from` on, those of `id` use `slot` wherever that is allowed. */
  predicate UsesSlot(t: Task, from: nat, id: nat, s: Sub) {
    forall i :: from <= i < |t.calls| && t.calls[i].caller == id ==>
      t.calls[i].target ==
      if t.calls[i].kind == Entering || (t.calls[i].kind == Registering && t.regRegRing)
      then RegisteredIndex(s.enterRingFd) else RawFd(s.fd)
  }

  lemma StepKeepsRegistration(t: Task, step: Step, from: nat, id: nat, s: Sub)
    requires id in t.subs && t.subs[id] == s && s.enterRingFd >= 0 && s.regRegRing == t.regRegRing
    requires Spares(step, id) && UsesSlot(t, from, id, s)
    ensures var t' := Apply(t, step);
            id in t'.subs && t'.subs[id] == s && t'.regRegRing == t.regRegRing && UsesSlot(t', from, id, s)
  {
  }

  lemma {:induction false} RunKeepsRegistration(t: Task, steps: seq<Step>, from: nat, id: nat, s: Sub)
    requires id in t.subs && t.subs[id] == s && s.enterRingFd >= 0 && s.regRegRing == t.regRegRing
    requires (forall step <- steps :: Spares(step, id)) && UsesSlot(t, from, id, s)
    ensures var t' := Run(t, steps);
            id in t'.subs && t'.subs[id] == s && t'.regRegRing == t.regRegRing && UsesSlot(t', from, id, s)
    decreases |steps|
  {
    hide Apply, Spares, UsesSlot;
    if steps != [] {
      assert Spares(steps[0], id);
      StepKeepsRegistration(t, steps[0], from, id, s);
      RunKeepsRegistration(Apply(t, steps[0]), steps[1..], from, id, s);
    }
  }

  /** A registration lasts, whatever the other submitters do and however often its own tries
      to register again, and its calls use the slot wherever the kernel allows; the
      unregistration that ends it frees this one slot and restores the submitter. */
  lemma RegistrationLasts(t: Task, id: nat, slot: int, between: seq<Step>)
    requires Inv(t) && id in t.subs && t.subs[id].enterRingFd == -1
    requires 0 <= slot < IO_RINGFD_REG_MAX && slot !in t.table
    requires forall step <- between :: Spares(step, id)
    ensures var first := Apply(t, Register(id, Success(slot)));
            var on := Run(first, between);
            var off := Apply(on, Unregister(id, Success(())));
            && id in on.subs && on.subs[id] == t.subs[id].(enterRingFd := slot)
            && slot in on.table && on.table[slot] == t.subs[id].fd
            && UsesSlot(on, |first.calls|, id, on.subs[id])
            && id in off.subs && off.subs[id] == t.subs[id] && off.table == on.table - {slot}
  {
    var first := Apply(t, Register(id, Success(slot)));
    var s := t.subs[id].(enterRingFd := slot);
    ApplyKeepsInv(t, Register(id, Success(slot)));
    RunKeepsInv(first, between);
    SlotOf(t, id);
    assert first.subs[id] == s && first.regRegRing == t.regRegRing;
    RunKeepsRegistration(first, between, |first.calls|, id, s);
    SlotOf(Run(first, between), id);
    hide Inv, Run, UsesSlot;
  }
}
