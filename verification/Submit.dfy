/** The submitter: how many entries it reports, whether it enters the kernel, with which
    flags, and through which descriptor. */
module Submit {
  import opened Words
  import opened Wrappers
  import opened SubmissionRing
  import opened Squeue
  import SubmissionSafety
  import opened RingDescriptors

  const IORING_SETUP_IOPOLL: bv32 := 1
  const IORING_SETUP_SQPOLL: bv32 := 2
  const IORING_FEAT_NODROP: bv32 := 2
  const IORING_FEAT_REG_REG_RING: bv32 := 8192
  const IORING_ENTER_GETEVENTS: u32 := 1
  const IORING_ENTER_SQ_WAKEUP: u32 := 2
  const IORING_ENTER_EXT_ARG: u32 := 8
  const IORING_ENTER_REGISTERED_RING: u32 := 16

  /** The two words of `io_uring_params` the submitter looks at. */
  datatype Parameters = Parameters(flags: bv32, features: bv32)
  {
    predicate IsSetupSqpoll() {
      flags & IORING_SETUP_SQPOLL != 0
    }

    predicate IsSetupIopoll() {
      flags & IORING_SETUP_IOPOLL != 0
    }

    predicate IsFeatureNodrop() {
      features & IORING_FEAT_NODROP != 0
    }

    predicate IsFeatureRegRegRing() {
      features & IORING_FEAT_REG_REG_RING != 0
    }
  }

  /** The bits of an enter call this library sets, and the word they make up. */
  datatype EnterFlags = EnterFlags(getEvents: bool, sqWakeup: bool, extArg: bool, registeredRing: bool)
  {
    function Bits(): u32 {
      (if getEvents then IORING_ENTER_GETEVENTS else 0)
      + (if sqWakeup then IORING_ENTER_SQ_WAKEUP else 0)
      + (if extArg then IORING_ENTER_EXT_ARG else 0)
      + (if registeredRing then IORING_ENTER_REGISTERED_RING else 0)
    }
  }

  /** `flags | IORING_ENTER_REGISTERED_RING`. */
  function WithRegisteredRing(flags: u32): (r: u32)
    ensures r / IORING_ENTER_REGISTERED_RING % 2 == 1
    ensures r % IORING_ENTER_REGISTERED_RING == flags % IORING_ENTER_REGISTERED_RING
    ensures r / (2 * IORING_ENTER_REGISTERED_RING) == flags / (2 * IORING_ENTER_REGISTERED_RING)
  {
    if flags / IORING_ENTER_REGISTERED_RING % 2 == 1 then flags else flags + IORING_ENTER_REGISTERED_RING
  }

  predicate HasBit(word: u32, bit: u32)
    requires bit > 0
  {
    word / bit % 2 == 1
  }

  /** Each of the four sets its own bit of the word and no other. */
  lemma BitsOfFlags(f: EnterFlags)
    ensures var w := f.Bits();
            && (HasBit(w, IORING_ENTER_GETEVENTS) <==> f.getEvents)
            && (HasBit(w, IORING_ENTER_SQ_WAKEUP) <==> f.sqWakeup)
            && (HasBit(w, IORING_ENTER_EXT_ARG) <==> f.extArg)
            && (HasBit(w, IORING_ENTER_REGISTERED_RING) <==> f.registeredRing)
            && !HasBit(w, 4) && w < 32
  {
  }

  lemma BitsWithRegisteredRing(f: EnterFlags)
    requires !f.registeredRing
    ensures WithRegisteredRing(f.Bits()) == f.(registeredRing := true).Bits()
  {
  }

  const NO_FLAGS := EnterFlags(false, false, false, false)

  datatype EnterCall<A> = EnterCall(fd: int, toSubmit: u32, minComplete: u32, flags: u32, arg: Option<A>)

  /** What the kernel does while a submit runs: reads between the loads of head and tail,
      and the flags word at each of its two loads. */
  datatype Interference = Interference(kernelReads: nat, flagsAtOverflowLoad: bv32, flagsAtWakeupLoad: bv32)

  /** The flags a submit enters with; `None` when it makes no system call: the poller is
      awake, nothing is waited for and no buffered completions need flushing. */
  function Decision(p: Parameters, want: nat, overflown: bool, asleep: bool, extArg: bool): Option<EnterFlags> {
    if p.IsSetupSqpoll() && !asleep && want == 0 && !(overflown && p.IsFeatureNodrop()) then None
    else Some(EnterFlags(want > 0 || p.IsSetupIopoll() || overflown, p.IsSetupSqpoll() && asleep, extArg, false))
  }

  /** A submit never stays out of the kernel while completions wait on the overflow list,
      and when it enters for them it asks for their delivery. */
  lemma OverflowAlwaysEntersForEvents(p: Parameters, want: nat, asleep: bool, extArg: bool)
    requires p.IsFeatureNodrop()
    ensures Decision(p, want, true, asleep, extArg).Some?
    ensures Decision(p, want, true, asleep, extArg).value.getEvents
  {
  }

  /** A sleeping poller is always woken, an awake one never. */
  lemma SleepingPollerIsWoken(p: Parameters, want: nat, overflown: bool, asleep: bool, extArg: bool)
    requires p.IsSetupSqpoll()
    ensures var d := Decision(p, want, overflown, asleep, extArg);
            asleep <==> (d.Some? && d.value.sqWakeup)
  {
  }

  /** The wrapped difference of the shared words is what a kernel without poller will read. */
  lemma DeliversLength<E>(s: SubmissionRing.System<E>)
    requires SubmissionRing.Inv(s)
    ensures Addressable(s.ring) && s.published <= |s.pushed|
    ensures SubmissionRing.Run(s, SubmissionSafety.Reads(WrappingSub(s.ring.tail, s.ring.head))).seen ==
            s.pushed[..s.published]
  {
    RingSizeBounds(s.ring.entries);
    DistanceOfCounters(s.published, |s.seen|);
    SubmissionSafety.ReadsDeliver(s, WrappingSub(s.ring.tail, s.ring.head));
  }

  class Submitter<E> {
    const fd: int
    const params: Parameters
    const ring: Squeue.Inner<E>
    var enterRingFd: int

    constructor (fd: int, params: Parameters, ring: Squeue.Inner<E>)
      requires ring.Valid()
      ensures this.fd == fd && this.params == params && this.ring == ring && enterRingFd == -1
    {
      this.fd, this.params, this.ring := fd, params, ring;
      enterRingFd := -1;
    }

    /** The part that decides which ring a call reaches. */
    ghost function View(): Sub
      reads this
    {
      Sub(fd, enterRingFd, params.IsFeatureRegRegRing())
    }

    /** The head is loaded before the tail; the kernel may read entries in between. */
    method SqLen(kernelReads: nat) returns (len: u32)
      modifies ring`head, ring`accesses
      ensures ring.accesses == old(ring.accesses) + [LoadHead, LoadTail]
      ensures len == WrappingSub(ring.tail, old(ring.head))
      ensures ring.View() == KernelTakes(old(ring.View()), kernelReads)
    {
      var head := ring.head;
      ring.KernelRuns(kernelReads);
      var tail := ring.tail;
      len := WrappingSub(tail, head);
      ring.accesses := ring.accesses + [LoadHead, LoadTail];
    }

    method SqNeedWakeup() returns (asleep: bool)
      modifies ring`accesses
      ensures asleep <==> ring.flags & IORING_SQ_NEED_WAKEUP != 0
      ensures ring.accesses == old(ring.accesses) + [LoadFlags]
    {
      asleep := ring.flags & IORING_SQ_NEED_WAKEUP != 0;
      ring.accesses := ring.accesses + [LoadFlags];
    }

    method SqCqOverflow() returns (overflown: bool)
      modifies ring`accesses
      ensures overflown <==> ring.flags & IORING_SQ_CQ_OVERFLOW != 0
      ensures ring.accesses == old(ring.accesses) + [LoadFlags]
    {
      overflown := ring.flags & IORING_SQ_CQ_OVERFLOW != 0;
      ring.accesses := ring.accesses + [LoadFlags];
    }

    /** The call `enter` makes: through the table index and marked so once the ring
        descriptor is registered, else through the raw descriptor. */
    method Enter<A>(toSubmit: u32, minComplete: u32, flags: u32, arg: Option<A>) returns (call: EnterCall<A>)
      ensures call == EnterCall(
                        if enterRingFd >= 0 then enterRingFd else fd, toSubmit, minComplete,
                        if enterRingFd >= 0 then WithRegisteredRing(flags) else flags, arg)
      ensures EnterTarget(View()) == if enterRingFd >= 0 then RegisteredIndex(call.fd) else RawFd(call.fd)
    {
      if enterRingFd >= 0 {
        call := EnterCall(enterRingFd, toSubmit, minComplete, WithRegisteredRing(flags), arg);
      } else {
        call := EnterCall(fd, toSubmit, minComplete, flags, arg);
      }
    }

    method RegisterRing() returns (target: Target)
      ensures target == RegisterTarget(View())
    {
      if enterRingFd >= 0 && params.IsFeatureRegRegRing() {
        target := RegisteredIndex(enterRingFd);
      } else {
        target := RawFd(fd);
      }
    }

    /** Registers the ring's descriptor. `call` is where the registration call goes, `None`
        when it is refused without one; `reply` is the kernel's. */
    method RegisterRingFd(reply: Result<int, int>) returns (call: Option<Target>, result: Result<(), int>)
      modifies this`enterRingFd
      ensures Outcome(View(), result, call) == Registered(old(View()), reply)
      ensures result.Success? <==> old(enterRingFd) < 0 && reply.Success?
      ensures enterRingFd == if result.Success? then reply.value else old(enterRingFd)
      ensures result.Failure? ==> result.error == if old(enterRingFd) >= 0 then EEXIST else reply.error
      ensures call.Some? <==> old(enterRingFd) < 0
    {
      if enterRingFd >= 0 {
        return None, Failure(EEXIST);
      }
      var target := RegisterRing();
      call := Some(target);
      match reply
      case Failure(e) => result := Failure(e);
      case Success(slot) =>
        enterRingFd := slot;
        result := Success(());
    }

    method UnregisterRingFd(reply: Result<(), int>) returns (call: Option<Target>, result: Result<(), int>)
      modifies this`enterRingFd
      ensures Outcome(View(), result, call) == Unregistered(old(View()), reply)
      ensures result.Success? <==> old(enterRingFd) >= 0 && reply.Success?
      ensures enterRingFd == if result.Success? then -1 else old(enterRingFd)
      ensures result.Failure? ==> result.error == if old(enterRingFd) < 0 then EINVAL else reply.error
      ensures call.Some? <==> old(enterRingFd) >= 0
    {
      if enterRingFd < 0 {
        return None, Failure(EINVAL);
      }
      var target := RegisterRing();
      call := Some(target);
      if reply.Failure? {
        return call, reply;
      }
      enterRingFd := -1;
      result := Success(());
    }

    /** What a submit must hand to the kernel, `None` if nothing. The wait count is cut to
        32 bits, so a `want` of 2^32 waits for nothing. */
    ghost predicate Submits<A>(call: Option<EnterCall<A>>, len: u32, want: nat, env: Interference, arg: Option<A>)
      reads this
    {
      var d := Decision(params, want,
                        env.flagsAtOverflowLoad & IORING_SQ_CQ_OVERFLOW != 0,
                        env.flagsAtWakeupLoad & IORING_SQ_NEED_WAKEUP != 0, arg.Some?);
      match call
      case None => d.None?
      case Some(c) =>
        && d.Some?
        && c.fd == (if enterRingFd >= 0 then enterRingFd else fd)
        && c.toSubmit == len && c.minComplete == want % TWO_POW_32 && c.arg == arg
        && c.flags == d.value.(registeredRing := enterRingFd >= 0).Bits()
    }

    /** A submit stays out of the kernel in one case only: a poller that is awake reads the
        entries, nothing is waited for, and no buffered completions need flushing. */
    lemma CallUnlessPolled<A>(call: Option<EnterCall<A>>, len: u32, want: nat, env: Interference, arg: Option<A>)
      requires Submits(call, len, want, env, arg)
      ensures call.None? <==>
                && params.IsSetupSqpoll() && env.flagsAtWakeupLoad & IORING_SQ_NEED_WAKEUP == 0 && want == 0
                && !(env.flagsAtOverflowLoad & IORING_SQ_CQ_OVERFLOW != 0 && params.IsFeatureNodrop())
    {
    }

    /** What each bit of the flags word of a call stands for; no other bit is set. */
    lemma FlagsAreAskedFor<A>(call: Option<EnterCall<A>>, len: u32, want: nat, env: Interference, arg: Option<A>)
      requires Submits(call, len, want, env, arg) && call.Some?
      ensures var w := call.value.flags;
              && (HasBit(w, IORING_ENTER_GETEVENTS) <==>
                    want > 0 || params.IsSetupIopoll() || env.flagsAtOverflowLoad & IORING_SQ_CQ_OVERFLOW != 0)
              && (HasBit(w, IORING_ENTER_SQ_WAKEUP) <==>
                    params.IsSetupSqpoll() && env.flagsAtWakeupLoad & IORING_SQ_NEED_WAKEUP != 0)
              && (HasBit(w, IORING_ENTER_EXT_ARG) <==> arg.Some?)
              && (HasBit(w, IORING_ENTER_REGISTERED_RING) <==> enterRingFd >= 0)
              && !HasBit(w, 4) && w < 32
    {
      var d := Decision(params, want,
                        env.flagsAtOverflowLoad & IORING_SQ_CQ_OVERFLOW != 0,
                        env.flagsAtWakeupLoad & IORING_SQ_NEED_WAKEUP != 0, arg.Some?);
      BitsOfFlags(d.value.(registeredRing := enterRingFd >= 0));
      hide EnterFlags.Bits, HasBit;
    }

    /** Without SQPOLL nothing published stays behind: from every reachable state a submit
        makes a call, and the kernel taking as many entries as it says reads all of them. */
    lemma SubmitHandsOverAll<A>(start: SubmissionRing.System<E>, steps: seq<SubmissionRing.Step<E>>,
                                call: Option<EnterCall<A>>, want: nat, env: Interference, arg: Option<A>)
      requires SubmissionRing.ValidStart(start) && !params.IsSetupSqpoll()
      requires Addressable(start.ring)
      requires var r := SubmissionRing.Run(start, steps).ring;
               Submits(call, WrappingSub(r.tail, r.head), want, env, arg)
      ensures call.Some?
      ensures var s := SubmissionRing.Run(start, steps);
              && s.published <= |s.pushed|
              && SubmissionRing.Run(s, SubmissionSafety.Reads(call.value.toSubmit)).seen == s.pushed[..s.published]
    {
      CallUnlessPolled(call, call.value.toSubmit, want, env, arg);
      SubmissionRing.StartHolds(start);
      SubmissionRing.RunKeepsInv(start, steps);
      hide Submits, SubmissionRing.Run;
      DeliversLength(SubmissionRing.Run(start, steps));
    }

    /** The poller that sleeps is woken by the same call that reports its entries. */
    lemma SleeperIsCalled<A>(call: Option<EnterCall<A>>, len: u32, want: nat, env: Interference, arg: Option<A>)
      requires Submits(call, len, want, env, arg) && params.IsSetupSqpoll()
      requires env.flagsAtWakeupLoad & IORING_SQ_NEED_WAKEUP != 0
      ensures call.Some? && HasBit(call.value.flags, IORING_ENTER_SQ_WAKEUP) && call.value.toSubmit == len
    {
      CallUnlessPolled(call, len, want, env, arg);
      FlagsAreAskedFor(call, len, want, env, arg);
    }

    /** Without a call the length is the result; otherwise the caller gets the kernel's. Head,
        tail and overflow are read first; under SQPOLL the fence comes between the caller's
        stores and the load that decides about the wake-up. */
    method SubmitAndWait<A>(want: nat, env: Interference, kernelResult: Result<nat, int>)
      returns (call: Option<EnterCall<A>>, result: Result<nat, int>)
      modifies ring`head, ring`flags, ring`accesses
      ensures ring.View() == KernelTakes(old(ring.View()), env.kernelReads)
      ensures ring.accesses == old(ring.accesses) + [LoadHead, LoadTail, LoadFlags]
                               + if params.IsSetupSqpoll() then [FenceSeqCst, LoadFlags] else []
      ensures Submits(call, WrappingSub(ring.tail, old(ring.head)), want, env, None)
      ensures result == if call.None? then Success(WrappingSub(ring.tail, old(ring.head))) else kernelResult
    {
      hide KernelTakes, WithRegisteredRing, EnterFlags.Bits, Parameters.IsSetupSqpoll, Parameters.IsSetupIopoll,
          Parameters.IsFeatureNodrop;
      var len := SqLen(env.kernelReads);
      var flags := NO_FLAGS;
      ring.flags := env.flagsAtOverflowLoad;
      var overflown := SqCqOverflow();
      var needSyscallForOverflow := overflown && params.IsFeatureNodrop();
      if want > 0 || params.IsSetupIopoll() || overflown {
        flags := flags.(getEvents := true);
      }
      if params.IsSetupSqpoll() {
        ring.accesses := ring.accesses + [FenceSeqCst];
        ring.flags := env.flagsAtWakeupLoad;
        var asleep := SqNeedWakeup();
        if asleep {
          flags := flags.(sqWakeup := true);
        } else if want == 0 && !needSyscallForOverflow {
          return None, Success(len);
        }
      }
      BitsWithRegisteredRing(flags);
      var c := Enter(len, want % TWO_POW_32, flags.Bits(), None);
      return Some(c), kernelResult;
    }

    method SubmitWithArgs<A>(want: nat, args: A, env: Interference, kernelResult: Result<nat, int>)
      returns (call: Option<EnterCall<A>>, result: Result<nat, int>)
      modifies ring`head, ring`flags, ring`accesses
      ensures ring.View() == KernelTakes(old(ring.View()), env.kernelReads)
      ensures ring.accesses == old(ring.accesses) + [LoadHead, LoadTail, LoadFlags]
                               + if params.IsSetupSqpoll() then [FenceSeqCst, LoadFlags] else []
      ensures Submits(call, WrappingSub(ring.tail, old(ring.head)), want, env, Some(args))
      ensures result == if call.None? then Success(WrappingSub(ring.tail, old(ring.head))) else kernelResult
    {
      hide KernelTakes, WithRegisteredRing, EnterFlags.Bits, Parameters.IsSetupSqpoll, Parameters.IsSetupIopoll,
          Parameters.IsFeatureNodrop;
      var len := SqLen(env.kernelReads);
      var flags := NO_FLAGS.(extArg := true);
      ring.flags := env.flagsAtOverflowLoad;
      var overflown := SqCqOverflow();
      var needSyscall := overflown && params.IsFeatureNodrop();
      if want > 0 || params.IsSetupIopoll() || overflown {
        flags := flags.(getEvents := true);
      }
      if params.IsSetupSqpoll() {
        ring.accesses := ring.accesses + [FenceSeqCst];
        ring.flags := env.flagsAtWakeupLoad;
        var asleep := SqNeedWakeup();
        if asleep {
          flags := flags.(sqWakeup := true);
        } else if want == 0 && !needSyscall {
          return None, Success(len);
        }
      }
      BitsWithRegisteredRing(flags);
      var c := Enter(len, want % TWO_POW_32, flags.Bits(), Some(args));
      return Some(c), kernelResult;
    }

    /** In every state both forms of submit enter or skip alike, and differ in nothing but
        the EXT_ARG flag and its argument. */
    lemma SameDecision<A>(plain: Option<EnterCall<A>>, extended: Option<EnterCall<A>>, args: A, len: u32, want: nat,
                          env: Interference)
      requires Submits(plain, len, want, env, None) && Submits(extended, len, want, env, Some(args))
      ensures extended == match plain
                          case None => None
                          case Some(c) => Some(c.(flags := c.flags + IORING_ENTER_EXT_ARG, arg := Some(args)))
    {
    }

    /** The kernel is asked to wait for as many completions as the caller wants exactly when
        that number fits 32 bits, and for none when it is a multiple of 2^32. */
    lemma WaitIsCutTo32Bits<A>(call: Option<EnterCall<A>>, len: u32, want: nat, env: Interference, arg: Option<A>)
      requires Submits(call, len, want, env, arg) && call.Some?
      ensures call.value.minComplete == want <==> want < TWO_POW_32
      ensures call.value.minComplete == 0 <==> exists k: nat :: want == k * TWO_POW_32
    {
      if call.value.minComplete == 0 {
        assert want == (want / TWO_POW_32) * TWO_POW_32;
      }
    }
  }
}
