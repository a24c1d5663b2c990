/** Completions the kernel has buffered reach the program: draining, `sync`, `submit`,
    `sync`, repeated, empties the overflow list, because the submit decision enters the
    kernel for it even when the poller is awake and nothing is waited for. */
module OverflowDelivery {
  import opened Words
  import opened CompletionRing
  import opened CompletionSafety
  import Submit

  /** `io_uring_enter`: with GETEVENTS the kernel moves buffered completions into the ring
      until the list is empty or the ring is full. */
  function Enter<C>(s: System<C>, flags: Submit.EnterFlags): System<C>
    requires Addressable(s.ring)
  {
    if flags.getEvents then Run(s, Flushes(|s.overflow|)) else s
  }

  function SubmitNow<C>(s: System<C>, p: Submit.Parameters, want: nat, asleep: bool, extArg: bool): System<C>
    requires Addressable(s.ring)
  {
    match Submit.Decision(p, want, s.overflowFlag, asleep, extArg)
    case None => s
    case Some(flags) => Enter(s, flags)
  }

  function Sync<C>(s: System<C>): (s': System<C>)
    requires Addressable(s.ring)
    ensures Addressable(s'.ring)
  {
    Apply(Apply(s, Publish), Reload)
  }

  /** The program takes every completion it knows of, and syncs. */
  function Drained<C>(s: System<C>): (s': System<C>)
    requires Addressable(s.ring) && s.handle.Some?
    ensures Addressable(s'.ring)
  {
    Sync(Apply(s, Fill(s.handle.value.Len())))
  }

  /** The program takes every completion it knows of, syncs, submits without waiting, and
      syncs again. */
  function Round<C>(s: System<C>, p: Submit.Parameters, asleep: bool): System<C>
    requires Addressable(s.ring)
  {
    if s.handle.None? then s else Sync(SubmitNow(Drained(s), p, 0, asleep, false))
  }

  /** One round for each element; the element says whether the poller sleeps then. */
  function Rounds<C>(s: System<C>, p: Submit.Parameters, asleep: seq<bool>): System<C>
    requires Addressable(s.ring)
    decreases |asleep|
  {
    if asleep == [] then s else Rounds(Round(s, p, asleep[0]), p, asleep[1..])
  }

  /** The handle has seen everything posted, as it has after every `sync`. */
  ghost predicate Fresh<C>(s: System<C>) {
    s.handle.Some? && s.known == s.Posted()
  }

  /** How many completions the ring has room for, as published. */
  function Room<C>(s: System<C>): int {
    s.published + s.ring.entries - s.Posted()
  }

  /** `s'` is `s` with its `count` oldest buffered completions moved into the ring. */
  ghost predicate Moved<C>(s: System<C>, s': System<C>, count: int) {
    && 0 <= count <= |s.overflow|
    && s'.overflow == s.overflow[count..]
    && s' == s.(ring := s'.ring, overflow := s'.overflow, overflowFlag := s'.overflowFlag)
    && s'.ring.entries == s.ring.entries
  }

  /** One flush moves the oldest buffered completion into the ring if there is room. */
  lemma FlushMovesOne<C>(s: System<C>)
    requires Inv(s)
    ensures Addressable(s.ring)
    ensures var s' := Apply(s, Flush);
            && Inv(s') && Room(s) >= 0
            && (HasRoom(s.ring) <==> Room(s) > 0)
            && (if s.overflow == [] || Room(s) == 0 then s' == s else
                  && Moved(s, s', 1) && |s'.overflow| == |s.overflow| - 1
                  && Room(s') == Room(s) - 1)
  {
    WordMeaning(s);
    FlushKeepsInv(s);
  }

  /** Flushing moves as many buffered completions as the ring has room for, no others. */
  lemma {:induction false} FlushesFillRoom<C>(s: System<C>, count: nat)
    requires Inv(s) && count >= |s.overflow|
    ensures Addressable(s.ring) && Room(s) >= 0
    ensures var s' := Run(s, Flushes(count));
            Inv(s') && Moved(s, s', Min(|s.overflow|, Room(s)))
    decreases count
  {
    FlushMovesOne(s);
    hide *;
    if s.overflow == [] || Room(s) == 0 {
      FlushesStop(s, count);
    } else {
      FlushesFillRoom(Apply(s, Flush), count - 1);
      FirstFlush(s, count);
      MoveOneMore(s, Apply(s, Flush), Run(s, Flushes(count)));
    }
  }

  lemma FlushesStop<C>(s: System<C>, count: nat)
    requires Inv(s) && Addressable(s.ring) && Room(s) >= 0 && (s.overflow == [] || Room(s) == 0)
    ensures Run(s, Flushes(count)) == s && Moved(s, s, Min(|s.overflow|, Room(s)))
  {
    FlushMovesOne(s);
    FlushesMoveNothing(s, count);
  }

  lemma MoveOneMore<C>(s: System<C>, mid: System<C>, s': System<C>)
    requires Moved(s, mid, 1) && Room(mid) == Room(s) - 1 >= 0
    requires Moved(mid, s', Min(|mid.overflow|, Room(mid)))
    ensures Moved(s, s', Min(|s.overflow|, Room(s)))
  {
  }

  /** `sync` publishes every take and looks at every post. */
  lemma SyncFreshens<C>(s: System<C>)
    requires Inv(s) && s.handle.Some?
    ensures Addressable(s.ring)
    ensures var s' := Sync(s);
            && Inv(s') && Fresh(s') && s'.published == |s'.taken|
            && s' == s.(ring := s'.ring, handle := s'.handle, published := s'.published, known := s'.known)
            && s'.ring.entries == s.ring.entries
  {
    ApplyKeepsInv(s, Publish);
    ApplyKeepsInv(Apply(s, Publish), Reload);
  }

  /** The program takes every completion its handle knows of. */
  lemma DrainTakesKnown<C>(s: System<C>)
    requires Inv(s) && s.handle.Some?
    ensures Addressable(s.ring)
    ensures var s' := Apply(s, Fill(s.handle.value.Len()));
            && Inv(s') && s'.handle.Some? && |s'.taken| == s.known
            && s' == s.(handle := s'.handle, taken := s'.taken)
  {
    WordMeaning(s);
    ApplyKeepsInv(s, Fill(s.handle.value.Len()));
    hide Inv;
    FillPops(s, s.handle.value.Len());
    PopCount(s, s.handle.value.Len());
  }

  /** A submit leaves the list only as long as the ring is full. */
  lemma SubmitFlushes<C>(s: System<C>, p: Submit.Parameters, want: nat, asleep: bool, extArg: bool)
    requires Inv(s) && p.IsFeatureNodrop()
    ensures Addressable(s.ring)
    ensures var s' := SubmitNow(s, p, want, asleep, extArg);
            Inv(s') && Room(s) >= 0 && Moved(s, s', Min(|s.overflow|, Room(s)))
  {
    hide Inv, Run, Flushes, Submit.Decision;
    FlagMeansBuffered(s);
    RoomIsNatural(s);
    FlushesFillRoom(s, |s.overflow|);
    if s.overflow != [] {
      Submit.OverflowAlwaysEntersForEvents(p, want, asleep, extArg);
    } else {
      NoFlushes(s);
    }
  }

  lemma RoomIsNatural<C>(s: System<C>)
    requires Inv(s)
    ensures Room(s) >= 0
  {
  }

  lemma FlagMeansBuffered<C>(s: System<C>)
    requires Inv(s)
    ensures s.overflowFlag <==> s.overflow != []
  {
  }

  lemma NoFlushes<C>(s: System<C>)
    requires Addressable(s.ring)
    ensures Run(s, Flushes(0)) == s
  {
  }

  /** After draining and syncing, the ring has the room that was not yet known to be used. */
  lemma DrainMakesRoom<C>(s: System<C>)
    requires Inv(s) && s.handle.Some?
    ensures Addressable(s.ring)
    ensures var d := Drained(s);
            && Inv(d) && d.handle.Some? && d.completed == s.completed && d.overflow == s.overflow
            && d.ring.entries == s.ring.entries && |d.taken| == d.published == s.known
            && Room(d) >= 0
            && (Fresh(s) ==> Room(d) == s.ring.entries)
  {
    hide Inv, Apply, Sync;
    DrainTakesKnown(s);
    SyncFreshens(Apply(s, Fill(s.handle.value.Len())));
    RoomIsNatural(Drained(s));
  }

  /** What one round does, whether the poller sleeps or not. */
  lemma RoundMakesProgress<C>(s: System<C>, p: Submit.Parameters, asleep: bool)
    requires Inv(s) && s.handle.Some? && p.IsFeatureNodrop()
    ensures Addressable(s.ring)
    ensures var s' := Round(s, p, asleep);
            && Inv(s') && Fresh(s') && s'.completed == s.completed && s'.ring.entries == s.ring.entries
            && |s'.taken| == s.known
            && |s'.overflow| <= |s.overflow|
            && (Fresh(s) ==> s'.overflow == s.overflow[Min(|s.overflow|, s.ring.entries)..])
  {
    DrainMakesRoom(s);
    hide Inv, Apply, Sync, SubmitNow, Fresh, Drained;
    SubmitFlushes(Drained(s), p, 0, asleep, false);
    SyncFreshens(SubmitNow(Drained(s), p, 0, asleep, false));
  }

  /** `count` rings full of completions. */
  function Ringfuls(count: nat, entries: nat): nat {
    if count == 0 then 0 else entries + Ringfuls(count - 1, entries)
  }

  lemma LastRound<C>(s: System<C>, p: Submit.Parameters, asleep: bool)
    requires Inv(s) && Fresh(s) && p.IsFeatureNodrop() && s.overflow == []
    ensures Addressable(s.ring)
    ensures var s' := Round(s, p, asleep);
            s'.completed == s.completed && s'.overflow == [] && s'.taken == s'.completed
  {
    RoundMakesProgress(s, p, asleep);
    var s' := Round(s, p, asleep);
    assert |s'.taken| == |s'.completed|;
    assert s'.completed[..|s'.taken|] == s'.completed;
  }

  lemma FreshIsOpen<C>(s: System<C>)
    requires Inv(s) && Fresh(s)
    ensures Addressable(s.ring) && s.handle.Some?
  {
  }

  lemma {:induction false} RoundsEmptyTheList<C>(s: System<C>, p: Submit.Parameters, asleep: seq<bool>)
    requires Inv(s) && Fresh(s) && p.IsFeatureNodrop()
    requires asleep != [] && |s.overflow| <= Ringfuls(|asleep| - 1, s.ring.entries)
    ensures Addressable(s.ring)
    ensures var s' := Rounds(s, p, asleep);
            s'.completed == s.completed && s'.overflow == [] && s'.taken == s'.completed
    decreases |asleep|
  {
    hide Inv, Round, Fresh;
    FreshIsOpen(s);
    var s' := Round(s, p, asleep[0]);
    if |asleep| == 1 {
      LastRound(s, p, asleep[0]);
      assert asleep[1..] == [];
    } else {
      RoundMakesProgress(s, p, asleep[0]);
      RoundsEmptyTheList(s', p, asleep[1..]);
    }
  }

  lemma RoundsFromAnywhere<C>(s: System<C>, p: Submit.Parameters, first: bool, rest: seq<bool>)
    requires Inv(s) && s.handle.Some? && p.IsFeatureNodrop()
    requires rest != [] && |s.overflow| <= Ringfuls(|rest| - 1, s.ring.entries)
    ensures Addressable(s.ring)
    ensures var s' := Rounds(Round(s, p, first), p, rest);
            s'.completed == s.completed && s'.overflow == [] && s'.taken == s'.completed
  {
    RoundMakesProgress(s, p, first);
    RoundsEmptyTheList(Round(s, p, first), p, rest);
  }

  /** No completion is stranded. From any reachable state, once nothing new arrives, two
      rounds more than the list has ringfuls hand every completion to the program: with or
      without SQPOLL, the poller awake or asleep in each round, and waiting for nothing. */
  lemma NoStrandedCompletions<C>(start: System<C>, steps: seq<Step<C>>, p: Submit.Parameters, asleep: seq<bool>)
    requires ValidStart(start) && start.nodrop && p.IsFeatureNodrop()
    ensures Addressable(start.ring)
    ensures var s := Run(start, steps);
            s.handle.Some? && |asleep| >= 2 && |s.overflow| <= Ringfuls(|asleep| - 2, s.ring.entries) ==>
              var s' := Rounds(s, p, asleep);
              s'.completed == s.completed && s'.overflow == [] && s'.taken == s'.completed
  {
    StartHolds(start);
    RunKeepsInv(start, steps);
    var s := Run(start, steps);
    if s.handle.Some? && |asleep| >= 2 && |s.overflow| <= Ringfuls(|asleep| - 2, s.ring.entries) {
      RoundsFromAnywhere(s, p, asleep[0], asleep[1..]);
    }
  }
}
