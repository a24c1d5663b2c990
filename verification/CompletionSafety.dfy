/** What the completion protocol guarantees over every run. */
module CompletionSafety {
  import opened Words
  import opened Wrappers
  import opened CompletionRing

  /** The completions handed to the program are a prefix of those the kernel produced, in
      order; the ring holds the next ones, the overflow list the rest. With NODROP none is
      dropped, without it none waits. */
  lemma ProgramTakesCompletionsInOrder<C>(start: System<C>, steps: seq<Step<C>>)
    requires ValidStart(start)
    ensures Addressable(start.ring)
    ensures var s := Run(start, steps);
            && s.published <= |s.taken| <= s.Posted() <= s.published + s.ring.entries
            && s.taken == s.completed[..|s.taken|]
            && (forall i :: |s.taken| <= i < s.Posted() ==>
                  s.ring.cqes[BitAnd(Residue(i), s.ring.mask)] == s.completed[i])
            && s.overflow == s.completed[s.Posted()..]
            && (s.overflowFlag <==> s.overflow != [])
            && (if s.nodrop then s.lost == 0 else s.overflow == [])
  {
    StartHolds(start);
    RunKeepsInv(start, steps);
    var s := Run(start, steps);
    forall i | |s.taken| <= i < s.Posted()
      ensures s.ring.cqes[BitAnd(Residue(i), s.ring.mask)] == s.completed[i]
    {
      SlotHolds(s, i);
    }
  }

  /** The kernel writes no slot whose consumption the program has not published. */
  lemma KernelSparesUnpublishedSlots<C>(start: System<C>, steps: seq<Step<C>>, act: Step<C>, i: nat)
    requires ValidStart(start) && (act.Complete? || act.Flush?)
    ensures Addressable(start.ring)
    ensures var s := Run(start, steps);
            var slot := BitAnd(Residue(i), s.ring.mask);
            s.published <= i < s.Posted() ==> Apply(s, act).ring.cqes[slot] == s.ring.cqes[slot]
  {
    StartHolds(start);
    RunKeepsInv(start, steps);
    SparesSlot(Run(start, steps), act, i);
  }

  lemma SparesSlot<C>(s: System<C>, act: Step<C>, i: nat)
    requires Inv(s) && (act.Complete? || act.Flush?)
    ensures Addressable(s.ring)
    ensures var slot := BitAnd(Residue(i), s.ring.mask);
            s.published <= i < s.Posted() ==> Apply(s, act).ring.cqes[slot] == s.ring.cqes[slot]
  {
    if s.published <= i < s.Posted() {
      KernelStepFields(s, act);
      ApplyKeepsInv(s, act);
      hide Inv, Apply;
      SlotHolds(s, i);
      SlotHolds(Apply(s, act), i);
    }
  }

  lemma KernelStepFields<C>(s: System<C>, act: Step<C>)
    requires Addressable(s.ring) && (act.Complete? || act.Flush?)
    ensures var s' := Apply(s, act);
            && s'.published == s.published && s'.Posted() >= s.Posted() && s.completed <= s'.completed
            && s'.ring.mask == s.ring.mask
  {
  }

  /** The slot of a posted completion that is not given back holds it. */
  lemma SlotHolds<C>(s: System<C>, i: nat)
    requires Inv(s) && s.published <= i < s.Posted()
    ensures Addressable(s.ring)
    ensures s.ring.cqes[BitAnd(Residue(i), s.ring.mask)] == s.completed[i]
  {
    SlotOfCounter(i, s.ring.entries);
  }

  // ---------------------------------------------------------------- reading

  lemma {:induction false} NextsOnEmpty<C>(s: System<C>, count: nat)
    requires Addressable(s.ring) && s.handle.Some? && s.handle.value.head == s.handle.value.tail
    ensures Run(s, Nexts(count)) == s
    decreases count
  {
    if count > 0 {
      assert Nexts<C>(count)[1..] == Nexts(count - 1);
      NextsOnEmpty(s, count - 1);
    }
  }

  lemma {:induction false} RunConcat<C>(s: System<C>, a: seq<Step<C>>, b: seq<Step<C>>)
    requires Addressable(s.ring)
    ensures Run(s, a + b) == Run(Run(s, a), b)
    decreases |a|
  {
    if a == [] {
      assert a + b == b;
    } else {
      assert (a + b)[1..] == a[1..] + b;
      RunConcat(Apply(s, a[0]), a[1..], b);
    }
  }

  lemma {:induction false} NextsSum<C>(a: nat, b: nat)
    ensures Nexts<C>(a + b) == Nexts(a) + Nexts(b)
    decreases a
  {
    if a > 0 {
      NextsSum<C>(a - 1, b);
    }
  }

  lemma NextsAfterLast<C>(s: System<C>, count: nat)
    requires Inv(s) && s.handle.Some? && |s.taken| == s.known
    ensures Addressable(s.ring) && Run(s, Nexts(count)) == s
  {
    WordMeaning(s);
    hide Inv;
    NextsOnEmpty(s, count);
  }

  lemma NextsStopAtTail<C>(s: System<C>, count: nat)
    requires Inv(s) && s.handle.Some?
    ensures Addressable(s.ring)
    ensures Run(s, Nexts(count)) == Run(s, Nexts(Min(s.known - |s.taken|, count)))
  {
    var n := Min(s.known - |s.taken|, count);
    PopsAreNexts(s, n);
    PopCount(s, n);
    hide Inv, AfterPops, Run, Nexts;
    NextsSum<C>(n, count - n);
    RunConcat(s, Nexts(n), Nexts(count - n));
    if n < count {
      NextsAfterLast(AfterPops(s, n), count - n);
    } else {
      NoNexts(AfterPops(s, n));
    }
  }

  lemma NoNexts<C>(s: System<C>)
    requires Addressable(s.ring)
    ensures Run(s, Nexts(0)) == s
  {
  }

  lemma PopCount<C>(s: System<C>, count: nat)
    requires Addressable(s.ring) && s.handle.Some?
    ensures |AfterPops(s, count).taken| == |s.taken| + count && AfterPops(s, count).known == s.known
    ensures AfterPops(s, count).handle.Some?
  {
  }

  lemma FillPops<C>(s: System<C>, count: nat)
    requires Inv(s) && s.handle.Some?
    ensures Addressable(s.ring)
    ensures Apply(s, Fill(count)) == AfterPops(s, Min(s.known - |s.taken|, count))
  {
    WordMeaning(s);
  }

  /** In any state the protocol allows, filling `count` slots is `count` calls of `next`:
      same entries, same state; and the entries are the next completions, as many as the
      handle knows of. */
  lemma FillIsNexts<C>(s: System<C>, count: nat)
    requires Inv(s) && s.handle.Some?
    ensures Addressable(s.ring)
    ensures Apply(s, Fill(count)) == Run(s, Nexts(count))
    ensures |s.taken| <= s.known <= |s.completed|
    ensures Apply(s, Fill(count)).taken == s.completed[..|s.taken| + Min(s.known - |s.taken|, count)]
  {
    FillPops(s, count);
    PopsAreNexts(s, Min(s.known - |s.taken|, count));
    NextsStopAtTail(s, count);
  }

  /** `list` is what `count` slots should receive from state `s`: the next completions, as many
      as there are slots and known ones; and `h` is the handle behind the last of them. */
  ghost predicate TakesNext<C>(s: System<C>, list: seq<C>, h: Handle, count: nat)
    requires Inv(s) && s.handle.Some?
  {
    && Addressable(s.ring) && |s.taken| <= s.known <= |s.completed|
    && list == s.completed[|s.taken|..|s.taken| + Min(s.known - |s.taken|, count)]
    && Apply(s, Fill(count)) == s.(handle := Some(h), taken := s.taken + list)
    && h == Handle(Residue(|s.taken| + |list|), Residue(s.known))
  }

  /** Unchecked pops within the handle's length take what they should. */
  lemma PoppedAreNext<C>(s: System<C>, count: nat)
    requires Inv(s) && s.handle.Some?
    ensures Addressable(s.ring)
    ensures var n := Min(s.handle.value.Len(), count);
            TakesNext(s, PopMany(s.ring, s.handle.value, n).0, PopMany(s.ring, s.handle.value, n).1, count)
  {
    hide Inv, Apply, AfterPops, Residue, PopMany, TakesNext, WrappingSub;
    WordMeaning(s);
    KnownIsCompleted(s);
    var n := Min(s.handle.value.Len(), count);
    FillPops(s, count);
    PopsAreNexts(s, n);
    AfterPopsFields(s, n);
    HandleWords(AfterPops(s, n));
    var (list, h) := PopMany(s.ring, s.handle.value, n);
    FilledIsNext(s, list, h, count);
  }

  lemma AfterPopsFields<C>(s: System<C>, n: nat)
    requires Addressable(s.ring) && s.handle.Some?
    ensures var (list, h) := PopMany(s.ring, s.handle.value, n);
            AfterPops(s, n) == s.(handle := Some(h), taken := s.taken + list) && |list| == n
  {
  }

  lemma FilledIsNext<C>(s: System<C>, list: seq<C>, h: Handle, count: nat)
    requires Inv(s) && s.handle.Some? && Addressable(s.ring) && |s.taken| <= s.known <= |s.completed|
    requires Apply(s, Fill(count)) == s.(handle := Some(h), taken := s.taken + list)
    requires |list| == Min(s.known - |s.taken|, count) && s.taken + list == s.completed[..|s.taken| + |list|]
    requires h == Handle(Residue(|s.taken + list|), Residue(s.known))
    ensures TakesNext(s, list, h, count)
  {
    hide Inv, Apply, Residue;
    assert list == (s.taken + list)[|s.taken|..];
  }

  lemma KnownIsCompleted<C>(s: System<C>)
    requires Inv(s) && s.handle.Some?
    ensures Addressable(s.ring) && |s.taken| <= s.known <= |s.completed|
  {
  }

  lemma HandleWords<C>(s: System<C>)
    requires Inv(s) && s.handle.Some?
    ensures Addressable(s.ring) && s.handle.value == Handle(Residue(|s.taken|), Residue(s.known))
  {
  }

  /** The same for every state the ring and the handle can belong to. */
  lemma PopsTakeNext<C(!new)>(r: Ring<C>, h: Handle, count: nat)
    requires Addressable(r)
    ensures var n := Min(h.Len(), count);
            forall s: System<C> :: Inv(s) && s.ring == r && s.handle == Some(h) ==>
              TakesNext(s, PopMany(r, h, n).0, PopMany(r, h, n).1, count)
  {
    forall s: System<C> | Inv(s) && s.ring == r && s.handle == Some(h)
      ensures TakesNext(s, PopMany(r, h, Min(h.Len(), count)).0, PopMany(r, h, Min(h.Len(), count)).1, count)
    {
      PoppedAreNext(s, count);
    }
  }

  lemma NextTakesNext<C(!new)>(r: Ring<C>, h: Handle)
    requires Addressable(r)
    ensures forall s: System<C> :: Inv(s) && s.ring == r && s.handle == Some(h) ==>
              if h.head == h.tail then TakesNext(s, [], h, 1) else TakesNext(s, [Popped(r, h)], Advance(h), 1)
  {
    hide Inv, TakesNext, PopMany, Popped;
    PopOne(r, h);
    PopsTakeNext(r, h, 1);
  }

  lemma PopOne<C>(r: Ring<C>, h: Handle)
    requires Addressable(r)
    ensures PopMany(r, h, 0) == ([], h) && PopMany(r, h, 1) == ([Popped(r, h)], Advance(h))
    ensures h.Len() == 0 <==> h.head == h.tail
  {
    hide Popped;
    assert PopMany(r, Advance(h), 0) == ([], Advance(h));
    assert PopMany(r, h, 1) == ([Popped(r, h)] + [], Advance(h));
    assert [Popped(r, h)] + [] == [Popped(r, h)];
  }

  // ---------------------------------------------------------------- the kernel's posts

  function Flushes<C>(count: nat): seq<Step<C>> {
    if count == 0 then [] else [Flush] + Flushes(count - 1)
  }

  lemma FirstFlush<C>(s: System<C>, count: nat)
    requires Addressable(s.ring) && count > 0
    ensures Run(s, Flushes(count)) == Run(Apply(s, Flush), Flushes(count - 1))
  {
    assert Flushes<C>(count)[1..] == Flushes(count - 1);
  }

  lemma {:induction false} FlushesMoveNothing<C>(s: System<C>, count: nat)
    requires Addressable(s.ring) && Apply(s, Flush) == s
    ensures Run(s, Flushes(count)) == s
    decreases count
  {
    if count > 0 {
      FirstFlush(s, count);
      FlushesMoveNothing(s, count - 1);
    }
  }

  function Completes<C>(cs: seq<C>): seq<Step<C>>
    decreases |cs|
  {
    if cs == [] then [] else [Complete(cs[0])] + Completes(cs[1..])
  }

  lemma {:induction false} PostIntoFull<C>(r: Ring<C>, cs: seq<C>)
    requires Addressable(r) && !HasRoom(r)
    ensures PostWhileRoom(r, cs) == r
    decreases |cs|
  {
    if cs != [] {
      PostIntoFull(r, cs[1..]);
    }
  }

  /** What the kernel of the queue objects does when operations complete is what the protocol
      does: each goes into the ring while there is room, and else to the overflow list or
      nowhere. */
  lemma {:induction false} CompletionsArePosts<C>(s: System<C>, cs: seq<C>)
    requires Addressable(s.ring) && (s.overflow == [] || !HasRoom(s.ring))
    ensures Run(s, Completes(cs)).ring == PostWhileRoom(s.ring, cs)
    decreases |cs|
  {
    if cs != [] {
      assert Completes(cs)[1..] == Completes(cs[1..]);
      CompletionsArePosts(Apply(s, Complete(cs[0])), cs[1..]);
    }
  }

  /** And likewise when the overflow list is flushed. */
  lemma {:induction false} FlushesArePosts<C>(s: System<C>)
    requires Addressable(s.ring)
    ensures Run(s, Flushes(|s.overflow|)).ring == PostWhileRoom(s.ring, s.overflow)
    decreases |s.overflow|
  {
    if s.overflow != [] {
      if HasRoom(s.ring) {
        FirstFlush(s, |s.overflow|);
        FlushesArePosts(Apply(s, Flush));
      } else {
        FlushesMoveNothing(s, |s.overflow|);
        PostIntoFull(s.ring, s.overflow);
      }
    }
  }

  // ---------------------------------------------------------------- status

  /** When the status reports empty, so does every live queue. Right after `sync` the two
      agree, however often the counters have wrapped. */
  lemma StatusAgreesWithQueue<C>(start: System<C>, steps: seq<Step<C>>)
    requires ValidStart(start)
    ensures Addressable(start.ring)
    ensures var s := Run(start, steps);
            s.handle.Some? ==>
              && (StatusEmpty(s.ring) ==> s.handle.value.Len() == 0)
              && var synced := Apply(Apply(s, Publish), Reload);
                 (StatusEmpty(synced.ring) <==> synced.handle.value.Len() == 0)
  {
    StartHolds(start);
    RunKeepsInv(start, steps);
    var s := Run(start, steps);
    if s.handle.Some? {
      WordMeaning(s);
      ApplyKeepsInv(s, Publish);
      ApplyKeepsInv(Apply(s, Publish), Reload);
      WordMeaning(Apply(Apply(s, Publish), Reload));
    }
  }

  /** And it reports empty just when every posted completion has been consumed by a handle
      that has published so. */
  lemma StatusMeansAllConsumed<C>(start: System<C>, steps: seq<Step<C>>)
    requires ValidStart(start)
    ensures Addressable(start.ring)
    ensures var s := Run(start, steps);
            StatusEmpty(s.ring) <==> s.published == |s.taken| == s.Posted()
  {
    StartHolds(start);
    RunKeepsInv(start, steps);
    WordMeaning(Run(start, steps));
  }

  // ---------------------------------------------------------------- handles

  predicate OpenAfter<C>(step: Step<C>, open: bool) {
    step.Open? || (open && !step.Close?)
  }

  /** What the single handle does where short-lived ones do `step`: it calls `sync` where a
      handle is opened and where one is dropped. */
  function LongStep<C>(step: Step<C>, open: bool): seq<Step<C>> {
    match step
    case Open => if open then [] else [Publish, Reload]
    case Close => if open then [Publish, Reload] else []
    case Complete(_) => [step]
    case Flush => [step]
    case _ => if open then [step] else []
  }

  function LongLived<C>(steps: seq<Step<C>>, open: bool): seq<Step<C>>
    decreases |steps|
  {
    if steps == [] then []
    else LongStep(steps[0], open) + LongLived(steps[1..], OpenAfter(steps[0], open))
  }

  ghost predicate SameQueue<C>(s: System<C>, long: System<C>) {
    && long.handle.Some?
    && long == s.(handle := long.handle, known := long.known)
    && match s.handle
       case Some(h) => long == s
       case None => long.handle.value.head == s.ring.head && s.published == |s.taken|
  }

  lemma RunSync<C>(s: System<C>)
    requires Addressable(s.ring)
    ensures Run(s, [Publish, Reload]) == Apply(Apply(s, Publish), Reload)
  {
    var sync: seq<Step<C>> := [Publish, Reload];
    assert sync[1..] == [Reload] && sync[1..][1..] == [];
    assert Run(Apply(s, Publish), [Reload]) == Run(Apply(Apply(s, Publish), Reload), []);
  }

  lemma StepsAgree<C>(s: System<C>, long: System<C>, step: Step<C>)
    requires Addressable(s.ring) && SameQueue(s, long)
    ensures SameQueue(Apply(s, step), Run(long, LongStep(step, s.handle.Some?)))
    ensures Apply(s, step).handle.Some? == OpenAfter(step, s.handle.Some?)
  {
    var long' := LongStep(step, s.handle.Some?);
    if |long'| == 2 {
      RunSync(long);
    } else {
      assert Run(long, long') == if long' == [] then long else Apply(long, long'[0]);
    }
  }

  lemma {:induction false} ShortHandlesActLikeOne<C>(s: System<C>, long: System<C>, steps: seq<Step<C>>)
    requires Addressable(s.ring) && SameQueue(s, long)
    ensures SameQueue(Run(s, steps), Run(long, LongLived(steps, s.handle.Some?)))
    decreases |steps|
  {
    if steps != [] {
      StepsAgree(s, long, steps[0]);
      var first := LongStep(steps[0], s.handle.Some?);
      var s' := Apply(s, steps[0]);
      RunConcat(long, first, LongLived(steps[1..], s'.handle.Some?));
      ShortHandlesActLikeOne(s', Run(long, first), steps[1..]);
    }
  }

  /** Opening, using and dropping completion handles at will has the same effect on the
      shared words and yields the same completions as one handle kept for ever that calls
      `sync` at each of these points. */
  lemma HandleLifetimesDoNotMatter<C>(start: System<C>, steps: seq<Step<C>>)
    requires ValidStart(start)
    ensures Addressable(start.ring)
    ensures var s := Run(start, steps);
            var long := Run(Apply(start, Open), LongLived(steps, false));
            && s.ring == long.ring && s.taken == long.taken && s.completed == long.completed
            && s.overflow == long.overflow && s.lost == long.lost
  {
    StartHolds(start);
    ShortHandlesActLikeOne(start, Apply(start, Open), steps);
  }
}
