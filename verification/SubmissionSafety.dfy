/** What the submission protocol guarantees over every run. */
module SubmissionSafety {
  import opened Words
  import opened Wrappers
  import opened SubmissionRing

  // ---------------------------------------------------------------- delivery

  /** Whatever the program and the kernel do, the kernel has read the accepted entries in
      order, each once and unaltered, and the ring still holds all the others. */
  lemma KernelReadsPushedEntries<E>(start: System<E>, steps: seq<Step<E>>)
    requires ValidStart(start)
    ensures Addressable(start.ring)
    ensures var s := Run(start, steps);
            && s.dropped == 0
            && |s.seen| <= s.published <= |s.pushed| <= |s.seen| + s.ring.entries
            && s.seen == s.pushed[..|s.seen|]
            && forall i :: |s.seen| <= i < |s.pushed| ==> s.ring.sqes[BitAnd(Residue(i), s.ring.mask)] == s.pushed[i]
  {
    StartHolds(start);
    RunKeepsInv(start, steps);
    var s := Run(start, steps);
    forall i | |s.seen| <= i < |s.pushed|
      ensures s.ring.sqes[BitAnd(Residue(i), s.ring.mask)] == s.pushed[i]
    {
      SlotOfCounter(i, s.ring.entries);
    }
  }

  /** The kernel's own steps: `count` reads in a row. */
  function Reads<E>(count: nat): seq<Step<E>> {
    if count == 0 then [] else [Consume] + Reads(count - 1)
  }

  /** The kernel of the queue objects is the protocol's: taking `count` entries is reading
      that often. */
  lemma {:induction false} ReadsTakeEntries<E>(s: System<E>, count: nat)
    requires Addressable(s.ring)
    ensures Run(s, Reads(count)).ring == KernelTakes(s.ring, count)
    decreases count
  {
    hide KernelRead;
    if count > 0 {
      assert Reads<E>(count)[1..] == Reads(count - 1);
      ReadsTakeEntries(Apply(s, Consume), count - 1);
    }
  }

  /** A kernel read leaves one entry less unread, if there was one. */
  lemma WhatIsUnread<E>(s: System<E>)
    requires Inv(s)
    ensures Addressable(s.ring)
    ensures |s.seen| <= s.published <= |s.pushed| && s.seen == s.pushed[..|s.seen|]
    ensures var s' := Apply(s, Consume);
            && Inv(s') && s'.published == s.published && s'.pushed == s.pushed
            && |s'.seen| == if |s.seen| < s.published then |s.seen| + 1 else |s.seen|
  {
    RingSizeBounds(s.ring.entries);
    DistanceOfCounters(s.published, |s.seen|);
    if s.ring.head != s.ring.tail {
      ConsumeKeepsInv(s);
    }
    hide Inv;
  }

  lemma {:induction false} ReadsDeliver<E>(s: System<E>, count: nat)
    requires Inv(s) && count >= s.published - |s.seen|
    ensures Addressable(s.ring)
    ensures Run(s, Reads(count)).seen == s.pushed[..s.published]
    decreases count
  {
    WhatIsUnread(s);
    hide Inv, Apply;
    if count > 0 {
      assert Reads<E>(count)[1..] == Reads(count - 1);
      ReadsDeliver(Apply(s, Consume), count - 1);
    }
  }

  /** Nothing accepted is ever lost: from any reachable state, publishing and letting the
      kernel read hands over every entry accepted so far. */
  lemma PublishedEntriesAreDelivered<E>(start: System<E>, steps: seq<Step<E>>, count: nat)
    requires ValidStart(start)
    ensures Addressable(start.ring)
    ensures var s := Run(start, steps);
            count >= |s.pushed| - |s.seen| ==>
              Run(Apply(s, Publish), Reads(count)).seen == s.pushed
  {
    StartHolds(start);
    RunKeepsInv(start, steps);
    var s := Run(start, steps);
    ApplyKeepsInv(s, Publish);
    var p := Apply(s, Publish);
    assert p.published == |p.pushed| && p.pushed == s.pushed;
    if count >= |s.pushed| - |s.seen| {
      ReadsDeliver(p, count);
      assert s.pushed[..|s.pushed|] == s.pushed;
    }
  }

  // ---------------------------------------------------------------- pushes and batches

  /** The equality test for a full queue is exact: a push is taken just when the handle
      knows of a free slot, and a refused push leaves no trace. */
  lemma PushTakenIffRoom<E>(start: System<E>, steps: seq<Step<E>>, e: E)
    requires ValidStart(start)
    ensures Addressable(start.ring)
    ensures var s := Run(start, steps);
            var s' := Apply(s, Push(e));
            s.handle.Some? ==>
              if |s.pushed| - s.known < s.ring.entries
              then s'.pushed == s.pushed + [e] && s'.ring.tail == s.ring.tail && s'.ring.head == s.ring.head
              else s' == s
  {
    StartHolds(start);
    RunKeepsInv(start, steps);
    var s := Run(start, steps);
    if s.handle.Some? {
      HandleMeaning(s);
    }
  }

  /** A stale head can only make the handle refuse; after `sync` a push is refused exactly
      when the kernel has left a full ring unread. */
  lemma SyncedPushTakenIffSpace<E>(start: System<E>, steps: seq<Step<E>>, e: E)
    requires ValidStart(start)
    ensures Addressable(start.ring)
    ensures var s := Run(start, steps);
            s.handle.Some? ==>
              var synced := Apply(Apply(s, Publish), Reload);
              (Apply(synced, Push(e)).pushed == s.pushed + [e]) <==> (|s.pushed| - |s.seen| < s.ring.entries)
  {
    StartHolds(start);
    RunKeepsInv(start, steps);
    var s := Run(start, steps);
    if s.handle.Some? {
      ApplyKeepsInv(s, Publish);
      ApplyKeepsInv(Apply(s, Publish), Reload);
      HandleMeaning(Apply(Apply(s, Publish), Reload));
      assert |s.pushed + [e]| != |s.pushed|;
    }
  }

  /** `push_multiple` takes the whole slice or nothing. Taken, it is that many single
      pushes; its subtraction never underflows. */
  lemma BatchIsAllOrNothing<E>(start: System<E>, steps: seq<Step<E>>, es: seq<E>)
    requires ValidStart(start)
    ensures Addressable(start.ring)
    ensures var s := Run(start, steps);
            s.handle.Some? ==>
              && s.handle.value.Len() <= s.ring.entries
              && if |s.pushed| + |es| <= s.known + s.ring.entries
                 then Apply(s, PushAll(es)) == Run(s, Pushes(es)) && Apply(s, PushAll(es)).pushed == s.pushed + es
                 else Apply(s, PushAll(es)) == s
  {
    StartHolds(start);
    RunKeepsInv(start, steps);
    var s := Run(start, steps);
    if s.handle.Some? {
      HandleMeaning(s);
      if |s.pushed| + |es| <= s.known + s.ring.entries {
        BatchIsPushes(s, es);
      }
    }
  }

  /** A kernel read and a push touch different slots and different words. */
  lemma ReadCommutesWithPush<E>(s: System<E>, e: E)
    requires Inv(s) && s.handle.Some?
    ensures Addressable(s.ring)
    ensures Apply(Apply(s, Consume), Push(e)) == Apply(Apply(s, Push(e)), Consume)
  {
    InvIsAddressable(s);
    if s.ring.head != s.ring.tail && NotFull(s.ring, s.handle.value) {
      ReadAndPushDiffer(s);
      hide Inv, BitAnd;
    }
  }

  lemma ReadAndPushDiffer<E>(s: System<E>)
    requires Inv(s) && s.handle.Some? && s.ring.head != s.ring.tail && NotFull(s.ring, s.handle.value)
    ensures Addressable(s.ring)
    ensures s.ring.Slot(s.ring.head) != s.ring.Slot(s.handle.value.tail)
    ensures s.ring.indices.Some? ==> s.ring.indices.value[s.ring.Slot(s.ring.head)] == s.ring.Slot(s.ring.head)
  {
    HandleMeaning(s);
    ConsumeKeepsInv(s);
    SlotOfCounter(|s.seen|, s.ring.entries);
    SlotOfCounter(|s.pushed|, s.ring.entries);
    SlotsDiffer(|s.seen|, |s.pushed|, s.ring.entries);
  }

  lemma {:induction false} RunConcat<E>(s: System<E>, a: seq<Step<E>>, b: seq<Step<E>>)
    requires Addressable(s.ring)
    ensures Run(s, a + b) == Run(Run(s, a), b)
    decreases |a|
  {
    if a == [] {
      assert a + b == b;
    } else {
      assert (a + b)[1..] == a[1..] + b;
      RunConcat(Apply(s, a[0]), a[1..], b);
    }
  }

  lemma {:induction false} ReadMovesPastPushes<E>(s: System<E>, es: seq<E>)
    requires Inv(s) && s.handle.Some?
    ensures Addressable(s.ring)
    ensures Run(Apply(s, Consume), Pushes(es)) == Apply(Run(s, Pushes(es)), Consume)
    decreases |es|
  {
    if es != [] {
      assert Pushes(es)[1..] == Pushes(es[1..]);
      ReadCommutesWithPush(s, es[0]);
      ApplyKeepsInv(s, Push(es[0]));
      ReadMovesPastPushes(Apply(s, Push(es[0])), es[1..]);
    }
  }

  /** No kernel read can tell that a batch is written one entry at a time: a read landing
      between any two writes of the loop has the effect of one after the whole batch. */
  lemma ReadInsideBatch<E>(start: System<E>, steps: seq<Step<E>>, before: seq<E>, after: seq<E>)
    requires ValidStart(start)
    ensures Addressable(start.ring)
    ensures var s := Run(start, steps);
            s.handle.Some? && |s.pushed| + |before + after| <= s.known + s.ring.entries ==>
              Run(s, Pushes(before) + [Consume] + Pushes(after)) == Apply(Apply(s, PushAll(before + after)), Consume)
  {
    StartHolds(start);
    RunKeepsInv(start, steps);
    var s := Run(start, steps);
    if s.handle.Some? && |s.pushed| + |before + after| <= s.known + s.ring.entries {
      HandleMeaning(s);
      BatchIsPushes(s, before + after);
      PushesConcat(before, after);
      BatchIsPushes(s, before);
      var mid := Run(s, Pushes(before));
      RunConcat(s, Pushes(before), Pushes(after));
      RunConcat(s, Pushes(before) + [Consume], Pushes(after));
      RunConcat(s, Pushes(before), [Consume]);
      assert Run(mid, [Consume]) == Apply(mid, Consume);
      ReadMovesPastPushes(mid, after);
    }
  }

  lemma {:induction false} PushesConcat<E>(a: seq<E>, b: seq<E>)
    ensures Pushes(a + b) == Pushes(a) + Pushes(b)
    decreases |a|
  {
    if a == [] {
      assert a + b == b;
    } else {
      assert (a + b)[1..] == a[1..] + b;
      PushesConcat(a[1..], b);
    }
  }

  /** What is published was, at some moment of the run, everything accepted; so the
      published tail never ends inside a batch. */
  lemma {:induction false} PublishedIsAnEarlierTail<E>(start: System<E>, steps: seq<Step<E>>)
    requires ValidStart(start)
    ensures Addressable(start.ring)
    ensures Run(start, steps).published <= |Run(start, steps).pushed|
    ensures exists j :: 0 <= j <= |steps| &&
              Run(start, steps[..j]).pushed == Run(start, steps).pushed[..Run(start, steps).published]
    decreases |steps|
  {
    StartHolds(start);
    RunKeepsInv(start, steps);
    PublishedWithinPushed(Run(start, steps));
    if steps == [] {
      assert Run(start, steps[..0]).pushed == Run(start, steps).pushed[..Run(start, steps).published];
    } else {
      hide Inv, Apply, ValidStart;
      var last := |steps| - 1;
      var early := steps[..last];
      PublishedIsAnEarlierTail(start, early);
      RunLast(start, steps);
      var before, after := Run(start, early), Run(start, steps);
      RunKeepsInv(start, early);
      PublishingTakesAll(before, steps[last]);
      if after.published == before.published {
        var j :| 0 <= j <= |early| && Run(start, early[..j]).pushed == before.pushed[..before.published];
        assert early[..j] == steps[..j];
        assert after.pushed[..after.published] == before.pushed[..before.published];
      } else {
        assert after.pushed[..after.published] == after.pushed;
        assert steps[..|steps|] == steps;
      }
    }
  }

  lemma RunLast<E>(s: System<E>, steps: seq<Step<E>>)
    requires Addressable(s.ring) && steps != []
    ensures Run(s, steps) == Apply(Run(s, steps[..|steps| - 1]), steps[|steps| - 1])
  {
    hide *;
    var early, last := steps[..|steps| - 1], steps[|steps| - 1];
    assert steps == early + [last];
    RunConcat(s, early, [last]);
    RunOne(Run(s, early), last);
  }

  lemma RunOne<E>(s: System<E>, step: Step<E>)
    requires Addressable(s.ring)
    ensures Run(s, [step]) == Apply(s, step)
  {
    hide Apply;
    assert [step][1..] == [] && Run(Apply(s, step), []) == Apply(s, step);
  }

  lemma PublishedWithinPushed<E>(s: System<E>)
    requires Inv(s)
    ensures s.published <= |s.pushed|
  {
  }

  /** A step publishes all that is accepted, or nothing new. */
  lemma PublishingTakesAll<E>(s: System<E>, step: Step<E>)
    requires Inv(s)
    ensures Addressable(s.ring) && s.published <= |s.pushed|
    ensures var s' := Apply(s, step);
            s.pushed <= s'.pushed && (s'.published == s.published || s'.published == |s'.pushed|)
  {
    InvIsAddressable(s);
  }

  // ---------------------------------------------------------------- handles

  predicate OpenAfter<E>(step: Step<E>, open: bool) {
    step.Open? || (open && !step.Close?)
  }

  /** What a handle that is never dropped does where short-lived ones do `step`: it calls
      `sync` where a handle is opened and where one is dropped. */
  function LongStep<E>(step: Step<E>, open: bool): seq<Step<E>> {
    match step
    case Open => if open then [] else [Publish, Reload]
    case Close => if open then [Publish, Reload] else []
    case Consume => [step]
    case _ => if open then [step] else []
  }

  function LongLived<E>(steps: seq<Step<E>>, open: bool): seq<Step<E>>
    decreases |steps|
  {
    if steps == [] then []
    else LongStep(steps[0], open) + LongLived(steps[1..], OpenAfter(steps[0], open))
  }

  ghost predicate SameQueue<E>(s: System<E>, long: System<E>) {
    && long.handle.Some?
    && long == s.(handle := long.handle, known := long.known)
    && match s.handle
       case Some(h) => long == s
       case None => long.handle.value.tail == s.ring.tail && s.published == |s.pushed|
  }

  lemma RunSync<E>(s: System<E>)
    requires Addressable(s.ring)
    ensures Run(s, [Publish, Reload]) == Apply(Apply(s, Publish), Reload)
  {
    var sync: seq<Step<E>> := [Publish, Reload];
    assert sync[1..] == [Reload] && sync[1..][1..] == [];
    assert Run(Apply(s, Publish), [Reload]) == Run(Apply(Apply(s, Publish), Reload), []);
  }

  lemma StepsAgree<E>(s: System<E>, long: System<E>, step: Step<E>)
    requires Addressable(s.ring) && SameQueue(s, long)
    ensures SameQueue(Apply(s, step), Run(long, LongStep(step, s.handle.Some?)))
    ensures Apply(s, step).handle.Some? == OpenAfter(step, s.handle.Some?)
  {
    var long' := LongStep(step, s.handle.Some?);
    if |long'| == 2 {
      RunSync(long);
    } else {
      assert Run(long, long') == if long' == [] then long else Apply(long, long'[0]);
    }
  }

  lemma {:induction false} ShortHandlesActLikeOne<E>(s: System<E>, long: System<E>, steps: seq<Step<E>>)
    requires Addressable(s.ring) && SameQueue(s, long)
    ensures SameQueue(Run(s, steps), Run(long, LongLived(steps, s.handle.Some?)))
    decreases |steps|
  {
    if steps != [] {
      StepsAgree(s, long, steps[0]);
      var first := LongStep(steps[0], s.handle.Some?);
      var s' := Apply(s, steps[0]);
      RunConcat(long, first, LongLived(steps[1..], s'.handle.Some?));
      ShortHandlesActLikeOne(s', Run(long, first), steps[1..]);
    }
  }

  /** Opening, using and dropping handles at will has the same effect on the shared words,
      the slots, the accepted and the read entries as one handle kept for ever that calls
      `sync` at each of these points. */
  lemma HandleLifetimesDoNotMatter<E>(start: System<E>, steps: seq<Step<E>>)
    requires ValidStart(start)
    ensures Addressable(start.ring)
    ensures var s := Run(start, steps);
            var long := Run(Apply(start, Open), LongLived(steps, false));
            s.ring == long.ring && s.pushed == long.pushed && s.seen == long.seen && s.published == long.published
  {
    StartHolds(start);
    ShortHandlesActLikeOne(start, Apply(start, Open), steps);
  }

  // ---------------------------------------------------------------- the SQ array

  function Direct<E>(s: System<E>): System<E> {
    s.(ring := s.ring.(indices := None))
  }

  lemma {:induction false} WriteAllIgnoresArray<E>(r: Ring<E>, h: Handle, es: seq<E>)
    requires r.mask < |r.sqes|
    ensures WriteAll(r.(indices := None), h, es) ==
            (WriteAll(r, h, es).0.(indices := None), WriteAll(r, h, es).1)
    decreases |es|
  {
    if es != [] {
      WriteAllIgnoresArray(WriteSlot(r, h, es[0]), Advance(h), es[1..]);
    }
  }

  lemma InvIsAddressable<E>(s: System<E>)
    requires Inv(s)
    ensures Addressable(s.ring)
  {
  }

  lemma StepIgnoresArray<E>(s: System<E>, step: Step<E>)
    requires Inv(s)
    ensures Addressable(s.ring)
    ensures Apply(Direct(s), step) == Direct(Apply(s, step))
  {
    InvIsAddressable(s);
    hide Inv;
    match step
    case PushAll(es) =>
      if s.handle.Some? {
        WriteAllIgnoresArray(s.ring, s.handle.value, es);
      }
    case Consume =>
      ReadIgnoresArray(s);
      hide KernelRead;
    case _ =>
  }

  lemma ReadIgnoresArray<E>(s: System<E>)
    requires Inv(s)
    ensures Addressable(s.ring) && KernelRead(Direct(s).ring) == KernelRead(s.ring)
  {
    SlotOfCounter(|s.seen|, s.ring.entries);
  }

  /** With the array filled by `Inner::new`, reading through it and reading by ring index
      (NO_SQARRAY) give the kernel the same entries in every run. */
  lemma {:induction false} ArrayIsTransparent<E>(s: System<E>, steps: seq<Step<E>>)
    requires Inv(s)
    ensures Addressable(s.ring)
    ensures Run(Direct(s), steps) == Direct(Run(s, steps))
    ensures Run(Direct(s), steps).seen == Run(s, steps).seen
    decreases |steps|
  {
    if steps != [] {
      StepIgnoresArray(s, steps[0]);
      ApplyKeepsInv(s, steps[0]);
      ArrayIsTransparent(Apply(s, steps[0]), steps[1..]);
    }
  }

  // ---------------------------------------------------------------- reading the words

  /** `list` is what walking the slots from the handle's head to its tail yields. */
  ghost predicate Lists<E>(r: Ring<E>, h: Handle, list: seq<E>)
    requires r.mask < |r.sqes|
  {
    && |list| == h.Len()
    && forall i :: 0 <= i < |list| ==> list[i] == r.sqes[r.Slot(WrappingAdd(h.head, i))]
  }

  lemma WalkAt<E>(s: System<E>, i: u32)
    requires Inv(s) && s.handle.Some? && s.known + i < |s.pushed|
    ensures Addressable(s.ring)
    ensures s.ring.sqes[s.ring.Slot(WrappingAdd(s.handle.value.head, i))] == s.pushed[s.known + i]
  {
    SlotOfCounter(s.known + i, s.ring.entries);
    ResidueSum(s.known, i);
  }

  /** The walk shows exactly the handle's pending entries, in push order. */
  lemma WalkShowsPending<E>(start: System<E>, steps: seq<Step<E>>, list: seq<E>)
    requires ValidStart(start)
    ensures Addressable(start.ring)
    ensures var s := Run(start, steps);
            s.handle.Some? && Lists(s.ring, s.handle.value, list) ==>
              s.known <= |s.seen| <= |s.pushed| && list == s.pushed[s.known..]
  {
    StartHolds(start);
    RunKeepsInv(start, steps);
    var s := Run(start, steps);
    if s.handle.Some? && Lists(s.ring, s.handle.value, list) {
      HandleMeaning(s);
      RingSizeBounds(s.ring.entries);
      forall i | 0 <= i < |list|
        ensures list[i] == s.pushed[s.known..][i]
      {
        WalkAt(s, i);
      }
    }
  }

  predicate PublishesNothing<E>(steps: seq<Step<E>>) {
    forall i :: 0 <= i < |steps| ==> !steps[i].Publish? && !steps[i].Close?
  }

  lemma {:induction false} PublishedStays<E>(s: System<E>, steps: seq<Step<E>>)
    requires Addressable(s.ring) && PublishesNothing(steps)
    ensures Run(s, steps).published == s.published
    decreases |steps|
  {
    if steps != [] {
      PublishedStays(Apply(s, steps[0]), steps[1..]);
    }
  }

  lemma {:induction false} ProgressIsMonotone<E>(s: System<E>, steps: seq<Step<E>>)
    requires Inv(s)
    ensures Addressable(s.ring)
    ensures Run(s, steps).published >= s.published && |Run(s, steps).seen| >= |s.seen|
    decreases |steps|
  {
    if steps != [] {
      ApplyKeepsInv(s, steps[0]);
      ProgressIsMonotone(Apply(s, steps[0]), steps[1..]);
    }
  }

  /** `sq_len` loads the head in one state and the tail in a later one. Its difference is
      never negative; unless the program publishes in between it is exactly what was
      published and unread at the first load, so at most the capacity, and entries pushed
      but not published are never counted. */
  lemma SqLenNeverUnderflows<E>(start: System<E>, steps: seq<Step<E>>, between: seq<Step<E>>)
    requires ValidStart(start)
    ensures Addressable(start.ring)
    ensures var first := Run(start, steps);
            var second := Run(first, between);
            && second.published >= |first.seen|
            && WrappingSub(second.ring.tail, first.ring.head) == (second.published - |first.seen|) % TWO_POW_32
            && (PublishesNothing(between) ==>
                 WrappingSub(second.ring.tail, first.ring.head) == first.published - |first.seen| <= first.ring.entries)
  {
    StartHolds(start);
    RunKeepsInv(start, steps);
    var first := Run(start, steps);
    RunKeepsInv(first, between);
    ProgressIsMonotone(first, between);
    var second := Run(first, between);
    ResidueDifference(second.published, |first.seen|);
    if PublishesNothing(between) {
      PublishedStays(first, between);
      RingSizeBounds(first.ring.entries);
      DistanceOfCounters(first.published, |first.seen|);
    }
  }

  /** Loading the tail first would not do: one publish and one read between the two loads
      make the wrapped difference 2^32 - 1. */
  lemma ReversedLoadsUnderflow<E>(start: System<E>, e: E)
    requires ValidStart(start)
    ensures Addressable(start.ring)
    ensures var first := Run(start, [Open, Push(e)]);
            var second := Run(first, [Publish, Consume]);
            WrappingSub(first.ring.tail, second.ring.head) == TWO_POW_32 - 1
  {
    StartHolds(start);
    RingSizeBounds(start.ring.entries);
    var a := Apply(start, Open);
    ApplyKeepsInv(start, Open);
    HandleMeaning(a);
    var b := Apply(a, Push(e));
    ApplyKeepsInv(a, Push(e));
    assert Run(start, [Open, Push(e)]) == b by {
      assert [Open, Push(e)][1..] == [Push(e)];
      assert Run(a, [Push(e)]) == Run(b, []);
    }
    var c := Apply(b, Publish);
    ApplyKeepsInv(b, Publish);
    ConsumeKeepsInv(c);
    assert Run(b, [Publish, Consume]) == Apply(c, Consume) by {
      var last: seq<Step<E>> := [Publish, Consume];
      assert last[1..] == [Consume];
    }
  }
}
