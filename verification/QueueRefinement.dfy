/** The queue the echo server is modelled with is what the submission ring protocol offers a
    program with one handle: the words, the slots and the wrap-around behind it are hidden. */
module QueueRefinement {
  import opened Words
  import opened SubmissionRing
  import opened SubmissionSafety
  import EchoServer

  /** What the handle shows: reads it has not noticed, what the kernel may read, what it may
      not read yet. */
  ghost function QueueOf<E>(s: System<E>): EchoServer.Queue<E>
    requires Inv(s) && s.handle.Some?
  {
    EchoServer.Queue(s.ring.entries, |s.seen| - s.known, s.pushed[|s.seen|..s.published], s.pushed[s.published..])
  }

  lemma PushRefines<E>(s: System<E>, e: E)
    requires Inv(s) && s.handle.Some?
    ensures Addressable(s.ring)
    ensures NotFull(s.ring, s.handle.value) <==> !QueueOf(s).IsFull()
    ensures Inv(Apply(s, Push(e))) && QueueOf(Apply(s, Push(e))) == QueueOf(s).Push(e)
  {
    HandleMeaning(s);
    ApplyKeepsInv(s, Push(e));
    FullMeansFull(s);
    QueueBounds(s);
    hide Inv, BitAnd;
    assert (s.pushed + [e])[|s.seen|..s.published] == s.pushed[|s.seen|..s.published];
    assert (s.pushed + [e])[s.published..] == s.pushed[s.published..] + [e];
  }

  lemma FullMeansFull<E>(s: System<E>)
    requires Inv(s) && s.handle.Some?
    ensures NotFull(s.ring, s.handle.value) <==> !QueueOf(s).IsFull()
  {
    HandleMeaning(s);
  }

  lemma QueueBounds<E>(s: System<E>)
    requires Inv(s) && s.handle.Some?
    ensures Addressable(s.ring) && s.known <= |s.seen| <= s.published <= |s.pushed|
  {
  }

  lemma SyncRefines<E>(s: System<E>)
    requires Inv(s) && s.handle.Some?
    ensures Addressable(s.ring)
    ensures var s' := Apply(Apply(s, Publish), Reload);
            Inv(s') && s'.handle.Some? && QueueOf(s') == QueueOf(s).Sync()
  {
    ApplyKeepsInv(s, Publish);
    ApplyKeepsInv(Apply(s, Publish), Reload);
    assert s.pushed[|s.seen|..s.published] + s.pushed[s.published..] == s.pushed[|s.seen|..|s.pushed|];
    assert s.pushed[|s.pushed|..] == [];
  }

  /** One kernel read takes the oldest published entry, if there is one. */
  lemma ReadRefines<E>(s: System<E>)
    requires Inv(s) && s.handle.Some?
    ensures Addressable(s.ring)
    ensures var q, s' := QueueOf(s), Apply(s, Consume);
            && Inv(s') && s'.handle.Some?
            && if q.published == [] then s' == s
               else QueueOf(s') == q.(stale := q.stale + 1, published := q.published[1..])
                    && s'.seen == s.seen + [q.published[0]]
  {
    RingSizeBounds(s.ring.entries);
    DistanceOfCounters(s.published, |s.seen|);
    ApplyKeepsInv(s, Consume);
    if s.ring.head != s.ring.tail {
      ConsumeKeepsInv(s);
      assert s.pushed[|s.seen| + 1..s.published] == QueueOf(s).published[1..];
    }
  }

  lemma SubmitUnfolds<E>(q: EchoServer.Queue<E>, count: nat)
    requires q.published != [] && count > 0
    ensures var q' := q.(stale := q.stale + 1, published := q.published[1..]);
            && q'.Submit(count - 1) == q.Submit(count)
            && [q.published[0]] + q'.published[..q'.Consumed(count - 1)] == q.published[..q.Consumed(count)]
  {
    var n := q.Consumed(count);
    assert q.published[1..][n - 1..] == q.published[n..];
  }

  /** The kernel taking `count` entries inside a submit. */
  lemma {:induction false} SubmitRefines<E>(s: System<E>, count: nat)
    requires Inv(s) && s.handle.Some?
    ensures Addressable(s.ring)
    ensures var s' := Run(s, Reads(count));
            && Inv(s') && s'.handle.Some? && QueueOf(s') == QueueOf(s).Submit(count)
            && s'.seen == s.seen + QueueOf(s).published[..QueueOf(s).Consumed(count)]
    decreases count
  {
    hide Inv, QueueOf, Apply;
    var q := QueueOf(s);
    InvIsAddressable(s);
    if count == 0 {
      assert s.seen + q.published[..0] == s.seen;
    } else {
      assert Reads<E>(count)[1..] == Reads(count - 1);
      var next := Apply(s, Consume);
      ReadRefines(s);
      SubmitRefines(next, count - 1);
      if q.published != [] {
        SubmitUnfolds(q, count);
        var more := QueueOf(next).published[..QueueOf(next).Consumed(count - 1)];
        assert s.seen + [q.published[0]] + more == s.seen + ([q.published[0]] + more);
      } else {
        assert s.seen + [] == s.seen;
      }
    }
  }
}
