/** The completion queue objects, each method proved against the transitions of
    `CompletionRing`. A method that reads a shared word after writing another takes as
    argument what completes in between. */
module Cqueue {
  import opened Words
  import opened Wrappers
  import opened CompletionRing
  import opened CompletionSafety

  class Inner<C> {
    var head: u32
    var tail: u32
    const ringMask: u32
    const ringEntries: u32
    const cqes: array<C>

    ghost predicate Valid()
    {
      IsRingSize(ringEntries) && ringMask == ringEntries - 1 && cqes.Length == ringEntries
    }

    ghost function View(): Ring<C>
      reads this, cqes
    {
      Ring(head, tail, ringEntries, ringMask, cqes[..])
    }

    constructor (head: u32, tail: u32, ringMask: u32, ringEntries: u32, cqes: array<C>)
      requires IsRingSize(ringEntries) && ringMask == ringEntries - 1 && cqes.Length == ringEntries
      ensures Valid() && this.cqes == cqes
      ensures View() == Ring(head, tail, ringEntries, ringMask, cqes[..])
    {
      this.head, this.tail := head, tail;
      this.ringMask, this.ringEntries, this.cqes := ringMask, ringEntries, cqes;
    }

    /** The kernel completes `cs`, posting while it sees room. */
    method KernelRuns(cs: seq<C>)
      requires Valid()
      modifies this`tail, cqes
      ensures View() == PostWhileRoom(old(View()), cs)
    {
      for i := 0 to |cs|
        invariant PostWhileRoom(View(), cs[i..]) == PostWhileRoom(old(View()), cs)
      {
        assert cs[i..][1..] == cs[i + 1..];
        if WrappingSub(tail, head) < ringEntries {
          cqes[BitAnd(tail, ringMask)] := cs[i];
          tail := WrappingAdd(tail, 1);
        }
      }
    }
  }

  class CompletionQueue<C(!new)> {
    const queue: Inner<C>
    var head: u32
    var tail: u32

    ghost predicate Valid()
    {
      queue.Valid()
    }

    ghost function View(): Handle
      reads this
    {
      Handle(head, tail)
    }

    constructor BorrowShared(queue: Inner<C>)
      requires queue.Valid()
      ensures this.queue == queue && Valid()
      ensures View() == Borrow(queue.View())
    {
      this.queue := queue;
      this.head, this.tail := queue.head, queue.tail;
    }

    /** Publishes what was consumed, then learns what the kernel has posted meanwhile. */
    method Sync(kernelPosts: seq<C>)
      requires Valid()
      modifies this`tail, queue`head, queue`tail, queue.cqes
      ensures queue.View() == PostWhileRoom(PublishHead(old(queue.View()), old(View())), kernelPosts)
      ensures View() == ReloadTail(queue.View(), old(View()))
    {
      queue.head := head;
      queue.KernelRuns(kernelPosts);
      tail := queue.tail;
    }

    /** The end of the handle: `Drop` publishes what was consumed. */
    method Drop()
      requires Valid()
      modifies queue`head
      ensures queue.View() == PublishHead(old(queue.View()), View())
    {
      queue.head := head;
    }

    function Capacity(): (capacity: nat)
      ensures capacity == queue.ringEntries
    {
      queue.ringEntries
    }

    function Len(): (len: nat)
      reads this
      ensures len == View().Len()
    {
      WrappingSub(tail, head)
    }

    predicate IsEmpty()
      reads this
      ensures IsEmpty() <==> head == tail
    {
      Len() == 0
    }

    predicate IsFull()
      reads this
      ensures IsFull() <==> View().Len() == queue.ringEntries
    {
      Len() == Capacity()
    }

    /** In every state of the protocol: the length is that of the completions posted, as far
        as the handle knows, and not yet taken; it never exceeds the capacity. */
    lemma LenIsUntaken(s: System<C>)
      requires CompletionRing.Inv(s) && s.ring == queue.View() && s.handle == Some(View())
      ensures Len() == s.known - |s.taken| <= Capacity()
      ensures IsEmpty() <==> |s.taken| == s.known
      ensures IsFull() <==> s.known == |s.taken| + s.ring.entries
    {
      WordMeaning(s);
    }

    method Pop() returns (c: C)
      requires Valid()
      modifies this`head
      ensures c == Popped(queue.View(), old(View()))
      ensures View() == Advance(old(View()))
    {
      c := queue.cqes[BitAnd(head, queue.ringMask)];
      head := WrappingAdd(head, 1);
    }

    method Next() returns (c: Option<C>)
      requires Valid()
      modifies this`head
      ensures c == if old(head != tail) then Some(Popped(queue.View(), old(View()))) else None
      ensures View() == if old(head != tail) then Advance(old(View())) else old(View())
      ensures forall s: System<C> :: Inv(s) && s.ring == queue.View() && s.handle == Some(old(View())) ==>
                TakesNext(s, if c.Some? then [c.value] else [], View(), 1)
    {
      hide CompletionRing.Inv, TakesNext, Popped;
      NextTakesNext(queue.View(), View());
      if head != tail {
        var popped := Pop();
        c := Some(popped);
      } else {
        c := None;
      }
    }

    /** Pops into `entries` as many completions as both sides allow. */
    method Fill(entries: array<C>) returns (count: nat)
      requires Valid() && entries != queue.cqes
      modifies this`head, entries
      ensures count == Min(old(View().Len()), entries.Length)
      ensures (entries[..count], View()) == PopMany(queue.View(), old(View()), count)
      ensures entries[count..] == old(entries[count..])
      ensures forall s: System<C> :: Inv(s) && s.ring == queue.View() && s.handle == Some(old(View())) ==>
                TakesNext(s, entries[..count], View(), entries.Length)
    {
      hide CompletionRing.Inv, TakesNext, Popped;
      PopsTakeNext(queue.View(), View(), entries.Length);
      count := Min(Len(), entries.Length);
      ghost var all := PopMany(queue.View(), View(), count);
      assert entries[..0] + all.0 == all.0;
      for i := 0 to count
        invariant tail == old(tail)
        invariant entries[count..] == old(entries[count..])
        invariant all == (entries[..i] + PopMany(queue.View(), View(), count - i).0,
                          PopMany(queue.View(), View(), count - i).1)
      {
        ghost var rest := PopMany(queue.View(), Advance(View()), count - i - 1).0;
        ghost var done := entries[..i];
        var c := Pop();
        entries[i] := c;
        assert done + ([c] + rest) == (done + [c]) + rest;
        assert entries[..i + 1] == done + [c];
      }
      assert entries[..count] + [] == entries[..count];
    }

    /** The observer that borrows nothing and compares the two shared words. */
    method StatusIsEmpty() returns (empty: bool)
      requires Valid()
      ensures empty <==> StatusEmpty(queue.View())
    {
      empty := queue.head == queue.tail;
    }
  }
}
