/** The submission queue objects: the ring as mapped and the handle a caller pushes
    through. Each method is proved against the transitions of `SubmissionRing`.

    A method that reads a shared word after writing another takes as argument how many
    entries the kernel takes in between. */
module Squeue {
  import opened Words
  import opened Wrappers
  import opened SubmissionRing
  import opened SubmissionSafety

  const IORING_SQ_NEED_WAKEUP: bv32 := 1
  const IORING_SQ_CQ_OVERFLOW: bv32 := 2

  datatype PushError = PushError

  /** What the program does with the shared words, for the order it does it in. */
  datatype Access = LoadHead | LoadTail | LoadFlags | StoreTail | FenceSeqCst

  class Inner<E> {
    var head: u32
    var tail: u32
    var flags: bv32
    const ringMask: u32
    const ringEntries: u32
    const indices: array?<u32>
    const sqes: array<E>
    ghost var accesses: seq<Access>

    ghost predicate Valid()
      reads this, indices
    {
      && sqes as object? != indices as object?
      && IsRingSize(ringEntries) && ringMask == ringEntries - 1
      && sqes.Length == ringEntries
      && (indices != null ==> IsIdentity(indices[..], ringEntries))
    }

    /** The mapped memory as a value. */
    ghost function View(): Ring<E>
      reads this, indices, sqes
    {
      Ring(head, tail, ringEntries, ringMask, if indices == null then None else Some(indices[..]), sqes[..])
    }

    /** Maps the queue. Unless NO_SQARRAY is set (`indices == null`) the loop fills the
        array with the identity. */
    constructor (head: u32, tail: u32, ringMask: u32, ringEntries: u32, indices: array?<u32>, sqes: array<E>)
      requires IsRingSize(ringEntries) && ringMask == ringEntries - 1
      requires sqes.Length == ringEntries && sqes as object? != indices as object?
      requires indices != null ==> indices.Length == ringEntries
      modifies indices
      ensures Valid() && flags == 0 && accesses == []
      ensures View() == Ring(head, tail, ringEntries, ringMask,
                             if indices == null then None else Some(indices[..]), old(sqes[..]))
      ensures indices != null ==> IsIdentity(indices[..], ringEntries)
      ensures this.sqes == sqes && this.indices == indices
    {
      this.head, this.tail, this.flags, this.accesses := head, tail, 0, [];
      this.ringMask, this.ringEntries := ringMask, ringEntries;
      this.indices, this.sqes := indices, sqes;
      new;
      if indices != null {
        for i := 0 to ringEntries
          modifies indices
          invariant forall j :: 0 <= j < i ==> indices[j] == j
        {
          indices[i] := i;
        }
      }
    }

    /** The kernel takes up to `count` published entries. */
    method KernelRuns(count: nat)
      modifies this`head
      ensures View() == KernelTakes(old(View()), count)
    {
      var i := count;
      while i > 0
        invariant 0 <= i <= count
        invariant KernelTakes(View(), i) == KernelTakes(old(View()), count)
      {
        if head != tail {
          head := WrappingAdd(head, 1);
        }
        i := i - 1;
      }
    }
  }

  class SubmissionQueue<E> {
    const queue: Inner<E>
    var head: u32
    var tail: u32

    ghost predicate Valid()
      reads this, queue, queue.indices
    {
      queue.Valid()
    }

    ghost function View(): Handle
      reads this
    {
      Handle(head, tail)
    }

    constructor BorrowShared(queue: Inner<E>)
      requires queue.Valid()
      modifies queue`accesses
      ensures this.queue == queue && Valid()
      ensures View() == Borrow(queue.View())
      ensures queue.accesses == old(queue.accesses) + [LoadHead, LoadTail]
    {
      this.queue := queue;
      this.head, this.tail := queue.head, queue.tail;
      new;
      queue.accesses := queue.accesses + [LoadHead, LoadTail];
    }

    /** Publishes the pushed entries, then learns what the kernel has read meanwhile. */
    method Sync(kernelReads: nat)
      requires Valid()
      modifies this`head, queue`head, queue`tail, queue`accesses
      ensures queue.accesses == old(queue.accesses) + [StoreTail, LoadHead]
      ensures queue.View() == KernelTakes(PublishTail(old(queue.View()), old(View())), kernelReads)
      ensures View() == ReloadHead(queue.View(), old(View()))
    {
      queue.tail := tail;
      queue.KernelRuns(kernelReads);
      head := queue.head;
      queue.accesses := queue.accesses + [StoreTail, LoadHead];
    }

    /** The end of the handle: `Drop` publishes what was pushed. */
    method Drop()
      requires Valid()
      modifies queue`tail, queue`accesses
      ensures queue.View() == PublishTail(old(queue.View()), View())
      ensures queue.accesses == old(queue.accesses) + [StoreTail]
    {
      queue.tail := tail;
      queue.accesses := queue.accesses + [StoreTail];
    }

    /** The fence comes before the load, so that it follows the store of the tail. */
    method NeedWakeup() returns (asleep: bool)
      modifies queue`accesses
      ensures asleep <==> queue.flags & IORING_SQ_NEED_WAKEUP != 0
      ensures queue.accesses == old(queue.accesses) + [FenceSeqCst, LoadFlags]
    {
      queue.accesses := queue.accesses + [FenceSeqCst];
      asleep := NeedWakeupAfterIntermittentSeqcst();
    }

    /** For a caller who has executed a fence since the last store of the tail. */
    method NeedWakeupAfterIntermittentSeqcst() returns (asleep: bool)
      modifies queue`accesses
      ensures asleep <==> queue.flags & IORING_SQ_NEED_WAKEUP != 0
      ensures queue.accesses == old(queue.accesses) + [LoadFlags]
    {
      asleep := queue.flags & IORING_SQ_NEED_WAKEUP != 0;
      queue.accesses := queue.accesses + [LoadFlags];
    }

    function Capacity(): (capacity: nat)
      ensures capacity == queue.ringEntries
    {
      queue.ringEntries
    }

    function Len(): (len: nat)
      reads this
      ensures len == View().Len()
    {
      WrappingSub(tail, head)
    }

    predicate IsEmpty()
      reads this
      ensures IsEmpty() <==> head == tail
    {
      Len() == 0
    }

    predicate IsFull()
      reads this
      ensures IsFull() <==> View().Len() == queue.ringEntries
    {
      Len() == Capacity()
    }

    /** In every state of the protocol: the length is that of the entries accepted and, as far
        as the handle knows, not yet read; it never exceeds the capacity. */
    lemma LenIsUnread(s: System<E>)
      requires SubmissionRing.Inv(s) && s.ring == queue.View() && s.handle == Some(View())
      ensures Len() == |s.pushed| - s.known <= Capacity()
      ensures IsEmpty() <==> |s.pushed| == s.known
      ensures IsFull() <==> |s.pushed| == s.known + s.ring.entries
    {
      HandleMeaning(s);
    }

    method PushUnchecked(e: E)
      requires Valid()
      modifies this`tail, queue.sqes
      ensures queue.View() == WriteSlot(old(queue.View()), old(View()), e)
      ensures View() == Advance(old(View()))
    {
      queue.sqes[BitAnd(tail, queue.ringMask)] := e;
      tail := WrappingAdd(tail, 1);
    }

    method Push(e: E) returns (r: Result<(), PushError>)
      requires Valid()
      modifies this`tail, queue.sqes
      ensures r == if NotFull(old(queue.View()), old(View())) then Success(()) else Failure(PushError)
      ensures r.Success? ==>
                queue.View() == WriteSlot(old(queue.View()), old(View()), e) && View() == Advance(old(View()))
      ensures r.Failure? ==> queue.View() == old(queue.View()) && View() == old(View())
    {
      if !IsFull() {
        PushUnchecked(e);
        r := Success(());
      } else {
        r := Failure(PushError);
      }
    }

    method PushMultiple(entries: seq<E>) returns (r: Result<(), PushError>)
      requires Valid()
      modifies this`tail, queue.sqes
      ensures r == if Fits(old(queue.View()), old(View()), |entries|) then Success(()) else Failure(PushError)
      ensures r.Success? ==> (queue.View(), View()) == WriteAll(old(queue.View()), old(View()), entries)
      ensures r.Failure? ==> queue.View() == old(queue.View()) && View() == old(View())
    {
      if (Capacity() - Len()) % TWO_POW_64 < |entries| {
        return Failure(PushError);
      }
      for i := 0 to |entries|
        invariant Valid()
        invariant WriteAll(queue.View(), View(), entries[i..]) == WriteAll(old(queue.View()), old(View()), entries)
      {
        PushUnchecked(entries[i]);
        assert entries[i..][1..] == entries[i + 1..];
      }
      r := Success(());
    }

    /** The walk of `Debug`: from the cached head, until the position is the tail. */
    method DebugList() returns (list: seq<E>)
      requires Valid()
      ensures Lists(queue.View(), View(), list)
    {
      list := [];
      var pos := head;
      while pos != tail
        invariant |list| <= Len()
        invariant pos == WrappingAdd(head, |list|)
        invariant forall i :: 0 <= i < |list| ==> list[i] == SlotAt(WrappingAdd(head, i))
        decreases Len() - |list|
      {
        WalkMeetsTail(head, tail, |list|);
        list := list + [queue.sqes[BitAnd(pos, queue.ringMask)]];
        pos := WrappingAdd(pos, 1);
      }
      WalkMeetsTail(head, tail, |list|);
    }

    function SlotAt(word: u32): E
      requires Valid()
      reads this, queue, queue.indices, queue.sqes
    {
      queue.sqes[BitAnd(word, queue.ringMask)]
    }
  }
}
