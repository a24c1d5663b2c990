/** The submission queue as a protocol between the program and the kernel.

    The ring words, the slots and the program's handle are exactly the library's; next to
    them each state carries what the run has done so far: the entries accepted, how many
    of them have been published, the entries the kernel has read, and how many of those
    reads the handle knows about. No step decides anything from these records. */
module SubmissionRing {
  import opened Words
  import opened Wrappers

  /** Memory shared with the kernel. `indices` is the SQ array, absent under NO_SQARRAY. */
  datatype Ring<E> = Ring(head: u32, tail: u32, entries: u32, mask: u32, indices: Option<seq<u32>>, sqes: seq<E>)
  {
    ghost predicate WellFormed() {
      && IsRingSize(entries) && mask == entries - 1
      && |sqes| == entries
      && (indices.Some? ==> IsIdentity(indices.value, entries))
    }

    function Slot(word: u32): nat {
      BitAnd(word, mask)
    }
  }

  ghost predicate IsIdentity(indices: seq<u32>, entries: u32) {
    |indices| == entries && forall i :: 0 <= i < |indices| ==> indices[i] == i
  }

  /** The private copies of head and tail inside a `SubmissionQueue`. */
  datatype Handle = Handle(head: u32, tail: u32)
  {
    function Len(): u32 {
      WrappingSub(tail, head)
    }
  }

  function Borrow<E>(r: Ring<E>): Handle {
    Handle(r.head, r.tail)
  }

  function PublishTail<E>(r: Ring<E>, h: Handle): Ring<E> {
    r.(tail := h.tail)
  }

  function ReloadHead<E>(r: Ring<E>, h: Handle): Handle {
    h.(head := r.head)
  }

  /** `capacity() - len()` in `usize` arithmetic, wrap-around included. */
  function Room<E>(r: Ring<E>, h: Handle): nat {
    (r.entries - h.Len()) % TWO_POW_64
  }

  function Fits<E>(r: Ring<E>, h: Handle, count: nat): bool {
    count <= Room(r, h)
  }

  function NotFull<E>(r: Ring<E>, h: Handle): bool {
    h.Len() != r.entries
  }

  function WriteSlot<E>(r: Ring<E>, h: Handle, e: E): Ring<E>
    requires r.mask < |r.sqes|
  {
    r.(sqes := r.sqes[r.Slot(h.tail) := e])
  }

  function Advance(h: Handle): Handle {
    h.(tail := WrappingAdd(h.tail, 1))
  }

  /** What the unchecked push loop of a batch leaves behind. */
  function WriteAll<E>(r: Ring<E>, h: Handle, es: seq<E>): (result: (Ring<E>, Handle))
    requires r.mask < |r.sqes|
    ensures result.0 == r.(sqes := result.0.sqes) && |result.0.sqes| == |r.sqes| && result.1.head == h.head
    decreases |es|
  {
    if es == [] then (r, h) else WriteAll(WriteSlot(r, h, es[0]), Advance(h), es[1..])
  }

  /** The entry a kernel read yields: through the array when there is one, else by ring
      index. `None` when the array names no slot, which the kernel counts as dropped. */
  function KernelRead<E>(r: Ring<E>): Option<E>
    requires r.indices.Some? ==> r.mask < |r.indices.value|
  {
    var index := if r.indices.Some? then r.indices.value[r.Slot(r.head)] else r.Slot(r.head);
    if index < |r.sqes| then Some(r.sqes[index]) else None
  }

  function KernelAdvance<E>(r: Ring<E>): Ring<E> {
    if r.head == r.tail then r else r.(head := WrappingAdd(r.head, 1))
  }

  /** The kernel taking up to `count` published entries. */
  function KernelTakes<E>(r: Ring<E>, count: nat): Ring<E>
    decreases count
  {
    if count == 0 then r else KernelTakes(KernelAdvance(r), count - 1)
  }

  datatype System<E> = System(
    ring: Ring<E>,
    handle: Option<Handle>,
    pushed: seq<E>,
    published: nat,
    seen: seq<E>,
    known: nat,
    dropped: nat)

  /** One atomic action. `sync` is `Publish` followed by `Reload`; the kernel may act
      between the two, as it may between any other two actions. */
  datatype Step<E> =
    | Open
    | Push(e: E)
    | PushAll(es: seq<E>)
    | Publish
    | Reload
    | Close
    | Consume

  function Start<E>(entries: u32, indices: Option<seq<u32>>, sqes: seq<E>): System<E>
    requires entries > 0
  {
    System(Ring(0, 0, entries, entries - 1, indices, sqes), None, [], 0, [], 0, 0)
  }

  /** No access of the ring can leave its slots. */
  predicate Addressable<E>(r: Ring<E>) {
    && r.mask < |r.sqes|
    && (r.indices.Some? ==> r.mask < |r.indices.value|)
  }

  /** The state an unchecked push loop over `es` leaves behind. */
  function AfterBatch<E>(s: System<E>, es: seq<E>): System<E>
    requires Addressable(s.ring) && s.handle.Some?
  {
    var (ring, handle) := WriteAll(s.ring, s.handle.value, es);
    s.(ring := ring, handle := Some(handle), pushed := s.pushed + es)
  }

  function Apply<E>(s: System<E>, step: Step<E>): (s': System<E>)
    requires Addressable(s.ring)
    ensures Addressable(s'.ring)
  {
    match step
    case Open =>
      if s.handle.Some? then s else s.(handle := Some(Borrow(s.ring)), known := |s.seen|)
    case Push(e) =>
      if s.handle.None? || !NotFull(s.ring, s.handle.value) then s
      else s.(ring := WriteSlot(s.ring, s.handle.value, e), handle := Some(Advance(s.handle.value)),
              pushed := s.pushed + [e])
    case PushAll(es) =>
      if s.handle.None? || !Fits(s.ring, s.handle.value, |es|) then s
      else AfterBatch(s, es)
    case Publish =>
      if s.handle.None? then s else s.(ring := PublishTail(s.ring, s.handle.value), published := |s.pushed|)
    case Reload =>
      if s.handle.None? then s else s.(handle := Some(ReloadHead(s.ring, s.handle.value)), known := |s.seen|)
    case Close =>
      if s.handle.None? then s
      else s.(ring := PublishTail(s.ring, s.handle.value), published := |s.pushed|, handle := None)
    case Consume =>
      if s.ring.head == s.ring.tail then s
      else
        match KernelRead(s.ring)
        case Some(e) => s.(ring := KernelAdvance(s.ring), seen := s.seen + [e])
        case None => s.(ring := KernelAdvance(s.ring), dropped := s.dropped + 1)
  }

  function Run<E>(s: System<E>, steps: seq<Step<E>>): (s': System<E>)
    requires Addressable(s.ring)
    ensures Addressable(s'.ring)
    decreases |steps|
  {
    if steps == [] then s else Run(Apply(s, steps[0]), steps[1..])
  }

  // ---------------------------------------------------------------- the invariant

  /** From number `floor` on, the slots still hold the accepted entries. */
  ghost predicate HoldsPending<E>(sqes: seq<E>, entries: nat, pushed: seq<E>, floor: nat) {
    && entries > 0 && |sqes| == entries
    && forall i :: floor <= i < |pushed| ==> sqes[i % entries] == pushed[i]
  }

  /** The oldest entry no push may have overwritten yet. */
  ghost function Floor<E>(s: System<E>): nat {
    if s.handle.Some? then s.known else |s.seen|
  }

  ghost predicate HandleAgrees<E>(s: System<E>) {
    match s.handle
    case None => s.published == |s.pushed|
    case Some(h) =>
      && s.known <= |s.seen|
      && |s.pushed| <= s.known + s.ring.entries
      && h == Handle(Residue(s.known), Residue(|s.pushed|))
  }

  ghost predicate Inv<E>(s: System<E>) {
    && s.ring.WellFormed()
    && s.dropped == 0
    && |s.seen| <= s.published <= |s.pushed| <= |s.seen| + s.ring.entries
    && s.seen == s.pushed[..|s.seen|]
    && s.ring.head == Residue(|s.seen|)
    && s.ring.tail == Residue(s.published)
    && HoldsPending(s.ring.sqes, s.ring.entries, s.pushed, Floor(s))
    && HandleAgrees(s)
  }

  ghost predicate ValidStart<E>(s: System<E>) {
    && s.ring.WellFormed() && s.ring.head == s.ring.tail == 0
    && s.handle.None? && s.pushed == [] && s.seen == [] && s.published == s.known == s.dropped == 0
  }

  lemma StartHolds<E>(s: System<E>)
    requires ValidStart(s)
    ensures Addressable(s.ring) && Inv(s)
  {
    RingSizeBounds(s.ring.entries);
  }

  /** In a reachable state the wrapped lengths are the true ones. */
  lemma HandleMeaning<E>(s: System<E>)
    requires Inv(s) && s.handle.Some?
    ensures s.handle.value.Len() == |s.pushed| - s.known <= s.ring.entries
    ensures Room(s.ring, s.handle.value) == s.known + s.ring.entries - |s.pushed|
  {
    RingSizeBounds(s.ring.entries);
    DistanceOfCounters(|s.pushed|, s.known);
  }

  /** One unchecked push below capacity. */
  lemma WriteKeepsPending<E>(sqes: seq<E>, entries: nat, pushed: seq<E>, floor: nat, e: E)
    requires HoldsPending(sqes, entries, pushed, floor)
    requires floor <= |pushed| < floor + entries
    ensures HoldsPending(sqes[|pushed| % entries := e], entries, pushed + [e], floor)
  {
    forall i | floor <= i < |pushed|
      ensures i % entries != |pushed| % entries
    {
      SlotsDiffer(i, |pushed|, entries);
    }
  }

  lemma PushKeepsInv<E>(s: System<E>, e: E)
    requires Inv(s) && s.handle.Some? && |s.pushed| < s.known + s.ring.entries
    ensures Addressable(s.ring)
    ensures Inv(s.(ring := WriteSlot(s.ring, s.handle.value, e), handle := Some(Advance(s.handle.value)),
                   pushed := s.pushed + [e]))
  {
    SlotOfCounter(|s.pushed|, s.ring.entries);
    WriteKeepsPending(s.ring.sqes, s.ring.entries, s.pushed, s.known, e);
    NextResidue(|s.pushed|);
    hide HoldsPending, Residue, BitAnd;
  }

  function Pushes<E>(es: seq<E>): seq<Step<E>>
    decreases |es|
  {
    if es == [] then [] else [Push(es[0])] + Pushes(es[1..])
  }

  lemma BatchUnfolds<E>(s: System<E>, es: seq<E>)
    requires Addressable(s.ring) && s.handle.Some? && es != [] && NotFull(s.ring, s.handle.value)
    ensures AfterBatch(s, es) == AfterBatch(Apply(s, Push(es[0])), es[1..])
    ensures Run(s, Pushes(es)) == Run(Apply(s, Push(es[0])), Pushes(es[1..]))
  {
    assert s.pushed + es == (s.pushed + [es[0]]) + es[1..];
    assert Pushes(es)[1..] == Pushes(es[1..]);
  }

  /** A batch that fits is a run of single pushes, every one of which finds room. */
  lemma {:induction false} BatchIsPushes<E>(s: System<E>, es: seq<E>)
    requires Inv(s) && s.handle.Some? && |s.pushed| + |es| <= s.known + s.ring.entries
    ensures Addressable(s.ring)
    ensures Inv(AfterBatch(s, es)) && AfterBatch(s, es) == Run(s, Pushes(es))
    decreases |es|
  {
    if es == [] {
      assert s.pushed + es == s.pushed;
    } else {
      HandleMeaning(s);
      PushKeepsInv(s, es[0]);
      BatchUnfolds(s, es);
      BatchIsPushes(Apply(s, Push(es[0])), es[1..]);
    }
  }

  lemma BatchApplies<E>(s: System<E>, es: seq<E>)
    requires Inv(s) && s.handle.Some? && Fits(s.ring, s.handle.value, |es|)
    ensures Addressable(s.ring) && Apply(s, PushAll(es)) == Run(s, Pushes(es))
  {
    HandleMeaning(s);
    BatchIsPushes(s, es);
    hide Inv, AfterBatch, Run, Pushes;
  }

  lemma ConsumeKeepsInv<E>(s: System<E>)
    requires Inv(s) && s.ring.head != s.ring.tail
    ensures Addressable(s.ring)
    ensures |s.seen| < s.published
    ensures KernelRead(s.ring) == Some(s.pushed[|s.seen|])
    ensures Inv(Apply(s, Consume))
  {
    SlotOfCounter(|s.seen|, s.ring.entries);
    NextResidue(|s.seen|);
    assert s.pushed[..|s.seen|] + [s.pushed[|s.seen|]] == s.pushed[..|s.seen| + 1];
  }

  lemma ApplyKeepsInv<E>(s: System<E>, step: Step<E>)
    requires Inv(s)
    ensures Addressable(s.ring) && Inv(Apply(s, step))
  {
    if s.handle.Some? {
      HandleMeaning(s);
    }
    match step
    case Push(e) =>
      if s.handle.Some? && NotFull(s.ring, s.handle.value) {
        PushKeepsInv(s, e);
      }
    case PushAll(es) =>
      if s.handle.Some? && Fits(s.ring, s.handle.value, |es|) {
        BatchIsPushes(s, es);
      }
    case Consume =>
      if s.ring.head != s.ring.tail {
        ConsumeKeepsInv(s);
      }
    case _ =>
  }

  lemma {:induction false} RunKeepsInv<E>(s: System<E>, steps: seq<Step<E>>)
    requires Inv(s)
    ensures Addressable(s.ring) && Inv(Run(s, steps))
    decreases |steps|
  {
    if steps != [] {
      ApplyKeepsInv(s, steps[0]);
      RunKeepsInv(Apply(s, steps[0]), steps[1..]);
    }
  }
}
