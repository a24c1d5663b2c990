/** The submission ring with stores that take their time. What the program writes, slots and
    tail alike, waits in one first-in-first-out buffer before it reaches memory, and so do the
    heads the kernel writes; either buffer may be flushed at any moment. The kernel reads slots
    and tail from memory, the program reads the head from memory.

    `View` is the ring as the program believes it to be. Every run, seen through it, is one of
    `SubmissionRing`, where stores take effect at once. Without the order of the buffer it is
    not: a tail that overtakes its slots lets the kernel read what was never pushed. */
module SubmissionStores {
  import opened Words
  import opened Wrappers
  import opened SubmissionRing
  import opened SubmissionSafety

  datatype Store<E> = Slot(index: nat, e: E) | Tail(word: u32)

  /** `written` and `visible` record how many accepted entries have reached their slots and
      how many of them the tail in memory covers. */
  datatype Machine<E> = Machine(
    ring: Ring<E>, fifo: bool, stores: seq<Store<E>>, handle: Option<Handle>,
    kernelHead: u32, heads: seq<u32>,
    pushed: seq<E>, published: nat, known: nat, written: nat, visible: nat, seen: seq<E>, dropped: nat)
  {
    /** How many of the kernel's reads the head in memory shows. */
    function Shown(): int {
      |seen| - |heads|
    }
  }

  datatype Step<E> =
    | Open
    | Push(e: E)
    | PushAll(es: seq<E>)
    | Publish
    | Reload
    | Close
    | Flush(i: nat)     // a store reaches memory; the oldest, if the buffer keeps its order
    | Consume
    | FlushHead

  function Store1<E>(ring: Ring<E>, store: Store<E>): Ring<E> {
    match store
    case Slot(index, e) => if index < |ring.sqes| then ring.(sqes := ring.sqes[index := e]) else ring
    case Tail(word) => ring.(tail := word)
  }

  /** Memory once all stores have reached it. */
  function Stored<E>(ring: Ring<E>, stores: seq<Store<E>>): Ring<E>
    decreases |stores|
  {
    if stores == [] then ring else Stored(Store1(ring, stores[0]), stores[1..])
  }

  /** One unchecked push: the slot is written to the buffer, the handle advances. */
  function PushOne<E>(m: Machine<E>, e: E): Machine<E>
    requires m.handle.Some?
  {
    m.(stores := m.stores + [Slot(m.ring.Slot(m.handle.value.tail), e)], handle := Some(Advance(m.handle.value)),
       pushed := m.pushed + [e])
  }

  function PushEach<E>(m: Machine<E>, es: seq<E>): Machine<E>
    requires m.handle.Some?
    decreases |es|
  {
    if es == [] then m else PushEach(PushOne(m, es[0]), es[1..])
  }

  function StoreTail<E>(m: Machine<E>): Machine<E>
    requires m.handle.Some?
  {
    m.(stores := m.stores + [Tail(m.handle.value.tail)], published := |m.pushed|)
  }

  function FlushStore<E>(m: Machine<E>, i: nat): Machine<E>
    requires i < |m.stores|
  {
    m.(ring := Store1(m.ring, m.stores[i]), stores := m.stores[..i] + m.stores[i + 1..],
       written := if m.stores[i].Slot? then m.written + 1 else m.written,
       visible := if m.stores[i].Slot? then m.visible else m.written)
  }

  /** The kernel reads at its own head, which memory may not show yet. */
  function KernelConsumes<E>(m: Machine<E>): Machine<E>
    requires Addressable(m.ring)
  {
    var next := WrappingAdd(m.kernelHead, 1);
    var m' := m.(kernelHead := next, heads := m.heads + [next]);
    match KernelRead(m.ring.(head := m.kernelHead))
    case Some(e) => m'.(seen := m.seen + [e])
    case None => m'.(dropped := m.dropped + 1)
  }

  /** The tail the program reads is its own latest. */
  function Seen<E>(m: Machine<E>): Ring<E> {
    Stored(m.ring, m.stores).(head := m.ring.head)
  }

  function KnownHead<E>(m: Machine<E>): nat {
    if m.Shown() < 0 then 0 else m.Shown()
  }

  function Apply<E>(m: Machine<E>, step: Step<E>): Machine<E> {
    match step
    case Open =>
      if m.handle.Some? then m else m.(handle := Some(Borrow(Seen(m))), known := KnownHead(m))
    case Push(e) => if m.handle.None? || !NotFull(m.ring, m.handle.value) then m else PushOne(m, e)
    case PushAll(es) => if m.handle.None? || !Fits(m.ring, m.handle.value, |es|) then m else PushEach(m, es)
    case Publish => if m.handle.None? then m else StoreTail(m)
    case Reload =>
      if m.handle.None? then m
      else m.(handle := Some(ReloadHead(m.ring, m.handle.value)), known := KnownHead(m))
    case Close => if m.handle.None? then m else StoreTail(m).(handle := None)
    case Flush(i) => if i >= |m.stores| || (m.fifo && i > 0) then m else FlushStore(m, i)
    case Consume => if m.kernelHead == m.ring.tail || !Addressable(m.ring) then m else KernelConsumes(m)
    case FlushHead =>
      if m.heads == [] then m else m.(ring := m.ring.(head := m.heads[0]), heads := m.heads[1..])
  }

  function Run<E>(m: Machine<E>, steps: seq<Step<E>>): Machine<E>
    decreases |steps|
  {
    if steps == [] then m else Run(Apply(m, steps[0]), steps[1..])
  }

  // ---------------------------------------------------------------- the program's view

  /** The state of the ring protocol this one is, as far as the program can tell: all its
      stores done, and of the kernel's reads those whose head it could load. */
  function View<E>(m: Machine<E>): System<E>
    requires m.Shown() >= 0
  {
    System(Seen(m), m.handle, m.pushed, m.published, m.seen[..m.Shown()], m.known, 0)
  }

  /** The steps of the ring protocol that a step here amounts to. */
  function Counterpart<E>(m: Machine<E>, step: Step<E>): seq<SubmissionRing.Step<E>> {
    match step
    case Open => [SubmissionRing.Open]
    case Push(e) => [SubmissionRing.Push(e)]
    case PushAll(es) => [SubmissionRing.PushAll(es)]
    case Publish => [SubmissionRing.Publish]
    case Reload => [SubmissionRing.Reload]
    case Close => [SubmissionRing.Close]
    case Flush(_) => []
    case Consume => []
    case FlushHead => if m.heads == [] then [] else [SubmissionRing.Consume]
  }

  // ---------------------------------------------------------------- the invariant

  /** The stores on their way: the slots of the accepted entries not yet written, in order,
      and between them tails that cover just the entries before. */
  ghost predicate StoresOk<E>(stores: seq<Store<E>>, written: nat, visible: nat, pushed: seq<E>, published: nat,
                              entries: nat)
    decreases |stores|
  {
    && entries > 0
    && if stores == [] then written == |pushed| && visible == published
       else
         match stores[0]
         case Slot(index, e) =>
           && written < |pushed| && index == written % entries && e == pushed[written]
           && StoresOk(stores[1..], written + 1, visible, pushed, published, entries)
         case Tail(word) =>
           && visible <= written && word == Residue(written)
           && StoresOk(stores[1..], written, written, pushed, published, entries)
  }

  /** What the kernel will find: the entries written and not yet read. */
  ghost predicate HoldsUnread<E>(sqes: seq<E>, entries: nat, pushed: seq<E>, from: nat, to: nat) {
    && entries > 0 && |sqes| == entries && to <= |pushed|
    && forall i :: from <= i < to ==> sqes[i % entries] == pushed[i]
  }

  ghost predicate KernelInv<E>(m: Machine<E>) {
    && m.dropped == 0 && |m.heads| <= |m.seen| <= m.visible <= m.written <= |m.pushed|
    && m.visible <= m.published
    && m.seen == m.pushed[..|m.seen|]
    && m.kernelHead == Residue(|m.seen|)
    && m.ring.tail == Residue(m.visible)
    && (forall i :: 0 <= i < |m.heads| ==> m.heads[i] == Residue(m.Shown() + 1 + i))
    && HoldsUnread(m.ring.sqes, m.ring.entries, m.pushed, |m.seen|, m.written)
  }

  ghost predicate BufferInv<E>(m: Machine<E>) {
    StoresOk(m.stores, m.written, m.visible, m.pushed, m.published, m.ring.entries)
  }

  ghost predicate Inv<E>(m: Machine<E>) {
    && m.fifo && m.ring.WellFormed() && KernelInv(m) && BufferInv(m)
    && SubmissionRing.Inv(View(m))
  }

  ghost predicate ValidStart<E>(m: Machine<E>) {
    && m.ring.WellFormed() && m.ring.head == m.ring.tail == m.kernelHead == 0
    && m.stores == [] && m.handle.None? && m.heads == [] && m.pushed == m.seen == []
    && m.published == m.known == m.written == m.visible == m.dropped == 0
  }

  // ---------------------------------------------------------------- the buffer

  lemma {:induction false} StoredAppend<E>(ring: Ring<E>, stores: seq<Store<E>>, store: Store<E>)
    ensures Stored(ring, stores + [store]) == Store1(Stored(ring, stores), store)
    decreases |stores|
  {
    if stores == [] {
      assert (stores + [store])[1..] == [];
    } else {
      assert (stores + [store])[1..] == stores[1..] + [store];
      StoredAppend(Store1(ring, stores[0]), stores[1..], store);
    }
  }

  /** Stores touch neither head nor mask nor array, and no store changes what is under it. */
  lemma {:induction false} StoredFields<E>(ring: Ring<E>, stores: seq<Store<E>>)
    ensures var r := Stored(ring, stores);
            && r == ring.(tail := r.tail, sqes := r.sqes) && |r.sqes| == |ring.sqes|
    decreases |stores|
  {
    if stores != [] {
      StoredFields(Store1(ring, stores[0]), stores[1..]);
    }
  }

  lemma {:induction false} SlotAppendOk<E>(stores: seq<Store<E>>, written: nat, visible: nat,
                                           pushed: seq<E>, published: nat, entries: nat, e: E)
    requires StoresOk(stores, written, visible, pushed, published, entries)
    ensures StoresOk(stores + [Slot(|pushed| % entries, e)], written, visible, pushed + [e], published, entries)
    decreases |stores|
  {
    var longer := stores + [Slot(|pushed| % entries, e)];
    if stores == [] {
      assert longer[1..] == [];
    } else {
      assert longer[1..] == stores[1..] + [Slot(|pushed| % entries, e)];
      match stores[0]
      case Slot(_, _) => SlotAppendOk(stores[1..], written + 1, visible, pushed, published, entries, e);
      case Tail(_) => SlotAppendOk(stores[1..], written, written, pushed, published, entries, e);
    }
  }

  lemma {:induction false} TailAppendOk<E>(stores: seq<Store<E>>, written: nat, visible: nat,
                                           pushed: seq<E>, published: nat, entries: nat)
    requires StoresOk(stores, written, visible, pushed, published, entries) && published <= |pushed|
    ensures StoresOk(stores + [Tail(Residue(|pushed|))], written, visible, pushed, |pushed|, entries)
    decreases |stores|
  {
    var longer := stores + [Tail(Residue(|pushed|))];
    if stores == [] {
      assert longer[1..] == [];
    } else {
      assert longer[1..] == stores[1..] + [Tail(Residue(|pushed|))];
      match stores[0]
      case Slot(_, _) => TailAppendOk(stores[1..], written + 1, visible, pushed, published, entries);
      case Tail(_) => TailAppendOk(stores[1..], written, written, pushed, published, entries);
    }
  }
  lemma {:induction false} StoresCoverAll<E>(stores: seq<Store<E>>, written: nat, visible: nat,
                                             pushed: seq<E>, published: nat, entries: nat)
    requires StoresOk(stores, written, visible, pushed, published, entries) && visible <= written
    ensures written <= |pushed| && visible <= published
    decreases |stores|
  {
    if stores != [] {
      match stores[0]
      case Slot(_, _) => StoresCoverAll(stores[1..], written + 1, visible, pushed, published, entries);
      case Tail(_) => StoresCoverAll(stores[1..], written, written, pushed, published, entries);
    }
  }

  lemma {:induction false} StoredHead<E>(ring: Ring<E>, stores: seq<Store<E>>, head: u32)
    ensures Stored(ring.(head := head), stores) == Stored(ring, stores).(head := head)
    decreases |stores|
  {
    if stores != [] {
      StoredHead(Store1(ring, stores[0]), stores[1..], head);
    }
  }

  // ---------------------------------------------------------------- the program's steps

  /** The two rings agree on what no store touches. */
  lemma ViewFields<E>(m: Machine<E>)
    requires Inv(m)
    ensures var v := View(m);
            && Addressable(m.ring) && Addressable(v.ring) && v.ring == m.ring.(tail := v.ring.tail, sqes := v.ring.sqes)
            && v.ring == Stored(m.ring, m.stores) && |v.seen| == m.Shown()
  {
    StoredFields(m.ring, m.stores);
  }

  lemma PushOneView<E>(m: Machine<E>, e: E)
    requires Inv(m) && m.handle.Some? && NotFull(m.ring, m.handle.value)
    ensures Addressable(View(m).ring)
    ensures View(PushOne(m, e)) == SubmissionRing.Apply(View(m), SubmissionRing.Push(e))
  {
    ViewFields(m);
    hide Inv, SubmissionRing.Inv, BitAnd;
    StoredAppend(m.ring, m.stores, Slot(m.ring.Slot(m.handle.value.tail), e));
    StoredFields(m.ring, m.stores);
    SlotInRing(m.ring, m.handle.value.tail);
  }

  lemma SlotInRing<E>(ring: Ring<E>, word: u32)
    requires Addressable(ring)
    ensures ring.Slot(word) < |ring.sqes|
  {
  }

  lemma HandleTail<E>(m: Machine<E>)
    requires Inv(m) && m.handle.Some?
    ensures m.handle.value.tail == Residue(|m.pushed|) && m.published <= |m.pushed|
    ensures m.ring.entries > 0 && m.ring.Slot(m.handle.value.tail) == |m.pushed| % m.ring.entries
  {
    SlotOfCounter(|m.pushed|, m.ring.entries);
  }

  lemma PushOneKeepsKernelInv<E>(m: Machine<E>, e: E)
    requires KernelInv(m) && m.handle.Some?
    ensures KernelInv(PushOne(m, e))
  {
    assert (m.pushed + [e])[..|m.seen|] == m.pushed[..|m.seen|];
  }

  lemma PushOneRefines<E>(m: Machine<E>, e: E)
    requires Inv(m) && m.handle.Some? && NotFull(m.ring, m.handle.value)
    ensures Addressable(View(m).ring) && Inv(PushOne(m, e))
    ensures View(PushOne(m, e)) == SubmissionRing.Apply(View(m), SubmissionRing.Push(e))
  {
    PushOneView(m, e);
    SubmissionRing.ApplyKeepsInv(View(m), SubmissionRing.Push(e));
    HandleTail(m);
    SlotAppendOk(m.stores, m.written, m.visible, m.pushed, m.published, m.ring.entries, e);
    PushOneKeepsKernelInv(m, e);
    hide SubmissionRing.Inv, SubmissionRing.Apply, KernelInv, StoresOk, View;
  }

  lemma RoomLeft<E>(m: Machine<E>, count: nat)
    requires Inv(m) && m.handle.Some?
    ensures Fits(m.ring, m.handle.value, count) <==> |m.pushed| + count <= m.known + m.ring.entries
    ensures NotFull(m.ring, m.handle.value) <==> |m.pushed| < m.known + m.ring.entries
  {
    ViewFields(m);
    HandleMeaning(View(m));
  }

  lemma {:induction false} PushEachRefines<E>(m: Machine<E>, es: seq<E>)
    requires Inv(m) && m.handle.Some? && |m.pushed| + |es| <= m.known + m.ring.entries
    ensures Addressable(View(m).ring) && Inv(PushEach(m, es))
    ensures View(PushEach(m, es)) == SubmissionRing.Run(View(m), Pushes(es))
    decreases |es|
  {
    ViewFields(m);
    if es != [] {
      RoomLeft(m, 1);
      PushOneRefines(m, es[0]);
      hide Inv, View, SubmissionRing.Apply;
      assert Pushes(es)[1..] == Pushes(es[1..]);
      PushEachRefines(PushOne(m, es[0]), es[1..]);
    }
  }

  lemma BatchRefines<E>(m: Machine<E>, es: seq<E>)
    requires Inv(m) && m.handle.Some? && Fits(m.ring, m.handle.value, |es|)
    ensures Addressable(View(m).ring) && Inv(PushEach(m, es))
    ensures View(PushEach(m, es)) == SubmissionRing.Apply(View(m), SubmissionRing.PushAll(es))
  {
    RoomLeft(m, |es|);
    ViewFields(m);
    FitsInView(m, |es|);
    hide *;
    BatchApplies(View(m), es);
    PushEachRefines(m, es);
  }

  lemma FitsInView<E>(m: Machine<E>, count: nat)
    requires Inv(m) && m.handle.Some? && Fits(m.ring, m.handle.value, count)
    ensures var v := View(m);
            SubmissionRing.Inv(v) && v.handle.Some? && Fits(v.ring, v.handle.value, count)
  {
    ViewFields(m);
  }

  lemma StoreTailView<E>(m: Machine<E>)
    requires Inv(m) && m.handle.Some?
    ensures Addressable(View(m).ring)
    ensures View(StoreTail(m)) == SubmissionRing.Apply(View(m), SubmissionRing.Publish)
    ensures View(StoreTail(m).(handle := None)) == SubmissionRing.Apply(View(m), SubmissionRing.Close)
  {
    ViewFields(m);
    hide Inv, SubmissionRing.Inv;
    StoredAppend(m.ring, m.stores, Tail(m.handle.value.tail));
    StoredFields(m.ring, m.stores);
  }

  lemma StoreTailKeepsInvs<E>(m: Machine<E>)
    requires Inv(m) && m.handle.Some?
    ensures var m' := StoreTail(m);
            m'.fifo && m'.ring.WellFormed() && KernelInv(m') && BufferInv(m')
  {
    HandleTail(m);
    TailKeepsKernelInv(m);
    TailAppendOk(m.stores, m.written, m.visible, m.pushed, m.published, m.ring.entries);
    hide SubmissionRing.Inv, StoresOk, KernelInv, Residue;
  }

  lemma TailKeepsKernelInv<E>(m: Machine<E>)
    requires KernelInv(m) && m.handle.Some?
    ensures KernelInv(StoreTail(m))
  {
    hide HoldsUnread, Residue;
  }

  lemma StoreTailRefines<E>(m: Machine<E>)
    requires Inv(m) && m.handle.Some?
    ensures Addressable(View(m).ring) && Inv(StoreTail(m)) && Inv(StoreTail(m).(handle := None))
    ensures View(StoreTail(m)) == SubmissionRing.Apply(View(m), SubmissionRing.Publish)
    ensures View(StoreTail(m).(handle := None)) == SubmissionRing.Apply(View(m), SubmissionRing.Close)
  {
    StoreTailView(m);
    StoreTailKeepsInvs(m);
    SubmissionRing.ApplyKeepsInv(View(m), SubmissionRing.Publish);
    SubmissionRing.ApplyKeepsInv(View(m), SubmissionRing.Close);
    hide SubmissionRing.Inv, SubmissionRing.Apply, View, StoresOk;
  }

  lemma LoadRefines<E>(m: Machine<E>, step: Step<E>)
    requires Inv(m) && (step.Open? || step.Reload?)
    ensures Addressable(View(m).ring) && Inv(Apply(m, step))
    ensures View(Apply(m, step)) ==
            SubmissionRing.Apply(View(m), if step.Open? then SubmissionRing.Open else SubmissionRing.Reload)
  {
    ViewFields(m);
    SubmissionRing.ApplyKeepsInv(View(m), SubmissionRing.Open);
    SubmissionRing.ApplyKeepsInv(View(m), SubmissionRing.Reload);
    hide SubmissionRing.Inv, StoresOk;
  }

  // ---------------------------------------------------------------- memory's steps

  lemma FlushKeepsView<E>(m: Machine<E>)
    requires Inv(m) && m.stores != []
    ensures View(FlushStore(m, 0)) == View(m)
  {
    assert m.stores[..0] + m.stores[1..] == m.stores[1..];
    StoredFields(m.ring, m.stores);
  }

  /** The unread entries a store cannot hit. */
  lemma UnreadBound<E>(m: Machine<E>)
    requires Inv(m)
    ensures |m.pushed| <= |m.seen| + m.ring.entries && m.published <= |m.seen| + m.ring.entries
    ensures m.published <= |m.pushed| && 0 < m.ring.entries <= 0x8000_0000
  {
    ViewFields(m);
    RingSizeBounds(m.ring.entries);
  }

  /** The slot of the next entry is none the kernel has yet to read. */
  lemma SlotIsFree<E>(sqes: seq<E>, entries: nat, pushed: seq<E>, from: nat, to: nat)
    requires HoldsUnread(sqes, entries, pushed, from, to) && from <= to < |pushed| <= from + entries
    ensures HoldsUnread(sqes[to % entries := pushed[to]], entries, pushed, from, to + 1)
  {
    forall i | from <= i < to
      ensures i % entries != to % entries
    {
      SlotsDiffer(i, to, entries);
    }
  }

  lemma FlushSlot<E>(m: Machine<E>)
    requires KernelInv(m) && BufferInv(m) && m.ring.WellFormed() && m.stores != [] && m.stores[0].Slot?
    requires |m.pushed| <= |m.seen| + m.ring.entries
    ensures KernelInv(FlushStore(m, 0)) && BufferInv(FlushStore(m, 0)) && FlushStore(m, 0).ring.WellFormed()
  {
    assert m.stores[..0] + m.stores[1..] == m.stores[1..];
    SlotIsFree(m.ring.sqes, m.ring.entries, m.pushed, |m.seen|, m.written);
    hide HoldsUnread, Residue;
  }

  lemma FlushTail<E>(m: Machine<E>)
    requires KernelInv(m) && BufferInv(m) && m.ring.WellFormed() && m.stores != [] && m.stores[0].Tail?
    ensures KernelInv(FlushStore(m, 0)) && BufferInv(FlushStore(m, 0)) && FlushStore(m, 0).ring.WellFormed()
  {
    assert m.stores[..0] + m.stores[1..] == m.stores[1..];
    StoresCoverAll(m.stores[1..], m.written, m.written, m.pushed, m.published, m.ring.entries);
    hide HoldsUnread, Residue;
  }

  lemma FlushKeepsKernelInv<E>(m: Machine<E>)
    requires Inv(m) && m.stores != []
    ensures KernelInv(FlushStore(m, 0)) && BufferInv(FlushStore(m, 0)) && FlushStore(m, 0).ring.WellFormed()
  {
    UnreadBound(m);
    hide SubmissionRing.Inv, KernelInv, BufferInv;
    if m.stores[0].Slot? {
      FlushSlot(m);
    } else {
      FlushTail(m);
    }
  }

  /** A store that reaches memory in its turn changes nothing the program sees. */
  lemma FlushRefines<E>(m: Machine<E>)
    requires Inv(m) && m.stores != []
    ensures Inv(FlushStore(m, 0)) && View(FlushStore(m, 0)) == View(m)
  {
    FlushKeepsView(m);
    FlushKeepsKernelInv(m);
    hide KernelInv, BufferInv, View, SubmissionRing.Inv;
  }

  /** What the kernel finds at its head is the oldest entry it has not read. */
  lemma KernelFindsNext<E>(m: Machine<E>)
    requires Inv(m)
    ensures Addressable(m.ring)
    ensures m.kernelHead == m.ring.tail <==> |m.seen| == m.visible
    ensures |m.seen| < m.visible ==>
              |m.seen| < |m.pushed| && KernelRead(m.ring.(head := m.kernelHead)) == Some(m.pushed[|m.seen|])
  {
    UnreadBound(m);
    DistanceOfCounters(m.visible, |m.seen|);
    SlotOfCounter(|m.seen|, m.ring.entries);
  }

  lemma ConsumeRefines<E>(m: Machine<E>)
    requires Inv(m)
    ensures Inv(Apply(m, Step.Consume)) && View(Apply(m, Step.Consume)) == View(m)
  {
    KernelFindsNext(m);
    if m.kernelHead != m.ring.tail {
      hide Inv, KernelRead, Residue;
      ConsumeKeepsInvs(m, m.pushed[|m.seen|]);
    }
  }

  /** The kernel's state after it has read `e`. */
  function AfterRead<E>(m: Machine<E>, e: E): Machine<E> {
    var next := WrappingAdd(m.kernelHead, 1);
    m.(kernelHead := next, heads := m.heads + [next], seen := m.seen + [e])
  }

  lemma ConsumeKeepsInvs<E>(m: Machine<E>, e: E)
    requires Inv(m) && |m.seen| < m.visible && |m.seen| < |m.pushed| && e == m.pushed[|m.seen|]
    ensures Inv(AfterRead(m, e)) && View(AfterRead(m, e)) == View(m)
  {
    ReadKeepsKernelInv(m, e);
    hide KernelInv, SubmissionRing.Inv, StoresOk, Stored, WrappingAdd;
    assert |m.heads| <= |m.seen| by { ViewFields(m); }
    assert (m.seen + [e])[..m.Shown()] == m.seen[..m.Shown()];
  }

  lemma ReadKeepsKernelInv<E>(m: Machine<E>, e: E)
    requires KernelInv(m) && |m.seen| < m.visible && e == m.pushed[|m.seen|]
    ensures KernelInv(AfterRead(m, e))
  {
    NextResidue(|m.seen|);
    hide Residue;
    assert m.pushed[..|m.seen|] + [e] == m.pushed[..|m.seen| + 1];
  }

  /** The program learns of a read only now: here it takes place for the ring protocol. */
  lemma FlushHeadRefines<E>(m: Machine<E>)
    requires Inv(m) && m.heads != []
    ensures Addressable(View(m).ring) && Inv(Apply(m, FlushHead))
    ensures View(Apply(m, FlushHead)) == SubmissionRing.Apply(View(m), SubmissionRing.Consume)
  {
    ViewFields(m);
    FlushHeadView(m);
    SubmissionRing.ApplyKeepsInv(View(m), SubmissionRing.Consume);
    hide SubmissionRing.Inv, StoresOk, View;
  }

  lemma FlushHeadView<E>(m: Machine<E>)
    requires Inv(m) && m.heads != []
    ensures Addressable(View(m).ring)
    ensures View(Apply(m, FlushHead)) == SubmissionRing.Apply(View(m), SubmissionRing.Consume)
  {
    ViewFields(m);
    UnreadBound(m);
    DistanceOfCounters(m.published, m.Shown());
    ConsumeKeepsInv(View(m));
    NextResidue(m.Shown());
    StoredHead(m.ring, m.stores, m.heads[0]);
    assert m.seen[..m.Shown()] + [m.seen[m.Shown()]] == m.seen[..m.Shown() + 1];
    hide SubmissionRing.Inv, StoresOk, KernelRead;
  }

  // ---------------------------------------------------------------- every run

  /** Each step keeps the invariant and is, as the program sees it, what the ring protocol does
      in no or one step of its own. */
  lemma StepRefines<E>(m: Machine<E>, step: Step<E>)
    requires Inv(m)
    ensures Addressable(View(m).ring) && Inv(Apply(m, step))
    ensures View(Apply(m, step)) == SubmissionRing.Run(View(m), Counterpart(m, step))
  {
    ViewFields(m);
    RunUpToOne(View(m), Counterpart(m, step));
    hide Inv, View, SubmissionRing.Run, SubmissionRing.Inv;
    match step
    case Open => LoadRefines(m, step);
    case Reload => LoadRefines(m, step);
    case Push(e) => PushRefines(m, e);
    case PushAll(es) => PushAllRefines(m, es);
    case Publish => StoreTailStep(m, step);
    case Close => StoreTailStep(m, step);
    case Flush(i) => FlushStep(m, i);
    case Consume => ConsumeRefines(m);
    case FlushHead =>
      if m.heads != [] {
        FlushHeadRefines(m);
      }
  }

  lemma RunUpToOne<E>(s: System<E>, steps: seq<SubmissionRing.Step<E>>)
    requires Addressable(s.ring)
    ensures steps == [] ==> SubmissionRing.Run(s, steps) == s
    ensures |steps| == 1 ==> SubmissionRing.Run(s, steps) == SubmissionRing.Apply(s, steps[0])
  {
    hide SubmissionRing.Apply;
  }

  lemma PushRefines<E>(m: Machine<E>, e: E)
    requires Inv(m)
    ensures Addressable(View(m).ring) && Inv(Apply(m, Step.Push(e)))
    ensures View(Apply(m, Step.Push(e))) == SubmissionRing.Apply(View(m), SubmissionRing.Push(e))
  {
    ViewFields(m);
    if m.handle.Some? && NotFull(m.ring, m.handle.value) {
      PushOneRefines(m, e);
      hide Inv, View, PushOne, SubmissionRing.Apply;
    } else {
      hide Inv, SubmissionRing.Inv, Stored;
    }
  }

  lemma PushAllRefines<E>(m: Machine<E>, es: seq<E>)
    requires Inv(m)
    ensures Addressable(View(m).ring) && Inv(Apply(m, Step.PushAll(es)))
    ensures View(Apply(m, Step.PushAll(es))) == SubmissionRing.Apply(View(m), SubmissionRing.PushAll(es))
  {
    ViewFields(m);
    SameFit(m, |es|);
    if m.handle.Some? && Fits(m.ring, m.handle.value, |es|) {
      BatchRefines(m, es);
      hide Inv, View, PushEach, SubmissionRing.Apply;
    } else {
      hide Inv, View, PushEach, AfterBatch, Fits;
    }
  }

  lemma SameFit<E>(m: Machine<E>, count: nat)
    requires Inv(m)
    ensures View(m).handle == m.handle
    ensures m.handle.Some? ==> (Fits(View(m).ring, m.handle.value, count) <==> Fits(m.ring, m.handle.value, count))
  {
    ViewFields(m);
    assert View(m).handle == m.handle && View(m).ring.entries == m.ring.entries;
    hide Inv, View, WrappingSub;
  }

  lemma StoreTailStep<E>(m: Machine<E>, step: Step<E>)
    requires Inv(m) && (step.Publish? || step.Close?)
    ensures Addressable(View(m).ring) && Inv(Apply(m, step))
    ensures View(Apply(m, step)) ==
            SubmissionRing.Apply(View(m), if step.Publish? then SubmissionRing.Publish else SubmissionRing.Close)
  {
    ViewFields(m);
    if m.handle.Some? {
      StoreTailRefines(m);
      hide Inv, View, StoreTail, SubmissionRing.Apply;
    } else {
      hide Inv, SubmissionRing.Inv, Stored;
    }
  }

  lemma FlushStep<E>(m: Machine<E>, i: nat)
    requires Inv(m)
    ensures Inv(Apply(m, Flush(i))) && View(Apply(m, Flush(i))) == View(m)
  {
    if m.stores != [] {
      FlushRefines(m);
    }
    IsFifo(m);
    hide Inv, View, FlushStore;
  }

  lemma IsFifo<E>(m: Machine<E>)
    requires Inv(m)
    ensures m.fifo
  {
  }

  lemma {:induction false} RunRefines<E>(m: Machine<E>, steps: seq<Step<E>>)
    returns (atomic: seq<SubmissionRing.Step<E>>)
    requires Inv(m)
    ensures Addressable(View(m).ring) && Inv(Run(m, steps))
    ensures View(Run(m, steps)) == SubmissionRing.Run(View(m), atomic)
    decreases |steps|
  {
    ViewFields(m);
    hide Inv, View, Apply, SubmissionRing.Apply, SubmissionRing.Inv;
    if steps == [] {
      atomic := [];
    } else {
      StepRefines(m, steps[0]);
      var rest := RunRefines(Apply(m, steps[0]), steps[1..]);
      SubmissionSafety.RunConcat(View(m), Counterpart(m, steps[0]), rest);
      atomic := Counterpart(m, steps[0]) + rest;
    }
  }

  lemma StartHolds<E>(m: Machine<E>)
    requires ValidStart(m) && m.fifo
    ensures Inv(m) && SubmissionRing.ValidStart(View(m))
  {
    RingSizeBounds(m.ring.entries);
    SubmissionRing.StartHolds(View(m));
  }

  /** Every run with delayed stores is, seen by the program, a run of the ring protocol. */
  lemma DelayedStoresRefineRing<E>(start: Machine<E>, steps: seq<Step<E>>) returns (atomic: seq<SubmissionRing.Step<E>>)
    requires ValidStart(start) && start.fifo
    ensures Addressable(View(start).ring) && SubmissionRing.ValidStart(View(start))
    ensures Run(start, steps).Shown() >= 0
    ensures View(Run(start, steps)) == SubmissionRing.Run(View(start), atomic)
  {
    StartHolds(start);
    atomic := RunRefines(start, steps);
  }

  /** The kernel's reads are the oldest accepted entries, in order. */
  ghost predicate ReadsInOrder<E>(m: Machine<E>) {
    m.dropped == 0 && m.seen <= m.pushed
  }

  /** Whenever stores and heads reach memory, the kernel has read accepted entries only, in
      order, each once and unaltered, none before its tail was published; and memory holds
      those that it may read next. */
  lemma KernelReadsPushedEntries<E>(start: Machine<E>, steps: seq<Step<E>>)
    requires ValidStart(start) && start.fifo
    ensures var m := Run(start, steps);
            && ReadsInOrder(m) && |m.seen| <= m.visible <= m.published <= |m.pushed| <= |m.seen| + m.ring.entries
            && Addressable(m.ring) && m.ring.tail == Residue(m.visible)
            && forall i :: |m.seen| <= i < m.visible ==> m.ring.sqes[BitAnd(Residue(i), m.ring.mask)] == m.pushed[i]
  {
    StartHolds(start);
    var _ := RunRefines(start, steps);
    hide Run;
    WhatKernelSees(Run(start, steps));
  }

  lemma WhatKernelSees<E>(m: Machine<E>)
    requires Inv(m)
    ensures ReadsInOrder(m) && |m.seen| <= m.visible <= m.published <= |m.pushed| <= |m.seen| + m.ring.entries
    ensures Addressable(m.ring) && m.ring.tail == Residue(m.visible)
    ensures forall i :: |m.seen| <= i < m.visible ==> m.ring.sqes[BitAnd(Residue(i), m.ring.mask)] == m.pushed[i]
  {
    UnreadBound(m);
    KernelWords(m);
    hide Inv, BitAnd, Residue;
    forall i | |m.seen| <= i < m.visible
      ensures m.ring.sqes[BitAnd(Residue(i), m.ring.mask)] == m.pushed[i]
    {
      UnreadSlot(m, i);
    }
  }

  lemma KernelWords<E>(m: Machine<E>)
    requires Inv(m)
    ensures ReadsInOrder(m) && |m.seen| <= m.visible <= m.published && Addressable(m.ring)
            && m.ring.tail == Residue(m.visible)
  {
    hide SubmissionRing.Inv, StoresOk, HoldsUnread;
  }

  lemma UnreadSlot<E>(m: Machine<E>, i: nat)
    requires Inv(m) && |m.seen| <= i < m.visible
    ensures Addressable(m.ring) && i < |m.pushed| && m.ring.sqes[BitAnd(Residue(i), m.ring.mask)] == m.pushed[i]
  {
    SlotOfCounter(i, m.ring.entries);
    hide SubmissionRing.Inv, StoresOk;
  }

  // ---------------------------------------------------------------- delivery

  function Flushes<E>(count: nat): seq<Step<E>> {
    if count == 0 then [] else [Flush(0)] + Flushes(count - 1)
  }

  function Consumes<E>(count: nat): seq<Step<E>> {
    if count == 0 then [] else [Step.Consume] + Consumes(count - 1)
  }

  lemma {:induction false} FlushesReachMemory<E>(m: Machine<E>)
    requires Inv(m)
    ensures var m' := Run(m, Flushes(|m.stores|));
            && Inv(m') && m'.visible == m.published == m'.published
            && m'.pushed == m.pushed && m'.seen == m.seen
    decreases |m.stores|
  {
    if m.stores != [] {
      assert Flushes<E>(|m.stores|)[1..] == Flushes(|m.stores| - 1);
      FlushRefines(m);
      IsFifo(m);
      hide Inv, Store1;
      FlushesReachMemory(FlushStore(m, 0));
    }
  }

  lemma ConsumeReadsOne<E>(m: Machine<E>)
    requires Inv(m)
    ensures m.seen == m.pushed[..|m.seen|] && |m.seen| <= m.visible <= |m.pushed|
    ensures var m' := Apply(m, Step.Consume);
            && Inv(m') && m'.visible == m.visible && m'.pushed == m.pushed
            && |m'.seen| == if |m.seen| < m.visible then |m.seen| + 1 else |m.seen|
  {
    KernelFindsNext(m);
    ConsumeRefines(m);
    hide KernelRead, SubmissionRing.Inv, StoresOk, HoldsUnread;
  }

  lemma {:induction false} ConsumesReadAll<E>(m: Machine<E>, count: nat)
    requires Inv(m) && count >= m.visible - |m.seen|
    ensures m.visible <= |m.pushed| && Run(m, Consumes(count)).seen == m.pushed[..m.visible]
    decreases count
  {
    ConsumeReadsOne(m);
    hide Inv, Apply;
    if count > 0 {
      assert Consumes<E>(count)[1..] == Consumes(count - 1);
      ConsumesReadAll(Apply(m, Step.Consume), count - 1);
    }
  }

  /** Nothing published stays behind: once the stores have reached memory the kernel reads, in
      so many steps, every entry published. */
  lemma DelayedEntriesArrive<E>(start: Machine<E>, steps: seq<Step<E>>, count: nat)
    requires ValidStart(start) && start.fifo
    ensures var m := Run(start, steps);
            count >= m.published - |m.seen| ==>
              && m.published <= |m.pushed|
              && Run(Run(m, Flushes(|m.stores|)), Consumes(count)).seen == m.pushed[..m.published]
  {
    StartHolds(start);
    var _ := RunRefines(start, steps);
    var m := Run(start, steps);
    hide Run, Inv;
    FlushesReachMemory(m);
    if count >= m.published - |m.seen| {
      ConsumesReadAll(Run(m, Flushes(|m.stores|)), count);
    }
  }

  // ---------------------------------------------------------------- order is needed

  ghost predicate CanMisread<E(!new)>(start: Machine<E>) {
    exists steps :: !ReadsInOrder(Run(start, steps))
  }

  /** If a tail may overtake the slot before it, the kernel can read what the slot held. */
  lemma OvertakingTailMisreads<E(!new)>(start: Machine<E>, e: E)
    requires ValidStart(start) && !start.fifo && start.ring.sqes != [] && start.ring.sqes[0] != e
    ensures CanMisread(start)
  {
    var steps := [Step.Open, Step.Push(e), Step.Publish, Flush(1), Step.Consume];
    RunFive(start, steps[0], steps[1], steps[2], steps[3], steps[4]);
    hide Run;
    PushedAndStored(start, e);
    var m := Apply(Apply(Apply(start, steps[0]), steps[1]), steps[2]);
    TailOvertakes(m, e);
    assert !ReadsInOrder(Run(start, steps));
  }

  lemma PushedAndStored<E>(start: Machine<E>, e: E)
    requires ValidStart(start)
    ensures Apply(Apply(Apply(start, Step.Open), Step.Push(e)), Step.Publish) ==
            start.(stores := [Slot(0, e), Tail(1)], handle := Some(Handle(0, 1)), pushed := [e], published := 1)
  {
    RingSizeBounds(start.ring.entries);
    SlotOfCounter(0, start.ring.entries);
    var m := Apply(Apply(start, Step.Open), Step.Push(e));
    assert m == start.(stores := [Slot(0, e)], handle := Some(Handle(0, 1)), pushed := [e]);
    assert [Slot(0, e)] + [Tail(1)] == [Slot(0, e), Tail(1)];
  }

  lemma TailOvertakes<E>(m: Machine<E>, e: E)
    requires m.ring.WellFormed() && m.kernelHead == 0 && !m.fifo && m.stores == [Slot(0, e), Tail(1)]
    requires m.pushed == [e] && m.seen == [] && m.dropped == 0 && m.ring.sqes != [] && m.ring.sqes[0] != e
    ensures !ReadsInOrder(Apply(Apply(m, Flush(1)), Step.Consume))
  {
    RingSizeBounds(m.ring.entries);
    SlotOfCounter(0, m.ring.entries);
    var m' := Apply(Apply(m, Flush(1)), Step.Consume);
    assert m'.seen == [m.ring.sqes[0]] && m'.pushed == [e];
    assert m'.seen[0] != m'.pushed[0];
  }

  lemma RunFive<E>(m: Machine<E>, a: Step<E>, b: Step<E>, c: Step<E>, d: Step<E>, e: Step<E>)
    ensures Run(m, [a, b, c, d, e]) == Apply(Apply(Apply(Apply(Apply(m, a), b), c), d), e)
  {
    hide Apply;
    var steps := [a, b, c, d, e];
    assert steps[1..] == [b, c, d, e] && steps[1..][1..] == [c, d, e] && steps[1..][1..][1..] == [d, e];
    var m2 := Apply(Apply(m, a), b);
    assert Run(m, steps) == Run(m2, [c, d, e]);
    assert [c, d, e][1..] == [d, e] && [d, e][1..] == [e] && [e][1..] == [];
    assert Run(m2, [c, d, e]) == Run(Apply(Apply(m2, c), d), [e]);
    assert Run(Apply(Apply(m2, c), d), [e]) == Run(Apply(Apply(Apply(m2, c), d), e), []);
  }

  /** Some run misleads the kernel if and only if stores may reach memory out of order. */
  lemma MisreadIffUnordered<E(!new)>(start: Machine<E>, e: E)
    requires ValidStart(start) && start.ring.sqes != [] && start.ring.sqes[0] != e
    ensures CanMisread(start) <==> !start.fifo
  {
    if !start.fifo {
      OvertakingTailMisreads(start, e);
    } else {
      forall steps
        ensures ReadsInOrder(Run(start, steps))
      {
        KernelReadsPushedEntries(start, steps);
      }
    }
  }
}
