/** The completion queue as a protocol. The kernel posts completions while the ring has
    room; beyond that it keeps them in order on its overflow list (NODROP), or drops and
    counts them. The program reads through a handle with private copies of both words.

    Besides that, each state records the completions so far, those handed to the program,
    and how far both sides have published or looked. */
module CompletionRing {
  import opened Words
  import opened Wrappers

  datatype Ring<C> = Ring(head: u32, tail: u32, entries: u32, mask: u32, cqes: seq<C>)
  {
    ghost predicate WellFormed() {
      IsRingSize(entries) && mask == entries - 1 && |cqes| == entries
    }

    function Slot(word: u32): nat {
      BitAnd(word, mask)
    }
  }

  datatype Handle = Handle(head: u32, tail: u32)
  {
    function Len(): u32 {
      WrappingSub(tail, head)
    }
  }

  function Borrow<C>(r: Ring<C>): Handle {
    Handle(r.head, r.tail)
  }

  function PublishHead<C>(r: Ring<C>, h: Handle): Ring<C> {
    r.(head := h.head)
  }

  function ReloadTail<C>(r: Ring<C>, h: Handle): Handle {
    h.(tail := r.tail)
  }

  predicate Addressable<C>(r: Ring<C>) {
    r.mask < |r.cqes|
  }

  function Popped<C>(r: Ring<C>, h: Handle): C
    requires Addressable(r)
  {
    r.cqes[r.Slot(h.head)]
  }

  function Advance(h: Handle): Handle {
    h.(head := WrappingAdd(h.head, 1))
  }

  /** `count` unchecked pops. */
  function PopMany<C>(r: Ring<C>, h: Handle, count: nat): (result: (seq<C>, Handle))
    requires Addressable(r)
    ensures |result.0| == count && result.1.tail == h.tail
    decreases count
  {
    if count == 0 then ([], h)
    else
      var (rest, h') := PopMany(r, Advance(h), count - 1);
      ([Popped(r, h)] + rest, h')
  }

  /** `CompletionStatus::is_empty`: the two shared words, no handle. */
  predicate StatusEmpty<C>(r: Ring<C>) {
    r.head == r.tail
  }

  function HasRoom<C>(r: Ring<C>): bool {
    WrappingSub(r.tail, r.head) < r.entries
  }

  function Post<C>(r: Ring<C>, c: C): Ring<C>
    requires Addressable(r)
  {
    r.(cqes := r.cqes[r.Slot(r.tail) := c], tail := WrappingAdd(r.tail, 1))
  }

  /** What the kernel leaves in the ring when `cs` complete: it posts while there is room. */
  function PostWhileRoom<C>(r: Ring<C>, cs: seq<C>): (r': Ring<C>)
    requires Addressable(r)
    ensures Addressable(r') && r'.head == r.head && |r'.cqes| == |r.cqes|
    decreases |cs|
  {
    if cs == [] then r
    else PostWhileRoom(if HasRoom(r) then Post(r, cs[0]) else r, cs[1..])
  }

  datatype System<C> = System(
    ring: Ring<C>,
    handle: Option<Handle>,
    nodrop: bool,
    overflow: seq<C>,
    overflowFlag: bool,
    lost: nat,
    completed: seq<C>,
    taken: seq<C>,
    published: nat,
    known: nat)
  {
    /** How many completions have been posted into the ring. */
    function Posted(): int {
      |completed| - |overflow|
    }
  }

  /** `sync` is `Publish` followed by `Reload`. `Flush` moves one completion from the
      overflow list into the ring, as `io_uring_enter` with GETEVENTS does while it can. */
  datatype Step<C> =
    | Open
    | Next
    | Fill(count: nat)
    | Publish
    | Reload
    | Close
    | Complete(c: C)
    | Flush

  function AfterPops<C>(s: System<C>, count: nat): System<C>
    requires Addressable(s.ring) && s.handle.Some?
  {
    var (list, h) := PopMany(s.ring, s.handle.value, count);
    s.(handle := Some(h), taken := s.taken + list)
  }

  function Apply<C>(s: System<C>, step: Step<C>): (s': System<C>)
    requires Addressable(s.ring)
    ensures Addressable(s'.ring)
  {
    match step
    case Open =>
      if s.handle.Some? then s else s.(handle := Some(Borrow(s.ring)), known := KnownTail(s))
    case Next =>
      if s.handle.None? || s.handle.value.head == s.handle.value.tail then s
      else s.(handle := Some(Advance(s.handle.value)), taken := s.taken + [Popped(s.ring, s.handle.value)])
    case Fill(count) =>
      if s.handle.None? then s
      else AfterPops(s, Min(s.handle.value.Len(), count))
    case Publish =>
      if s.handle.None? then s else s.(ring := PublishHead(s.ring, s.handle.value), published := |s.taken|)
    case Reload =>
      if s.handle.None? then s
      else s.(handle := Some(ReloadTail(s.ring, s.handle.value)), known := KnownTail(s))
    case Close =>
      if s.handle.None? then s
      else s.(ring := PublishHead(s.ring, s.handle.value), published := |s.taken|, handle := None)
    case Complete(c) =>
      if s.overflow == [] && HasRoom(s.ring) then s.(ring := Post(s.ring, c), completed := s.completed + [c])
      else if s.nodrop then s.(overflow := s.overflow + [c], overflowFlag := true, completed := s.completed + [c])
      else s.(lost := s.lost + 1)
    case Flush =>
      if s.overflow == [] || !HasRoom(s.ring) then s
      else s.(ring := Post(s.ring, s.overflow[0]), overflow := s.overflow[1..], overflowFlag := |s.overflow| > 1)
  }

  function KnownTail<C>(s: System<C>): nat {
    if s.Posted() < 0 then 0 else s.Posted()
  }

  function Run<C>(s: System<C>, steps: seq<Step<C>>): (s': System<C>)
    requires Addressable(s.ring)
    ensures Addressable(s'.ring)
    decreases |steps|
  {
    if steps == [] then s else Run(Apply(s, steps[0]), steps[1..])
  }

  // ---------------------------------------------------------------- the invariant

  /** Every slot between the two shared words still holds the completion posted there. */
  ghost predicate HoldsPosted<C>(cqes: seq<C>, entries: nat, completed: seq<C>, from: nat, to: nat) {
    && entries > 0 && |cqes| == entries && to <= |completed|
    && forall i :: from <= i < to ==> cqes[i % entries] == completed[i]
  }

  ghost predicate HandleAgrees<C>(s: System<C>) {
    match s.handle
    case None => s.published == |s.taken|
    case Some(h) =>
      && |s.taken| <= s.known <= s.Posted()
      && h == Handle(Residue(|s.taken|), Residue(s.known))
  }

  ghost predicate Inv<C>(s: System<C>) {
    && s.ring.WellFormed()
    && s.published <= |s.taken| <= s.Posted() <= s.published + s.ring.entries
    && s.taken == s.completed[..|s.taken|]
    && s.overflow == s.completed[s.Posted()..]
    && s.ring.head == Residue(s.published)
    && s.ring.tail == Residue(s.Posted())
    && HoldsPosted(s.ring.cqes, s.ring.entries, s.completed, s.published, s.Posted())
    && (s.overflowFlag <==> s.overflow != [])
    && (if s.nodrop then s.lost == 0 else s.overflow == [])
    && HandleAgrees(s)
  }

  ghost predicate ValidStart<C>(s: System<C>) {
    && s.ring.WellFormed() && s.ring.head == s.ring.tail == 0
    && s.handle.None? && s.overflow == [] && !s.overflowFlag && s.completed == s.taken == []
    && s.published == s.known == s.lost == 0
  }

  lemma StartHolds<C>(s: System<C>)
    requires ValidStart(s)
    ensures Addressable(s.ring) && Inv(s)
  {
    RingSizeBounds(s.ring.entries);
  }

  /** In a reachable state the wrapped lengths are the true ones. */
  lemma WordMeaning<C>(s: System<C>)
    requires Inv(s)
    ensures HasRoom(s.ring) <==> s.Posted() < s.published + s.ring.entries
    ensures StatusEmpty(s.ring) <==> s.published == s.Posted()
    ensures s.handle.Some? ==>
              && s.handle.value.Len() == s.known - |s.taken| <= s.ring.entries
              && (s.handle.value.head == s.handle.value.tail <==> |s.taken| == s.known)
  {
    RingSizeBounds(s.ring.entries);
    DistanceOfCounters(s.Posted(), s.published);
    if s.handle.Some? {
      DistanceOfCounters(s.known, |s.taken|);
    }
  }

  lemma PopYieldsNext<C>(s: System<C>)
    requires Inv(s) && s.handle.Some? && |s.taken| < s.known
    ensures Addressable(s.ring) && |s.taken| < |s.completed|
    ensures Popped(s.ring, s.handle.value) == s.completed[|s.taken|]
    ensures Inv(Apply(s, Next)) && Apply(s, Next).taken == s.taken + [s.completed[|s.taken|]]
  {
    PoppedIsNext(s);
    NextResidue(|s.taken|);
    HeadBehindTail(s);
    hide Popped, Residue, HoldsPosted;
    assert s.completed[..|s.taken|] + [s.completed[|s.taken|]] == s.completed[..|s.taken| + 1];
  }

  lemma HeadBehindTail<C>(s: System<C>)
    requires Inv(s) && s.handle.Some?
    ensures s.handle.value.head == s.handle.value.tail <==> |s.taken| == s.known
  {
    WordMeaning(s);
  }

  lemma PoppedIsNext<C>(s: System<C>)
    requires Inv(s) && s.handle.Some? && |s.taken| < s.known
    ensures Addressable(s.ring) && |s.taken| < |s.completed|
    ensures Popped(s.ring, s.handle.value) == s.completed[|s.taken|]
  {
    SlotOfCounter(|s.taken|, s.ring.entries);
  }

  function Nexts<C>(count: nat): seq<Step<C>> {
    if count == 0 then [] else [Next] + Nexts(count - 1)
  }

  lemma PopsUnfold<C>(s: System<C>, count: nat)
    requires Addressable(s.ring) && s.handle.Some? && count > 0
    requires s.handle.value.head != s.handle.value.tail
    ensures AfterPops(s, count) == AfterPops(Apply(s, Next), count - 1)
    ensures Run(s, Nexts(count)) == Run(Apply(s, Next), Nexts(count - 1))
  {
    var rest := PopMany(s.ring, Advance(s.handle.value), count - 1).0;
    assert s.taken + ([Popped(s.ring, s.handle.value)] + rest) == (s.taken + [Popped(s.ring, s.handle.value)]) + rest;
    assert Nexts<C>(count)[1..] == Nexts(count - 1);
  }

  lemma NextFields<C>(s: System<C>)
    requires Addressable(s.ring) && s.handle.Some? && s.handle.value.head != s.handle.value.tail
    ensures var s' := Apply(s, Next);
            |s'.taken| == |s.taken| + 1 && s'.completed == s.completed && s'.known == s.known && s'.handle.Some?
  {
  }

  lemma {:induction false} PopsAreNexts<C>(s: System<C>, count: nat)
    requires Inv(s) && s.handle.Some? && |s.taken| + count <= s.known
    ensures Addressable(s.ring)
    ensures Inv(AfterPops(s, count)) && AfterPops(s, count) == Run(s, Nexts(count))
    ensures AfterPops(s, count).taken == s.completed[..|s.taken| + count]
    decreases count
  {
    hide Inv, AfterPops, Run, Nexts, Popped, Apply;
    if count == 0 {
      ZeroPops(s);
    } else {
      PopYieldsNext(s);
      WordMeaning(s);
      PopsUnfold(s, count);
      NextFields(s);
      PopsAreNexts(Apply(s, Next), count - 1);
    }
  }

  lemma ZeroPops<C>(s: System<C>)
    requires Inv(s) && s.handle.Some?
    ensures Addressable(s.ring)
    ensures AfterPops(s, 0) == s == Run(s, Nexts(0)) && s.taken == s.completed[..|s.taken|]
  {
  }

  lemma PostKeepsSlots<C>(cqes: seq<C>, entries: nat, completed: seq<C>, from: nat, to: nat, c: C)
    requires HoldsPosted(cqes, entries, completed, from, to) && from <= to < from + entries
    requires to < |completed| && completed[to] == c
    ensures HoldsPosted(cqes[to % entries := c], entries, completed, from, to + 1)
  {
    forall i | from <= i < to
      ensures i % entries != to % entries
    {
      SlotsDiffer(i, to, entries);
    }
  }

  /** Posting completion number `|posted|` into a ring with room. */
  lemma PostedRing<C>(r: Ring<C>, completed: seq<C>, from: nat, posted: nat, c: C)
    requires r.WellFormed() && r.tail == Residue(posted) && from <= posted < from + r.entries
    requires HoldsPosted(r.cqes, r.entries, completed, from, posted) && posted < |completed| && completed[posted] == c
    ensures var r' := Post(r, c);
            && r'.WellFormed() && r'.entries == r.entries && r'.head == r.head && r'.tail == Residue(posted + 1)
            && HoldsPosted(r'.cqes, r'.entries, completed, from, posted + 1)
  {
    hide HoldsPosted;
    SlotOfCounter(posted, r.entries);
    NextResidue(posted);
    PostKeepsSlots(r.cqes, r.entries, completed, from, posted, c);
  }

  lemma CompleteIntoRing<C>(s: System<C>, c: C)
    requires Inv(s) && s.overflow == [] && HasRoom(s.ring)
    ensures Addressable(s.ring)
    ensures Inv(s.(ring := Post(s.ring, c), completed := s.completed + [c]))
  {
    WordMeaning(s);
    var completed := s.completed + [c];
    assert HoldsPosted(s.ring.cqes, s.ring.entries, completed, s.published, s.Posted());
    hide Residue, Post, HoldsPosted, HasRoom;
    PostedRing(s.ring, completed, s.published, s.Posted(), c);
  }

  lemma CompleteKeepsInv<C>(s: System<C>, c: C)
    requires Inv(s)
    ensures Addressable(s.ring) && Inv(Apply(s, Complete(c)))
  {
    if s.overflow == [] && HasRoom(s.ring) {
      CompleteIntoRing(s, c);
      hide Inv, Post;
    } else if s.nodrop {
      hide Residue;
      var s' := Apply(s, Complete(c));
      assert s'.completed[s'.Posted()..] == s.completed[s.Posted()..] + [c];
    }
  }

  lemma FlushKeepsInv<C>(s: System<C>)
    requires Inv(s)
    ensures Addressable(s.ring) && Inv(Apply(s, Flush))
  {
    WordMeaning(s);
    hide Residue, Post, HoldsPosted;
    if s.overflow != [] && HasRoom(s.ring) {
      PostedRing(s.ring, s.completed, s.published, s.Posted(), s.overflow[0]);
      assert s.overflow[1..] == s.completed[s.Posted() + 1..];
    }
  }

  lemma ApplyKeepsInv<C>(s: System<C>, step: Step<C>)
    requires Inv(s)
    ensures Addressable(s.ring) && Inv(Apply(s, step))
  {
    WordMeaning(s);
    match step
    case Next =>
      if s.handle.Some? && s.handle.value.head != s.handle.value.tail {
        PopYieldsNext(s);
      }
    case Fill(count) =>
      if s.handle.Some? {
        PopsAreNexts(s, Min(s.handle.value.Len(), count));
      }
    case Complete(c) => CompleteKeepsInv(s, c);
    case Flush => FlushKeepsInv(s);
    case _ =>
  }

  lemma {:induction false} RunKeepsInv<C>(s: System<C>, steps: seq<Step<C>>)
    requires Inv(s)
    ensures Addressable(s.ring) && Inv(Run(s, steps))
    decreases |steps|
  {
    if steps != [] {
      ApplyKeepsInv(s, steps[0]);
      RunKeepsInv(Apply(s, steps[0]), steps[1..]);
    }
  }
}
