/** How much memory is mapped for the rings, and that every entry address lies inside. */
module Mapping {
  import opened Words
  import opened Wrappers

  /** What `io_uring_setup` fills in, as far as the mapped lengths depend on it. */
  datatype SetupParams = SetupParams(sqEntries: u32, cqEntries: u32, arrayOffset: u32, cqesOffset: u32,
                                     singleMmap: bool)

  /** Mapped lengths; no separate completion mapping when both rings share one. */
  datatype MemoryMap = MemoryMap(sqLen: nat, sqeLen: nat, cqLen: Option<nat>)
  {
    function CqMapped(): nat {
      if cqLen.Some? then cqLen.value else sqLen
    }
  }

  function Max(a: nat, b: nat): nat {
    if a >= b then a else b
  }

  function SetupQueue(p: SetupParams, sqeSize: nat, cqeSize: nat): MemoryMap {
    var sqLen := p.arrayOffset + p.sqEntries * 4;
    var cqLen := p.cqesOffset + p.cqEntries * cqeSize;
    var sqeLen := p.sqEntries * sqeSize;
    if p.singleMmap then MemoryMap(Max(sqLen, cqLen), sqeLen, None)
    else MemoryMap(sqLen, sqeLen, Some(cqLen))
  }

  /** Byte range `[from, to)` of one element. */
  datatype Range = Range(from: nat, to: nat)

  function SqeRange(word: u32, p: SetupParams, sqeSize: nat): Range
    requires p.sqEntries > 0
  {
    var at := BitAnd(word, p.sqEntries - 1) * sqeSize;
    Range(at, at + sqeSize)
  }

  function CqeRange(word: u32, p: SetupParams, cqeSize: nat): Range
    requires p.cqEntries > 0
  {
    var at := p.cqesOffset + BitAnd(word, p.cqEntries - 1) * cqeSize;
    Range(at, at + cqeSize)
  }

  function IndexRange(i: nat, p: SetupParams): Range {
    Range(p.arrayOffset + 4 * i, p.arrayOffset + 4 * i + 4)
  }

  lemma ProductMonotone(a: nat, b: nat, m: nat)
    requires a <= b
    ensures a * m <= b * m
  {
    assert (b - a) * m >= 0;
    assert b * m == a * m + (b - a) * m;
  }

  /** An element of a table whose index is masked lies inside the table. */
  lemma MaskedElementFits(word: u32, entries: u32, size: nat)
    requires entries > 0
    ensures BitAnd(word, entries - 1) * size + size <= entries * size
  {
    hide BitAnd;
    var slot := BitAnd(word, entries - 1);
    ProductMonotone(slot + 1, entries, size);
    assert (slot + 1) * size == slot * size + size;
  }

  /** For any 32-bit head or tail, any entry sizes and either way of mapping, the entry a
      word selects lies inside its mapping, and so does every element of the SQ array. The
      lengths fit `usize` for the entry sizes there are. */
  lemma EntriesLieInsideTheMaps(p: SetupParams, sqeSize: nat, cqeSize: nat, word: u32, i: nat)
    requires IsRingSize(p.sqEntries) && IsRingSize(p.cqEntries) && i < p.sqEntries
    ensures p.sqEntries > 0 && p.cqEntries > 0
    ensures var m := SetupQueue(p, sqeSize, cqeSize);
            && SqeRange(word, p, sqeSize).to <= m.sqeLen
            && CqeRange(word, p, cqeSize).to <= m.CqMapped()
            && IndexRange(i, p).to <= m.sqLen
            && (sqeSize in {64, 128} && cqeSize in {16, 32} ==>
                  m.sqLen < TWO_POW_64 && m.sqeLen < TWO_POW_64 && m.CqMapped() < TWO_POW_64)
  {
    if sqeSize in {64, 128} && cqeSize in {16, 32} {
      LengthsDoNotOverflow(p, sqeSize, cqeSize);
    }
    hide BitAnd;
    RingSizeBounds(p.sqEntries);
    RingSizeBounds(p.cqEntries);
    MaskedElementFits(word, p.sqEntries, sqeSize);
    MaskedElementFits(word, p.cqEntries, cqeSize);
  }

  /** The word of a counter selects its element, counted from where the table starts. */
  lemma WordSelectsElement(p: SetupParams, sqeSize: nat, cqeSize: nat, n: nat)
    requires IsRingSize(p.sqEntries) && IsRingSize(p.cqEntries)
    ensures p.sqEntries > 0 && p.cqEntries > 0
    ensures var sqe, cqe := SqeRange(Residue(n), p, sqeSize), CqeRange(Residue(n), p, cqeSize);
            && sqe.from == (n % p.sqEntries) * sqeSize && sqe.to == sqe.from + sqeSize
            && cqe.from == p.cqesOffset + (n % p.cqEntries) * cqeSize && cqe.to == cqe.from + cqeSize
  {
    SlotOfCounter(n, p.sqEntries);
    SlotOfCounter(n, p.cqEntries);
  }

  /** Nothing is mapped for the entries but what they need: the last element of each table
      ends where its mapping does, or, when the rings share one, where the longer of them. */
  lemma LastElementsEndTheMaps(p: SetupParams, sqeSize: nat, cqeSize: nat)
    requires IsRingSize(p.sqEntries) && IsRingSize(p.cqEntries)
    ensures p.sqEntries > 0 && p.cqEntries > 0
    ensures var m := SetupQueue(p, sqeSize, cqeSize);
            var sqe, cqe := SqeRange(p.sqEntries - 1, p, sqeSize).to, CqeRange(p.cqEntries - 1, p, cqeSize).to;
            var index := IndexRange(p.sqEntries - 1, p).to;
            && m.sqeLen == sqe
            && (m.cqLen.None? <==> p.singleMmap)
            && if p.singleMmap then index <= m.sqLen && cqe <= m.sqLen && (m.sqLen == index || m.sqLen == cqe)
               else m.sqLen == index && m.cqLen == Some(cqe)
  {
    RingSizeBounds(p.sqEntries);
    RingSizeBounds(p.cqEntries);
    LastRange(p.sqEntries, sqeSize);
    LastRange(p.cqEntries, cqeSize);
  }

  lemma LastRange(entries: u32, size: nat)
    requires IsRingSize(entries)
    ensures entries > 0 && BitAnd(entries - 1, entries - 1) * size + size == entries * size
  {
    RingSizeBounds(entries);
    AndWithItself(entries - 1);
    hide BitAnd;
    assert (entries - 1) * size + size == entries * size;
  }

  lemma {:induction false} AndWithItself(a: nat)
    ensures BitAnd(a, a) == a
    decreases a
  {
    if a > 0 {
      AndWithItself(a / 2);
    }
  }

  /** Counters less than a ring apart select ranges that do not overlap. */
  lemma EntriesDoNotOverlap(p: SetupParams, sqeSize: nat, a: nat, b: nat)
    requires IsRingSize(p.sqEntries) && a < b < a + p.sqEntries
    ensures p.sqEntries > 0
    ensures var x, y := SqeRange(Residue(a), p, sqeSize), SqeRange(Residue(b), p, sqeSize);
            x.to <= y.from || y.to <= x.from
  {
    SlotOfCounter(a, p.sqEntries);
    SlotOfCounter(b, p.sqEntries);
    SlotsDiffer(a, b, p.sqEntries);
    SlotsDoNotOverlap(a % p.sqEntries, b % p.sqEntries, sqeSize);
  }

  lemma SlotsDoNotOverlap(s: nat, t: nat, size: nat)
    requires s != t
    ensures s * size + size <= t * size || t * size + size <= s * size
  {
    assert (s + 1) * size == s * size + size && (t + 1) * size == t * size + size;
    if s < t {
      ProductMonotone(s + 1, t, size);
    } else {
      ProductMonotone(t + 1, s, size);
    }
  }

  /** The length arithmetic stays far below what `usize` holds. */
  lemma LengthsDoNotOverflow(p: SetupParams, sqeSize: nat, cqeSize: nat)
    requires sqeSize in {64, 128} && cqeSize in {16, 32}
    ensures var m := SetupQueue(p, sqeSize, cqeSize);
            m.sqLen < TWO_POW_64 && m.sqeLen < TWO_POW_64 && m.CqMapped() < TWO_POW_64
  {
  }
}
