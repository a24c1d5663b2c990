/** The result buffer of a multishot `RecvMsg`: a 16-byte header, a name field and a control
    field of the lengths the request reserved, and the payload. */
module RecvMsg {
  import opened Words
  import opened Wrappers

  type usize = x: int | 0 <= x < TWO_POW_64

  const DATA_START := 16
  const MSG_CTRUNC: bv32 := 8
  const MSG_TRUNC: bv32 := 32

  datatype Header = Header(nameLen: u32, controlLen: u32, payloadLen: u32, flags: u32)

  datatype RecvMsgOut = RecvMsgOut(header: Header, reservedName: nat, name: seq<byte>, control: seq<byte>,
                                   payload: seq<byte>)
  {
    predicate IsNameDataTruncated() {
      header.nameLen > reservedName
    }

    predicate IsControlDataTruncated() {
      header.flags as bv32 & MSG_CTRUNC != 0
    }

    predicate IsPayloadTruncated() {
      header.flags as bv32 & MSG_TRUNC != 0
    }
  }

  datatype ParseError = ParseError

  function CheckedAdd(a: usize, b: usize): Option<usize> {
    if a + b < TWO_POW_64 then Some(a + b) else None
  }

  /** The byte order of the host; the kernel writes the header in it. */
  datatype ByteOrder = LittleEndian | BigEndian

  /** A 32-bit field of the buffer. */
  function Word(order: ByteOrder, buffer: seq<byte>, at: nat): u32
    requires at + 4 <= |buffer|
  {
    var b := buffer[at..at + 4];
    match order
    case LittleEndian => Value(b[0], b[1], b[2], b[3])
    case BigEndian => Value(b[3], b[2], b[1], b[0])
  }

  function Value(b0: byte, b1: byte, b2: byte, b3: byte): u32 {
    (b0 as int) + 0x100 * b1 + 0x1_0000 * b2 + 0x100_0000 * b3
  }

  function ReadHeader(order: ByteOrder, buffer: seq<byte>): Header
    requires |buffer| >= DATA_START
  {
    Header(Word(order, buffer, 0), Word(order, buffer, 4), Word(order, buffer, 8), Word(order, buffer, 12))
  }

  /** Length of header and reserved fields, `None` when it overflows. */
  function HeaderLen(nameLen: u32, controlLen: usize): Option<usize> {
    match CheckedAdd(DATA_START, nameLen)
    case None => None
    case Some(acc) => CheckedAdd(acc, controlLen)
  }

  function Parse(order: ByteOrder, buffer: seq<byte>, nameLen: u32, controlLen: usize): Result<RecvMsgOut, ParseError> {
    var headerLen := HeaderLen(nameLen, controlLen);
    if headerLen.None? || |buffer| < headerLen.value then Failure(ParseError)
    else
      var header := ReadHeader(order, buffer);
      var nameEnd := DATA_START + Min(header.nameLen, nameLen);
      var controlStart := DATA_START + nameLen;
      var controlEnd := controlStart + Min(header.controlLen, controlLen);
      var payloadStart := controlStart + controlLen;
      var payloadEnd := payloadStart + Min(header.payloadLen, |buffer| - payloadStart);
      Success(RecvMsgOut(header, nameLen, buffer[DATA_START..nameEnd], buffer[controlStart..controlEnd],
                         buffer[payloadStart..payloadEnd]))
  }

  // ---------------------------------------------------------------- any buffer

  /** Parsing is refused exactly when the reserved lengths overflow or do not fit. */
  lemma ParseFailsIffTooShort(order: ByteOrder, buffer: seq<byte>, nameLen: u32, controlLen: usize)
    ensures Parse(order, buffer, nameLen, controlLen).Failure? <==>
            DATA_START + nameLen + controlLen >= TWO_POW_64 || DATA_START + nameLen + controlLen > |buffer|
  {
  }

  /** The buffer an accepted result came from, cut into consecutive parts: header, name and
      padding, control and padding, payload and rest. Every slice starts where its field
      does and no two overlap; each is cut only by the reserved or available length. */
  lemma ParsedSlicesPartitionBuffer(order: ByteOrder, buffer: seq<byte>, nameLen: u32, controlLen: usize)
    requires Parse(order, buffer, nameLen, controlLen).Success?
    ensures var out := Parse(order, buffer, nameLen, controlLen).value;
            && |out.name| == Min(out.header.nameLen, nameLen)
            && |out.control| == Min(out.header.controlLen, controlLen)
            && |out.payload| == Min(out.header.payloadLen, |buffer| - DATA_START - nameLen - controlLen)
            && exists namePad: seq<byte>, controlPad: seq<byte>, rest: seq<byte> ::
                 && |out.name| + |namePad| == nameLen && |out.control| + |controlPad| == controlLen
                 && buffer == Parts(buffer[..DATA_START], out.name, namePad, out.control, controlPad, out.payload, rest)
  {
    ParsedSlices(order, buffer, nameLen, controlLen);
    hide Parse, Parts;
    var out := Parse(order, buffer, nameLen, controlLen).value;
    var control, payload := DATA_START + nameLen, DATA_START + nameLen + controlLen;
    PartsOfCuts(buffer, DATA_START, |out.name|, control, |out.control|, payload, |out.payload|);
    var namePad := buffer[DATA_START + |out.name|..control];
    var controlPad := buffer[control + |out.control|..payload];
    var rest := buffer[payload + |out.payload|..|buffer|];
    assert |out.name| + |namePad| == nameLen && |out.control| + |controlPad| == controlLen;
  }

  /** Where each slice lies and how long it is. */
  lemma ParsedSlices(order: ByteOrder, buffer: seq<byte>, nameLen: u32, controlLen: usize)
    requires Parse(order, buffer, nameLen, controlLen).Success?
    ensures var out := Parse(order, buffer, nameLen, controlLen).value;
            var control, payload := DATA_START + nameLen, DATA_START + nameLen + controlLen;
            && payload <= |buffer|
            && |out.name| == Min(out.header.nameLen, nameLen)
            && |out.control| == Min(out.header.controlLen, controlLen)
            && |out.payload| == Min(out.header.payloadLen, |buffer| - payload)
            && out.name == buffer[DATA_START..DATA_START + |out.name|]
            && out.control == buffer[control..control + |out.control|]
            && out.payload == buffer[payload..payload + |out.payload|]
  {
    hide ReadHeader;
  }

  lemma PartsOfCuts(buffer: seq<byte>, a: nat, shownA: nat, b: nat, shownB: nat, c: nat, shownC: nat)
    requires a + shownA <= b && b + shownB <= c && c + shownC <= |buffer|
    ensures buffer == Parts(buffer[..a], buffer[a..a + shownA], buffer[a + shownA..b], buffer[b..b + shownB],
                            buffer[b + shownB..c], buffer[c..c + shownC], buffer[c + shownC..|buffer|])
  {
    CutAt(buffer, a, shownA, b);
    CutAt(buffer, b, shownB, c);
    CutAt(buffer, c, shownC, |buffer|);
    CutInFour(buffer, a, b, c);
  }

  lemma CutInFour(buffer: seq<byte>, a: nat, b: nat, c: nat)
    requires a <= b <= c <= |buffer|
    ensures buffer == buffer[..a] + buffer[a..b] + buffer[b..c] + buffer[c..|buffer|]
  {
  }

  /** A field is what it shows and the padding behind. */
  lemma CutAt(buffer: seq<byte>, from: nat, shown: nat, to: nat)
    requires from + shown <= to <= |buffer|
    ensures buffer[from..from + shown] + buffer[from + shown..to] == buffer[from..to]
  {
  }

  function Parts(header: seq<byte>, name: seq<byte>, namePad: seq<byte>, control: seq<byte>, controlPad: seq<byte>,
                 payload: seq<byte>, rest: seq<byte>): seq<byte>
  {
    header + (name + namePad) + (control + controlPad) + (payload + rest)
  }

  /** The name is reported truncated exactly when fewer bytes are shown than arrived. */
  lemma NameTruncationIsExact(order: ByteOrder, buffer: seq<byte>, nameLen: u32, controlLen: usize)
    requires Parse(order, buffer, nameLen, controlLen).Success?
    ensures var out := Parse(order, buffer, nameLen, controlLen).value;
            out.IsNameDataTruncated() <==> |out.name| < out.header.nameLen
  {
  }

  // ---------------------------------------------------------------- round trip

  function Bytes(order: ByteOrder, w: u32): (b: seq<byte>)
    ensures |b| == 4
  {
    match order
    case LittleEndian => [w % 0x100, w / 0x100 % 0x100, w / 0x1_0000 % 0x100, w / 0x100_0000]
    case BigEndian => [w / 0x100_0000, w / 0x1_0000 % 0x100, w / 0x100 % 0x100, w % 0x100]
  }

  function WriteHeader(order: ByteOrder, h: Header): (b: seq<byte>)
    ensures |b| == DATA_START
  {
    Bytes(order, h.nameLen) + Bytes(order, h.controlLen) + Bytes(order, h.payloadLen) + Bytes(order, h.flags)
  }

  lemma Digits(w: u32)
    ensures Value(w % 0x100, w / 0x100 % 0x100, w / 0x1_0000 % 0x100, w / 0x100_0000) == w
  {
    assert w / 0x100_0000 == w / 0x1_0000 / 0x100 && w / 0x1_0000 == w / 0x100 / 0x100;
  }

  lemma WordOfBytes(order: ByteOrder, w: u32, buffer: seq<byte>, at: nat)
    requires at + 4 <= |buffer| && buffer[at..at + 4] == Bytes(order, w)
    ensures Word(order, buffer, at) == w
  {
    Digits(w);
    var b := buffer[at..at + 4];
    hide Value;
  }

  lemma HeaderRoundTrip(order: ByteOrder, h: Header, rest: seq<byte>)
    ensures ReadHeader(order, WriteHeader(order, h) + rest) == h
  {
    var b := WriteHeader(order, h) + rest;
    assert b[0..4] == Bytes(order, h.nameLen);
    assert b[4..8] == Bytes(order, h.controlLen);
    assert b[8..12] == Bytes(order, h.payloadLen);
    assert b[12..16] == Bytes(order, h.flags);
    WordOfBytes(order, h.nameLen, b, 0);
    WordOfBytes(order, h.controlLen, b, 4);
    WordOfBytes(order, h.payloadLen, b, 8);
    WordOfBytes(order, h.flags, b, 12);
  }

  /** The order of the header's fields and of the bytes in each, on sixteen given bytes. */
  lemma HeaderFieldsInOrder(buffer: seq<byte>)
    requires buffer == [1, 2, 3, 4, 5, 6, 7, 8, 9, 10, 11, 12, 13, 14, 15, 16]
    ensures ReadHeader(LittleEndian, buffer) == Header(0x04030201, 0x08070605, 0x0C0B0A09, 0x100F0E0D)
    ensures ReadHeader(BigEndian, buffer) == Header(0x01020304, 0x05060708, 0x090A0B0C, 0x0D0E0F10)
  {
    assert buffer[0..4] == [1, 2, 3, 4] && buffer[4..8] == [5, 6, 7, 8];
    assert buffer[8..12] == [9, 10, 11, 12] && buffer[12..16] == [13, 14, 15, 16];
  }

  /** `data` in a field of `size` bytes: cut to it, or padded with zeroes. */
  function Field(data: seq<byte>, size: nat): (f: seq<byte>)
    ensures |f| == size
  {
    data[..Min(|data|, size)] + seq(size - Min(|data|, size), _ => 0)
  }

  /** How the kernel lays a message out: the header with the true lengths, name and control
      in their reserved fields, the payload in the `room` bytes that are left. */
  function Layout(order: ByteOrder, name: seq<byte>, control: seq<byte>, payload: seq<byte>, flags: u32,
                  nameLen: u32, controlLen: usize, room: nat): seq<byte>
    requires |name| < TWO_POW_32 && |control| < TWO_POW_32 && |payload| < TWO_POW_32
  {
    WriteHeader(order, Header(|name|, |control|, |payload|, flags))
    + Field(name, nameLen) + Field(control, controlLen) + Field(payload, room)
  }

  lemma FieldPrefix(data: seq<byte>, size: nat)
    ensures Field(data, size)[..Min(|data|, size)] == data[..Min(|data|, size)]
  {
  }

  lemma SliceOfParts(a: seq<byte>, b: seq<byte>, c: seq<byte>, n: nat)
    requires n <= |b|
    ensures (a + b + c)[|a|..|a| + n] == b[..n]
  {
  }

  /** Parsing four consecutive fields of the reserved lengths. */
  lemma ParseOfFields(order: ByteOrder, h: Header, n: seq<byte>, c: seq<byte>, p: seq<byte>, nameLen: u32,
                      controlLen: usize)
    requires |n| == nameLen && |c| == controlLen && DATA_START + nameLen + controlLen < TWO_POW_64
    ensures Parse(order, WriteHeader(order, h) + n + c + p, nameLen, controlLen) ==
            Success(RecvMsgOut(h, nameLen, n[..Min(h.nameLen, nameLen)], c[..Min(h.controlLen, controlLen)],
                               p[..Min(h.payloadLen, |p|)]))
  {
    hide ReadHeader, WriteHeader;
    var w := WriteHeader(order, h);
    var b := w + n + c + p;
    assert b == w + (n + c + p);
    HeaderRoundTrip(order, h, n + c + p);
    assert b == w + n + (c + p);
    SliceOfParts(w, n, c + p, Min(h.nameLen, nameLen));
    SliceOfParts(w + n, c, p, Min(h.controlLen, controlLen));
    assert b == (w + n + c) + p + [];
    SliceOfParts(w + n + c, p, [], Min(h.payloadLen, |p|));
  }

  /** Parsing what was laid out, with the same reserved lengths, gives back the true lengths
      and flags, and each part cut to its reserved or available size and no further. */
  lemma LayoutRoundTrip(order: ByteOrder, name: seq<byte>, control: seq<byte>, payload: seq<byte>, flags: u32,
                        nameLen: u32, controlLen: usize, room: nat)
    requires |name| < TWO_POW_32 && |control| < TWO_POW_32 && |payload| < TWO_POW_32
    requires DATA_START + nameLen + controlLen < TWO_POW_64
    ensures Parse(order, Layout(order, name, control, payload, flags, nameLen, controlLen, room),
                  nameLen, controlLen) ==
            Success(RecvMsgOut(
              Header(|name|, |control|, |payload|, flags), nameLen,
              name[..Min(|name|, nameLen)], control[..Min(|control|, controlLen)], payload[..Min(|payload|, room)]))
  {
    var h := Header(|name|, |control|, |payload|, flags);
    ParseOfFields(order, h, Field(name, nameLen), Field(control, controlLen), Field(payload, room), nameLen,
                  controlLen);
    FieldPrefix(name, nameLen);
    FieldPrefix(control, controlLen);
    FieldPrefix(payload, room);
  }
  /** Flags as the kernel sets them: CTRUNC and TRUNC exactly when it had to cut. */
  predicate FlagsTell(flags: u32, control: seq<byte>, payload: seq<byte>, controlLen: usize, room: nat) {
    && (flags as bv32 & MSG_CTRUNC != 0 <==> |control| > controlLen)
    && (flags as bv32 & MSG_TRUNC != 0 <==> |payload| > room)
  }

  /** Then the three accessors tell exactly which parts the caller does not see in full. */
  lemma TruncationIsReported(order: ByteOrder, name: seq<byte>, control: seq<byte>, payload: seq<byte>, flags: u32,
                             nameLen: u32, controlLen: usize, room: nat)
    requires |name| < TWO_POW_32 && |control| < TWO_POW_32 && |payload| < TWO_POW_32
    requires DATA_START + nameLen + controlLen < TWO_POW_64 && FlagsTell(flags, control, payload, controlLen, room)
    ensures var parsed := Parse(order, Layout(order, name, control, payload, flags, nameLen, controlLen, room),
                                nameLen, controlLen);
            && parsed.Success?
            && var out := parsed.value;
               && (out.IsNameDataTruncated() <==> out.name != name)
               && (out.IsControlDataTruncated() <==> out.control != control)
               && (out.IsPayloadTruncated() <==> out.payload != payload)
  {
    LayoutRoundTrip(order, name, control, payload, flags, nameLen, controlLen, room);
    hide Parse, Layout;
    CutIffLonger(name, nameLen);
    CutIffLonger(control, controlLen);
    CutIffLonger(payload, room);
  }

  lemma CutIffLonger(data: seq<byte>, size: nat)
    ensures data[..Min(|data|, size)] == data <==> |data| <= size
  {
  }
}
