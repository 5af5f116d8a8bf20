/** The message packet of include/net/MEISocket.hpp and src/MEISocket.cpp on values: the cursor
    arithmetic of the writer and the reader, and the framed bytes they agree on.
    Words are stored least significant byte first, as on the machines the source supports. */
module PacketSpec {
  import opened MachineTypes

  const SIZE: nat := 2048          // sizeof(PacketData)
  const LIMIT: nat := 2044         // inserts stop here, which keeps room for the trailer
  const HEADER: nat := 12          // sizeof(PacketHeader)
  const TRAILER: uint32 := 0xff88_59ea

  // `PacketParsedHeader`.
  datatype Header = Header(length: uint32, flags: uint16, code: uint16, session: uint32, sequence: uint32)

  const NO_HEADER: Header := Header(0, 0, 0, 0, 0)

  // ---- Words in memory ----

  function Le32(x: uint32): (b: seq<uint8>)
    ensures |b| == 4
  {
    [x % 0x100, x / 0x100 % 0x100, x / 0x1_0000 % 0x100, x / 0x100_0000]
  }

  function FromLe32(b: seq<uint8>): uint32
    requires |b| == 4
  {
    b[0] as int + b[1] as int * 0x100 + b[2] as int * 0x1_0000 + b[3] as int * 0x100_0000
  }

  lemma LeRoundTrip(x: uint32)
    ensures FromLe32(Le32(x)) == x
  {
    var y, z := x / 0x100, x / 0x1_0000;
    assert z == y / 0x100 && x / 0x100_0000 == z / 0x100;
  }

  // The 32 bits `pflags`: code in the top 12, flags in the next 7, length in the low 13.
  function PFlags(code: nat, flags: nat, length: nat): uint32 {
    code % 0x1000 * 0x10_0000 + flags % 0x80 * 0x2000 + length % 0x2000
  }

  function LengthOf(w: uint32): uint32 { w % 0x2000 }
  function FlagsOf(w: uint32): uint16 { w / 0x2000 % 0x80 }
  function CodeOf(w: uint32): uint16 { w / 0x10_0000 % 0x1000 }

  /** The three bit fields are read back as they were put in, cut to their widths. */
  lemma FieldsRoundTrip(code: nat, flags: nat, length: nat)
    ensures var w := PFlags(code, flags, length);
            LengthOf(w) == length % 0x2000 && FlagsOf(w) == flags % 0x80 && CodeOf(w) == code % 0x1000
  {
    var c, f, n := code % 0x1000, flags % 0x80, length % 0x2000;
    var w := PFlags(code, flags, length);
    assert w == 0x2000 * (c * 0x80 + f) + n;
    assert w / 0x2000 == c * 0x80 + f;
    assert w == 0x10_0000 * c + (f * 0x2000 + n);
    assert w / 0x10_0000 == c;
  }

  // The source's replacement of the length field of a stored word.
  function WithLength(w: uint32, length: uint32): uint32
    requires length < 0x2000
  {
    w - w % 0x2000 + length
  }

  lemma WithLengthIs(code: nat, flags: nat, old_: nat, length: uint32)
    requires length < 0x2000
    ensures WithLength(PFlags(code, flags, old_), length) == PFlags(code, flags, length)
  {
    FieldsRoundTrip(code, flags, old_);
  }

  // ---- The packet: buffer and cursors ----

  datatype Buf = Buf(pksz: nat, mark: nat, ch: nat, data: seq<uint8>)

  function Zeros(n: nat): (z: seq<uint8>)
    ensures |z| == n
  {
    seq(n, _ => 0)
  }

  function Max(x: nat, y: nat): nat { if x > y then x else y }

  function Align4(n: nat): (m: nat)
    ensures n <= m < n + 4 && m % 4 == 0
  {
    (n + 3) / 4 * 4
  }

  // What the source demands of a packet before each of its operations.
  ghost predicate Fits(b: Buf) { |b.data| == SIZE && b.ch <= SIZE && b.mark <= SIZE && b.pksz <= SIZE }

  // In addition for `complete`, which writes without looking at the end of the buffer.
  ghost predicate Closable(b: Buf) {
    Fits(b) && (b.ch < b.mark ==> b.ch + 4 <= SIZE && Align4(b.mark) + 4 <= SIZE)
  }

  function Reset(): Buf { Buf(0, 0, 0, Zeros(SIZE)) }

  function Rewind(b: Buf): Buf { b.(mark := 0, ch := 0) }

  function Insert(b: Buf, bytes: seq<uint8>): (r: Buf)
    requires Fits(b)
    ensures Fits(r)
  {
    var nx := b.mark + |bytes|;
    if nx > LIMIT then b
    else Buf(Max(b.pksz, nx), nx, b.ch, Put(b.data, b.mark, bytes))
  }

  // The length `complete` stores: the unsigned 32-bit difference, capped to the field.
  function StoredLength(b: Buf): (n: uint32)
    requires Fits(b)
    ensures n < 0x2000
  {
    var cl := (b.mark - (b.ch + HEADER)) % TWO_TO_THE_32;
    if cl > 0x1fff then 0x1fff else cl
  }

  function Complete(b: Buf): (r: Buf)
    requires Closable(b)
    ensures Fits(r)
  {
    if b.ch >= b.mark then b
    else
      var w := FromLe32(b.data[b.ch..b.ch + 4]);
      var d1 := Put(b.data, b.ch, Le32(WithLength(w, StoredLength(b))));
      var end := Align4(b.mark);
      var d2 := Put(d1, b.mark, Zeros(end - b.mark));
      var d3 := Put(d2, end, Le32(TRAILER));
      Buf(Max(b.pksz, end + 4), end + 4, end + 4, d3)
  }

  function HeaderBytes(h: Header): (s: seq<uint8>)
    ensures |s| == HEADER
  {
    Le32(PFlags(h.code, h.flags, h.length)) + Le32(h.session) + Le32(h.sequence)
  }

  function InsertHeader(b: Buf, h: Header): (r: Buf)
    requires Closable(b)
    ensures Fits(r)
  {
    var b1 := if b.ch < b.mark then Complete(b) else b;
    var nx := b1.mark + HEADER;
    if nx > LIMIT then b1
    else Buf(Max(b1.pksz, nx), nx, b1.ch, Put(b1.data, b1.mark, HeaderBytes(h)))
  }

  function FetchHeader(b: Buf): (r: (Buf, Header))
    requires Fits(b)
    ensures Fits(r.0)
  {
    var nx := b.mark + HEADER;
    if nx > b.pksz then (b, NO_HEADER)
    else
      var w := FromLe32(b.data[b.mark..b.mark + 4]);
      (b.(mark := nx),
       Header(LengthOf(w), FlagsOf(w), CodeOf(w), FromLe32(b.data[b.mark + 4..b.mark + 8]),
              FromLe32(b.data[b.mark + 8..b.mark + 12])))
  }

  // `n` bytes from the cursor; zeros, and no move, when they are not there.
  function Fetch(b: Buf, n: nat): (r: (Buf, seq<uint8>))
    requires Fits(b)
    ensures Fits(r.0) && |r.1| == n
  {
    var nx := b.mark + n;
    if nx > b.pksz then (b, Zeros(n)) else (b.(mark := nx), b.data[b.mark..nx])
  }

  function Fetch32(b: Buf): (r: (Buf, uint32))
    requires Fits(b)
    ensures Fits(r.0)
  {
    var (b', bytes) := Fetch(b, 4);
    (b', FromLe32(bytes))
  }

  // ---- What every sequence of writer operations keeps ----

  datatype WriteOp = PutHeader(h: Header) | PutValue(bytes: seq<uint8>) | Finish

  ghost predicate WriterInv(b: Buf) {
    && |b.data| == SIZE
    && b.ch % 4 == 0 && b.ch <= b.mark <= b.pksz <= SIZE
    && (b.mark <= LIMIT || b.ch == b.mark)
  }

  /** The trailer of `complete` always fits, because inserts stop at 2044. */
  lemma WriterClosable(b: Buf)
    requires WriterInv(b)
    ensures Closable(b)
  {}

  function Write(b: Buf, op: WriteOp): Buf
    requires WriterInv(b)
  {
    WriterClosable(b);
    match op
    case PutHeader(h) => InsertHeader(b, h)
    case PutValue(bytes) => Insert(b, bytes)
    case Finish => Complete(b)
  }

  lemma WriteKeeps(b: Buf, op: WriteOp)
    requires WriterInv(b)
    ensures WriterInv(Write(b, op))
    ensures op.PutValue? && b.mark + |op.bytes| > LIMIT ==> Write(b, op) == b
  {
    hide Put, Le32, FromLe32, WithLength, HeaderBytes, StoredLength;
    WriterClosable(b);
    CompleteKeeps(b);
    match op
    case PutHeader(h) => hide Complete;
    case PutValue(bytes) =>
    case Finish =>
  }

  lemma CompleteKeeps(b: Buf)
    requires WriterInv(b) && Closable(b)
    ensures WriterInv(Complete(b)) && Complete(b).ch == Complete(b).mark
    ensures b.ch < b.mark ==> Complete(b).mark == Align4(b.mark) + 4
  {
    hide Put, Le32, FromLe32, WithLength, StoredLength;
    assert (Align4(b.mark) + 4) % 4 == 0;
  }

  function Writes(b: Buf, ops: seq<WriteOp>): (r: Buf)
    requires WriterInv(b)
    ensures WriterInv(r)
  {
    if |ops| == 0 then b
    else
      var b' := Writes(b, ops[..|ops| - 1]);
      WriteKeeps(b', ops[|ops| - 1]);
      Write(b', ops[|ops| - 1])
  }

  /** `complete` stores the number of bytes behind the first twelve since the last trailer, whatever
      these are; with fewer than twelve the unsigned difference wraps and the field is all ones. */
  lemma StoredLengthIs(b: Buf)
    requires WriterInv(b) && b.ch < b.mark
    ensures b.ch + HEADER <= b.mark ==> StoredLength(b) == b.mark - (b.ch + HEADER)
    ensures b.mark < b.ch + HEADER ==> StoredLength(b) == 0x1fff
  {}

  /** The whole buffer can be used: an insert up to byte 2044 is accepted, one byte more is not, and
      the trailer then ends at byte 2048. */
  lemma FullPacket()
    ensures SIZE == 2048
    ensures var b := Insert(Reset(), Zeros(2044));
            b.mark == 2044 && Insert(b, [0]) == b && Closable(b) && Complete(b).pksz == 2048
    ensures Insert(Reset(), Zeros(2045)) == Reset()
  {
    hide Put, Le32, FromLe32, WithLength, StoredLength;
  }

  /** What is not there reads as zeros and leaves the cursor where it is. */
  lemma FetchPastEnd(b: Buf, n: nat)
    requires Fits(b)
    ensures b.mark + n > b.pksz ==> Fetch(b, n).0 == b && forall k :: 0 <= k < n ==> Fetch(b, n).1[k] == 0
    ensures b.mark + 4 > b.pksz ==> Fetch32(b) == (b, 0)
    ensures b.mark + HEADER > b.pksz ==> FetchHeader(b) == (b, Header(0, 0, 0, 0, 0))
  {}

  /** A packet that was rewound is read from its first byte, and written as from the start: a header
      that is put in and completed fills in its length again. */
  lemma RewoundPacket(b: Buf, h: Header, n: nat)
    requires Fits(b)
    ensures n <= b.pksz ==> Fetch(Rewind(b), n).1 == b.data[..n]
    ensures var c := InsertHeader(Rewind(b), h);
            && Closable(c) && c.data[..HEADER] == HeaderBytes(h)
            && Complete(c).data[..4] == Le32(PFlags(h.code, h.flags, 0)) && Complete(c).mark == 16
  {
    hide Le32, PFlags, FromLe32, WithLength;
    var c := InsertHeader(Rewind(b), h);
    assert c.data[0..4] == Le32(PFlags(h.code, h.flags, h.length));
    LeRoundTrip(PFlags(h.code, h.flags, h.length));
    WithLengthIs(h.code, h.flags, h.length, 0);
    assert StoredLength(c) == 0;
  }

  /** Writing over a rewound packet replaces the bytes that are written and no others: what lies behind
      them is still there and still belongs to the packet. */
  lemma Overwritten(b: Buf, bytes: seq<uint8>)
    requires Fits(b) && |bytes| <= LIMIT && |bytes| <= b.pksz
    ensures Fetch(Rewind(Insert(Rewind(b), bytes)), b.pksz).1 == bytes + b.data[|bytes|..b.pksz]
  {}

  /** So does a header that is written over it and completed at once. */
  lemma HeaderOverwritten(b: Buf, h: Header)
    requires Fits(b) && HEADER + 4 <= b.pksz
    ensures var e := Complete(InsertHeader(Rewind(b), h)); e.pksz == b.pksz && e.data[e.mark..] == b.data[HEADER + 4..]
  {
    hide Le32, PFlags, FromLe32, WithLength, Put;
    var c := InsertHeader(Rewind(b), h);
    PutTail(b.data, 0, HeaderBytes(h), 16);
    var d := Put(c.data, 0, Le32(WithLength(FromLe32(c.data[0..4]), StoredLength(c))));
    PutTail(c.data, 0, Le32(WithLength(FromLe32(c.data[0..4]), StoredLength(c))), 16);
    PutTail(d, 12, Zeros(0), 16);
    PutTail(Put(d, 12, Zeros(0)), 12, Le32(TRAILER), 16);
  }

  lemma PutTail<T>(s: seq<T>, at: nat, part: seq<T>, n: nat)
    requires at + |part| <= n <= |s|
    ensures Put(s, at, part)[n..] == s[n..]
  {}
}
