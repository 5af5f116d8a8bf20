/** What a batch of messages looks like on the wire: an account of the writer that never mentions
    cursors or the buffer, the reader that walks it, and the proofs that the packet writer of
    `PacketSpec` follows the account and that walking and fetching give back what was put in. */
module Frames {
  import opened MachineTypes
  import opened PacketSpec
  import opened Division

  // A message as the application sees it: its header and the bytes of its values.
  datatype Message = Message(h: Header, payload: seq<uint8>)

  // Header, payload, zeros up to a multiple of four, trailer; the length field is the payload's.
  function Frame(m: Message): (f: seq<uint8>)
    ensures |f| == Align4(HEADER + |m.payload|) + 4 && |f| % 4 == 0
  {
    var open := HeaderBytes(m.h.(length := |m.payload| % 0x2000)) + m.payload;
    SumAligned(Align4(|open|), 4);
    open + Zeros(Align4(|open|) - |open|) + Le32(TRAILER)
  }

  lemma SumAligned(m: nat, n: nat)
    requires m % 4 == 0 && n % 4 == 0
    ensures (m + n) % 4 == 0
  {
    assert m + n == 4 * (m / 4 + n / 4);
  }

  // ---- The account of the writer: finished blocks and the open one, as the bytes put in ----

  datatype Doc = Doc(closed: seq<seq<uint8>>, open: seq<uint8>)

  // The length that `complete` stores for a block: what follows its first twelve bytes.
  function BlockLength(o: seq<uint8>): (n: uint32)
    ensures n < 0x2000
  {
    if |o| < HEADER || |o| - HEADER > 0x1fff then 0x1fff else |o| - HEADER
  }

  // A block with the length field of its first word filled in; a word that is not complete counts
  // as followed by zeros, of which nothing is kept.
  function Patched(o: seq<uint8>): (p: seq<uint8>)
    ensures |p| == |o|
  {
    var long := o + Zeros(4);
    (Le32(WithLength(FromLe32(long[..4]), BlockLength(o))) + long[4..])[..|o|]
  }

  // The block, zeros up to a multiple of four, trailer.
  function Block(o: seq<uint8>): (f: seq<uint8>)
    ensures |f| == Align4(|o|) + 4 && |f| % 4 == 0
  {
    SumAligned(Align4(|o|), 4);
    Patched(o) + Zeros(Align4(|o|) - |o|) + Le32(TRAILER)
  }

  function Wire(blocks: seq<seq<uint8>>): (w: seq<uint8>)
    ensures |w| % 4 == 0
  {
    if |blocks| == 0 then []
    else
      SumAligned(|Wire(blocks[..|blocks| - 1])|, |Block(blocks[|blocks| - 1])|);
      Wire(blocks[..|blocks| - 1]) + Block(blocks[|blocks| - 1])
  }

  function DocSize(d: Doc): nat { |Wire(d.closed)| + |d.open| }

  function Close(d: Doc): Doc { if d.open == [] then d else Doc(d.closed + [d.open], []) }

  function DocWrite(d: Doc, op: WriteOp): Doc {
    match op
    case PutHeader(h) =>
      var c := Close(d);
      if DocSize(c) + HEADER > LIMIT then c else Doc(c.closed, HeaderBytes(h))
    case PutValue(bytes) => if DocSize(d) + |bytes| > LIMIT then d else Doc(d.closed, d.open + bytes)
    case Finish => Close(d)
  }

  function DocWrites(ops: seq<WriteOp>): Doc {
    if |ops| == 0 then Doc([], []) else DocWrite(DocWrites(ops[..|ops| - 1]), ops[|ops| - 1])
  }

  // ---- The buffer follows the account ----

  ghost predicate Represents(b: Buf, d: Doc) {
    && WriterInv(b)
    && b.pksz == b.mark == DocSize(d)
    && b.ch == |Wire(d.closed)|
    && b.data == Wire(d.closed) + d.open + Zeros(SIZE - b.mark)
  }

  lemma InsertRepresents(b: Buf, d: Doc, bytes: seq<uint8>)
    requires WriterInv(b) && Represents(b, d)
    ensures Represents(Write(b, PutValue(bytes)), DocWrite(d, PutValue(bytes)))
  {
    hide Block, Zeros;
    WriteKeeps(b, PutValue(bytes));
    if b.mark + |bytes| <= LIMIT {
      PutInZeros(Wire(d.closed) + d.open, SIZE - b.mark, bytes);
      assert Wire(d.closed) + (d.open + bytes) == (Wire(d.closed) + d.open) + bytes;
    }
  }

  // A store at the start of the zeros.
  lemma PutInZeros(front: seq<uint8>, n: nat, bytes: seq<uint8>)
    requires |bytes| <= n
    ensures Put(front + Zeros(n), |front|, bytes) == front + bytes + Zeros(n - |bytes|)
  {}

  lemma HeaderRepresents(b: Buf, d: Doc, h: Header)
    requires WriterInv(b) && Represents(b, d)
    ensures Represents(Write(b, PutHeader(h)), DocWrite(d, PutHeader(h)))
  {
    hide Complete, Block, Zeros, HeaderBytes, Wire;
    WriteKeeps(b, PutHeader(h));
    WriteKeeps(b, Finish);
    WriterClosable(b);
    CompleteRepresents(b, d);
    var b1, c := if b.ch < b.mark then Complete(b) else b, Close(d);
    assert Represents(b1, c);
    if b1.mark + HEADER <= LIMIT {
      assert Wire(c.closed) + [] == Wire(c.closed);
      PutInZeros(Wire(c.closed), SIZE - b1.mark, HeaderBytes(h));
    }
  }

  // The store of the length, whether or not the first word of the block is complete.
  lemma LengthPatched(front: seq<uint8>, o: seq<uint8>, n: nat)
    requires |o| >= 1 && |o| + n >= 4
    ensures var data := front + o + Zeros(n);
            var word := data[|front|..|front| + 4];
            && word == (o + Zeros(4))[..4]
            && Put(data, |front|, Le32(WithLength(FromLe32(word), BlockLength(o))))[..|front| + |o|]
                == front + Patched(o)
  {
    hide FromLe32, WithLength;
    var data := front + o + Zeros(n);
    var word := data[|front|..|front| + 4];
    assert word == (o + Zeros(4))[..4];
    var w := Le32(WithLength(FromLe32(word), BlockLength(o)));
    assert data[|front| + 4..] == (o + Zeros(n))[4..];
    assert Put(data, |front|, w) == front + (w + (o + Zeros(n))[4..]);
    assert (w + (o + Zeros(n))[4..])[..|o|] == (w + (o + Zeros(4))[4..])[..|o|];
  }

  lemma CompleteRepresents(b: Buf, d: Doc)
    requires WriterInv(b) && Represents(b, d)
    ensures Represents(Write(b, Finish), Close(d))
  {
    hide Block, Align4, Zeros, Wire, Complete;
    WriteKeeps(b, Finish);
    if d.open == [] {
      CompleteNothing(b);
    } else {
      var o := d.open;
      assert (d.closed + [o])[..|d.closed|] == d.closed;
      WireSnoc(d.closed, o);
      CompleteBytes(b, Wire(d.closed), o);
    }
  }

  lemma WireSnoc(blocks: seq<seq<uint8>>, o: seq<uint8>)
    ensures Wire(blocks + [o]) == Wire(blocks) + Block(o)
  {
    hide Block;
    assert (blocks + [o])[..|blocks|] == blocks;
  }

  lemma CompleteNothing(b: Buf)
    requires WriterInv(b) && b.ch == b.mark
    ensures Write(b, Finish) == b
  {}

  lemma CompleteBytes(b: Buf, front: seq<uint8>, o: seq<uint8>)
    requires WriterInv(b) && |o| >= 1 && b.ch == |front| && b.mark == b.pksz == |front| + |o|
    requires b.data == front + o + Zeros(SIZE - b.mark)
    ensures var r := Write(b, Finish);
            && r.mark == r.ch == r.pksz == |front| + |Block(o)|
            && r.data == front + Block(o) + [] + Zeros(SIZE - r.mark)
  {
    hide Le32, WithLength, FromLe32, Block, Align4, Zeros, Patched, Complete, Put;
    CompleteIs(b);
    AlignShift(b.ch, |o|);
    BlockIs(o);
    var n := SIZE - b.mark;
    var end := Align4(b.mark);
    AlignAtLeast(|o|);
    LengthPatched(front, o, n);
    BlockLengthIs(b, o);
    var word := b.data[b.ch..b.ch + 4];
    var d1 := Put(b.data, b.ch, Le32(WithLength(FromLe32(word), BlockLength(o))));
    PatchedTail(b.data, d1, b.ch, Le32(WithLength(FromLe32(word), BlockLength(o))), b.mark, end);
    PaddedAndEnded(d1, front + Patched(o), end, n);
    Behind(front, Patched(o), Zeros(end - b.mark), Le32(TRAILER));
    assert b.data[b.mark..] == Zeros(n);
    assert front + Block(o) + [] == front + Block(o);
  }

  // The three stores of `complete`.
  lemma CompleteIs(b: Buf)
    requires WriterInv(b) && b.ch < b.mark == b.pksz
    ensures var word, end := b.data[b.ch..b.ch + 4], Align4(b.mark);
            && end + 4 <= SIZE
            && Write(b, Finish) == Buf(end + 4, end + 4, end + 4,
                 Put(Put(Put(b.data, b.ch, Le32(WithLength(FromLe32(word), StoredLength(b)))),
                         b.mark, Zeros(end - b.mark)),
                     end, Le32(TRAILER)))
  {
    hide Le32, WithLength, FromLe32, Zeros, StoredLength, Put;
    WriterClosable(b);
  }

  lemma BlockIs(o: seq<uint8>)
    ensures Block(o) == Patched(o) + Zeros(Align4(|o|) - |o|) + Le32(TRAILER)
  {
    hide Patched, Zeros, Le32, Align4;
  }

  lemma AlignAtLeast(n: nat)
    requires n >= 1
    ensures Align4(n) >= 4
  {}

  lemma BlockLengthIs(b: Buf, o: seq<uint8>)
    requires WriterInv(b) && |o| == b.mark - b.ch >= 1
    ensures StoredLength(b) == BlockLength(o)
  {}

  // Behind the end of the padding the store of the length changes nothing.
  lemma PatchedTail(data: seq<uint8>, d1: seq<uint8>, ch: nat, word: seq<uint8>, mark: nat, end: nat)
    requires |word| == 4 && ch + 4 <= end <= |data| == SIZE && ch < mark <= end && d1 == Put(data, ch, word)
    requires data[mark..] == Zeros(SIZE - mark)
    ensures d1[end..] == Zeros(SIZE - end)
  {
    assert d1[end..] == data[end..] == data[mark..][end - mark..];
  }

  // The zeros and the trailer of `complete`.
  lemma PaddedAndEnded(d1: seq<uint8>, front: seq<uint8>, end: nat, n: nat)
    requires |front| <= end && end + 4 <= |d1| == SIZE && d1[..|front|] == front && d1[end..] == Zeros(SIZE - end)
    ensures var d2 := Put(d1, |front|, Zeros(end - |front|));
            Put(d2, end, Le32(TRAILER)) == front + Zeros(end - |front|) + Le32(TRAILER) + Zeros(SIZE - end - 4)
  {
    hide Le32;
    var d2 := Put(d1, |front|, Zeros(end - |front|));
    assert d2 == (front + Zeros(end - |front|)) + Zeros(SIZE - end);
    PutInZeros(front + Zeros(end - |front|), SIZE - end, Le32(TRAILER));
  }

  lemma Behind(front: seq<uint8>, x: seq<uint8>, y: seq<uint8>, z: seq<uint8>)
    ensures front + x + y + z == front + (x + y + z)
  {}

  lemma AlignShift(base: nat, n: nat)
    requires base % 4 == 0
    ensures Align4(base + n) == base + Align4(n)
  {}

  /** Every sequence of writer operations, rejected ones and values without a header included,
      leaves in the buffer the finished blocks, framed, followed by the open one and zeros. */
  lemma {:induction false} WritesRepresent(ops: seq<WriteOp>)
    ensures Represents(Writes(Reset(), ops), DocWrites(ops))
  {
    if |ops| == 0 {
      assert Reset().data == [] + [] + Zeros(SIZE);
    } else {
      var before, last := ops[..|ops| - 1], ops[|ops| - 1];
      WritesRepresent(before);
      var b, d := Writes(Reset(), before), DocWrites(before);
      match last
      case PutHeader(h) => HeaderRepresents(b, d, h);
      case PutValue(bytes) => InsertRepresents(b, d, bytes);
      case Finish => CompleteRepresents(b, d);
    }
  }

  // ---- Reading back ----

  function HeaderAt(w: seq<uint8>): Header
    requires |w| >= HEADER
  {
    var p := FromLe32(w[..4]);
    Header(LengthOf(p), FlagsOf(p), CodeOf(p), FromLe32(w[4..8]), FromLe32(w[8..12]))
  }

  // From frame to frame by the length field.
  function Walk(w: seq<uint8>): Option<seq<Message>> {
    if |w| == 0 then Some([])
    else if |w| < HEADER then None
    else
      var h := HeaderAt(w);
      var end := Align4(HEADER + h.length) + 4;
      if |w| < end || FromLe32(w[end - 4..end]) != TRAILER then None
      else
        var rest := Walk(w[end..]);
        if rest.None? then None else Some([Message(h, w[HEADER..HEADER + h.length])] + rest.value)
  }

  // A block that holds at least a whole header.
  predicate IsLong(o: seq<uint8>) { HEADER <= |o| <= HEADER + 0x1fff }

  ghost predicate AllLong(blocks: seq<seq<uint8>>) { forall k :: 0 <= k < |blocks| ==> IsLong(blocks[k]) }

  // A block read as a message: twelve bytes of header, with the length filled in, and the rest.
  function BlockMessage(o: seq<uint8>): Message
    requires |o| >= HEADER
  {
    Message(HeaderAt(o).(length := BlockLength(o)), o[HEADER..])
  }

  function Read(blocks: seq<seq<uint8>>): seq<Message>
    requires AllLong(blocks)
  {
    if |blocks| == 0 then [] else [BlockMessage(blocks[0])] + Read(blocks[1..])
  }

  lemma {:induction false} WireCons(o: seq<uint8>, blocks: seq<seq<uint8>>)
    ensures Wire([o] + blocks) == Block(o) + Wire(blocks)
  {
    hide Block;
    if |blocks| == 0 {
      assert ([o] + blocks)[..0] == [];
    } else {
      var front := blocks[..|blocks| - 1];
      assert ([o] + blocks)[..|blocks|] == [o] + front;
      WireCons(o, front);
      assert (Block(o) + Wire(front)) + Block(blocks[|blocks| - 1])
          == Block(o) + (Wire(front) + Block(blocks[|blocks| - 1]));
    }
  }

  // Filling the length field in leaves code and flags alone.
  lemma LengthFilled(w: uint32, n: uint32)
    requires n < 0x2000
    ensures var v := WithLength(w, n); LengthOf(v) == n && FlagsOf(v) == FlagsOf(w) && CodeOf(v) == CodeOf(w)
  {
    var v, q := WithLength(w, n), w / 0x2000;
    assert v == 0x2000 * q + n && v / 0x2000 == q;
    assert w / 0x10_0000 == q / 0x80 && v / 0x10_0000 == v / 0x2000 / 0x80;
  }

  lemma LongPatched(o: seq<uint8>)
    requires IsLong(o)
    ensures Patched(o) == Le32(WithLength(FromLe32(o[..4]), BlockLength(o))) + o[4..]
  {
    hide FromLe32, WithLength;
    assert (o + Zeros(4))[..4] == o[..4] && (o + Zeros(4))[4..] == o[4..] + Zeros(4);
  }

  // What the walk meets at a long block.
  lemma BlockParts(o: seq<uint8>, rest: seq<uint8>)
    requires IsLong(o)
    ensures var w, n := Block(o) + rest, |o|; var end := Align4(n) + 4;
            && |w| >= end >= n && HeaderAt(w) == BlockMessage(o).h && w[HEADER..n] == o[HEADER..]
            && w[end - 4..end] == Le32(TRAILER) && w[end..] == rest
  {
    hide FromLe32, WithLength, Le32, Align4, Zeros, Patched, LengthOf, FlagsOf, CodeOf;
    var w := Block(o) + rest;
    LongPatched(o);
    BlockIs(o);
    assert w[..4] == Le32(WithLength(FromLe32(o[..4]), BlockLength(o)));
    assert w[4..8] == o[4..8] && w[8..12] == o[8..12];
    LeRoundTrip(WithLength(FromLe32(o[..4]), BlockLength(o)));
    LengthFilled(FromLe32(o[..4]), BlockLength(o));
    assert w[HEADER..|o|] == Patched(o)[HEADER..|o|];
  }

  lemma WireNone()
    ensures Wire([]) == []
  {}

  // One step of the walk.
  lemma WalkBlock(o: seq<uint8>, rest: seq<uint8>)
    requires IsLong(o)
    ensures Walk(Block(o) + rest)
         == match Walk(rest) { case None => None case Some(ms) => Some([BlockMessage(o)] + ms) }
  {
    hide Block, HeaderAt, Align4, FromLe32, Le32;
    BlockParts(o, rest);
    LeRoundTrip(TRAILER);
  }

  /** Walking by the length fields recovers every block that holds a whole header, as a message. */
  lemma {:induction false} WalkWire(blocks: seq<seq<uint8>>)
    requires AllLong(blocks)
    ensures Walk(Wire(blocks)) == Some(Read(blocks))
  {
    hide Block, BlockMessage, Wire, IsLong;
    if |blocks| == 0 {
      WireNone();
    } else {
      assert blocks == [blocks[0]] + blocks[1..];
      WireCons(blocks[0], blocks[1..]);
      WalkWire(blocks[1..]);
      WalkBlock(blocks[0], Wire(blocks[1..]));
    }
  }

  // ---- Blocks without a whole header ----

  // The length field of a word is in its first two bytes.
  lemma LengthBytes(b: seq<uint8>)
    requires |b| == 4
    ensures LengthOf(FromLe32(b)) == b[0] as int + b[1] as int % 0x20 * 0x100
  {
    var q, r := b[1] as int / 0x20 + b[2] as int * 8 + b[3] as int * 0x800, b[0] as int + b[1] as int % 0x20 * 0x100;
    assert FromLe32(b) == 0x2000 * q + r;
    RemainderIs(FromLe32(b), 0x2000, q, r);
  }

  lemma LeBytes(x: uint32)
    ensures LengthOf(x) == Le32(x)[0] as int + Le32(x)[1] as int % 0x20 * 0x100
  {
    LengthBytes(Le32(x));
    LeRoundTrip(x);
  }

  /** The length field of a block that is too short for a header: all ones from two bytes on; of one
      byte only the low half is stored. */
  lemma ShortLength(o: seq<uint8>, rest: seq<uint8>)
    requires 1 <= |o| < HEADER
    ensures |Block(o)| >= 8
    ensures LengthOf(FromLe32((Block(o) + rest)[..4])) == if |o| == 1 then 0xff else 0x1fff
  {
    hide FromLe32, WithLength, Le32, Zeros, Patched, LengthOf;
    BlockIs(o);
    AlignAtLeast(|o|);
    var first := (Block(o) + rest)[..4];
    var x := WithLength(FromLe32((o + Zeros(4))[..4]), 0x1fff);
    LengthFilled(FromLe32((o + Zeros(4))[..4]), 0x1fff);
    LeBytes(x);
    LengthBytes(first);
    ShortFirst(o);
    assert first[0] == Patched(o)[0];
    if |o| == 1 {
      ZeroAt(Align4(1) - 1);
      assert first[1] == 0;
    } else {
      assert first[1] == Patched(o)[1];
    }
  }

  lemma ZeroAt(n: nat)
    ensures forall k :: 0 <= k < n ==> Zeros(n)[k] == 0
  {}

  lemma ShortFirst(o: seq<uint8>)
    requires 1 <= |o| < HEADER
    ensures var x := Le32(WithLength(FromLe32((o + Zeros(4))[..4]), 0x1fff));
            Patched(o)[0] == x[0] && (|o| >= 2 ==> Patched(o)[1] == x[1])
  {
    hide FromLe32, WithLength, Le32;
  }

  /** The walk stops at the first block of two to eleven bytes: its length leads out of the packet. */
  lemma {:induction false} WalkStops(blocks: seq<seq<uint8>>, k: nat)
    requires k < |blocks| && |Wire(blocks)| <= SIZE
    ensures AllLong(blocks[..k]) && 2 <= |blocks[k]| < HEADER ==> Walk(Wire(blocks)) == None
  {
    hide Block, Wire, IsLong;
    assert blocks == [blocks[0]] + blocks[1..];
    WireCons(blocks[0], blocks[1..]);
    var rest := Wire(blocks[1..]);
    if k == 0 && 2 <= |blocks[0]| < HEADER {
      ShortLength(blocks[0], rest);
      WalkLost(Block(blocks[0]) + rest);
    } else if k > 0 && AllLong(blocks[..k]) {
      assert blocks[..k][0] == blocks[0] && blocks[1..][..k - 1] == blocks[..k][1..];
      WalkStops(blocks[1..], k - 1);
      WalkBlock(blocks[0], rest);
    }
  }

  lemma WalkLost(w: seq<uint8>)
    requires 4 <= |w| <= SIZE && LengthOf(FromLe32(w[..4])) == 0x1fff
    ensures Walk(w) == None
  {
    hide FromLe32, LengthOf;
  }

  // ---- Batches ----

  lemma {:induction false} BlocksFit(blocks: seq<seq<uint8>>)
    ensures forall o :: o in blocks ==> |o| <= |Wire(blocks)|
  {
    hide Block;
    if |blocks| > 0 {
      BlocksFit(blocks[..|blocks| - 1]);
      assert blocks == blocks[..|blocks| - 1] + [blocks[|blocks| - 1]];
    }
  }

  /** For every batch of writer operations, what `complete` leaves in the first `pksz` bytes is the
      framed blocks. If each of them got a whole header's worth of bytes, the walk gives them all
      back; at the first with less, but more than one byte, it fails. */
  lemma BatchReadBack(ops: seq<WriteOp>)
    ensures var b, blocks := Write(Writes(Reset(), ops), Finish), Close(DocWrites(ops)).closed;
            && |b.data| == SIZE && b.pksz <= SIZE && b.data[..b.pksz] == Wire(blocks)
            && ((forall o :: o in blocks ==> |o| >= HEADER) ==>
                  AllLong(blocks) && Walk(Wire(blocks)) == Some(Read(blocks)))
            && forall k :: 0 <= k < |blocks| && AllLong(blocks[..k]) && 2 <= |blocks[k]| < HEADER ==>
                 Walk(Wire(blocks)) == None
  {
    hide Walk, Wire, Block;
    WritesRepresent(ops);
    var b, d := Writes(Reset(), ops), DocWrites(ops);
    CompleteRepresents(b, d);
    var r, blocks := Write(b, Finish), Close(d).closed;
    assert Wire(blocks) + [] == Wire(blocks);
    BlocksFit(blocks);
    if forall o :: o in blocks ==> |o| >= HEADER {
      WalkWire(blocks);
    }
    forall k | 0 <= k < |blocks| && AllLong(blocks[..k]) && 2 <= |blocks[k]| < HEADER
      ensures Walk(Wire(blocks)) == None
    {
      WalkStops(blocks, k);
    }
  }

  // ---- Batches of messages ----

  // What was accepted, as messages, and the one that is open.
  datatype Batch = Batch(sent: seq<Message>, open: Option<Message>)

  function OpenBytes(m: Message): seq<uint8> { HeaderBytes(m.h) + m.payload }

  function Blocks(ms: seq<Message>): (blocks: seq<seq<uint8>>)
    ensures |blocks| == |ms| && forall k :: 0 <= k < |ms| ==> blocks[k] == OpenBytes(ms[k])
  {
    seq(|ms|, k requires 0 <= k < |ms| => OpenBytes(ms[k]))
  }

  function DocOf(m: Batch): Doc {
    Doc(Blocks(m.sent), match m.open { case None => [] case Some(o) => OpenBytes(o) })
  }

  function CloseBatch(m: Batch): Batch {
    match m.open
    case None => m
    case Some(o) => Batch(m.sent + [o], None)
  }

  function BatchWrite(m: Batch, op: WriteOp): Batch {
    match op
    case PutHeader(h) =>
      var c := CloseBatch(m);
      if DocSize(DocOf(c)) + HEADER > LIMIT then c else Batch(c.sent, Some(Message(h, [])))
    case PutValue(bytes) =>
      if DocSize(DocOf(m)) + |bytes| > LIMIT || m.open.None? then m
      else Batch(m.sent, Some(Message(m.open.value.h, m.open.value.payload + bytes)))
    case Finish => CloseBatch(m)
  }

  function BatchWrites(ops: seq<WriteOp>): Batch {
    if |ops| == 0 then Batch([], None) else BatchWrite(BatchWrites(ops[..|ops| - 1]), ops[|ops| - 1])
  }

  // Values are put after a header that was accepted (or are rejected for lack of room).
  predicate Headed(m: Batch, op: WriteOp) {
    op.PutValue? && m.open.None? ==> op.bytes == [] || DocSize(DocOf(m)) + |op.bytes| > LIMIT
  }

  predicate AllHeaded(ops: seq<WriteOp>) {
    |ops| == 0 || (AllHeaded(ops[..|ops| - 1]) && Headed(BatchWrites(ops[..|ops| - 1]), ops[|ops| - 1]))
  }

  lemma CloseFollows(m: Batch)
    ensures DocOf(CloseBatch(m)) == Close(DocOf(m))
  {
    hide HeaderBytes;
    if m.open.Some? {
      assert Blocks(m.sent + [m.open.value]) == Blocks(m.sent) + [OpenBytes(m.open.value)];
    }
  }

  lemma BatchStep(m: Batch, op: WriteOp)
    requires Headed(m, op)
    ensures DocOf(BatchWrite(m, op)) == DocWrite(DocOf(m), op)
  {
    hide HeaderBytes, DocSize, Blocks;
    match op
    case PutHeader(h) =>
      CloseFollows(m);
      assert HeaderBytes(h) + [] == HeaderBytes(h);
    case PutValue(bytes) =>
      match m.open {
        case None => assert DocOf(m).open + [] == DocOf(m).open;
        case Some(o) => assert HeaderBytes(o.h) + (o.payload + bytes) == (HeaderBytes(o.h) + o.payload) + bytes;
      }
    case Finish => CloseFollows(m);
  }

  lemma {:induction false} BatchFollows(ops: seq<WriteOp>)
    requires AllHeaded(ops)
    ensures DocOf(BatchWrites(ops)) == DocWrites(ops)
  {
    hide DocOf, BatchWrite, DocWrite, Headed;
    if |ops| == 0 {
      NothingYet();
    } else {
      BatchFollows(ops[..|ops| - 1]);
      BatchStep(BatchWrites(ops[..|ops| - 1]), ops[|ops| - 1]);
    }
  }

  lemma NothingYet()
    ensures DocOf(Batch([], None)) == Doc([], [])
  {}

  // The header as the reader sees it: flags and code cut to 7 and 12 bits, length filled in.
  function Seen(m: Message): Message {
    Message(Header(|m.payload| % 0x2000, m.h.flags % 0x80, m.h.code % 0x1000, m.h.session, m.h.sequence), m.payload)
  }

  function SeenAll(ms: seq<Message>): seq<Message> {
    if |ms| == 0 then [] else [Seen(ms[0])] + SeenAll(ms[1..])
  }

  lemma HeaderReadBack(h: Header)
    ensures HeaderAt(HeaderBytes(h))
         == Header(h.length % 0x2000, h.flags % 0x80, h.code % 0x1000, h.session, h.sequence)
  {
    hide PFlags, Le32, FromLe32, LengthOf, FlagsOf, CodeOf;
    var w := HeaderBytes(h);
    assert w[..4] == Le32(PFlags(h.code, h.flags, h.length));
    assert w[4..8] == Le32(h.session) && w[8..12] == Le32(h.sequence);
    FieldsRoundTrip(h.code, h.flags, h.length);
    LeRoundTrip(PFlags(h.code, h.flags, h.length));
    LeRoundTrip(h.session);
    LeRoundTrip(h.sequence);
  }

  lemma HeaderOfPrefix(w: seq<uint8>)
    requires |w| >= HEADER
    ensures HeaderAt(w) == HeaderAt(w[..HEADER])
  {
    assert w[..4] == w[..HEADER][..4] && w[4..8] == w[..HEADER][4..8] && w[8..12] == w[..HEADER][8..12];
  }

  lemma OpenRead(m: Message)
    requires |m.payload| < 0x2000
    ensures IsLong(OpenBytes(m)) && BlockMessage(OpenBytes(m)) == Seen(m)
  {
    hide HeaderAt, HeaderBytes;
    HeaderOfPrefix(OpenBytes(m));
    assert OpenBytes(m)[..HEADER] == HeaderBytes(m.h) && OpenBytes(m)[HEADER..] == m.payload;
    HeaderReadBack(m.h);
  }

  lemma {:induction false} ReadMessages(ms: seq<Message>)
    requires forall k :: 0 <= k < |ms| ==> |ms[k].payload| < 0x2000
    ensures AllLong(Blocks(ms)) && Read(Blocks(ms)) == SeenAll(ms)
  {
    hide OpenBytes, BlockMessage, Seen, IsLong;
    forall k | 0 <= k < |ms| ensures IsLong(Blocks(ms)[k]) {
      OpenRead(ms[k]);
    }
    if |ms| > 0 {
      OpenRead(ms[0]);
      ReadMessages(ms[1..]);
      assert Blocks(ms)[1..] == Blocks(ms[1..]);
    }
  }

  /** So a batch of messages whose headers were accepted is walked back to exactly the messages and
      values that went in. */
  lemma MessagesReadBack(ops: seq<WriteOp>)
    requires AllHeaded(ops)
    ensures var b := Write(Writes(Reset(), ops), Finish);
            && |b.data| == SIZE && b.pksz <= SIZE
            && Walk(b.data[..b.pksz]) == Some(SeenAll(CloseBatch(BatchWrites(ops)).sent))
  {
    hide Walk, Wire, OpenBytes, Read;
    BatchReadBack(ops);
    BatchFollows(ops);
    var m := CloseBatch(BatchWrites(ops));
    CloseFollows(BatchWrites(ops));
    var blocks := Close(DocWrites(ops)).closed;
    assert blocks == Blocks(m.sent);
    BlocksFit(blocks);
    forall k | 0 <= k < |m.sent| ensures |m.sent[k].payload| < 0x2000 {
      assert blocks[k] in blocks;
      OpenSize(m.sent[k]);
    }
    ReadMessages(m.sent);
    WalkWire(blocks);
  }

  lemma OpenSize(m: Message)
    ensures |OpenBytes(m)| == HEADER + |m.payload|
  {}

  // ---- A message and its frame ----

  /** A message's frame is its block, with the length of the payload in the header. */
  lemma FrameIsBlock(m: Message)
    requires |m.payload| < 0x2000
    ensures Frame(m) == Block(OpenBytes(m))
  {
    hide Align4, Zeros, FromLe32, WithLength, PFlags;
    var o, n := OpenBytes(m), |m.payload|;
    assert n % 0x2000 == n;
    LongPatched(o);
    var w0 := PFlags(m.h.code, m.h.flags, m.h.length);
    assert o[..4] == Le32(w0);
    LeRoundTrip(w0);
    WithLengthIs(m.h.code, m.h.flags, m.h.length, n);
    assert o[4..] == Le32(m.h.session) + Le32(m.h.sequence) + m.payload;
    assert HeaderBytes(m.h.(length := n)) + m.payload == Patched(o);
    BlockIs(o);
  }

  lemma FrameParts(m: Message, rest: seq<uint8>)
    requires |m.payload| < 0x2000
    ensures var w := Frame(m) + rest; var n := |m.payload|; var end := Align4(HEADER + n) + 4;
            && |w| >= end >= HEADER + n
            && w[..HEADER] == HeaderBytes(m.h.(length := n))
            && w[HEADER..HEADER + n] == m.payload
            && w[end - 4..end] == Le32(TRAILER)
            && w[end..] == rest
  {
    hide HeaderBytes, Le32;
  }

  // ---- Fetching ----

  function Concat(vs: seq<seq<uint8>>): seq<uint8> {
    if |vs| == 0 then [] else vs[0] + Concat(vs[1..])
  }

  // Consecutive fetches of the given sizes.
  function FetchAll(b: Buf, vs: seq<seq<uint8>>): (r: (Buf, seq<seq<uint8>>))
    requires Fits(b)
    ensures Fits(r.0)
    decreases |vs|
  {
    if |vs| == 0 then (b, [])
    else
      var (b1, v) := Fetch(b, |vs[0]|);
      var (b2, rest) := FetchAll(b1, vs[1..]);
      (b2, [v] + rest)
  }

  lemma {:induction false} FetchValues(b: Buf, vs: seq<seq<uint8>>)
    requires Fits(b) && b.mark + |Concat(vs)| <= b.pksz
    requires b.data[b.mark..b.mark + |Concat(vs)|] == Concat(vs)
    ensures FetchAll(b, vs) == (b.(mark := b.mark + |Concat(vs)|), vs)
    decreases |vs|
  {
    if |vs| > 0 {
      var v, rest := vs[0], Concat(vs[1..]);
      var at := b.mark + |v|;
      Pieces(b.data, b.mark, v, rest);
      FetchValues(b.(mark := at), vs[1..]);
      assert vs == [v] + vs[1..];
      assert Fetch(b, |v|) == (b.(mark := at), v);
    }
  }

  // Two pieces that stand next to each other.
  lemma Pieces(data: seq<uint8>, at: nat, v: seq<uint8>, rest: seq<uint8>)
    requires at + |v + rest| <= |data| && data[at..at + |v + rest|] == v + rest
    ensures data[at..at + |v|] == v && data[at + |v|..at + |v| + |rest|] == rest
  {
    SubSlice(data, at, at + |v + rest|, 0, |v|);
    SubSlice(data, at, at + |v + rest|, |v|, |v| + |rest|);
    assert (v + rest)[0..|v|] == v && (v + rest)[|v|..|v| + |rest|] == rest;
  }

  /** At a frame, the header and then the values are fetched as they were put, in order. */
  lemma FetchMessage(b: Buf, m: Message, vs: seq<seq<uint8>>)
    requires Fits(b) && |m.payload| < 0x2000 && m.payload == Concat(vs)
    requires b.mark + |Frame(m)| <= b.pksz && b.data[b.mark..b.mark + |Frame(m)|] == Frame(m)
    ensures FetchHeader(b).1 == Seen(m).h
    ensures FetchAll(FetchHeader(b).0, vs).1 == vs
  {
    hide HeaderAt, HeaderBytes, Frame, FetchHeader, FetchAll, Le32;
    var f := Frame(m);
    var w := b.data[b.mark..b.mark + |f|];
    FrameParts(m, []);
    assert f + [] == f;
    HeaderOfPrefix(w);
    HeaderReadBack(m.h.(length := |m.payload|));
    FetchedHeader(b);
    SubSlice(b.data, b.mark, b.mark + |f|, 0, HEADER);
    SubSlice(b.data, b.mark, b.mark + |f|, HEADER, HEADER + |m.payload|);
    var at := b.mark + HEADER;
    FetchValues(b.(mark := at), vs);
  }

  lemma SubSlice<X>(s: seq<X>, lo: nat, hi: nat, i: nat, j: nat)
    requires lo <= hi <= |s| && i <= j <= hi - lo
    ensures s[lo..hi][i..j] == s[lo + i..lo + j]
  {
    var t := s[lo..hi];
    assert forall k :: 0 <= k < j - i ==> t[i..j][k] == t[i + k] == s[lo + i + k];
  }

  lemma FetchedHeader(b: Buf)
    requires Fits(b) && b.mark + HEADER <= b.pksz
    ensures FetchHeader(b) == (b.(mark := b.mark + HEADER), HeaderAt(b.data[b.mark..b.mark + HEADER]))
  {
    var w := b.data[b.mark..b.mark + HEADER];
    assert w[..4] == b.data[b.mark..b.mark + 4];
    assert w[4..8] == b.data[b.mark + 4..b.mark + 8];
    assert w[8..12] == b.data[b.mark + 8..b.mark + 12];
  }
}
