/** The `Packet` object: the operations of `PacketSpec` on a buffer in place. */
module Packet {
  import opened MachineTypes
  import Spec = PacketSpec

  class Packet {
    var pksz: nat
    var mark: nat
    var ch: nat
    var ptr: array?<uint8>

    ghost predicate Valid()
      reads this, ptr
    {
      ptr != null ==> ptr.Length == Spec.SIZE && Spec.Fits(Contents())
    }

    function Contents(): Spec.Buf
      requires ptr != null
      reads this, ptr
    {
      Spec.Buf(pksz, mark, ch, ptr[..])
    }

    constructor ()
      ensures ptr == null && pksz == mark == ch == 0 && Valid()
    {
      pksz, mark, ch, ptr := 0, 0, 0, null;
    }

    method Alloc()
      requires Valid()
      modifies this`ptr
      ensures ptr != null && ptr.Length == Spec.SIZE
      ensures if old(ptr) == null then fresh(ptr) && ptr[..] == Spec.Zeros(Spec.SIZE) else ptr == old(ptr)
    {
      if ptr == null {
        ptr := new uint8[Spec.SIZE](_ => 0);
        assert ptr[..] == Spec.Zeros(Spec.SIZE);
      }
    }

    method Reset()
      requires Valid()
      modifies this, ptr
      ensures ptr != null && (if old(ptr) == null then fresh(ptr) else ptr == old(ptr))
      ensures Valid() && Contents() == Spec.Reset()
    {
      Alloc();
      forall k | 0 <= k < ptr.Length {
        ptr[k] := 0;
      }
      mark, pksz, ch := 0, 0, 0;
      assert ptr[..] == Spec.Zeros(Spec.SIZE);
    }

    method Rewind()
      requires Valid()
      modifies this`mark, this`ch
      ensures Valid() && (ptr != null ==> Contents() == Spec.Rewind(old(Contents())))
    {
      mark, ch := 0, 0;
    }

    // The store through a cast pointer.
    method Store(at: nat, bytes: seq<uint8>)
      requires ptr != null && at + |bytes| <= ptr.Length
      modifies ptr
      ensures ptr[..] == Put(old(ptr[..]), at, bytes)
    {
      forall k | 0 <= k < |bytes| {
        ptr[at + k] := bytes[k];
      }
    }

    /** The generic insert of a value of `|bytes|` bytes. */
    method Insert(bytes: seq<uint8>)
      requires Valid()
      modifies this`mark, this`pksz, ptr
      ensures Valid() && (ptr != null ==> Contents() == Spec.Insert(old(Contents()), bytes))
    {
      if ptr == null {
        return;
      }
      var nx := mark + |bytes|;
      if nx > Spec.SIZE - 4 {
        return;
      }
      Store(mark, bytes);
      mark := nx;
      if mark > pksz {
        pksz := mark;
      }
    }

    // The zero bytes up to a multiple of four.
    method Pad()
      requires ptr != null && ptr.Length == Spec.SIZE && Spec.Align4(mark) <= Spec.SIZE
      modifies this`mark, ptr
      ensures mark == Spec.Align4(old(mark))
      ensures ptr[..] == Put(old(ptr[..]), old(mark), Spec.Zeros(mark - old(mark)))
    {
      hide Put;
      ghost var d, at, end := ptr[..], mark, Spec.Align4(mark);
      PutNothing(d, at);
      while mark % 4 != 0
        invariant at <= mark <= end
        invariant ptr[..] == Put(d, at, Spec.Zeros(mark - at))
        decreases end - mark
      {
        PutOneMore(d, at, Spec.Zeros(mark - at), 0);
        assert Spec.Zeros(mark - at) + [0] == Spec.Zeros(mark + 1 - at);
        ptr[mark] := 0;
        mark := mark + 1;
      }
    }

    method Complete()
      requires Valid() && (ptr != null ==> Spec.Closable(Contents()))
      modifies this`mark, this`pksz, this`ch, ptr
      ensures Valid() && (ptr != null ==> Contents() == Spec.Complete(old(Contents())))
    {
      hide Spec.Le32, Spec.FromLe32, Spec.WithLength, Put, Spec.Align4, Spec.Zeros;
      if ptr == null || ch >= mark {
        return;
      }
      var cl := (mark - (ch + Spec.HEADER)) % TWO_TO_THE_32;
      if cl > 0x1fff {
        cl := 0x1fff;
      }
      var w := Spec.FromLe32(ptr[ch..ch + 4]);
      Store(ch, Spec.Le32(Spec.WithLength(w, cl)));
      Pad();
      Store(mark, Spec.Le32(Spec.TRAILER));
      mark := mark + 4;
      ch := mark;
      if mark > pksz {
        pksz := mark;
      }
    }

    method InsertHeader(h: Spec.Header)
      requires Valid() && (ptr != null ==> Spec.Closable(Contents()))
      modifies this`mark, this`pksz, this`ch, ptr
      ensures Valid() && (ptr != null ==> Contents() == Spec.InsertHeader(old(Contents()), h))
    {
      hide Spec.Complete, Spec.HeaderBytes, Put;
      if ptr == null {
        return;
      }
      if ch < mark {
        Complete();
      }
      var nx := mark + Spec.HEADER;
      if nx > Spec.SIZE - 4 {
        return;
      }
      Store(mark, Spec.HeaderBytes(h));
      mark := nx;
      if mark > pksz {
        pksz := mark;
      }
    }

    method FetchHeader() returns (h: Spec.Header)
      requires Valid()
      modifies this`mark
      ensures Valid()
      ensures if ptr == null then h == Spec.NO_HEADER else (Contents(), h) == Spec.FetchHeader(old(Contents()))
    {
      if ptr == null {
        return Spec.NO_HEADER;
      }
      var nx := mark + Spec.HEADER;
      if nx > pksz {
        return Spec.NO_HEADER;
      }
      var w := Spec.FromLe32(ptr[mark..mark + 4]);
      h := Spec.Header(Spec.LengthOf(w), Spec.FlagsOf(w), Spec.CodeOf(w),
                       Spec.FromLe32(ptr[mark + 4..mark + 8]), Spec.FromLe32(ptr[mark + 8..mark + 12]));
      mark := nx;
    }

    /** The generic fetch of a value of `n` bytes. */
    method Fetch(n: nat) returns (bytes: seq<uint8>)
      requires Valid()
      modifies this`mark
      ensures Valid()
      ensures if ptr == null then bytes == Spec.Zeros(n) else (Contents(), bytes) == Spec.Fetch(old(Contents()), n)
    {
      if ptr == null {
        return Spec.Zeros(n);
      }
      var nx := mark + n;
      if nx > pksz {
        return Spec.Zeros(n);
      }
      bytes := ptr[mark..nx];
      mark := nx;
    }

    // `fetch<uint32_t>`.
    method Fetch32() returns (x: uint32)
      requires Valid()
      modifies this`mark
      ensures Valid()
      ensures if ptr == null then x == 0 else (Contents(), x) == Spec.Fetch32(old(Contents()))
    {
      hide Spec.Fetch;
      var bytes := Fetch(4);
      x := Spec.FromLe32(bytes);
    }
  }

  lemma PutNothing(d: seq<uint8>, at: nat)
    requires at <= |d|
    ensures Put(d, at, Spec.Zeros(0)) == d
  {}

  lemma PutOneMore(d: seq<uint8>, at: nat, bytes: seq<uint8>, x: uint8)
    requires at + |bytes| + 1 <= |d|
    ensures Put(d, at, bytes)[at + |bytes| := x] == Put(d, at, bytes + [x])
  {}
}
