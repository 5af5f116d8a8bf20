/** The public `Hash` object of src/crypt.cpp. */
module Hash {
  import opened Sha1Spec
  import opened Sha1State

  datatype HashType = MD2 | MD3 | MD5 | SHA1 | SHA224 | SHA256 | SHA384 | SHA512 | SHA512224 | SHA512256
                    | SHA3224 | SHA3256 | SHA3384 | SHA3512

  function Flatten(chunks: seq<seq<bv8>>): seq<bv8> {
    if |chunks| == 0 then [] else Flatten(chunks[..|chunks| - 1]) + chunks[|chunks| - 1]
  }

  class Hash {
    // Null for every hash type but SHA-1; all operations then do nothing.
    const hs: Sha1State?

    constructor (ht: HashType)
      ensures (hs != null) == ht.SHA1?
      ensures hs != null ==> hs.mc.Length == 64 && fresh(hs) && fresh(hs.mc)
    {
      if ht.SHA1? {
        var state := new Sha1State();
        hs := state;
      } else {
        hs := null;
      }
    }

    ghost predicate Ready() { hs != null ==> hs.mc.Length == 64 }

    ghost function Repr(): set<object> {
      if hs == null then {} else {hs, hs.mc}
    }

    /** One shot: the digest of the whole message. */
    method Full(m: array?<bv8>, len: nat)
      requires Ready() && (m != null ==> len <= m.Length && m !in Repr())
      modifies Repr()
      ensures hs != null ==> hs.hash == Sha1(if m == null then [] else m[..len])
    {
      if hs == null {
        return;
      }
      hide Sha1, Pad, Fold;
      ghost var text := if m == null then [] else m[..len];
      hs.Init();
      hs.AddMessage(m, len);
      assert hs.message == text;
      hs.EndMessage();
    }

    method PartialBegin()
      requires Ready()
      modifies Repr()
      ensures hs != null ==> hs.Valid() && hs.message == []
    {
      if hs == null {
        return;
      }
      hs.Init();
    }

    method PartialAdd(m: array?<bv8>, len: nat)
      requires Ready() && (hs != null ==> hs.Valid())
      requires m != null ==> len <= m.Length && m !in Repr()
      modifies Repr()
      ensures hs != null ==> hs.Valid() && hs.message == old(hs.message) + if m == null then [] else m[..len]
    {
      if hs == null {
        return;
      }
      hs.AddMessage(m, len);
    }

    method PartialFinish()
      requires Ready() && (hs != null ==> hs.Valid())
      modifies Repr()
      ensures hs != null ==> hs.fed == Pad(old(hs.message)) && hs.hash == Sha1(old(hs.message))
    {
      if hs == null {
        return;
      }
      hs.EndMessage();
    }
  }

  /** Every split: a client that feeds a message in any chunks, empty ones included, gets the
      digest of their concatenation, which is what `Full` gives for the whole. */
  method HashInChunks(h: Hash, chunks: seq<array<bv8>>, ghost contents: seq<seq<bv8>>)
    requires h.hs != null && h.Ready()
    requires |contents| == |chunks|
    requires forall k :: 0 <= k < |chunks| ==> chunks[k] !in h.Repr() && chunks[k][..] == contents[k]
    modifies h.Repr()
    ensures h.hs.hash == Sha1(Flatten(contents))
  {
    h.PartialBegin();
    var k := 0;
    while k < |chunks|
      invariant 0 <= k <= |chunks|
      invariant h.hs.Valid() && h.hs.message == Flatten(contents[..k])
    {
      h.PartialAdd(chunks[k], chunks[k].Length);
      assert chunks[k][..chunks[k].Length] == contents[k];
      assert contents[..k + 1][..k] == contents[..k];
      k := k + 1;
    }
    assert contents[..k] == contents;
    h.PartialFinish();
  }
}
