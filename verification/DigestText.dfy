/** The loop of `base64l_be` and its caller `Hash::tobase64` (src/crypt.cpp). */
module DigestText {
  import opened Sha1Spec
  import opened Base64
  import opened Hash

  const NUL: char := 0 as char

  // The text size `tobase64` computes.
  function TextSize(bytes: nat): nat {
    var sz := bytes * 4;
    var ex := sz % 3;
    sz / 3 + if ex != 0 then 4 - ex else 0
  }

  /** For every byte count, four characters for each started group of three bytes. */
  lemma TextSizeIs(bytes: nat)
    ensures TextSize(bytes) == 4 * ((bytes + 2) / 3)
  {
    var q, r := bytes / 3, bytes % 3;
    assert bytes * 4 == 3 * (4 * q + r) + r;
  }

  lemma {:induction false} EncodeSize(b: seq<bv8>)
    ensures |Encode(b)| == TextSize(|b|)
  {
    hide Four;
    TextSizeIs(|b|);
    if |b| >= 3 {
      EncodeSize(b[3..]);
      TextSizeIs(|b[3..]|);
    }
  }

  lemma {:induction false} EncodeHasNoNul(b: seq<bv8>)
    ensures NUL !in Encode(b)
  {
    if |b| == 1 {
      FourHasNoNul(b[0], 0, 0);
    } else if |b| == 2 {
      FourHasNoNul(b[0], b[1], 0);
    } else if |b| > 2 {
      FourHasNoNul(b[0], b[1], b[2]);
      EncodeHasNoNul(b[3..]);
    }
  }

  lemma FourHasNoNul(x: bv8, y: bv8, z: bv8)
    ensures NUL !in Four(x, y, z)
  {
    hide Group0, Group1, Group2, Group3, Alphabet;
    GroupsFit(x, y);
    GroupsFit(y, z);
    GroupsFit(z, 0);
    SymbolIsNotNul(Group0(x));
    SymbolIsNotNul(Group1(x, y));
    SymbolIsNotNul(Group2(y, z));
    SymbolIsNotNul(Group3(z));
  }

  lemma SymbolIsNotNul(x: Word)
    requires x < 64
    ensures Symbol(x) != NUL
  {
    WordIndex(x);
    AlphabetPosition(x as int);
  }

  ghost predicate Clear(b: array<char>, at: nat)
    reads b
  {
    forall j :: at <= j < b.Length ==> b[j] == NUL
  }

  // `at` characters of the text are written and `rest` is still to come.
  ghost predicate Written(text: string, b: array<char>, at: nat, rest: string)
    reads b
  {
    at <= b.Length && text == b[..at] + rest
  }

  // The four stores of one group.
  method Store(b: array<char>, at: nat, quad: string, ghost text: string, ghost rest: string)
    requires at + 4 <= b.Length && |quad| == 4 && Clear(b, at)
    modifies b
    ensures Clear(b, at + 4)
    ensures old(Written(text, b, at, quad + rest)) ==> Written(text, b, at + 4, rest)
  {
    ghost var done := b[..at];
    b[at], b[at + 1], b[at + 2], b[at + 3] := quad[0], quad[1], quad[2], quad[3];
    assert b[..at + 4] == done + quad;
  }

  predicate Complete(u: seq<Word>, text: string) { text == Encode(Octets(u)) }

  // A text whose end was never written is not the encoding.
  predicate Unfinished(u: seq<Word>, text: string) {
    |text| > 0 && text[|text| - 1] == NUL && text != Encode(Octets(u))
  }

  // The padded group, after which the source stops.
  method StoreLast(u: seq<Word>, b: array<char>, at: nat, quad: string)
    requires at + 4 <= b.Length && |quad| == 4 && Clear(b, at)
    modifies b
    ensures at + 4 == b.Length && old(Written(Encode(Octets(u)), b, at, quad)) ==> Complete(u, b[..])
    ensures at + 4 < b.Length ==> Unfinished(u, b[..])
  {
    hide Encode, Octets;
    assert quad + [] == quad;
    Store(b, at, quad, Encode(Octets(u)), []);
    End(u, b, at + 4, []);
  }

  // What the text has to be once the loop has stopped without reading past the words.
  ghost predicate Settled(u: seq<Word>, b: array<char>)
    reads b
  {
    if |u| <= 6 then Complete(u, b[..]) else Unfinished(u, b[..])
  }

  // `k` turns of three words are behind, and `i` words of the next; `at` characters are written.
  ghost predicate Underway(u: seq<Word>, b: array<char>, k: nat, i: nat, rest: string)
    reads b
  {
    && 3 * k < |u| && b.Length == TextSize(4 * |u|)
    && Clear(b, 16 * k + 4 * i) && Written(Encode(Octets(u)), b, 16 * k + 4 * i, rest)
  }

  // The first word of a turn: four characters, and the last group if the counter is at its end.
  method FirstGroup(u: seq<Word>, b: array<char>, ui: nat, at: nat, count: nat, ghost k: nat)
      returns (stop: bool, count': nat)
    requires ui == 3 * k && at == 16 * k && 1 <= count == |u| + 1 - 4 * k
    requires Underway(u, b, k, 0, Encode(Octets(u[ui..])))
    modifies b
    ensures stop ==> |u| > 2 && Settled(u, b)
    ensures !stop ==> count' == count - 1 >= 1 && Underway(u, b, k, 1, AfterFirst(u, ui))
  {
    hide Quad0, Quad1, Pad1, Encode, Octets, TextSize, Written, Clear, Complete, Unfinished, AfterFirst;
    EncodeRest(u, ui);
    Room(|u|, k);
    count' := count - 1;
    Store(b, at, Quad0(u[ui]), Encode(Octets(u)), AfterFirst(u, ui));
    var lala := u[ui];
    assert at + 4 < b.Length;  // so the source's test for a full buffer fails here
    if count' == 0 {
      LastAfterFirst(u, ui);
      StoreLast(u, b, at + 4, Pad1(lala));
      return true, count';
    }
    stop := false;
  }

  lemma LastAfterFirst(u: seq<Word>, i: nat)
    requires i < |u|
    ensures i + 1 == |u| ==> AfterFirst(u, i) == Pad1(u[i])
    ensures i + 1 < |u| ==> AfterFirst(u, i) == Quad1(u[i], u[i + 1]) + AfterSecond(u, i + 1)
  {
    hide Pad1, Quad1, AfterSecond;
  }

  lemma LastAfterSecond(u: seq<Word>, i: nat)
    requires i < |u|
    ensures i + 1 == |u| ==> AfterSecond(u, i) == Pad2(u[i])
    ensures i + 1 < |u| ==> AfterSecond(u, i) == Quad2(u[i], u[i + 1]) + AfterThird(u, i + 1)
  {
    hide Pad2, Quad2, AfterThird;
  }

  // The second word of a turn.
  method SecondGroup(u: seq<Word>, b: array<char>, ui: nat, at: nat, count: nat, ghost k: nat, lala: Word)
      returns (stop: bool, overrun: bool, count': nat)
    requires ui == 3 * k + 1 && at == 16 * k + 4 && 1 <= count == |u| - 4 * k
    requires Underway(u, b, k, 1, AfterFirst(u, ui - 1)) && lala == u[ui - 1]
    modifies b
    ensures overrun <==> stop && |u| == 1
    ensures stop && !overrun ==> |u| > 2 && Settled(u, b)
    ensures !stop ==> count' == count - 1 >= 1 && ui < |u| && Underway(u, b, k, 2, AfterSecond(u, ui))
  {
    hide Quad1, Quad2, Pad2, Encode, Octets, TextSize, Written, Clear, Complete, Unfinished, AfterFirst, AfterSecond;
    Room(|u|, k);
    LastAfterFirst(u, ui - 1);
    count' := count - 1;
    if ui >= |u| {
      return true, true, count';
    }
    Store(b, at, Quad1(lala, u[ui]), Encode(Octets(u)), AfterSecond(u, ui));
    assert at + 4 < b.Length;
    if count' == 0 {
      LastAfterSecond(u, ui);
      StoreLast(u, b, at + 4, Pad2(u[ui]));
      return true, false, count';
    }
    return false, false, count';
  }

  // The third word of a turn, with its two groups.
  method ThirdGroup(u: seq<Word>, b: array<char>, ui: nat, at: nat, count: nat, ghost k: nat, lala: Word)
      returns (stop: bool, overrun: bool, count': nat)
    requires ui == 3 * k + 2 && at == 16 * k + 8 && 1 <= count == |u| - 4 * k - 1
    requires ui - 1 < |u| && Underway(u, b, k, 2, AfterSecond(u, ui - 1)) && lala == u[ui - 1]
    modifies b
    ensures overrun <==> stop && |u| == 2
    ensures stop && !overrun ==> |u| > 2 && Settled(u, b)
    ensures !stop ==> count' == count - 2 >= 0 && ui < |u| && Underway(u, b, k + 1, 0, Encode(Octets(u[ui + 1..])))
  {
    hide Quad2, Quad3, Encode, Octets, TextSize, Written, Clear, Complete, Unfinished, AfterSecond;
    Room(|u|, k);
    LastAfterSecond(u, ui - 1);
    count' := count - 1;
    if ui >= |u| {
      return true, true, count';
    }
    Store(b, at, Quad2(lala, u[ui]), Encode(Octets(u)), AfterThird(u, ui));
    assert at + 4 < b.Length;
    Store(b, at + 4, Quad3(u[ui]), Encode(Octets(u)), Encode(Octets(u[ui + 1..])));
    if at + 8 >= b.Length || count' == 0 {
      RestIsEmpty(u, ui + 1);
      End(u, b, at + 8, Encode(Octets(u[ui + 1..])));
      return true, false, count';
    }
    return false, false, count' - 1;
  }

  /** The source's loop over `n` words of `u` into the buffer `b` of `l` characters, as
      `tobase64` calls it. `overrun` says that it read past the last word.

      The counter falls by four for every three words, so the text is complete for no word and
      for three to six words; one or two words are read past their end; from seven words on the
      loop stops early. SHA-1 uses five words. */
  method Base64lBe(u: seq<Word>, b: array<char>) returns (overrun: bool)
    requires b.Length == TextSize(4 * |u|)
    requires Clear(b, 0)
    modifies b
    ensures overrun <==> |u| == 1 || |u| == 2
    ensures |u| == 0 || 3 <= |u| <= 6 ==> Complete(u, b[..])
    ensures |u| >= 7 ==> Unfinished(u, b[..])
  {
    hide Encode, Octets, TextSize, Written, Clear, Complete, Unfinished, AfterFirst, AfterSecond;
    overrun := false;
    Begin(u, b);
    if |u| == 0 || b.Length == 0 {
      return;
    }
    ghost var k := 0;
    var ui: nat, at: nat, count: nat := 0, 0, |u| + 1;
    var stop := false;
    while count != 0
      invariant k >= 0 && ui == 3 * k < |u| && at == 16 * k && count == |u| + 1 - 4 * k && !overrun
      invariant Underway(u, b, k, 0, Encode(Octets(u[ui..])))
      decreases count
    {
      stop, count := FirstGroup(u, b, ui, at, count, k);
      if stop {
        return;
      }
      stop, overrun, count := SecondGroup(u, b, ui + 1, at + 4, count, k, u[ui]);
      if stop {
        return;
      }
      stop, overrun, count := ThirdGroup(u, b, ui + 2, at + 8, count, k, u[ui + 1]);
      if stop {
        return;
      }
      ui, at, k := ui + 3, at + 16, k + 1;
    }
    Room(|u|, k);
    End(u, b, at, Encode(Octets(u[ui..])));
  }

  // The text size against the words already written out.
  lemma Room(n: nat, k: nat)
    requires 3 * k < n
    ensures var l := TextSize(4 * n);
            && (n == 3 * k + 1 ==> l == 16 * k + 8)
            && (n == 3 * k + 2 ==> l == 16 * k + 12)
            && (n == 3 * k + 3 ==> l == 16 * k + 16)
            && (n > 3 * k + 3 ==> l > 16 * k + 16)
  {
    TextSizeIs(4 * n);
  }

  // What is still to be written after the first, second and third word of a triple.
  function AfterFirst(u: seq<Word>, i: nat): string
    requires i < |u|
  {
    if i + 1 == |u| then Pad1(u[i]) else Quad1(u[i], u[i + 1]) + AfterSecond(u, i + 1)
  }

  function AfterSecond(u: seq<Word>, i: nat): string
    requires i < |u|
  {
    if i + 1 == |u| then Pad2(u[i]) else Quad2(u[i], u[i + 1]) + AfterThird(u, i + 1)
  }

  function AfterThird(u: seq<Word>, i: nat): string
    requires i < |u|
  {
    Quad3(u[i]) + Encode(Octets(u[i + 1..]))
  }

  lemma EncodeRest(u: seq<Word>, i: nat)
    requires i < |u|
    ensures Encode(Octets(u[i..])) == Quad0(u[i]) + AfterFirst(u, i)
  {
    hide Quad0, Quad1, Quad2, Quad3, Pad1, Pad2, Encode, Octets;
    if i + 1 == |u| {
      assert u[i..] == [u[i]];
      EncodeOne(u[i]);
    } else if i + 2 == |u| {
      assert u[i..] == [u[i], u[i + 1]];
      EncodeTwo(u[i], u[i + 1]);
    } else {
      EncodeTriple(u[i..]);
      assert u[i..][3..] == u[i + 3..];
      Associate(Quad0(u[i]), Quad1(u[i], u[i + 1]), Quad2(u[i + 1], u[i + 2]), Quad3(u[i + 2]),
                Encode(Octets(u[i + 3..])));
    }
  }

  lemma RestIsEmpty(u: seq<Word>, i: nat)
    requires i <= |u|
    ensures i == |u| ==> Encode(Octets(u[i..])) == []
  {}

  lemma Begin(u: seq<Word>, b: array<char>)
    requires b.Length == TextSize(4 * |u|) && Clear(b, 0)
    ensures Written(Encode(Octets(u)), b, 0, Encode(Octets(u[0..])))
    ensures |u| == 0 ==> Complete(u, b[..])
    ensures |u| == 0 <==> b.Length == 0
  {
    TextSizeIs(4 * |u|);
    assert u[0..] == u && b[..0] == [];
    EncodeSize(Octets(u));
    WordsOfOctets(u);
  }

  // A full buffer with nothing left holds the text; a buffer that is not full does not.
  lemma End(u: seq<Word>, b: array<char>, at: nat, rest: string)
    requires at <= b.Length && Clear(b, at)
    ensures at == b.Length && rest == [] && Written(Encode(Octets(u)), b, at, rest) ==> Complete(u, b[..])
    ensures at < b.Length ==> Unfinished(u, b[..])
  {
    EncodeHasNoNul(Octets(u));
  }

  function DigestWords(h: Regs): seq<Word> { [h.a, h.b, h.c, h.d, h.e] }

  /** The text of a finished digest: five words, twenty bytes, twenty-eight characters, from
      which the words can be read back. */
  method ToBase64(h: Hash) returns (s: string)
    ensures h.hs == null ==> s == ""
    ensures h.hs != null ==> s == Encode(Octets(DigestWords(h.hs.hash))) && |s| == 28
    ensures h.hs != null ==> Decode(s).Some? && ToWords(Decode(s).value) == DigestWords(h.hs.hash)
  {
    hide Encode, Octets, Decode, ToWords, TextSize;
    if h.hs == null {
      return "";
    }
    var u := DigestWords(h.hs.hash);
    var hashLen := 20;
    var b := new char[TextSize(hashLen)](_ => NUL);
    var overrun := Base64lBe(u, b);
    TextSizeIs(hashLen);
    DecodeDigest(u);
    s := b[..];
  }
}
