/** The rejection sampler `arc4random_uniform` of src/arc4random.cpp: its 32-bit arithmetic and
    why the result is exactly uniform. */
module Arc4Uniform {
  import opened MachineTypes
  import opened Division

  // Unsigned 32-bit arithmetic.
  function Low32(x: int): uint32 { x % TWO_TO_THE_32 }
  function Not32(x: uint32): uint32 { TWO_TO_THE_32 - 1 - x }

  // The source's threshold, computed without 64-bit arithmetic.
  function Min(upper: uint32): uint32
    requires upper >= 2
  {
    if upper > 0x8000_0000 then Low32(1 + Not32(upper))
    else Low32(Low32(0xffff_ffff - Low32(upper * 2)) + 1) % upper
  }

  lemma MinHigh(upper: uint32)
    requires upper > 0x8000_0000
    ensures Min(upper) == TWO_TO_THE_32 - upper
  {}

  lemma MinLow(upper: uint32)
    requires 2 <= upper < 0x8000_0000
    ensures Min(upper) == (TWO_TO_THE_32 - upper * 2) % upper
  {
    hide Low32;
    Low32Is(upper * 2);
    Low32Is(0xffff_ffff - upper * 2);
    Low32Is(TWO_TO_THE_32 - upper * 2);
  }

  lemma Low32Is(x: int)
    requires 0 <= x < TWO_TO_THE_32
    ensures Low32(x) == x
  {}

  lemma MinMiddle()
    ensures Min(0x8000_0000) == 0
  {}

  /** Both branches give 2^32 mod the bound. */
  lemma MinIs(upper: uint32)
    requires upper >= 2
    ensures Min(upper) == TWO_TO_THE_32 % upper < upper
  {
    hide Min;
    if upper > 0x8000_0000 {
      MinHigh(upper);
      RemainderIs(TWO_TO_THE_32, upper, 1, TWO_TO_THE_32 - upper);
    } else if upper < 0x8000_0000 {
      MinLow(upper);
      var x := TWO_TO_THE_32 - upper * 2;
      Divides(x, upper);
      MinBelowHalf(upper, x / upper, x % upper);
    } else {
      MinMiddle();
      RemainderIs(TWO_TO_THE_32, upper, 2, 0);
    }
  }

  lemma MinBelowHalf(upper: nat, q: nat, r: nat)
    requires r < upper && TWO_TO_THE_32 - upper * 2 == upper * q + r
    ensures TWO_TO_THE_32 % upper == r
  {
    assert upper * (q + 2) == upper * q + upper * 2;
    RemainderIs(TWO_TO_THE_32, upper, q + 2, r);
  }

  predicate Within(r: int, lo: nat, n: nat) { lo <= r < lo + n }

  ghost function From(lo: nat, n: nat): set<int> { set r | lo <= r < lo + n && Within(r, lo, n) }

  // The values of a draw that are not rejected, and those of them that give `k`.
  ghost function Accepted(upper: uint32): set<int>
    requires upper >= 2
  {
    From(Min(upper), TWO_TO_THE_32 - Min(upper))
  }

  ghost function Giving(upper: uint32, k: nat): set<int>
    requires upper >= 2
  {
    set r | r in Accepted(upper) && r % upper == k
  }


  lemma {:induction false} FromSize(lo: nat, n: nat)
    ensures |From(lo, n)| == n
  {
    if n == 0 {
      assert From(lo, 0) == {};
    } else {
      FromSize(lo, n - 1);
      assert From(lo, n) == From(lo, n - 1) + {lo + n - 1};
    }
  }

  // The multiples of `d` shifted by `k`, between `lo` and `lo + d * q`.
  ghost function Class(lo: nat, d: nat, q: nat, k: nat): set<int>
    requires d > 0
  {
    set r | r in From(lo, d * q) && r % d == k
  }

  lemma ValueInWindow(lo: nat, d: nat, k: nat) returns (v: nat)
    requires k < d
    ensures lo <= v < lo + d && v % d == k
  {
    var q, m := lo / d, lo % d;
    var base := d * q;
    assert lo == base + m && d * (q + 1) == base + d;
    if m <= k {
      v := base + k;
      RemainderIs(v, d, q, k);
    } else {
      v := base + d + k;
      RemainderIs(v, d, q + 1, k);
    }
  }

  // In `d` consecutive numbers each remainder occurs once.
  lemma OnePerWindow(lo: nat, d: nat, k: nat)
    requires k < d
    ensures |set r | r in From(lo, d) && r % d == k| == 1
  {
    var v := ValueInWindow(lo, d, k);
    forall r | r in From(lo, d) && r % d == k
      ensures r == v
    {
      SameClass(r, v, d);
    }
    assert (set r | r in From(lo, d) && r % d == k) == {v};
  }

  lemma SameClass(x: nat, y: nat, d: nat)
    requires d > 0 && x % d == y % d && x < y + d && y < x + d
    ensures x == y
  {
    assert x == d * (x / d) + x % d && y == d * (y / d) + y % d;
    MulStep(d, x / d, y / d);
    MulStep(d, y / d, x / d);
  }

  lemma FromSplits(lo: nat, n: nat, d: nat)
    ensures From(lo, n + d) == From(lo, n) + From(lo + n, d)
    ensures From(lo, n) !! From(lo + n, d)
  {}

  lemma {:induction false} ClassSize(lo: nat, d: nat, q: nat, k: nat)
    requires k < d
    ensures |Class(lo, d, q, k)| == q
  {
    hide From;
    if q == 0 {
      assert d * q == 0;
      FromSize(lo, 0);
      assert From(lo, 0) == {};
      assert Class(lo, d, q, k) == {};
    } else {
      ClassSize(lo, d, q - 1, k);
      var n := d * (q - 1);
      assert d * q == n + d;
      FromSplits(lo, n, d);
      OnePerWindow(lo + n, d, k);
      var window := set r | r in From(lo + n, d) && r % d == k;
      assert Class(lo, d, q, k) == Class(lo, d, q - 1, k) + window;
    }
  }

  /** Exact uniformity: every result below the bound comes from the same number of accepted
      draws, and more than half of all draws are accepted. */
  lemma Uniformity(upper: uint32, k: uint32)
    requires 2 <= upper && k < upper
    ensures |Giving(upper, k)| == (TWO_TO_THE_32 - Min(upper)) / upper == TWO_TO_THE_32 / upper
    ensures |Accepted(upper)| == TWO_TO_THE_32 - Min(upper)
    ensures 2 * |Accepted(upper)| > TWO_TO_THE_32
  {
    MinIs(upper);
    var m, q := Min(upper), TWO_TO_THE_32 / upper;
    assert TWO_TO_THE_32 == upper * q + m;
    RemainderIs(TWO_TO_THE_32 - m, upper, q, 0);
    FromSize(m, TWO_TO_THE_32 - m);
    assert Accepted(upper) == From(m, TWO_TO_THE_32 - m);
    ClassSize(m, upper, q, k);
    assert Giving(upper, k) == Class(m, upper, q, k);
    if upper > 0x8000_0000 {
      assert m == TWO_TO_THE_32 - upper;
    }
  }

  // The sampler on the draws it is given: the first that is not rejected, reduced.
  function Pick(upper: uint32, draws: seq<uint32>): (r: Option<uint32>)
    requires upper >= 2
    ensures r.Some? ==> r.value < upper
    ensures r.None? <==> forall k :: 0 <= k < |draws| ==> draws[k] < Min(upper)
  {
    if |draws| == 0 then None
    else if draws[0] >= Min(upper) then Some(draws[0] % upper)
    else Pick(upper, draws[1..])
  }

  /** Of a stream that begins with any number of rejected draws and one that is not, that one alone
      decides, and it gives each result on the draws that `Uniformity` counts for it. */
  lemma {:induction false} PickDecides(upper: uint32, rejected: seq<uint32>, d: uint32, rest: seq<uint32>, k: uint32)
    requires upper >= 2 && TWO_TO_THE_32 % upper <= d
    requires forall i :: 0 <= i < |rejected| ==> rejected[i] < TWO_TO_THE_32 % upper
    ensures Pick(upper, rejected + [d] + rest) == Some(k) <==> d in Giving(upper, k)
    ensures d in Giving(upper, k) <==> d % upper == k
  {
    hide Min;
    MinIs(upper);
    var draws := rejected + [d] + rest;
    if |rejected| > 0 {
      PickDecides(upper, rejected[1..], d, rest, k);
      assert draws[0] == rejected[0] && draws[1..] == rejected[1..] + [d] + rest;
    } else {
      assert draws[0] == d;
    }
  }
}
