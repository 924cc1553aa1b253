/** Unity layer masks.

    A layer mask is a C# `int` (a `LayerMask.value`): bit k stands for layer k, layers are 0..31,
    so layer 31 is the sign bit. Bitwise tests are stated on the two's complement bit pattern,
    i.e. on the mask reduced modulo 2^32. */
module LayerMasks {

  const TwoTo32: int := 0x1_0000_0000
  const Int32Min: int := -0x8000_0000
  const Int32Max: int := 0x7FFF_FFFF

  /** Number of layers Unity provides. */
  const LayerCount: nat := 32

  /** The mask value that the inspector shows as "Everything". */
  const Everything: int := -1

  predicate IsInt32(x: int) {
    Int32Min <= x <= Int32Max
  }

  function Pow2(k: nat): (p: nat)
    ensures p >= 1
  {
    if k == 0 then 1 else 2 * Pow2(k - 1)
  }

  lemma {:induction false} Pow2Monotonic(j: nat, k: nat)
    requires j <= k
    ensures Pow2(j) <= Pow2(k)
    decreases k
  {
    if j < k {
      Pow2Monotonic(j, k - 1);
    }
  }

  /** Bit k of a non-negative integer. */
  predicate Bit(u: nat, k: nat) {
    (u / Pow2(k)) % 2 == 1
  }

  /** A bit above the highest power of two not exceeding `u` is clear. */
  lemma BitAboveValue(u: nat, k: nat)
    requires u < Pow2(k)
    ensures !Bit(u, k)
  {
    DivUnique(u, Pow2(k), 0, u);
  }

  /** Two's complement wrap-around of a C# `int` computation. */
  function Wrap32(x: int): (w: int)
    ensures IsInt32(w)
    ensures IsInt32(x) ==> w == x
    ensures (w - x) % TwoTo32 == 0
  {
    (x - Int32Min) % TwoTo32 + Int32Min
  }

  /** `mask == (mask | (1 << layer))`: the layer's bit is set in the mask's bit pattern
      (for layer 31 the C# value `(int)Mathf.Pow(2, 31)` is the sign bit, int.MinValue). */
  predicate HasLayer(mask: int, layer: nat) {
    Bit(mask % TwoTo32, layer)
  }

  /** `(mask & (int)Mathf.Pow(2, layer)) > 0`, the test the transparency scan uses: for layer 31
      the conjunction is 0 or int.MinValue, never positive, so layer 31 never matches. */
  predicate MatchesPositively(mask: int, layer: nat)
    requires layer < LayerCount
  {
    layer < LayerCount - 1 && HasLayer(mask, layer)
  }

  lemma HasLayerOfNonNegative(mask: int, layer: nat)
    requires 0 <= mask <= Int32Max
    ensures HasLayer(mask, layer) <==> Bit(mask, layer)
  {
    assert mask % TwoTo32 == mask;
  }

  /** The "Everything" mask contains every layer. */
  lemma {:induction false} EverythingHasEveryLayer(layer: nat)
    requires layer < LayerCount
    ensures HasLayer(Everything, layer)
  {
    Pow2Of32();
    AllOnesBit(32, layer);
  }

  lemma Pow2Of30()
    ensures Pow2(30) == 0x4000_0000
  {
    assert Pow2(8) == 0x100;
    assert Pow2(16) == 0x1_0000;
    assert Pow2(24) == 0x100_0000;
  }

  lemma Pow2Of32()
    ensures Pow2(32) == TwoTo32
  {
    assert Pow2(8) == 0x100;
    assert Pow2(16) == 0x1_0000;
    assert Pow2(24) == 0x100_0000;
  }

  lemma {:induction false} AllOnesBit(n: nat, k: nat)
    requires k < n
    ensures Bit(Pow2(n) - 1, k)
    decreases k
  {
    if k == 0 {
      assert Pow2(n) == 2 * Pow2(n - 1);
    } else {
      // (2^n - 1) / 2^k == (2^(n-1) - 1) / 2^(k-1)
      var a := Pow2(n - 1) - 1;
      assert Pow2(n) - 1 == 2 * a + 1;
      DivTwice(2 * a + 1, Pow2(k - 1));
      assert (2 * a + 1) / 2 == a;
      AllOnesBit(n - 1, k - 1);
    }
  }

  /** u / (2p) == (u / 2) / p, so bit k of u is bit k-1 of u / 2. */
  lemma DivTwice(u: nat, p: nat)
    requires p >= 1
    ensures u / (2 * p) == (u / 2) / p
  {
    var q := (u / 2) / p;
    var r := (u / 2) % p;
    assert u / 2 == q * p + r;
    assert u == 2 * (q * p + r) + u % 2;
    assert u == q * (2 * p) + (2 * r + u % 2);
    assert 0 <= 2 * r + u % 2 < 2 * p;
    DivUnique(u, 2 * p, q, 2 * r + u % 2);
  }

  /** Quotients are unique: the only q with u == q * d + r and 0 <= r < d is u / d. */
  lemma DivUnique(u: int, d: int, q: int, r: int)
    requires d > 0 && 0 <= r < d && u == q * d + r
    ensures u / d == q
  {
    var q', r' := u / d, u % d;
    assert u == q' * d + r';
    assert (q - q') * d == r' - r;
    if q > q' {
      MulAtLeast(q - q', d);
    } else if q < q' {
      assert (q' - q) * d == r - r';
      MulAtLeast(q' - q, d);
    }
  }

  lemma MulAtLeast(k: int, d: int)
    requires k >= 1 && d > 0
    ensures k * d >= d
  {
    assert k * d == (k - 1) * d + d;
    assert (k - 1) * d >= 0;
  }
}
