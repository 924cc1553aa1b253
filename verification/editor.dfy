/** The pure configuration logic of the inspector: splitting a layer mask into single-layer
    tokens, reporting transparency entries that claim the same layer, and resetting a negative
    radius. */
module ConfigurationEditor {
  import opened LayerMasks

  // ---------------------------------------------------------------------------------------------
  // Splitting a mask into single layers
  // ---------------------------------------------------------------------------------------------

  /** The bit positions k, k+1, ... set in a positive mask, ascending; stops at the first power of
      two above the mask, like the loop guard `currentLayer <= layersMask`. */
  function BitsFrom(m: nat, k: nat): (r: seq<int>)
    decreases if Pow2(k) <= m then m - Pow2(k) + 1 else 0
  {
    if m < Pow2(k) then []
    else (if Bit(m, k) then [k] else []) + BitsFrom(m, k + 1)
  }

  /** The tokens a mask contributes: "Everything" (-1) is its own token, a positive mask gives its
      set bit positions, any other mask (0 and the negative masks) gives none. */
  function SingleLayers(layersMask: int): seq<int> {
    if layersMask == Everything then [Everything]
    else if layersMask <= 0 then []
    else BitsFrom(layersMask, 0)
  }

  predicate StrictlyAscending(s: seq<int>) {
    forall i, j :: 0 <= i < j < |s| ==> s[i] < s[j]
  }

  lemma {:induction false} BitsFromBounds(m: nat, k: nat)
    ensures StrictlyAscending(BitsFrom(m, k))
    ensures forall x :: x in BitsFrom(m, k) ==> k <= x
    decreases if Pow2(k) <= m then m - Pow2(k) + 1 else 0
  {
    if Pow2(k) <= m {
      BitsFromBounds(m, k + 1);
      var rest := BitsFrom(m, k + 1);
      if Bit(m, k) {
        assert BitsFrom(m, k) == [k] + rest;
        ConsAscending(k, rest);
      } else {
        assert BitsFrom(m, k) == [] + rest == rest;
      }
    }
  }

  lemma ConsAscending(x: int, rest: seq<int>)
    requires StrictlyAscending(rest)
    requires forall y :: y in rest ==> x < y
    ensures StrictlyAscending([x] + rest)
    ensures forall y :: y in [x] + rest ==> x <= y
  {
    var all := [x] + rest;
    forall i, j | 0 <= i < j < |all| ensures all[i] < all[j] {
      assert all[j] == rest[j - 1];
      assert rest[j - 1] in rest;
      if i > 0 {
        assert all[i] == rest[i - 1];
      }
    }
  }

  lemma {:induction false} BitsFromMembers(m: nat, k: nat, j: nat)
    requires k <= j
    ensures j in BitsFrom(m, k) <==> Bit(m, j)
    decreases if Pow2(k) <= m then m - Pow2(k) + 1 else 0
  {
    if m < Pow2(k) {
      Pow2Monotonic(k, j);
      BitAboveValue(m, j);
    } else if j == k {
      BitsFromBounds(m, k + 1);
    } else {
      BitsFromMembers(m, k + 1, j);
    }
  }

  lemma BitsFromExact(m: nat, k: nat)
    ensures StrictlyAscending(BitsFrom(m, k))
    ensures forall x :: x in BitsFrom(m, k) ==> k <= x
    ensures forall j: nat :: k <= j ==> (j in BitsFrom(m, k) <==> Bit(m, j))
  {
    BitsFromBounds(m, k);
    forall j: nat | k <= j ensures j in BitsFrom(m, k) <==> Bit(m, j) {
      BitsFromMembers(m, k, j);
    }
  }

  /** The tokens of a positive mask are its set bit positions, each once, in ascending order. */
  lemma SingleLayersOfPositive(layersMask: int)
    requires 0 < layersMask
    ensures StrictlyAscending(SingleLayers(layersMask))
    ensures forall x :: x in SingleLayers(layersMask) ==> 0 <= x
    ensures forall j: nat :: j in SingleLayers(layersMask) <==> Bit(layersMask, j)
  {
    BitsFromExact(layersMask, 0);
  }

  /** No token occurs twice in the tokens of one mask. */
  lemma SingleLayersDistinct(layersMask: int)
    ensures StrictlyAscending(SingleLayers(layersMask))
  {
    if 0 < layersMask {
      SingleLayersOfPositive(layersMask);
    }
  }

  /** Only the "Everything" mask yields the -1 token; every other token is a layer index. */
  lemma SingleLayersTokens(layersMask: int, x: int)
    requires x in SingleLayers(layersMask)
    ensures x == Everything <==> layersMask == Everything
    ensures x != Everything ==> 0 <= x
  {
    if 0 < layersMask {
      SingleLayersOfPositive(layersMask);
    }
  }

  /** One round of the loop: the bit at `index` is appended when set, and the rest of the mask
      is still to be examined. */
  lemma SplitStep(m: nat, index: nat, result: seq<int>)
    requires Pow2(index) <= m <= Int32Max
    requires result + BitsFrom(m, index) == BitsFrom(m, 0)
    ensures (if HasLayer(m, index) then result + [index] else result) + BitsFrom(m, index + 1) == BitsFrom(m, 0)
  {
    HasLayerOfNonNegative(m, index);
    assert BitsFrom(m, index) == (if Bit(m, index) then [index] else []) + BitsFrom(m, index + 1);
    if Bit(m, index) {
      assert result + [index] + BitsFrom(m, index + 1) == result + ([index] + BitsFrom(m, index + 1));
    }
  }

  /** `SplitIntoSingleLayers`, with `currentLayer` as an unbounded integer (see the finding on the
      as-written 32-bit shift below). `index` is the exact base-2 logarithm of `currentLayer`,
      the value `(int) Mathf.Log(currentLayer, 2)` computes. */
  method SplitIntoSingleLayers(layersMask: int) returns (result: seq<int>)
    requires IsInt32(layersMask)
    ensures result == SingleLayers(layersMask)
  {
    if layersMask == Everything {
      result := [Everything];
      return;
    }
    if layersMask == 0 {
      return [];
    }
    result := [];
    var currentLayer := 1;
    var index: nat := 0;
    while currentLayer <= layersMask
      invariant currentLayer == Pow2(index)
      invariant layersMask < 0 ==> result == []
      invariant 0 < layersMask ==> result + BitsFrom(layersMask, index) == BitsFrom(layersMask, 0)
      decreases layersMask - currentLayer
    {
      SplitStep(layersMask, index, result);
      if HasLayer(layersMask, index) {
        result := result + [index];
      }
      currentLayer := currentLayer * 2;
      index := index + 1;
    }
    assert 0 < layersMask ==> BitsFrom(layersMask, index) == [];
  }

  // ---------------------------------------------------------------------------------------------
  // The loop as written, with 32-bit `currentLayer << 1`
  // ---------------------------------------------------------------------------------------------

  /** `currentLayer << 1` on a C# int: shifts never trap, they wrap. */
  function ShiftLeftOnce(currentLayer: int): int {
    Wrap32(2 * currentLayer)
  }

  /** Whether the loop `while (currentLayer <= layersMask) { ...; currentLayer = currentLayer << 1; }`
      leaves within `fuel` iterations when `currentLayer` is a 32-bit int. */
  predicate LoopExitsAsWritten(layersMask: int, currentLayer: int, fuel: nat)
    decreases fuel
  {
    !(currentLayer <= layersMask) ||
    (fuel > 0 && LoopExitsAsWritten(layersMask, ShiftLeftOnce(currentLayer), fuel - 1))
  }

  lemma {:induction false} Pow2Small(k: nat)
    requires k <= 30
    ensures Pow2(k) <= 0x4000_0000
    ensures k == 30 ==> Pow2(k) == 0x4000_0000
  {
    Pow2Monotonic(k, 30);
    Pow2Of30();
  }

  /** For a positive mask below 2^30 the as-written loop leaves within 31 iterations. */
  lemma {:induction false} SplitLoopExitsBelowLayer30(layersMask: int, k: nat)
    requires 0 < layersMask < 0x4000_0000
    requires k <= 30
    ensures LoopExitsAsWritten(layersMask, Pow2(k), 31 - k)
    decreases 30 - k
  {
    Pow2Small(k);
    if Pow2(k) <= layersMask {
      if k == 30 {
        assert false;
      }
      Pow2Small(k + 1);
      assert ShiftLeftOnce(Pow2(k)) == Pow2(k + 1);
      SplitLoopExitsBelowLayer30(layersMask, k + 1);
    }
  }

  lemma {:induction false} LoopStuckAtZero(layersMask: int, fuel: nat)
    requires 0 <= layersMask
    ensures !LoopExitsAsWritten(layersMask, 0, fuel)
    decreases fuel
  {
    if fuel > 0 {
      assert ShiftLeftOnce(0) == 0;
      LoopStuckAtZero(layersMask, fuel - 1);
    }
  }

  lemma {:induction false} LoopStuckFromPow2(layersMask: int, k: nat, fuel: nat)
    requires 0x4000_0000 <= layersMask <= Int32Max
    requires k <= 30
    ensures !LoopExitsAsWritten(layersMask, Pow2(k), fuel)
    decreases fuel
  {
    Pow2Small(k);
    if fuel > 0 {
      if k < 30 {
        Pow2Small(k + 1);
        assert ShiftLeftOnce(Pow2(k)) == Pow2(k + 1);
        LoopStuckFromPow2(layersMask, k + 1, fuel - 1);
      } else {
        // 2^30 << 1 wraps to int.MinValue, which is below every mask; int.MinValue << 1 is 0
        assert ShiftLeftOnce(Pow2(k)) == Int32Min;
        if fuel > 1 {
          assert ShiftLeftOnce(Int32Min) == 0;
          LoopStuckAtZero(layersMask, fuel - 2);
        }
      }
    }
  }

  /** A mask with layer 30 set and layer 31 clear makes the as-written loop run forever:
      `currentLayer` goes 1, 2, ..., 2^30, int.MinValue, 0, 0, ... and stays `<= layersMask`. */
  lemma SplitHangsWithLayer30(layersMask: int, fuel: nat)
    requires 0x4000_0000 <= layersMask <= Int32Max
    ensures !LoopExitsAsWritten(layersMask, 1, fuel)
  {
    LoopStuckFromPow2(layersMask, 0, fuel);
  }

  // ---------------------------------------------------------------------------------------------
  // Ambiguous transparency entries
  // ---------------------------------------------------------------------------------------------

  /** The tokens of all entries, entry after entry (`configuredLayers.AddRange(...)`). */
  function ConfiguredLayers(masks: seq<int>): seq<int> {
    if masks == [] then []
    else ConfiguredLayers(masks[..|masks| - 1]) + SingleLayers(masks[|masks| - 1])
  }

  /** The loop over the entries that collects their tokens. */
  method CollectConfiguredLayers(masks: seq<int>) returns (configuredLayers: seq<int>)
    requires forall i :: 0 <= i < |masks| ==> IsInt32(masks[i])
    ensures configuredLayers == ConfiguredLayers(masks)
  {
    configuredLayers := [];
    for i := 0 to |masks|
      invariant configuredLayers == ConfiguredLayers(masks[..i])
    {
      var layers := SplitIntoSingleLayers(masks[i]);
      assert masks[..i + 1][..i] == masks[..i];
      configuredLayers := configuredLayers + layers;
    }
    assert masks[..|masks|] == masks;
  }

  /** The distinct elements of a sequence in order of first appearance (the order of `GroupBy`). */
  function Distinct(s: seq<int>): (r: seq<int>)
    ensures forall x :: x in r <==> x in s
  {
    if s == [] then []
    else
      var r := Distinct(s[..|s| - 1]);
      assert forall x :: x in s <==> x in s[..|s| - 1] || x == s[|s| - 1];
      if s[|s| - 1] in r then r else r + [s[|s| - 1]]
  }

  predicate NoDuplicates(s: seq<int>) {
    forall i, j :: 0 <= i < j < |s| ==> s[i] != s[j]
  }

  lemma {:induction false} DistinctHasNoDuplicates(s: seq<int>)
    ensures NoDuplicates(Distinct(s))
  {
    if s != [] {
      DistinctHasNoDuplicates(s[..|s| - 1]);
    }
  }

  /** Keeps, in order, the keys that occur more than once in `all` (`Where(group.Count() > 1)`). */
  function Repeated(keys: seq<int>, all: seq<int>): (r: seq<int>)
    ensures forall x :: x in r <==> x in keys && multiset(all)[x] > 1
  {
    if keys == [] then []
    else
      var r := Repeated(keys[..|keys| - 1], all);
      assert forall x :: x in keys <==> x in keys[..|keys| - 1] || x == keys[|keys| - 1];
      if multiset(all)[keys[|keys| - 1]] > 1 then r + [keys[|keys| - 1]] else r
  }

  /** The tokens the inspector reports as ambiguous (`GroupBy` / `Where` / `Select`); the token -1
      is displayed as "Everything", the others by their layer names. */
  function AmbiguousLayers(configuredLayers: seq<int>): seq<int> {
    Repeated(Distinct(configuredLayers), configuredLayers)
  }

  lemma {:induction false} RepeatedKeepsNoDuplicates(keys: seq<int>, all: seq<int>)
    requires NoDuplicates(keys)
    ensures NoDuplicates(Repeated(keys, all))
  {
    if keys != [] {
      RepeatedKeepsNoDuplicates(keys[..|keys| - 1], all);
    }
  }

  /** The report lists exactly the tokens occurring more than once, each once. */
  lemma AmbiguousLayersExact(configuredLayers: seq<int>)
    ensures forall x :: x in AmbiguousLayers(configuredLayers) <==> multiset(configuredLayers)[x] >= 2
    ensures NoDuplicates(AmbiguousLayers(configuredLayers))
  {
    DistinctHasNoDuplicates(configuredLayers);
    RepeatedKeepsNoDuplicates(Distinct(configuredLayers), configuredLayers);
    forall x ensures x in AmbiguousLayers(configuredLayers) <==> multiset(configuredLayers)[x] >= 2 {
      assert multiset(configuredLayers)[x] > 0 <==> x in configuredLayers;
    }
  }

  /** The token list of each entry, in entry order. */
  function TokenLists(masks: seq<int>): (lists: seq<seq<int>>)
    ensures |lists| == |masks|
    ensures forall i :: 0 <= i < |masks| ==> lists[i] == SingleLayers(masks[i])
  {
    seq(|masks|, i requires 0 <= i < |masks| => SingleLayers(masks[i]))
  }

  /** The number of entries whose token list includes `token`. */
  function ClaimCount(lists: seq<seq<int>>, token: int): nat {
    if lists == [] then 0
    else ClaimCount(lists[..|lists| - 1], token) + (if token in lists[|lists| - 1] then 1 else 0)
  }

  /** Some entry claims the token. */
  predicate ClaimedOnce(lists: seq<seq<int>>, token: int) {
    exists i :: 0 <= i < |lists| && token in lists[i]
  }

  /** Some two different entries both claim the token. */
  predicate ClaimedTwice(lists: seq<seq<int>>, token: int) {
    exists i, j :: 0 <= i < j < |lists| && token in lists[i] && token in lists[j]
  }

  lemma StrictlyAscendingCount(s: seq<int>, x: int)
    requires StrictlyAscending(s)
    ensures multiset(s)[x] == if x in s then 1 else 0
  {
    if s != [] {
      var t := s[..|s| - 1];
      assert s == t + [s[|s| - 1]];
      StrictlyAscendingCount(t, x);
      if x == s[|s| - 1] {
        assert x !in t;
      }
    }
  }

  /** A token occurs in the collected list once per entry that claims it. */
  lemma {:induction false} ConfiguredLayersCount(masks: seq<int>, token: int)
    ensures multiset(ConfiguredLayers(masks))[token] == ClaimCount(TokenLists(masks), token)
  {
    if masks != [] {
      var n := |masks| - 1;
      ConfiguredLayersCount(masks[..n], token);
      assert TokenLists(masks)[..n] == TokenLists(masks[..n]);
      SingleLayersDistinct(masks[n]);
      StrictlyAscendingCount(SingleLayers(masks[n]), token);
    }
  }

  lemma {:induction false} ClaimCountAtLeastTwo(lists: seq<seq<int>>, token: int)
    ensures ClaimCount(lists, token) >= 2 <==> ClaimedTwice(lists, token)
  {
    if lists != [] {
      var n := |lists| - 1;
      var init := lists[..n];
      ClaimCountAtLeastTwo(init, token);
      ClaimCountPositive(init, token);
      if ClaimCount(lists, token) >= 2 {
        if ClaimCount(init, token) >= 2 {
          var i, j :| 0 <= i < j < n && token in init[i] && token in init[j];
          assert init[i] == lists[i] && init[j] == lists[j];
        } else {
          var i :| 0 <= i < n && token in init[i];
          assert init[i] == lists[i];
        }
      }
      if ClaimedTwice(lists, token) {
        var i, j :| 0 <= i < j < |lists| && token in lists[i] && token in lists[j];
        assert init[i] == lists[i];
        if j < n {
          assert init[j] == lists[j];
          assert ClaimedTwice(init, token);
        } else {
          assert ClaimedOnce(init, token);
        }
      }
    }
  }

  lemma {:induction false} ClaimCountPositive(lists: seq<seq<int>>, token: int)
    ensures ClaimCount(lists, token) >= 1 <==> ClaimedOnce(lists, token)
  {
    if lists != [] {
      var n := |lists| - 1;
      var init := lists[..n];
      ClaimCountPositive(init, token);
      assert forall i :: 0 <= i < n ==> init[i] == lists[i];
    }
  }

  /** The inspector reports a token exactly when two different entries claim it, each token once. */
  lemma AmbiguousLayersAreSharedTokens(masks: seq<int>, token: int)
    ensures token in AmbiguousLayers(ConfiguredLayers(masks)) <==> ClaimedTwice(TokenLists(masks), token)
    ensures NoDuplicates(AmbiguousLayers(ConfiguredLayers(masks)))
  {
    AmbiguousLayersExact(ConfiguredLayers(masks));
    ConfiguredLayersCount(masks, token);
    ClaimCountAtLeastTwo(TokenLists(masks), token);
  }

  /** An "Everything" entry next to any other single entry is not reported: -1 is a token of its
      own, so the entry that overrides the default is not flagged. */
  lemma EverythingWithOneOverrideIsNotAmbiguous(layersMask: int)
    requires layersMask != Everything
    ensures AmbiguousLayers(ConfiguredLayers([Everything, layersMask])) == []
  {
    var masks := [Everything, layersMask];
    var report := AmbiguousLayers(ConfiguredLayers(masks));
    if report != [] {
      var token := report[0];
      AmbiguousLayersAreSharedTokens(masks, token);
      assert token in SingleLayers(Everything) && token in SingleLayers(layersMask);
      SingleLayersTokens(layersMask, token);
      assert false;
    }
  }

  // ---------------------------------------------------------------------------------------------
  // General settings
  // ---------------------------------------------------------------------------------------------

  /** The radius field after the inspector has drawn it: a negative entry is reset to 0. */
  function ResetNegativeRadius(radius: real): (stored: real)
    ensures 0.0 <= stored
    ensures 0.0 <= radius ==> stored == radius
    ensures radius < 0.0 ==> stored == 0.0
  {
    if radius < 0.0 then 0.0 else radius
  }
}
