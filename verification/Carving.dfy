/** How one chunk is divided among the block sizes (ServerCore/Memory/MemoryManger.cpp). */
module Carving {

  /** What is carved for one block size: its share of the chunk, and the size of a block with
      its header and guards. */
  datatype Share = Share(ratio: nat, realSize: nat)

  function TotalWeight(shares: seq<Share>): nat {
    if shares == [] then 0 else TotalWeight(shares[..|shares| - 1]) + shares[|shares| - 1].ratio
  }

  function AllocBytes(chunkSize: nat, share: Share, weight: nat): nat
    requires weight > 0
  {
    chunkSize * share.ratio / weight
  }

  function BlockCount(chunkSize: nat, share: Share, weight: nat): nat
    requires weight > 0 && share.realSize > 0
  {
    AllocBytes(chunkSize, share, weight) / share.realSize
  }

  function UsedBytes(chunkSize: nat, share: Share, weight: nat): (used: nat)
    requires weight > 0 && share.realSize > 0
  {
    BlockCount(chunkSize, share, weight) * share.realSize
  }

  predicate RealPositive(shares: seq<Share>) {
    forall i :: 0 <= i < |shares| ==> shares[i].realSize > 0
  }

  /** The bytes carved for all block sizes together. */
  function Carved(chunkSize: nat, shares: seq<Share>, weight: nat): nat
    requires weight > 0 && RealPositive(shares)
  {
    if shares == [] then 0
    else Carved(chunkSize, shares[..|shares| - 1], weight) + UsedBytes(chunkSize, shares[|shares| - 1], weight)
  }

  function TotalReal(shares: seq<Share>): nat {
    if shares == [] then 0 else TotalReal(shares[..|shares| - 1]) + shares[|shares| - 1].realSize
  }

  lemma DivBounds(a: nat, d: nat)
    requires d > 0
    ensures a / d * d <= a < (a / d + 1) * d
  {
  }

  /** One block size takes no more than its share, and less than one block short of it. */
  lemma UsedBounds(chunkSize: nat, share: Share, weight: nat)
    requires weight > 0 && share.realSize > 0
    ensures weight * UsedBytes(chunkSize, share, weight) <= chunkSize * share.ratio
    ensures weight * (UsedBytes(chunkSize, share, weight) + share.realSize) > chunkSize * share.ratio
  {
    var wanted := chunkSize * share.ratio;
    var bytes, used := AllocBytes(chunkSize, share, weight), UsedBytes(chunkSize, share, weight);
    DivBounds(wanted, weight);
    DivBounds(bytes, share.realSize);
    assert used <= bytes < used + share.realSize;
    MulMonotone(weight, used, bytes);
    MulMonotone(weight, bytes + 1, used + share.realSize);
  }

  lemma MulMonotone(w: nat, a: nat, b: nat)
    requires a <= b
    ensures w * a <= w * b
  {
  }

  lemma Distribute(w: nat, a: nat, b: nat)
    ensures w * (a + b) == w * a + w * b
  {
  }

  lemma {:induction false} CarvedBounds(chunkSize: nat, shares: seq<Share>, weight: nat)
    requires weight > 0 && RealPositive(shares)
    ensures weight * Carved(chunkSize, shares, weight) <= chunkSize * TotalWeight(shares)
    ensures weight * (Carved(chunkSize, shares, weight) + TotalReal(shares)) >= chunkSize * TotalWeight(shares)
    ensures shares != [] ==>
              weight * (Carved(chunkSize, shares, weight) + TotalReal(shares)) > chunkSize * TotalWeight(shares)
    decreases |shares|
  {
    if shares != [] {
      var before, last := shares[..|shares| - 1], shares[|shares| - 1];
      CarvedBounds(chunkSize, before, weight);
      UsedBounds(chunkSize, last, weight);
      var c, u := Carved(chunkSize, before, weight), UsedBytes(chunkSize, last, weight);
      var r := TotalReal(before);
      Distribute(weight, c, u);
      Distribute(weight, c + r, u + last.realSize);
      Distribute(chunkSize, TotalWeight(before), last.ratio);
      assert c + u + (r + last.realSize) == c + r + (u + last.realSize);
    }
  }

  lemma CancelWeight(w: nat, a: int, b: int)
    requires w > 0
    ensures w * a <= w * b ==> a <= b
    ensures w * a > w * b ==> a > b
  {
    if a > b {
      assert w * a == w * b + w * (a - b);
      assert w * (a - b) >= 1;
    } else {
      assert w * b == w * a + w * (b - a);
    }
  }

  lemma {:induction false} PrefixCarvesLess(chunkSize: nat, shares: seq<Share>, weight: nat, n: nat)
    requires weight > 0 && RealPositive(shares) && n <= |shares|
    ensures Carved(chunkSize, shares[..n], weight) <= Carved(chunkSize, shares, weight)
    decreases |shares|
  {
    if n < |shares| {
      PrefixCarvesLess(chunkSize, shares[..|shares| - 1], weight, n);
      assert shares[..|shares| - 1][..n] == shares[..n];
    } else {
      assert shares[..n] == shares;
    }
  }

  /** Whatever the chunk size, the ratios and the block sizes: the blocks of the first n sizes
      fit into the chunk, so carving never runs out of memory; and all of them together leave
      a tail smaller than one block of each size. */
  lemma CarvingFits(chunkSize: nat, shares: seq<Share>, n: nat)
    requires TotalWeight(shares) > 0 && RealPositive(shares) && n <= |shares|
    ensures Carved(chunkSize, shares[..n], TotalWeight(shares)) <= chunkSize
    ensures chunkSize - Carved(chunkSize, shares, TotalWeight(shares)) < TotalReal(shares)
  {
    var w := TotalWeight(shares);
    CarvedBounds(chunkSize, shares, w);
    PrefixCarvesLess(chunkSize, shares, w, n);
    assert chunkSize * w == w * chunkSize;
    CancelWeight(w, Carved(chunkSize, shares, w), chunkSize);
    CancelWeight(w, Carved(chunkSize, shares, w) + TotalReal(shares), chunkSize);
  }
}
