/** Manifest chains and the bounded ancestry walk over them
    (follow/equivalence.go, follow/manifest.go). */
module Manifests {
  import opened Dag

  /** A manifest block: its links, whether its CID says dag-cbor, and the rest of
      its bytes. */
  datatype Manifest = Manifest(links: seq<Manifest>, dagCbor: bool, tag: nat)

  const MAX_MANIFEST_WALK: nat := 4096

  /** What one walk learns about `ancestor`, starting at `current` with some hops
      left. Blocks outside `held` cannot be read. */
  datatype Walk = Reached | Genesis | Unproven

  predicate Readable(held: set<Manifest>, m: Manifest) {
    m.dagCbor && m in held && |m.links| <= 1
  }

  function Descends(held: set<Manifest>, current: Manifest, ancestor: Manifest, hops: nat): Walk
    decreases hops
  {
    if hops == 0 then Unproven
    else if current == ancestor then Reached
    else if !Readable(held, current) then Unproven
    else if current.links == [] then Genesis
    else Descends(held, current.links[0], ancestor, hops - 1)
  }

  /** manifestDescends. */
  method ManifestDescends(held: set<Manifest>, descendant: Manifest, ancestor: Manifest) returns (r: Walk)
    ensures r == Descends(held, descendant, ancestor, MAX_MANIFEST_WALK)
  {
    var current := descendant;
    for hops := 0 to MAX_MANIFEST_WALK
      invariant Descends(held, current, ancestor, MAX_MANIFEST_WALK - hops) ==
                Descends(held, descendant, ancestor, MAX_MANIFEST_WALK)
    {
      if current == ancestor { return Reached; }
      if !current.dagCbor || current !in held { return Unproven; }
      if |current.links| == 0 { return Genesis; }
      if |current.links| > 1 { return Unproven; }
      current := current.links[0];
    }
    return Unproven;
  }

  /* ---- Distance along a chain ---- */

  /** The ancestor is k readable links away from m. */
  ghost predicate Away(held: set<Manifest>, m: Manifest, ancestor: Manifest, k: nat) {
    if k == 0 then m == ancestor
    else m != ancestor && Readable(held, m) && |m.links| == 1 && Away(held, m.links[0], ancestor, k - 1)
  }

  /** The walk reaches every ancestor that is fewer hops away than it allows ... */
  lemma {:induction false} NearIsReached(held: set<Manifest>, m: Manifest, ancestor: Manifest, hops: nat, k: nat)
    requires k < hops && Away(held, m, ancestor, k)
    ensures Descends(held, m, ancestor, hops).Reached?
    decreases k
  {
    if k > 0 { NearIsReached(held, m.links[0], ancestor, hops - 1, k - 1); }
  }

  /** ... and no others. */
  lemma {:induction false} ReachedIsNear(held: set<Manifest>, m: Manifest, ancestor: Manifest, hops: nat)
    returns (k: nat)
    requires Descends(held, m, ancestor, hops).Reached?
    ensures k < hops && Away(held, m, ancestor, k)
    decreases hops
  {
    if m == ancestor {
      k := 0;
    } else {
      var j := ReachedIsNear(held, m.links[0], ancestor, hops - 1);
      k := j + 1;
    }
  }

  /** Distances add up. */
  lemma {:induction false} AwayAdds(held: set<Manifest>, a: Manifest, b: Manifest, c: Manifest, j: nat, k: nat)
    requires Away(held, a, b, j) && Away(held, b, c, k)
    ensures Away(held, a, c, j + k)
    decreases j
  {
    if j > 0 {
      AwayAdds(held, a.links[0], b, c, j - 1, k);
      Contained(held, a.links[0], c, j - 1 + k);
    }
  }

  /** An ancestor is part of its descendants, so chains have no cycles. */
  lemma {:induction false} Contained(held: set<Manifest>, m: Manifest, ancestor: Manifest, k: nat)
    requires Away(held, m, ancestor, k)
    ensures m == ancestor || Depth(m) > Depth(ancestor)
    ensures k > 0 ==> Depth(m) > Depth(ancestor)
    decreases k
  {
    if k > 0 { Contained(held, m.links[0], ancestor, k - 1); }
  }

  /** The length of the chain below the first link of each block. */
  function Depth(m: Manifest): nat {
    if m.links == [] then 0 else 1 + Depth(m.links[0])
  }

  /** Distance is the difference in chain length. */
  lemma {:induction false} AwayIsDepth(held: set<Manifest>, m: Manifest, ancestor: Manifest, k: nat)
    requires Away(held, m, ancestor, k)
    ensures Depth(m) == Depth(ancestor) + k
    decreases k
  {
    if k > 0 { AwayIsDepth(held, m.links[0], ancestor, k - 1); }
  }

  /** Two manifests never descend from each other. */
  lemma {:induction false} NotBothWays(held: set<Manifest>, a: Manifest, b: Manifest, hops: nat)
    requires a != b
    ensures !(Descends(held, a, b, hops).Reached? && Descends(held, b, a, hops).Reached?)
  {
    if Descends(held, a, b, hops).Reached? && Descends(held, b, a, hops).Reached? {
      var j := ReachedIsNear(held, a, b, hops);
      var k := ReachedIsNear(held, b, a, hops);
      Contained(held, a, b, j);
      Contained(held, b, a, k);
    }
  }

  /** A walk that ends at genesis passed every ancestor it has: nothing further
      down the same chain is its ancestor either. */
  lemma {:induction false} GenesisIsFinal(held: set<Manifest>, m: Manifest, ancestor: Manifest, hops: nat, k: nat)
    requires Descends(held, m, ancestor, hops).Genesis?
    ensures !Away(held, m, ancestor, k)
    decreases hops
  {
    if k > 0 && m.links != [] { GenesisIsFinal(held, m.links[0], ancestor, hops - 1, k - 1); }
  }

  /** Every block of the chain can be read, down to genesis. */
  ghost predicate WholeChain(held: set<Manifest>, m: Manifest) {
    Readable(held, m) && (m.links != [] ==> WholeChain(held, m.links[0]))
  }

  /** The walk ends at genesis exactly when it does not meet the ancestor and the
      whole chain is readable and short enough. */
  lemma {:induction false} GenesisIff(held: set<Manifest>, m: Manifest, ancestor: Manifest, hops: nat)
    ensures Descends(held, m, ancestor, hops).Genesis? <==>
            !Descends(held, m, ancestor, hops).Reached? && WholeChain(held, m) && Depth(m) < hops
    decreases hops
  {
    if hops > 0 && m != ancestor && Readable(held, m) && m.links != [] {
      GenesisIff(held, m.links[0], ancestor, hops - 1);
    }
  }

  /** Two ancestors of one manifest lie on one chain. */
  lemma {:induction false} SameChain(held: set<Manifest>, m: Manifest, a: Manifest, b: Manifest, j: nat, k: nat)
    requires Away(held, m, a, j) && Away(held, m, b, k) && j <= k
    ensures Away(held, a, b, k - j)
    decreases j
  {
    if j > 0 { SameChain(held, m.links[0], a, b, j - 1, k - 1); }
  }

  /* ---- Ancestry as a fact about the blocks ---- */

  /** The ancestor is k links below m, whether or not the blocks are held. */
  ghost predicate Below(m: Manifest, ancestor: Manifest, k: nat) {
    if k == 0 then m == ancestor else |m.links| == 1 && Below(m.links[0], ancestor, k - 1)
  }

  lemma {:induction false} AwayIsBelow(held: set<Manifest>, m: Manifest, ancestor: Manifest, k: nat)
    requires Away(held, m, ancestor, k)
    ensures Below(m, ancestor, k)
    decreases k
  {
    if k > 0 { AwayIsBelow(held, m.links[0], ancestor, k - 1); }
  }

  ghost predicate BlockAt(m: Manifest, b: Manifest, j: nat) {
    Below(m, b, j)
  }

  lemma {:induction false} BelowIsDepth(m: Manifest, ancestor: Manifest, k: nat)
    requires Below(m, ancestor, k)
    ensures Depth(m) == Depth(ancestor) + k
    decreases k
  {
    if k > 0 { BelowIsDepth(m.links[0], ancestor, k - 1); }
  }

  /** What a walk can follow: links to the ancestor from blocks that are all held,
      as dag-cbor. */
  lemma {:induction false} AwayIff(held: set<Manifest>, m: Manifest, ancestor: Manifest, k: nat)
    ensures Away(held, m, ancestor, k) <==>
            Below(m, ancestor, k) && forall b: Manifest, j: nat | j < k && BlockAt(m, b, j) :: b in held && b.dagCbor
    decreases k
  {
    if k > 0 && |m.links| == 1 {
      AwayIff(held, m.links[0], ancestor, k - 1);
      assert BlockAt(m, m, 0);
      if Below(m, ancestor, k) { BelowIsDepth(m, ancestor, k); }
      forall b: Manifest, j: nat | j < k - 1 && BlockAt(m.links[0], b, j) ensures BlockAt(m, b, j + 1) {
      }
      forall b: Manifest, j: nat | 0 < j < k && BlockAt(m, b, j) ensures BlockAt(m.links[0], b, j - 1) {
      }
    }
  }

  lemma {:induction false} BelowAdds(a: Manifest, b: Manifest, c: Manifest, j: nat, k: nat)
    requires Below(a, b, j) && Below(b, c, k)
    ensures Below(a, c, j + k)
    decreases j
  {
    if j > 0 { BelowAdds(a.links[0], b, c, j - 1, k); }
  }

  /* ---- A long chain ---- */

  /** A chain of n + 1 blocks. */
  function Chain(n: nat): (m: Manifest)
    ensures Depth(m) == n
  {
    if n == 0 then Manifest([], true, 0) else Manifest([Chain(n - 1)], true, n)
  }

  function Blocks(n: nat): (s: set<Manifest>)
    ensures forall i | 0 <= i <= n :: Chain(i) in s
  {
    if n == 0 then {Chain(0)} else Blocks(n - 1) + {Chain(n)}
  }

  lemma {:induction false} ChainAway(held: set<Manifest>, n: nat, k: nat)
    requires k <= n && forall i | 0 <= i <= n :: Chain(i) in held
    ensures Away(held, Chain(n), Chain(n - k), k)
    decreases k
  {
    if k > 0 {
      ChainAway(held, n - 1, k - 1);
      assert Chain(n).links[0] == Chain(n - 1);
      assert Depth(Chain(n)) != Depth(Chain(n - k));
    }
  }
}
