/**
  The first manifest chain of a head (follow/manifest.go). Later tips are checked
  against the tip already accepted; the first one has none, so its whole chain is
  read down to genesis within fixed limits.
 */
module FirstManifest {
  import opened Dag
  import opened Manifests

  const MAX_BLOCK_BYTES: nat := 0x10_0000
  const MAX_CHAIN_BYTES: nat := 0x100_0000

  datatype Limits = Limits(hops: nat, blocks: nat, blockBytes: nat, chainBytes: nat)

  const LIMITS: Limits := Limits(MAX_MANIFEST_WALK, MAX_MANIFEST_WALK, MAX_BLOCK_BYTES, MAX_CHAIN_BYTES)

  /** What decoding says of a block: the head a manifest names, if it is one, and
      how many bytes it has. */
  datatype Schema = Schema(head: Manifest -> Option<nat>, size: Manifest -> nat)

  predicate ValidLimits(l: Limits) {
    l.hops >= 1 && l.blocks >= 1 && l.blockBytes >= 1 && l.chainBytes >= 1
  }

  /** A manifest of the head that can be read; its only link is to its predecessor. */
  predicate BlockOk(schema: Schema, l: Limits, held: set<Manifest>, head: nat, m: Manifest) {
    m.dagCbor && m in held && schema.size(m) <= l.blockBytes && schema.head(m) == Some(head) && |m.links| <= 1
  }

  predicate ChainOk(schema: Schema, l: Limits, held: set<Manifest>, head: nat, m: Manifest) {
    BlockOk(schema, l, held, head, m) && (m.links != [] ==> ChainOk(schema, l, held, head, m.links[0]))
  }

  function ChainBytes(schema: Schema, m: Manifest): nat {
    schema.size(m) + if m.links == [] then 0 else ChainBytes(schema, m.links[0])
  }

  /** The chain from the tip is one of this head, all there, and within the limits. */
  predicate FirstChainOk(schema: Schema, l: Limits, held: set<Manifest>, head: nat, tip: Manifest) {
    && ValidLimits(l) && ChainOk(schema, l, held, head, tip)
    && Depth(tip) < l.hops && Depth(tip) < l.blocks && ChainBytes(schema, tip) <= l.chainBytes
  }

  /** The blocks above the current one are deeper chains, so none is met twice. */
  ghost predicate Above(seen: set<Manifest>, current: Manifest) {
    forall m | m in seen :: Depth(m) > Depth(current)
  }

  lemma {:induction false} AboveNext(seen: set<Manifest>, current: Manifest)
    requires Above(seen, current) && current.links != []
    ensures Above(seen + {current}, current.links[0])
  {
  }

  /** validateFirstManifestChain: the walk accepts exactly the good chains. */
  method ValidateFirstChain(schema: Schema, l: Limits, held: set<Manifest>, head: nat, tip: Manifest) returns (ok: bool)
    ensures ok <==> FirstChainOk(schema, l, held, head, tip)
  {
    if !ValidLimits(l) { return false; }
    var seen: set<Manifest> := {};
    var total := 0;
    var current := tip;
    for hops := 0 to l.hops
      invariant Depth(current) + hops == Depth(tip) && total + ChainBytes(schema, current) == ChainBytes(schema, tip)
      invariant ChainOk(schema, l, held, head, tip) <==> ChainOk(schema, l, held, head, current)
      invariant |seen| == hops && Above(seen, current) && hops <= l.blocks && total <= l.chainBytes
    {
      if !current.dagCbor { return false; }
      assert current !in seen;
      if |seen| >= l.blocks { return false; }
      if current !in held { return false; }
      var size := schema.size(current);
      if size > l.blockBytes || size > l.chainBytes - total { return false; }
      if schema.head(current) != Some(head) || |current.links| > 1 { return false; }
      if current.links == [] { return true; }
      AboveNext(seen, current);
      seen := seen + {current};
      total := total + size;
      current := current.links[0];
    }
    return false;
  }

  /** An accepted chain can be walked to its end: each block in it is readable. */
  lemma {:induction false} ChainIsReadable(schema: Schema, l: Limits, held: set<Manifest>, head: nat, m: Manifest,
                                           ancestor: Manifest, k: nat)
    requires ChainOk(schema, l, held, head, m) && Below(m, ancestor, k)
    ensures Away(held, m, ancestor, k) && Depth(m) == Depth(ancestor) + k
    decreases k
  {
    if k > 0 { ChainIsReadable(schema, l, held, head, m.links[0], ancestor, k - 1); }
  }

  lemma {:induction false} WalkEnds(schema: Schema, l: Limits, held: set<Manifest>, head: nat, m: Manifest,
                                    ancestor: Manifest, hops: nat)
    requires ChainOk(schema, l, held, head, m) && Depth(m) < hops
    ensures !Descends(held, m, ancestor, hops).Unproven?
    decreases hops
  {
    if m != ancestor && m.links != [] { WalkEnds(schema, l, held, head, m.links[0], ancestor, hops - 1); }
  }

  ghost predicate LinksBelow(m: Manifest, ancestor: Manifest, k: nat) {
    Below(m, ancestor, k)
  }

  /** A block that a chain of the head may have. */
  ghost predicate ManifestOf(schema: Schema, l: Limits, held: set<Manifest>, head: nat, m: Manifest) {
    && m in held && m.dagCbor && |m.links| <= 1
    && schema.head(m) == Some(head) && schema.size(m) <= l.blockBytes
  }

  /** A chain is good exactly when every block it leads to is one of the head. */
  lemma {:induction false} ChainIff(schema: Schema, l: Limits, held: set<Manifest>, head: nat, tip: Manifest)
    ensures ChainOk(schema, l, held, head, tip) <==>
            forall m: Manifest, k: nat | LinksBelow(tip, m, k) :: ManifestOf(schema, l, held, head, m)
    decreases tip
  {
    assert LinksBelow(tip, tip, 0);
    if BlockOk(schema, l, held, head, tip) {
      if tip.links != [] { ChainIff(schema, l, held, head, tip.links[0]); }
      forall m: Manifest, k: nat | LinksBelow(tip, m, k) && ChainOk(schema, l, held, head, tip)
        ensures ManifestOf(schema, l, held, head, m)
      {
        if k > 0 { assert LinksBelow(tip.links[0], m, k - 1); }
      }
      if tip.links != [] && !ChainOk(schema, l, held, head, tip.links[0]) {
        var m: Manifest, k: nat :| LinksBelow(tip.links[0], m, k) && !ManifestOf(schema, l, held, head, m);
        assert LinksBelow(tip, m, k + 1);
      }
    }
  }

  /** What a first tip must be, block by block: each block of the chain is held,
      small enough and a manifest of this head, and the chain as a whole is short
      and small enough. */
  lemma {:induction false} FirstChainIff(schema: Schema, held: set<Manifest>, head: nat, tip: Manifest)
    ensures FirstChainOk(schema, LIMITS, held, head, tip) <==>
            && Depth(tip) < MAX_MANIFEST_WALK && ChainBytes(schema, tip) <= MAX_CHAIN_BYTES
            && forall m: Manifest, k: nat | LinksBelow(tip, m, k) :: ManifestOf(schema, LIMITS, held, head, m)
  {
    ChainIff(schema, LIMITS, held, head, tip);
  }

  /** From an accepted first tip the ancestry walk always comes to an answer, and
      the answer is right: it reaches exactly the blocks of the chain. */
  lemma {:induction false} AncestryIsDecided(schema: Schema, held: set<Manifest>, head: nat, tip: Manifest,
                                             ancestor: Manifest)
    requires FirstChainOk(schema, LIMITS, held, head, tip)
    ensures !Descends(held, tip, ancestor, MAX_MANIFEST_WALK).Unproven?
    ensures Descends(held, tip, ancestor, MAX_MANIFEST_WALK).Reached? <==> exists k: nat :: LinksBelow(tip, ancestor, k)
  {
    WalkEnds(schema, LIMITS, held, head, tip, ancestor, MAX_MANIFEST_WALK);
    if Descends(held, tip, ancestor, MAX_MANIFEST_WALK).Reached? {
      var k := ReachedIsNear(held, tip, ancestor, MAX_MANIFEST_WALK);
      AwayIsBelow(held, tip, ancestor, k);
      assert LinksBelow(tip, ancestor, k);
    }
    if k: nat :| LinksBelow(tip, ancestor, k) {
      ChainIsReadable(schema, LIMITS, held, head, tip, ancestor, k);
      NearIsReached(held, tip, ancestor, MAX_MANIFEST_WALK, k);
    }
  }
}
