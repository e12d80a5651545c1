/** Comparing two signed claims about one finalized head (follow/equivalence.go,
    follow/source_continuity.go): one claim dominates another when its root
    projects to the other's root and its manifest descends from the other's. */
module Claims {
  import opened Arith
  import opened Dag
  import opened Rows
  import opened HeadState
  import opened Lookup
  import opened Readers
  import opened Projection
  import opened Enumerate
  import opened Admission
  import opened Manifests
  import opened Archive

  /** A claim whose root has been loaded and enumerated. The root carries the
      network, the head's name and its parameters. */
  datatype Claim = Claim(archive: nat, root: State, manifest: Option<Manifest>)

  datatype Relation = Equivalent | LeftDominates | RightDominates | Incomparable

  datatype Reason = EqualCoverageRootMismatch | PrefixProjectionMismatch | ManifestBranch

  /** A proved relation, evidence of incompatible histories, or a proof that
      could not be completed, with the sides whose evidence is missing. */
  datatype Outcome = Related(relation: Relation) | Contradiction(reason: Reason) | Unproved(left: bool, right: bool)

  function Reverse(r: Relation): Relation {
    match r
    case LeftDominates => RightDominates
    case RightDominates => LeftDominates
    case _ => r
  }

  function Swapped(o: Outcome): Outcome {
    match o
    case Related(r) => Related(Reverse(r))
    case Contradiction(_) => o
    case Unproved(l, r) => Unproved(r, l)
  }

  predicate SameIdentity(a: Claim, b: Claim) {
    a.archive == b.archive && a.root.params == b.root.params
  }

  /* ---- Coverage ---- */

  /** compareCoverage: null is below every slot. */
  function CompareCoverage(a: Option<nat>, b: Option<nat>): int {
    if a.None? && b.None? then 0
    else if a.None? then -1
    else if b.None? then 1
    else if a.value < b.value then -1
    else if a.value > b.value then 1
    else 0
  }

  /** The root that a head of this root gives when cut back to some coverage. */
  function ProjectTo(st: State, synced: Option<nat>): Result<State>
    requires UsableParams(st.params)
  {
    if synced.None? then Ok(EmptyState(st.params)) else Truncated(st, synced.value)
  }

  /** compareClaimRoots, for admitted roots of one identity. */
  function CompareRoots(a: State, b: State): Outcome
    requires UsableParams(a.params) && UsableParams(b.params)
  {
    var cmp := CompareCoverage(a.synced, b.synced);
    if cmp == 0 then
      if a != b then Contradiction(EqualCoverageRootMismatch) else Related(Equivalent)
    else if cmp > 0 then
      match ProjectTo(a, b.synced)
      case Err(_) => Unproved(true, false)
      case Ok(projected) => if projected != b then Contradiction(PrefixProjectionMismatch) else Related(LeftDominates)
    else
      match ProjectTo(b, a.synced)
      case Err(_) => Unproved(false, true)
      case Ok(projected) => if projected != a then Contradiction(PrefixProjectionMismatch) else Related(RightDominates)
  }

  method CompareClaimRoots(a: State, b: State) returns (r: Outcome)
    requires UsableParams(a.params) && UsableParams(b.params)
    ensures r == CompareRoots(a, b)
  {
    var cmp := CompareCoverage(a.synced, b.synced);
    if cmp == 0 { return if a != b then Contradiction(EqualCoverageRootMismatch) else Related(Equivalent); }
    var higher, lower := a, b;
    var relation := LeftDominates;
    if cmp < 0 { higher, lower, relation := b, a, RightDominates; }
    var projected := Ok(EmptyState(higher.params));
    if lower.synced.Some? { projected := TruncateState(higher, lower.synced.value); }
    if projected.Err? { return Unproved(cmp > 0, cmp < 0); }
    if projected.value != lower { return Contradiction(PrefixProjectionMismatch); }
    return Related(relation);
  }

  /** compareClaimManifests: a manifest on one side only is incomparable. */
  function CompareManifests(held: set<Manifest>, a: Option<Manifest>, b: Option<Manifest>): Outcome {
    if a.None? && b.None? then Related(Equivalent)
    else if a.None? != b.None? then Related(Incomparable)
    else if a == b then Related(Equivalent)
    else
      var left := Descends(held, a.value, b.value, MAX_MANIFEST_WALK);
      var right := Descends(held, b.value, a.value, MAX_MANIFEST_WALK);
      if left.Reached? then Related(LeftDominates)
      else if right.Reached? then Related(RightDominates)
      else if left.Unproven? || right.Unproven? then Unproved(left.Unproven?, right.Unproven?)
      else Contradiction(ManifestBranch)
  }

  method CompareClaimManifests(held: set<Manifest>, a: Option<Manifest>, b: Option<Manifest>) returns (r: Outcome)
    ensures r == CompareManifests(held, a, b)
  {
    if a.None? && b.None? { return Related(Equivalent); }
    if a.None? != b.None? { return Related(Incomparable); }
    if a == b { return Related(Equivalent); }
    var left := ManifestDescends(held, a.value, b.value);
    if left.Reached? { return Related(LeftDominates); }
    var right := ManifestDescends(held, b.value, a.value);
    if right.Reached? { return Related(RightDominates); }
    if left.Unproven? || right.Unproven? { return Unproved(left.Unproven?, right.Unproven?); }
    return Contradiction(ManifestBranch);
  }

  /** The two comparisons combined. */
  function Combine(root: Outcome, manifest: Outcome): Outcome {
    if !root.Related? then root
    else if !manifest.Related? then manifest
    else if root.relation == Equivalent then manifest
    else if manifest.relation == Equivalent then root
    else if root.relation == manifest.relation then root
    else Related(Incomparable)
  }

  function Classify(held: set<Manifest>, a: Claim, b: Claim): Outcome
    requires UsableParams(a.root.params) && UsableParams(b.root.params)
  {
    if !SameIdentity(a, b) then Related(Incomparable)
    else Combine(CompareRoots(a.root, b.root), CompareManifests(held, a.manifest, b.manifest))
  }

  /** classifyLoadedFinalizedClaims. */
  method ClassifyClaims(held: set<Manifest>, a: Claim, b: Claim) returns (r: Outcome)
    requires UsableParams(a.root.params) && UsableParams(b.root.params)
    ensures r == Classify(held, a, b)
  {
    if !SameIdentity(a, b) { return Related(Incomparable); }
    var root := CompareClaimRoots(a.root, b.root);
    if !root.Related? { return root; }
    var manifest := CompareClaimManifests(held, a.manifest, b.manifest);
    if !manifest.Related? { return manifest; }
    if root.relation == Equivalent { return manifest; }
    if manifest.relation == Equivalent { return root; }
    if root.relation == manifest.relation { return root; }
    return Related(Incomparable);
  }

  /* ---- Swapping the operands ---- */

  lemma {:induction false} RootsSwap(a: State, b: State)
    requires UsableParams(a.params) && UsableParams(b.params)
    ensures CompareRoots(b, a) == Swapped(CompareRoots(a, b))
  {
  }

  lemma {:induction false} ManifestsSwap(held: set<Manifest>, a: Option<Manifest>, b: Option<Manifest>)
    ensures CompareManifests(held, b, a) == Swapped(CompareManifests(held, a, b))
  {
    if a.Some? && b.Some? && a != b { NotBothWays(held, a.value, b.value, MAX_MANIFEST_WALK); }
  }

  /** Swapping the operands gives exactly the reversed relation, the same
      conflict, or the same missing evidence on the other side. */
  lemma {:induction false} ClassifySwaps(held: set<Manifest>, a: Claim, b: Claim)
    requires UsableParams(a.root.params) && UsableParams(b.root.params)
    ensures Classify(held, b, a) == Swapped(Classify(held, a, b))
  {
    RootsSwap(a.root, b.root);
    ManifestsSwap(held, a.manifest, b.manifest);
  }

  /* ---- Dominance ---- */

  ghost predicate AtLeast(o: Outcome) {
    o == Related(Equivalent) || o == Related(LeftDominates)
  }

  /** a is proved to include b. */
  ghost predicate Includes(held: set<Manifest>, a: Claim, b: Claim)
    requires UsableParams(a.root.params) && UsableParams(b.root.params)
  {
    AtLeast(Classify(held, a, b))
  }

  ghost predicate RootIncludes(a: State, b: State)
    requires UsableParams(a.params) && UsableParams(b.params)
  {
    a.params == b.params && AtLeast(CompareRoots(a, b))
  }

  lemma {:induction false} IncludesBoth(held: set<Manifest>, a: Claim, b: Claim)
    requires UsableParams(a.root.params) && UsableParams(b.root.params)
    ensures Includes(held, a, b) <==>
            a.archive == b.archive && RootIncludes(a.root, b.root) &&
              AtLeast(CompareManifests(held, a.manifest, b.manifest))
  {
  }

  /** Claims contradict each other exactly when they are about one head and their
      roots do, or the roots are ordered and their manifests branch. Otherwise a
      proof is missing exactly where one of the two comparisons lacks it, and
      ordered claims pull in the same direction. */
  lemma {:induction false} ClassifyMeans(held: set<Manifest>, a: Claim, b: Claim)
    requires UsableParams(a.root.params) && UsableParams(b.root.params)
    ensures var r, m := CompareRoots(a.root, b.root), CompareManifests(held, a.manifest, b.manifest);
            var o := Classify(held, a, b);
            && (o.Contradiction? <==> SameIdentity(a, b) && (r.Contradiction? || (r.Related? && m.Contradiction?)))
            && (o.Contradiction? ==> o == if r.Contradiction? then r else m)
            && (o.Unproved? <==> SameIdentity(a, b) && (r.Unproved? || (r.Related? && m.Unproved?)))
            && (o.Unproved? ==> o == if r.Unproved? then r else m)
            && (o == Related(LeftDominates) <==> Includes(held, a, b) && a != b)
            && (o == Related(RightDominates) <==> Includes(held, b, a) && a != b)
            && (o == Related(Equivalent) <==> a == b)
  {
    ClassifySwaps(held, a, b);
  }

  /** Every claim includes itself, and two claims that include each other are
      the same claim. */
  lemma {:induction false} InclusionIsAntisymmetric(held: set<Manifest>, a: Claim, b: Claim)
    requires UsableParams(a.root.params) && UsableParams(b.root.params)
    ensures Includes(held, a, b) && Includes(held, b, a) <==> a == b
  {
    ClassifySwaps(held, a, b);
  }

  /* ---- Roots ---- */

  /** An admitted root projects to every coverage below its own. */
  lemma {:induction false} ProjectionSucceeds(a: State, synced: Option<nat>)
    requires Admitted(a) && CompareCoverage(a.synced, synced) > 0
    requires synced.Some? ==> a.params.originSlot <= synced.value
    ensures ProjectTo(a, synced).Ok?
  {
    if synced.Some? {
      var e := AdmittedShaped(a);
      var mid, e1 := ProjectionsCompose(a, e, synced.value, synced.value);
    }
  }

  /** Comparing admitted roots is never short of evidence. */
  lemma {:induction false} RootsDecided(a: State, b: State)
    requires Admitted(a) && Admitted(b) && a.params == b.params
    ensures CompareRoots(a, b) != Related(Incomparable) && !CompareRoots(a, b).Unproved?
  {
    if CompareCoverage(a.synced, b.synced) > 0 { ProjectionSucceeds(a, b.synced); }
    if CompareCoverage(b.synced, a.synced) > 0 { ProjectionSucceeds(b, a.synced); }
  }

  /** Projecting a root that some admitted root projects to. */
  lemma {:induction false} ProjectionOfProjection(a: State, b: State, synced: Option<nat>)
    requires Admitted(a) && UsableParams(b.params) && RootIncludes(a, b)
    requires CompareCoverage(b.synced, synced) > 0 && (synced.Some? ==> a.params.originSlot <= synced.value)
    ensures ProjectTo(b, synced) == ProjectTo(a, synced)
  {
    if synced.Some? && CompareCoverage(a.synced, b.synced) > 0 {
      var e := AdmittedShaped(a);
      var mid, e1 := ProjectionsCompose(a, e, b.synced.value, synced.value);
    }
  }

  lemma {:induction false} RootsTransitive(a: State, b: State, c: State)
    requires Admitted(a) && Admitted(b) && Admitted(c) && RootIncludes(a, b) && RootIncludes(b, c)
    ensures RootIncludes(a, c)
  {
    if CompareCoverage(b.synced, c.synced) > 0 { ProjectionOfProjection(a, b, c.synced); }
  }

  /** Two roots that one admitted root includes never contradict each other: a
      root contradiction is evidence that no admitted history holds both. */
  lemma {:induction false} CommonHistoryAgrees(a: State, b: State, c: State)
    requires Admitted(a) && Admitted(b) && Admitted(c) && RootIncludes(a, b) && RootIncludes(a, c)
    requires CompareCoverage(b.synced, c.synced) >= 0
    ensures RootIncludes(b, c)
  {
    if CompareCoverage(b.synced, c.synced) > 0 {
      ProjectionOfProjection(a, b, c.synced);
    }
  }

  /* ---- What the comparison of roots means to a reader ---- */

  predicate Ahead(a: Option<nat>, b: Option<nat>) {
    a.Some? && (b.None? || b.value < a.value)
  }

  /** Every slot both cover reads the same in both. */
  ghost predicate Agree(a: State, b: State)
    requires UsableParams(a.params) && UsableParams(b.params)
  {
    forall s: nat | Covers(a, s) && Covers(b, s) :: RowLookup(a, s) == RowLookup(b, s)
  }

  lemma {:induction false} AgreeIsCut(a: State, ra: seq<Row>, b: State, rb: seq<Row>)
    requires Represents(a, ra) && Represents(b, rb) && a.params == b.params
    requires a.synced.Some? && b.synced.Some? && b.synced.value <= a.synced.value
    ensures Agree(a, b) <==> rb == RowsUpTo(ra, b.synced.value)
  {
    UpToMembers(ra, b.synced.value);
    var n := UpToIsPrefix(ra, b.synced.value);
    if Agree(a, b) {
      forall row: Row ensures row in rb <==> row in RowsUpTo(ra, b.synced.value) {
        LookupMeans(a, ra, row.slot, row);
        LookupMeans(b, rb, row.slot, row);
      }
      SameMembers(rb, RowsUpTo(ra, b.synced.value));
    }
    if rb == RowsUpTo(ra, b.synced.value) {
      forall s: nat | Covers(a, s) && Covers(b, s) ensures RowLookup(a, s) == RowLookup(b, s) {
        LookupRefines(a, ra, s);
        LookupRefines(b, rb, s);
        SameRowAt(ra, rb, s);
      }
    }
  }

  lemma {:induction false} AheadCompares(a: State, ra: seq<Row>, b: State, rb: seq<Row>)
    requires Represents(a, ra) && Represents(b, rb) && a.params == b.params && Ahead(a.synced, b.synced)
    ensures CompareRoots(a, b) ==
            if Agree(a, b) then Related(LeftDominates) else Contradiction(PrefixProjectionMismatch)
  {
    if b.synced.Some? {
      AgreeIsCut(a, ra, b, rb);
      var cut := TruncatedRepresents(a, ra, b.synced.value);
      if Agree(a, b) { RepresentsUnique(cut, b, rb); }
      if cut == b { TruncationReads(a, ra, b.synced.value, cut); }
    }
  }

  /** Between states of a writer the comparison decides exactly whether the slots
      both cover read the same; if they do, the one that covers more dominates. */
  lemma {:induction false} WriterRootsCompare(a: State, ra: seq<Row>, b: State, rb: seq<Row>)
    requires Represents(a, ra) && Represents(b, rb) && a.params == b.params
    ensures CompareRoots(a, b) ==
            if a.synced == b.synced then
              if Agree(a, b) then Related(Equivalent) else Contradiction(EqualCoverageRootMismatch)
            else if !Agree(a, b) then Contradiction(PrefixProjectionMismatch)
            else if Ahead(a.synced, b.synced) then Related(LeftDominates) else Related(RightDominates)
  {
    if Ahead(a.synced, b.synced) {
      AheadCompares(a, ra, b, rb);
    } else if Ahead(b.synced, a.synced) {
      AheadCompares(b, rb, a, ra);
      RootsSwap(b, a);
    } else if a.synced.Some? {
      AgreeIsCut(a, ra, b, rb);
      UpToAll(ra, b.synced.value);
      if ra == rb { RepresentsUnique(a, b, ra); }
    }
  }

  /** Whoever encoded it, an admitted root dominates each of its own earlier
      states, and the empty one. */
  lemma {:induction false} DominatesItsPast(a: State, slot: nat) returns (past: State)
    requires Admitted(a) && Covers(a, slot) && slot < a.synced.value
    ensures Truncated(a, slot) == Ok(past) && past.params == a.params && ReadsUpTo(a, past, slot)
    ensures CompareRoots(a, past) == Related(LeftDominates) && CompareRoots(past, a) == Related(RightDominates)
    ensures CompareRoots(a, EmptyState(a.params)) == Related(LeftDominates)
  {
    var e := AdmittedShaped(a);
    past := ProjectionReads(a, e, slot);
  }

  /** What an included root covers reads the same in the root that includes it. */
  lemma {:induction false} InclusionReads(a: State, b: State)
    requires Admitted(a) && Admitted(b) && RootIncludes(a, b)
    ensures Agree(a, b) && (b.synced.Some? ==> a.synced.Some? && b.synced.value <= a.synced.value)
  {
    if CompareCoverage(a.synced, b.synced) > 0 && b.synced.Some? {
      var e := AdmittedShaped(a);
      var mid := ProjectionReads(a, e, b.synced.value);
    }
  }

  /* ---- Manifests ---- */

  ghost predicate LinksAway(held: set<Manifest>, m: Manifest, ancestor: Manifest, k: nat) {
    Away(held, m, ancestor, k)
  }

  /** The same manifest, or an ancestor at any distance. */
  ghost predicate Descended(held: set<Manifest>, a: Option<Manifest>, b: Option<Manifest>) {
    a == b || (a.Some? && b.Some? && exists k: nat :: LinksAway(held, a.value, b.value, k))
  }

  /** How much longer chain a is than chain b. */
  function ChainGrowth(a: Option<Manifest>, b: Option<Manifest>): int {
    if a.Some? && b.Some? then Depth(a.value) - Depth(b.value) else 0
  }

  /** The bounded walk proves descent exactly when the chain grew by fewer links
      than it may follow. When it grew by more, the proof is missing on the
      descendant's side; descent is never mistaken for a branch. */
  lemma {:induction false} DescentProvedIff(held: set<Manifest>, a: Option<Manifest>, b: Option<Manifest>)
    requires Descended(held, a, b)
    ensures AtLeast(CompareManifests(held, a, b)) <==> ChainGrowth(a, b) < MAX_MANIFEST_WALK
    ensures !AtLeast(CompareManifests(held, a, b)) ==>
              CompareManifests(held, a, b).Unproved? && CompareManifests(held, a, b).left
  {
    if a != b {
      var x, y := a.value, b.value;
      var k: nat :| LinksAway(held, x, y, k);
      AwayIsDepth(held, x, y, k);
      if k < MAX_MANIFEST_WALK {
        NearIsReached(held, x, y, MAX_MANIFEST_WALK, k);
      } else {
        DescentNotReached(held, x, y, MAX_MANIFEST_WALK, k);
        AncestorDoesNotDescend(held, x, y, k, MAX_MANIFEST_WALK);
      }
    }
  }

  lemma {:induction false} DescentNotReached(held: set<Manifest>, m: Manifest, ancestor: Manifest, hops: nat, k: nat)
    requires Away(held, m, ancestor, k) && k >= hops
    ensures Descends(held, m, ancestor, hops).Unproven?
    decreases hops
  {
    if hops > 0 { DescentNotReached(held, m.links[0], ancestor, hops - 1, k - 1); }
  }

  lemma {:induction false} AncestorDoesNotDescend(held: set<Manifest>, m: Manifest, ancestor: Manifest, k: nat,
                                                  hops: nat)
    requires Away(held, m, ancestor, k) && k > 0
    ensures !Descends(held, ancestor, m, hops).Reached?
  {
    AwayIsDepth(held, m, ancestor, k);
    if Descends(held, ancestor, m, hops).Reached? {
      var j := ReachedIsNear(held, ancestor, m, hops);
      AwayIsDepth(held, ancestor, m, j);
    }
  }

  lemma {:induction false} ProvedIsDescended(held: set<Manifest>, a: Option<Manifest>, b: Option<Manifest>)
    requires AtLeast(CompareManifests(held, a, b))
    ensures Descended(held, a, b) && ChainGrowth(a, b) < MAX_MANIFEST_WALK
  {
    if a != b {
      var k := ReachedIsNear(held, a.value, b.value, MAX_MANIFEST_WALK);
      assert LinksAway(held, a.value, b.value, k);
      AwayIsDepth(held, a.value, b.value, k);
    }
  }

  lemma {:induction false} DescendedTransitive(held: set<Manifest>, a: Option<Manifest>, b: Option<Manifest>,
                                               c: Option<Manifest>)
    requires Descended(held, a, b) && Descended(held, b, c)
    ensures Descended(held, a, c)
  {
    if a != b && b != c {
      var j: nat :| LinksAway(held, a.value, b.value, j);
      var k: nat :| LinksAway(held, b.value, c.value, k);
      AwayAdds(held, a.value, b.value, c.value, j, k);
      assert LinksAway(held, a.value, c.value, j + k);
    }
  }

  /** The chain reads to genesis within the walk. */
  ghost predicate Complete(held: set<Manifest>, m: Manifest) {
    WholeChain(held, m) && Depth(m) < MAX_MANIFEST_WALK
  }

  /** The ancestor is reachable, and fewer links away than the walk may follow. */
  ghost predicate ProperAncestor(held: set<Manifest>, m: Manifest, ancestor: Manifest) {
    exists k: nat | 0 < k < MAX_MANIFEST_WALK :: LinksAway(held, m, ancestor, k)
  }

  lemma {:induction false} ReachedIff(held: set<Manifest>, m: Manifest, ancestor: Manifest)
    requires m != ancestor
    ensures Descends(held, m, ancestor, MAX_MANIFEST_WALK).Reached? <==> ProperAncestor(held, m, ancestor)
  {
    if Descends(held, m, ancestor, MAX_MANIFEST_WALK).Reached? {
      var k := ReachedIsNear(held, m, ancestor, MAX_MANIFEST_WALK);
      assert LinksAway(held, m, ancestor, k);
    }
    if k: nat :| 0 < k < MAX_MANIFEST_WALK && LinksAway(held, m, ancestor, k) {
      NearIsReached(held, m, ancestor, MAX_MANIFEST_WALK, k);
    }
  }

  /** What each answer about two manifest tips means. A branch is reported exactly
      when both chains were read to genesis and neither has the other. */
  lemma {:induction false} ManifestsCompareIff(held: set<Manifest>, a: Option<Manifest>, b: Option<Manifest>)
    ensures CompareManifests(held, a, b) == Related(Equivalent) <==> a == b
    ensures CompareManifests(held, a, b) == Related(Incomparable) <==> a.Some? != b.Some?
    ensures a.Some? && b.Some? && a != b ==>
              var x, y, r := a.value, b.value, CompareManifests(held, a, b);
              var unrelated := !ProperAncestor(held, x, y) && !ProperAncestor(held, y, x);
              && (r == Related(LeftDominates) <==> ProperAncestor(held, x, y))
              && (r == Related(RightDominates) <==> ProperAncestor(held, y, x))
              && (r == Contradiction(ManifestBranch) <==> unrelated && Complete(held, x) && Complete(held, y))
              && (r.Unproved? <==> unrelated && !(Complete(held, x) && Complete(held, y)))
              && (r.Unproved? ==> r.left == !Complete(held, x) && r.right == !Complete(held, y))
  {
    if a.Some? && b.Some? && a != b {
      var x, y := a.value, b.value;
      ReachedIff(held, x, y);
      ReachedIff(held, y, x);
      GenesisIff(held, x, y, MAX_MANIFEST_WALK);
      GenesisIff(held, y, x, MAX_MANIFEST_WALK);
      NotBothWays(held, x, y, MAX_MANIFEST_WALK);
    }
  }

  /* ---- The order on claims ---- */

  /** a extends b: its root projects to b's root and its manifest descends from
      b's, whether or not the bounded walk can prove it. */
  ghost predicate Extends(held: set<Manifest>, a: Claim, b: Claim)
    requires UsableParams(a.root.params) && UsableParams(b.root.params)
  {
    a.archive == b.archive && RootIncludes(a.root, b.root) && Descended(held, a.manifest, b.manifest)
  }

  /** Proved inclusion is extension by a chain that grew by fewer links than the
      walk may follow. */
  lemma {:induction false} IncludesIffExtends(held: set<Manifest>, a: Claim, b: Claim)
    requires UsableParams(a.root.params) && UsableParams(b.root.params)
    ensures Includes(held, a, b) <==>
            Extends(held, a, b) && ChainGrowth(a.manifest, b.manifest) < MAX_MANIFEST_WALK
  {
    IncludesBoth(held, a, b);
    if AtLeast(CompareManifests(held, a.manifest, b.manifest)) { ProvedIsDescended(held, a.manifest, b.manifest); }
    if Descended(held, a.manifest, b.manifest) { DescentProvedIff(held, a.manifest, b.manifest); }
  }

  lemma {:induction false} ExtendsTransitive(held: set<Manifest>, a: Claim, b: Claim, c: Claim)
    requires Admitted(a.root) && Admitted(b.root) && Admitted(c.root)
    requires Extends(held, a, b) && Extends(held, b, c)
    ensures Extends(held, a, c)
  {
    RootsTransitive(a.root, b.root, c.root);
    DescendedTransitive(held, a.manifest, b.manifest, c.manifest);
  }

  /** Dominance is transitive exactly as far as the manifest walk reaches. Past
      that the classifier reports missing evidence on the left, never a
      contradiction and never the opposite order. */
  lemma {:induction false} InclusionTransitiveIff(held: set<Manifest>, a: Claim, b: Claim, c: Claim)
    requires Admitted(a.root) && Admitted(b.root) && Admitted(c.root)
    requires Includes(held, a, b) && Includes(held, b, c)
    ensures Includes(held, a, c) <==> ChainGrowth(a.manifest, c.manifest) < MAX_MANIFEST_WALK
    ensures !Includes(held, a, c) ==> Classify(held, a, c).Unproved? && Classify(held, a, c).left
  {
    IncludesIffExtends(held, a, b);
    IncludesIffExtends(held, b, c);
    ExtendsTransitive(held, a, b, c);
    IncludesIffExtends(held, a, c);
    DescentProvedIff(held, a.manifest, c.manifest);
  }

  lemma {:induction false} ManifestsOnOneChain(held: set<Manifest>, w: Option<Manifest>, a: Option<Manifest>,
                                               b: Option<Manifest>)
    requires AtLeast(CompareManifests(held, w, a)) && AtLeast(CompareManifests(held, w, b))
    ensures CompareManifests(held, a, b).Related?
  {
    if w.Some? && a != b {
      var x, y, z := w.value, a.value, b.value;
      var j := ReachedIsNear(held, x, y, MAX_MANIFEST_WALK);
      var k := ReachedIsNear(held, x, z, MAX_MANIFEST_WALK);
      if j <= k {
        SameChain(held, x, y, z, j, k);
        NearIsReached(held, y, z, MAX_MANIFEST_WALK, k - j);
      } else {
        SameChain(held, x, z, y, k, j);
        NearIsReached(held, z, y, MAX_MANIFEST_WALK, j - k);
      }
    }
  }

  /** Two claims that a third includes are never in conflict, and no evidence
      about them is missing. */
  lemma {:induction false} IncludedAreCompatible(held: set<Manifest>, w: Claim, a: Claim, b: Claim)
    requires Admitted(w.root) && Admitted(a.root) && Admitted(b.root) && Includes(held, w, a) && Includes(held, w, b)
    ensures Classify(held, a, b).Related?
  {
    IncludesBoth(held, w, a);
    IncludesBoth(held, w, b);
    if CompareCoverage(a.root.synced, b.root.synced) >= 0 {
      CommonHistoryAgrees(w.root, a.root, b.root);
    } else {
      CommonHistoryAgrees(w.root, b.root, a.root);
      RootsSwap(b.root, a.root);
    }
    ManifestsOnOneChain(held, w.manifest, a.manifest, b.manifest);
  }

  /** Covered roots that are admitted exist under any parameters: coverage of the
      origin slot alone, without rows. */
  lemma {:induction false} CoveredRoot(p: Params) returns (root: State)
    requires UsableParams(p) && p.originSlot < MAX_INT64
    ensures Admitted(root) && root.params == p && root.synced == Some(p.originSlot)
  {
    root := ReopenedRepresents(p, Undef, 0, p.originSlot, [], [], Base(p));
    OpenWindowStep(p, p.originSlot);
    WriterAdmitted(root, []);
  }

  /** The bound is real, for any covered root that sources can agree on: two
      provable steps of j and k links with j + k at the limit or above do not make
      a provable step. */
  lemma {:induction false} TransitivityCanFail(root: State, j: nat, k: nat)
    returns (held: set<Manifest>, a: Claim, b: Claim, c: Claim)
    requires Admitted(root) && root.synced.Some?
    requires 0 < j < MAX_MANIFEST_WALK && 0 < k < MAX_MANIFEST_WALK <= j + k
    ensures a.root == b.root == c.root == root
    ensures Includes(held, a, b) && Includes(held, b, c) && !Includes(held, a, c)
  {
    var n := j + k;
    held := Blocks(n);
    a, b, c := Claim(0, root, Some(Chain(n))), Claim(0, root, Some(Chain(k))), Claim(0, root, Some(Chain(0)));
    ChainAway(held, n, j);
    ChainAway(held, k, k);
    assert LinksAway(held, Chain(n), Chain(k), j) && LinksAway(held, Chain(k), Chain(0), k);
    IncludesIffExtends(held, a, b);
    IncludesIffExtends(held, b, c);
    IncludesIffExtends(held, a, c);
  }
}
