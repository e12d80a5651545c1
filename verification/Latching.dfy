/** From a contradiction between claims to the evidence that latches it
    (follow/equivalence.go, follow/conflict_state.go): whatever the classifier
    calls a contradiction makes a valid request, so no conflict goes unrecorded. */
module Latching {
  import opened Dag
  import opened HeadState
  import opened Admission
  import opened Manifests
  import opened Bytes
  import opened Arith
  import C = Claims
  import A = Arbitration
  import E = Evidence

  /** The bytes of CIDs. */
  datatype Naming = Naming(root: State -> seq<byte>, manifest: Manifest -> seq<byte>)

  /** The CIDs of two claims have bytes, and different ones for different blocks. */
  ghost predicate Tells(n: Naming, a: C.Claim, b: C.Claim) {
    && (n.root(a.root) == n.root(b.root) ==> a.root == b.root)
    && (a.manifest.Some? && b.manifest.Some? && n.manifest(a.manifest.value) == n.manifest(b.manifest.value) ==>
          a.manifest == b.manifest)
    && HasBytes(n, a) && HasBytes(n, b)
  }

  predicate HasBytes(n: Naming, a: C.Claim) {
    && 1 <= |n.root(a.root)| <= E.MAX_CID_BYTES
    && (a.manifest.Some? ==> 1 <= |n.manifest(a.manifest.value)| <= E.MAX_CID_BYTES)
  }

  function ReasonCode(reason: C.Reason): byte {
    match reason
    case EqualCoverageRootMismatch => E.EQUAL_COVERAGE
    case PrefixProjectionMismatch => E.PREFIX_PROJECTION
    case ManifestBranch => E.MANIFEST_BRANCH
  }

  function TipBytes(n: Naming, m: Option<Manifest>): seq<byte> {
    if m.Some? then n.manifest(m.value) else []
  }

  function SyncedTo(st: State): nat {
    if st.synced.Some? then st.synced.value else 0
  }

  /** newArchiveConflict: what the classifier records of two claims that contradict
      each other. */
  function FindingOf(n: Naming, archive: seq<byte>, head: seq<byte>, reason: C.Reason, a: C.Claim,
                     b: C.Claim): E.Finding {
    E.Finding(archive, head, ReasonCode(reason),
              n.root(a.root), SyncedTo(a.root), a.root.synced.Some?, TipBytes(n, a.manifest),
              n.root(b.root), SyncedTo(b.root), b.root.synced.Some?, TipBytes(n, b.manifest))
  }

  /** A document of a configured source. */
  predicate GoodObserved(o: E.Observed) {
    && E.ValidSourceId(o.source) && o.revision.Some? && 0 < o.revision.value <= MAX_UINT64
    && |o.digest| == 32 && !E.Zero(o.digest)
  }

  predicate GoodContext(x: E.Context) {
    && |x.archive| == 32 && E.ValidIdentity(x.archive, x.head)
    && 0 < x.setRevision <= MAX_UINT64 && |x.setDigest| == 32 && !E.Zero(x.setDigest)
  }

  /** The reason of a contradiction holds of what is recorded about it. */
  lemma {:induction false} ReasonIsRecorded(n: Naming, held: set<Manifest>, a: C.Claim, b: C.Claim, reason: C.Reason,
                                            l: E.Summary, r: E.Summary)
    requires Tells(n, a, b) && UsableParams(a.root.params) && UsableParams(b.root.params)
    requires C.Classify(held, a, b) == C.Contradiction(reason)
    requires l.root == n.root(a.root) && l.synced == SyncedTo(a.root) && l.covered == a.root.synced.Some?
    requires r.root == n.root(b.root) && r.synced == SyncedTo(b.root) && r.covered == b.root.synced.Some?
    requires l.manifest == TipBytes(n, a.manifest) && r.manifest == TipBytes(n, b.manifest)
    ensures E.ReasonHolds(ReasonCode(reason), l, r) && l != r
  {
    C.ClassifyMeans(held, a, b);
    C.ManifestsCompareIff(held, a.manifest, b.manifest);
  }

  /** Every contradiction between the claims of two sources makes a request. */
  lemma {:induction false} ContradictionMakesRequest(n: Naming, x: E.Context, held: set<Manifest>, a: C.Claim,
                                                     b: C.Claim, reason: C.Reason, left: E.Observed, right: E.Observed,
                                                     count: nat)
    requires Tells(n, a, b) && GoodContext(x) && GoodObserved(left) && GoodObserved(right)
    requires left.source != right.source && 1 <= count <= E.MAX_PAIRS
    requires Admitted(a.root) && Admitted(b.root) && C.Classify(held, a, b) == C.Contradiction(reason)
    ensures E.ClashRequest(x, count, E.Clash(left, right, Some(FindingOf(n, x.archive, x.head, reason, a, b)))).Some?
  {
    var f := FindingOf(n, x.archive, x.head, reason, a, b);
    var l := E.SummaryOf(left, f.leftRoot, f.leftSynced, f.leftCovered, f.leftManifest).value;
    var r := E.SummaryOf(right, f.rightRoot, f.rightSynced, f.rightCovered, f.rightManifest).value;
    ReasonIsRecorded(n, held, a, b, reason, l, r);
    assert E.ValidSummary(l) && E.ValidSummary(r);
  }

  /* ---- The number of pairs ---- */

  const MAX_SOURCES: nat := 32

  /** Twice the number of pairs before (i, j) among n observations. */
  function TwicePairs(n: nat, i: nat, j: nat): int {
    if i == 0 then 2 * (j - 1) else TwicePairs(n, i - 1, n) + 2 * (j - i - 1)
  }

  lemma {:induction false} PairsCounted(t: A.Table, kind: A.Kind, i: nat, j: nat)
    requires i < j <= t.Size()
    ensures 2 * |A.PairsUpTo(t, kind, i, j)| <= TwicePairs(t.Size(), i, j)
    decreases i, j
  {
    if j > i + 1 {
      PairsCounted(t, kind, i, j - 1);
    } else if i > 0 {
      PairsCounted(t, kind, i - 1, t.Size());
    }
  }

  lemma {:induction false} TwicePairsIs(n: nat, i: nat)
    requires i < n
    ensures TwicePairs(n, i, n) == (i + 1) * (2 * n - i - 2)
  {
    if i > 0 { TwicePairsIs(n, i - 1); }
  }

  /** As many pairs as can conflict among the sources of a roster fit in a record. */
  lemma {:induction false} PairsFit(t: A.Table, kind: A.Kind)
    requires t.Size() <= MAX_SOURCES
    ensures |A.AllPairs(t, kind)| <= E.MAX_PAIRS
  {
    if t.Size() > 0 {
      PairsCounted(t, kind, t.Size() - 1, t.Size());
      FewPairs(t.Size(), t.Size() - 1);
    }
  }

  lemma {:induction false} FewPairs(n: nat, i: nat)
    requires n == i + 1 <= MAX_SOURCES
    ensures TwicePairs(n, i, n) <= 2 * E.MAX_PAIRS
  {
    TwicePairsIs(n, i);
    assert (i + 1) * (2 * n - i - 2) == n * i;
    assert n * i <= MAX_SOURCES * i;
  }

  /* ---- The whole conflict ---- */

  function ReasonOf(o: C.Outcome): C.Reason {
    if o.Contradiction? then o.reason else C.PrefixProjectionMismatch
  }

  /** The evidence of one conflicting pair. */
  ghost function ClashOf(n: Naming, x: E.Context, held: set<Manifest>, cs: seq<A.Candidate>, sources: seq<E.Observed>,
                         q: A.Pair): E.Clash
    requires |sources| == |cs|
  {
    if && q.0 < |cs| && q.1 < |cs| && cs[q.0].claim.Some? && cs[q.1].claim.Some?
       && A.Compared(held, cs[q.0], cs[q.1]).Contradiction?
    then
      var reason := ReasonOf(A.Compared(held, cs[q.0], cs[q.1]));
      E.Clash(sources[q.0], sources[q.1],
              Some(FindingOf(n, x.archive, x.head, reason, cs[q.0].claim.value, cs[q.1].claim.value)))
    else E.Clash(E.Observed([], None, []), E.Observed([], None, []), None)
  }

  ghost function ClashesOf(n: Naming, x: E.Context, held: set<Manifest>, cs: seq<A.Candidate>,
                           sources: seq<E.Observed>, pairs: seq<A.Pair>): (clashes: seq<E.Clash>)
    requires |sources| == |cs|
    ensures |clashes| == |pairs|
    ensures forall i | 0 <= i < |pairs| :: clashes[i] == ClashOf(n, x, held, cs, sources, pairs[i])
  {
    seq(|pairs|, i requires 0 <= i < |pairs| => ClashOf(n, x, held, cs, sources, pairs[i]))
  }

  /** Documents of distinct configured sources, one for each observation. */
  ghost predicate Signed(sources: seq<E.Observed>) {
    && (forall i | 0 <= i < |sources| :: GoodObserved(sources[i]))
    && forall i, j | 0 <= i < j < |sources| :: sources[i].source != sources[j].source
  }

  ghost predicate AllTold(n: Naming, cs: seq<A.Candidate>) {
    forall i, j | 0 <= i < j < |cs| && cs[i].claim.Some? && cs[j].claim.Some? ::
      Tells(n, cs[i].claim.value, cs[j].claim.value)
  }

  /** A conflict that arbitration reports can always be latched: its pairs are
      within the bound and every one of them makes a request. */
  lemma {:induction false} ConflictCanBeLatched(n: Naming, x: E.Context, held: set<Manifest>, cs: seq<A.Candidate>,
                                                t: A.Table, sources: seq<E.Observed>, pairs: seq<A.Pair>)
    requires A.AllAdmitted(cs) && A.TableOf(held, cs, t) && A.Arbitrate(t) == A.Conflicting(pairs)
    requires |cs| == |sources| <= MAX_SOURCES && Signed(sources) && GoodContext(x) && AllTold(n, cs)
    ensures var clashes := ClashesOf(n, x, held, cs, sources, pairs);
            1 <= |clashes| <= E.MAX_PAIRS && E.AllMake(x, clashes)
  {
    var clashes := ClashesOf(n, x, held, cs, sources, pairs);
    PairsFit(t, A.Contradictory);
    A.PairsSound(t, A.Contradictory, t.Size() - 1, t.Size());
    forall i | 0 <= i < |clashes| ensures E.ClashRequest(x, |clashes|, clashes[i]).Some? {
      assert pairs[i] in pairs;
      PairMakesRequest(n, x, held, cs, t, sources, pairs[i], |clashes|);
    }
  }

  lemma {:induction false} PairMakesRequest(n: Naming, x: E.Context, held: set<Manifest>, cs: seq<A.Candidate>,
                                            t: A.Table, sources: seq<E.Observed>, q: A.Pair, count: nat)
    requires A.AllAdmitted(cs) && A.TableOf(held, cs, t) && q.0 < q.1 < |cs| && A.Keep(t, A.Contradictory, q.0, q.1)
    requires |cs| == |sources| && Signed(sources) && GoodContext(x) && AllTold(n, cs) && 1 <= count <= E.MAX_PAIRS
    ensures E.ClashRequest(x, count, ClashOf(n, x, held, cs, sources, q)).Some?
  {
    var a, b := cs[q.0].claim.value, cs[q.1].claim.value;
    assert t.At(q.0, q.1) == A.Compared(held, cs[q.0], cs[q.1]) == C.Classify(held, a, b);
    ContradictionMakesRequest(n, x, held, a, b, C.Classify(held, a, b).reason, sources[q.0], sources[q.1], count);
  }
}
