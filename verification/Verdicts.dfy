/** What the verdict of arbitration means in terms of the observed claims alone:
    the tables and lists of the selection loop do not appear. */
module Verdicts {
  import opened Dag
  import opened HeadState
  import opened Admission
  import opened Manifests
  import opened Claims
  import opened Arbitration

  /** A proof that needs a's own evidence is missing. */
  ghost predicate MissingProof(held: set<Manifest>, a: Claim, b: Claim) {
    && UsableParams(a.root.params) && UsableParams(b.root.params)
    && Classify(held, a, b).Unproved? && Classify(held, a, b).left
  }

  ghost predicate Contradicts(held: set<Manifest>, a: Claim, b: Claim) {
    UsableParams(a.root.params) && UsableParams(b.root.params) && Classify(held, a, b).Contradiction?
  }

  ghost predicate ShownToInclude(held: set<Manifest>, a: Claim, b: Claim) {
    UsableParams(a.root.params) && UsableParams(b.root.params) && Includes(held, a, b)
  }

  /** Two observations are evidence of incompatible histories. */
  ghost predicate Clash(held: set<Manifest>, observations: seq<Candidate>) {
    exists c, d :: c in observations && d in observations && ClashOf(held, c, d)
  }

  ghost predicate ClashOf(held: set<Manifest>, c: Candidate, d: Candidate) {
    c.claim.Some? && d.claim.Some? && Contradicts(held, c.claim.value, d.claim.value)
  }

  ghost predicate LacksProof(held: set<Manifest>, c: Candidate, d: Candidate) {
    c.claim.Some? && d.claim.Some? && MissingProof(held, c.claim.value, d.claim.value)
  }

  /** The observation loaded, and no comparison wants for its evidence. */
  ghost predicate Healthy(held: set<Manifest>, observations: seq<Candidate>, c: Candidate) {
    c in observations && c.claim.Some? && forall d | d in observations :: !LacksProof(held, c, d)
  }

  /** A healthy observation that is shown to include every healthy one. */
  ghost predicate Tops(held: set<Manifest>, observations: seq<Candidate>, c: Candidate) {
    && Healthy(held, observations, c)
    && forall d | d in observations && Healthy(held, observations, d) ::
         ShownToInclude(held, c.claim.value, d.claim.value)
  }

  ghost predicate SameMembersAs(observations: seq<Candidate>, cs: seq<Candidate>) {
    forall c :: c in cs <==> c in observations
  }

  lemma {:induction false} EntryMeans(held: set<Manifest>, cs: seq<Candidate>, t: Table, i: nat, j: nat)
    requires AllAdmitted(cs) && TableOf(held, cs, t) && t.Valid(i) && t.Valid(j)
    ensures i < |cs| && j < |cs| && cs[i].claim.Some? && cs[j].claim.Some?
    ensures t.At(i, j).Contradiction? <==> ClashOf(held, cs[i], cs[j])
    ensures t.At(i, j).Unproved? && t.At(i, j).left <==> LacksProof(held, cs[i], cs[j])
    ensures AtLeast(t.At(i, j)) <==> ShownToInclude(held, cs[i].claim.value, cs[j].claim.value)
  {
    assert t.At(i, j) == Compared(held, cs[i], cs[j]);
  }

  lemma {:induction false} EligibleMeans(held: set<Manifest>, observations: seq<Candidate>, cs: seq<Candidate>,
                                         t: Table, i: nat)
    requires AllAdmitted(cs) && TableOf(held, cs, t) && SameMembersAs(observations, cs) && i < |cs|
    ensures t.Eligible(i) <==> Healthy(held, observations, cs[i])
  {
    assert cs[i] in cs;
    if t.Valid(i) && t.Unhealthy(i) {
      var j: nat :| t.Valid(j) && t.At(i, j).Unproved? && t.At(i, j).left;
      EntryMeans(held, cs, t, i, j);
      assert cs[j] in cs;
    }
    if d :| t.Valid(i) && d in observations && LacksProof(held, cs[i], d) {
      var j :| 0 <= j < |cs| && cs[j] == d;
      EntryMeans(held, cs, t, i, j);
    }
  }

  lemma {:induction false} WinnerMeans(held: set<Manifest>, observations: seq<Candidate>, cs: seq<Candidate>,
                                       t: Table, i: nat)
    requires AllAdmitted(cs) && TableOf(held, cs, t) && SameMembersAs(observations, cs) && i < |cs|
    ensures t.Winner(i) <==> Tops(held, observations, cs[i])
  {
    EligibleMeans(held, observations, cs, t, i);
    if t.Eligible(i) {
      forall j: nat | j < |cs|
        ensures t.Eligible(j) <==> Healthy(held, observations, cs[j])
        ensures t.Eligible(j) ==>
                  (AtLeast(t.At(i, j)) <==> ShownToInclude(held, cs[i].claim.value, cs[j].claim.value))
      {
        EligibleMeans(held, observations, cs, t, j);
        if t.Eligible(j) { EntryMeans(held, cs, t, i, j); }
      }
      TopsByIndex(held, observations, cs, i);
    }
  }

  lemma {:induction false} TopsByIndex(held: set<Manifest>, observations: seq<Candidate>, cs: seq<Candidate>, i: nat)
    requires SameMembersAs(observations, cs) && i < |cs| && Healthy(held, observations, cs[i])
    ensures Tops(held, observations, cs[i]) <==>
            forall j: nat | j < |cs| && Healthy(held, observations, cs[j]) ::
              ShownToInclude(held, cs[i].claim.value, cs[j].claim.value)
  {
    forall j: nat | j < |cs| ensures cs[j] in observations { assert cs[j] in cs; }
  }

  lemma {:induction false} ConflictsMean(held: set<Manifest>, cs: seq<Candidate>, t: Table, a: nat, b: nat)
    requires AllAdmitted(cs) && TableOf(held, cs, t) && a < b < |cs|
    ensures (a, b) in AllPairs(t, Contradictory) <==> ClashOf(held, cs[a], cs[b])
  {
    if (a, b) in AllPairs(t, Contradictory) {
      PairsSound(t, Contradictory, t.Size() - 1, t.Size());
      EntryMeans(held, cs, t, a, b);
    }
    if ClashOf(held, cs[a], cs[b]) {
      assert t.Valid(a) && t.Valid(b);
      EntryMeans(held, cs, t, a, b);
      PairsComplete(t, Contradictory, t.Size() - 1, t.Size(), a, b);
    }
  }

  /** The incomparable pairs a verdict without a maximum lists. */
  lemma {:induction false} IncomparableMean(held: set<Manifest>, observations: seq<Candidate>, cs: seq<Candidate>,
                                            t: Table, a: nat, b: nat)
    requires AllAdmitted(cs) && TableOf(held, cs, t) && SameMembersAs(observations, cs) && a < b < |cs|
    ensures (a, b) in AllPairs(t, Unordered) <==>
            && Healthy(held, observations, cs[a]) && Healthy(held, observations, cs[b])
            && Compared(held, cs[a], cs[b]) == Related(Incomparable)
  {
    EligibleMeans(held, observations, cs, t, a);
    EligibleMeans(held, observations, cs, t, b);
    PairsIff(t, Unordered, a, b);
  }

  lemma {:induction false} PairsIff(t: Table, kind: Kind, a: nat, b: nat)
    requires a < t.Size() && b < t.Size()
    ensures (a, b) in AllPairs(t, kind) <==> a < b && Keep(t, kind, a, b)
  {
    PairsSound(t, kind, t.Size() - 1, t.Size());
    if a < b && Keep(t, kind, a, b) { PairsComplete(t, kind, t.Size() - 1, t.Size(), a, b); }
  }

  /** The failures a verdict reports: what did not load, paired with itself, and
      the pairs whose comparison lacks a proof on either side. */
  lemma {:induction false} FailuresMean(held: set<Manifest>, cs: seq<Candidate>, t: Table, failures: seq<Pair>,
                                        a: nat, b: nat)
    requires AllAdmitted(cs) && TableOf(held, cs, t) && a <= b < |cs|
    requires failures == Unloaded(t, t.Size()) + AllPairs(t, Unprovable)
    ensures (a, b) in failures <==>
            if a == b then cs[a].claim.None?
            else cs[a].claim.Some? && cs[b].claim.Some? && Compared(held, cs[a], cs[b]).Unproved?
  {
    UnloadedIff(t, t.Size(), a, b);
    PairsIff(t, Unprovable, a, b);
    UnprovableMeans(held, cs, t, a, b);
  }

  lemma {:induction false} UnprovableMeans(held: set<Manifest>, cs: seq<Candidate>, t: Table, a: nat, b: nat)
    requires AllAdmitted(cs) && TableOf(held, cs, t) && a <= b < |cs|
    ensures t.Valid(a) <==> cs[a].claim.Some?
    ensures Keep(t, Unprovable, a, b) <==>
            cs[a].claim.Some? && cs[b].claim.Some? && Compared(held, cs[a], cs[b]).Unproved?
  {
  }

  lemma {:induction false} UnloadedIff(t: Table, n: nat, a: nat, b: nat)
    requires n <= t.Size()
    ensures (a, b) in Unloaded(t, n) <==> a == b < n && !t.Valid(a)
  {
    if n > 0 { UnloadedIff(t, n - 1, a, b); }
  }

  lemma {:induction false} ClashSwaps(held: set<Manifest>, c: Candidate, d: Candidate)
    requires ClashOf(held, c, d)
    ensures ClashOf(held, d, c) && c != d
  {
    ClassifySwaps(held, c.claim.value, d.claim.value);
    InclusionIsAntisymmetric(held, c.claim.value, c.claim.value);
  }

  lemma {:induction false} ListedClash(held: set<Manifest>, observations: seq<Candidate>, cs: seq<Candidate>, t: Table,
                                       pairs: seq<Pair>)
    requires AllAdmitted(cs) && TableOf(held, cs, t) && SameMembersAs(observations, cs)
    requires pairs == AllPairs(t, Contradictory) && pairs != []
    ensures Clash(held, observations)
  {
    PairsSound(t, Contradictory, t.Size() - 1, t.Size());
    var q := pairs[0];
    assert q in pairs;
    ConflictsMean(held, cs, t, q.0, q.1);
    assert cs[q.0] in cs && cs[q.1] in cs;
  }

  lemma {:induction false} ClashIsListed(held: set<Manifest>, cs: seq<Candidate>, t: Table, c: Candidate, d: Candidate,
                                         pairs: seq<Pair>)
    requires AllAdmitted(cs) && TableOf(held, cs, t) && pairs == AllPairs(t, Contradictory)
    requires c in cs && d in cs && ClashOf(held, c, d)
    ensures pairs != []
  {
    ClashSwaps(held, c, d);
    var i :| 0 <= i < |cs| && cs[i] == c;
    var j :| 0 <= j < |cs| && cs[j] == d;
    if i < j { ConflictsMean(held, cs, t, i, j); } else { ConflictsMean(held, cs, t, j, i); }
  }

  lemma {:induction false} ClashMeans(held: set<Manifest>, observations: seq<Candidate>, cs: seq<Candidate>, t: Table)
    requires AllAdmitted(cs) && TableOf(held, cs, t) && SameMembersAs(observations, cs)
    ensures AllPairs(t, Contradictory) != [] <==> Clash(held, observations)
  {
    var pairs := AllPairs(t, Contradictory);
    if pairs != [] { ListedClash(held, observations, cs, t, pairs); }
    if c, d :| c in observations && d in observations && ClashOf(held, c, d) {
      assert c in cs && d in cs;
      ClashIsListed(held, cs, t, c, d, pairs);
    }
  }

  ghost predicate SomeTops(held: set<Manifest>, observations: seq<Candidate>) {
    exists c :: Tops(held, observations, c)
  }

  ghost predicate SomeHealthy(held: set<Manifest>, observations: seq<Candidate>) {
    exists c :: Healthy(held, observations, c)
  }

  lemma {:induction false} ListedTops(held: set<Manifest>, observations: seq<Candidate>, cs: seq<Candidate>, t: Table,
                                      winners: seq<nat>)
    requires AllAdmitted(cs) && TableOf(held, cs, t) && SameMembersAs(observations, cs)
    requires winners == Winners(t, t.Size()) && winners != []
    ensures winners[0] < |cs| && Tops(held, observations, cs[winners[0]])
  {
    WinnersAre(t, t.Size());
    assert winners[0] in winners;
    WinnerMeans(held, observations, cs, t, winners[0]);
  }

  lemma {:induction false} TopIsListed(held: set<Manifest>, observations: seq<Candidate>, cs: seq<Candidate>, t: Table,
                                       winners: seq<nat>, c: Candidate)
    requires AllAdmitted(cs) && TableOf(held, cs, t) && SameMembersAs(observations, cs)
    requires winners == Winners(t, t.Size()) && Tops(held, observations, c)
    ensures winners != []
  {
    WinnersAre(t, t.Size());
    assert c in cs;
    var i :| 0 <= i < |cs| && cs[i] == c;
    WinnerMeans(held, observations, cs, t, i);
    assert i in winners;
  }

  lemma {:induction false} HealthyMeans(held: set<Manifest>, observations: seq<Candidate>, cs: seq<Candidate>, t: Table)
    requires AllAdmitted(cs) && TableOf(held, cs, t) && SameMembersAs(observations, cs)
    ensures (exists i: nat :: t.Eligible(i)) <==> SomeHealthy(held, observations)
  {
    if i: nat :| t.Eligible(i) { EligibleMeans(held, observations, cs, t, i); }
    if c :| Healthy(held, observations, c) {
      assert c in cs;
      var i :| 0 <= i < |cs| && cs[i] == c;
      EligibleMeans(held, observations, cs, t, i);
    }
  }

  lemma {:induction false} TopsMean(held: set<Manifest>, observations: seq<Candidate>, cs: seq<Candidate>, t: Table,
                                    winners: seq<nat>)
    requires AllAdmitted(cs) && TableOf(held, cs, t) && SameMembersAs(observations, cs)
    requires winners == Winners(t, t.Size())
    ensures winners != [] <==> SomeTops(held, observations)
  {
    if winners != [] { ListedTops(held, observations, cs, t, winners); }
    if c :| Tops(held, observations, c) { TopIsListed(held, observations, cs, t, winners, c); }
  }

  /** The verdict, whatever the order of the observations: a clash between any two
      comes first; otherwise a healthy observation that includes every healthy one
      is selected; otherwise there is no maximum, or nothing healthy at all. */
  lemma {:induction false} VerdictMeans(held: set<Manifest>, observations: seq<Candidate>, cs: seq<Candidate>, t: Table)
    requires AllAdmitted(cs) && TableOf(held, cs, t) && SameMembersAs(observations, cs)
    ensures Arbitrate(t).Conflicting? <==> Clash(held, observations)
    ensures Arbitrate(t).Selected? <==> !Clash(held, observations) && SomeTops(held, observations)
    ensures Arbitrate(t).NoMaximum? <==>
            !Clash(held, observations) && !SomeTops(held, observations) && SomeHealthy(held, observations)
    ensures Arbitrate(t).Unevaluated? <==> !Clash(held, observations) && !SomeHealthy(held, observations)
  {
    ClashMeans(held, observations, cs, t);
    TopsMean(held, observations, cs, t, Winners(t, t.Size()));
    HealthyMeans(held, observations, cs, t);
    if c :| Tops(held, observations, c) { assert Healthy(held, observations, c); }
  }

  /** All observations at the top carry one and the same claim. */
  lemma {:induction false} TopsAgree(held: set<Manifest>, observations: seq<Candidate>, c: Candidate, d: Candidate)
    requires Tops(held, observations, c) && Tops(held, observations, d)
    ensures c.claim == d.claim
  {
    InclusionIsAntisymmetric(held, c.claim.value, d.claim.value);
  }
}
