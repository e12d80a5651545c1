/** Choosing among the claims of several sources (follow/arbitration.go): all
    pairs are compared, and the semantic maximum is selected if there is one. */
module Arbitration {
  import opened Dag
  import opened HeadState
  import opened Admission
  import opened Manifests
  import opened Claims

  /* ---- Tables of outcomes ---- */

  /** The outcome of comparing each pair of n observations. Only the entries of
      valid observations mean anything. */
  datatype Table = Table(valid: seq<bool>, outcome: seq<seq<Outcome>>) {
    function Size(): nat { |valid| }

    predicate Valid(i: nat) { i < |valid| && valid[i] }

    function At(i: nat, j: nat): Outcome {
      if i < |outcome| && j < |outcome[i]| then outcome[i][j] else Related(Equivalent)
    }

    /** Some proof that needs this claim's own evidence is missing. */
    ghost predicate Unhealthy(i: nat) {
      exists j: nat :: Valid(j) && At(i, j).Unproved? && At(i, j).left
    }

    ghost predicate Eligible(i: nat) {
      Valid(i) && !Unhealthy(i)
    }

    /** Eligible, and proved to include every eligible claim. */
    ghost predicate Winner(i: nat) {
      Eligible(i) && forall j: nat | Eligible(j) :: AtLeast(At(i, j))
    }
  }

  ghost predicate Reversible(t: Table) {
    && (forall i: nat | t.Valid(i) :: t.At(i, i) == Related(Equivalent))
    && (forall i: nat, j: nat | t.Valid(i) && t.Valid(j) :: t.At(j, i) == Swapped(t.At(i, j)))
  }

  ghost predicate Attributed(t: Table) {
    forall i: nat, j: nat | t.Valid(i) && t.Valid(j) && t.At(i, j).Unproved? :: t.At(i, j).left || t.At(i, j).right
  }

  ghost predicate Transitive(t: Table) {
    forall i: nat, j: nat, k: nat
      | t.Valid(i) && t.Valid(j) && t.Valid(k) && AtLeast(t.At(i, j)) && AtLeast(t.At(j, k)) ::
      AtLeast(t.At(i, k)) || t.At(i, k).Unproved?
  }

  /** What the classifier guarantees about a table. */
  ghost predicate Lawful(t: Table) {
    Reversible(t) && Attributed(t) && Transitive(t)
  }

  /** A missing proof disqualifies one of its two sides, so two eligible claims
      always have a relation or a contradiction. */
  lemma {:induction false} MissingProofDisqualifies(t: Table, i: nat, j: nat)
    requires Lawful(t) && t.Eligible(i) && t.Eligible(j)
    ensures !t.At(i, j).Unproved?
  {
    assert t.At(j, i) == Swapped(t.At(i, j));
  }

  /** No two eligible claims among the first n contradict each other or are
      incomparable. */
  ghost predicate Ordered(t: Table, n: nat) {
    forall i: nat, j: nat | i < j < n && t.Eligible(i) && t.Eligible(j) ::
      t.At(i, j).Related? && t.At(i, j) != Related(Incomparable)
  }

  lemma {:induction false} OrderedPair(t: Table, n: nat, i: nat, j: nat)
    requires Lawful(t) && Ordered(t, n) && i < n && j < n && t.Eligible(i) && t.Eligible(j)
    ensures t.At(i, j).Related?
    ensures AtLeast(t.At(i, j)) || AtLeast(t.At(j, i))
  {
    assert t.At(j, i) == Swapped(t.At(i, j));
  }

  ghost predicate Maximal(t: Table, n: nat, m: nat) {
    m < n && t.Eligible(m) && forall j: nat | j < n && t.Eligible(j) :: AtLeast(t.At(m, j))
  }

  /** When eligible claims are pairwise ordered one of them includes the others. */
  lemma {:induction false} MaximumExists(t: Table, n: nat, some: nat) returns (m: nat)
    requires Lawful(t) && Ordered(t, n) && some < n && t.Eligible(some)
    ensures Maximal(t, n, m)
    decreases n
  {
    var last := n - 1;
    if earlier: nat :| earlier < last && t.Eligible(earlier) {
      m := MaximumExists(t, last, earlier);
      if t.Eligible(last) { m := BetterOf(t, last, n, m); }
    } else {
      m := last;
    }
  }

  lemma {:induction false} BetterOf(t: Table, last: nat, n: nat, best: nat) returns (m: nat)
    requires Lawful(t) && n == last + 1 && Ordered(t, n) && Maximal(t, last, best) && t.Eligible(last)
    ensures Maximal(t, n, m)
  {
    OrderedPair(t, n, best, last);
    if AtLeast(t.At(best, last)) {
      m := best;
    } else {
      m := last;
      forall j: nat | j < n && t.Eligible(j) ensures AtLeast(t.At(last, j)) {
        OrderedPair(t, n, last, j);
      }
    }
  }

  /** If no pair of eligible claims is contradictory or incomparable there is a
      winner: "no dominator yet no incomparable pair" cannot occur. */
  lemma {:induction false} WinnerExists(t: Table, some: nat) returns (m: nat)
    requires Lawful(t) && Ordered(t, t.Size()) && t.Eligible(some)
    ensures t.Winner(m)
  {
    m := MaximumExists(t, t.Size(), some);
  }

  /** Any two winners are equivalent: "non-equivalent dominators" cannot occur. */
  lemma {:induction false} WinnersAgree(t: Table, i: nat, j: nat)
    requires Lawful(t) && t.Winner(i) && t.Winner(j)
    ensures t.At(i, j) == Related(Equivalent)
  {
    assert t.At(j, i) == Swapped(t.At(i, j));
  }

  /* ---- The table of a set of observations ---- */

  /** One source's observation; no claim when it could not be loaded and
      enumerated. Sources are compared by the order of their IDs. */
  datatype Candidate = Candidate(source: nat, claim: Option<Claim>)

  ghost predicate AllAdmitted(cs: seq<Candidate>) {
    forall i | 0 <= i < |cs| && cs[i].claim.Some? :: Admitted(cs[i].claim.value.root)
  }

  ghost function Compared(held: set<Manifest>, a: Candidate, b: Candidate): Outcome {
    if && a.claim.Some? && b.claim.Some? && UsableParams(a.claim.value.root.params)
       && UsableParams(b.claim.value.root.params)
    then Classify(held, a.claim.value, b.claim.value)
    else Related(Equivalent)
  }

  /** The table holds the outcome of every comparison. */
  ghost predicate TableOf(held: set<Manifest>, cs: seq<Candidate>, t: Table) {
    && |t.valid| == |cs| == |t.outcome|
    && (forall i | 0 <= i < |cs| :: t.valid[i] == cs[i].claim.Some?)
    && (forall i | 0 <= i < |cs| :: |t.outcome[i]| == |cs|)
    && (forall i: nat, j: nat | t.Valid(i) && t.Valid(j) :: t.At(i, j) == Compared(held, cs[i], cs[j]))
  }

  lemma {:induction false} UnprovedHasASide(held: set<Manifest>, a: Claim, b: Claim)
    requires UsableParams(a.root.params) && UsableParams(b.root.params)
    ensures Classify(held, a, b).Unproved? ==> Classify(held, a, b).left || Classify(held, a, b).right
  {
  }

  /** What the classifier proves about three admitted claims. */
  lemma {:induction false} ClassifierLaws(held: set<Manifest>, a: Candidate, b: Candidate, c: Candidate)
    requires a.claim.Some? && b.claim.Some? && c.claim.Some?
    requires Admitted(a.claim.value.root) && Admitted(b.claim.value.root) && Admitted(c.claim.value.root)
    ensures Compared(held, a, a) == Related(Equivalent)
    ensures Compared(held, b, a) == Swapped(Compared(held, a, b))
    ensures Compared(held, a, b).Unproved? ==> Compared(held, a, b).left || Compared(held, a, b).right
    ensures AtLeast(Compared(held, a, b)) && AtLeast(Compared(held, b, c)) ==>
              AtLeast(Compared(held, a, c)) || Compared(held, a, c).Unproved?
  {
    var x, y, z := a.claim.value, b.claim.value, c.claim.value;
    InclusionIsAntisymmetric(held, x, x);
    ClassifySwaps(held, x, y);
    UnprovedHasASide(held, x, y);
    if Includes(held, x, y) && Includes(held, y, z) { InclusionTransitiveIff(held, x, y, z); }
  }

  lemma {:induction false} LawsAt(held: set<Manifest>, cs: seq<Candidate>, t: Table, i: nat, j: nat, k: nat)
    requires AllAdmitted(cs) && TableOf(held, cs, t) && t.Valid(i) && t.Valid(j) && t.Valid(k)
    ensures t.At(i, i) == Related(Equivalent) && t.At(j, i) == Swapped(t.At(i, j))
    ensures t.At(i, j).Unproved? ==> t.At(i, j).left || t.At(i, j).right
    ensures AtLeast(t.At(i, j)) && AtLeast(t.At(j, k)) ==> AtLeast(t.At(i, k)) || t.At(i, k).Unproved?
  {
    ClassifierLaws(held, cs[i], cs[j], cs[k]);
  }

  /** The classifier's table is lawful. */
  lemma {:induction false} TableIsLawful(held: set<Manifest>, cs: seq<Candidate>, t: Table)
    requires AllAdmitted(cs) && TableOf(held, cs, t)
    ensures Lawful(t)
  {
    forall i: nat | t.Valid(i) ensures t.At(i, i) == Related(Equivalent) { LawsAt(held, cs, t, i, i, i); }
    forall i: nat, j: nat | t.Valid(i) && t.Valid(j)
      ensures t.At(j, i) == Swapped(t.At(i, j))
      ensures t.At(i, j).Unproved? ==> t.At(i, j).left || t.At(i, j).right
    {
      LawsAt(held, cs, t, i, j, i);
    }
    TableIsTransitive(held, cs, t);
  }

  lemma {:induction false} TableIsTransitive(held: set<Manifest>, cs: seq<Candidate>, t: Table)
    requires AllAdmitted(cs) && TableOf(held, cs, t)
    ensures Transitive(t)
  {
    forall i: nat, j: nat, k: nat | t.Valid(i) && t.Valid(j) && t.Valid(k) && AtLeast(t.At(i, j)) && AtLeast(t.At(j, k))
      ensures AtLeast(t.At(i, k)) || t.At(i, k).Unproved?
    {
      LawsAt(held, cs, t, i, j, k);
    }
  }

  ghost function MakeTable(held: set<Manifest>, cs: seq<Candidate>): (t: Table)
    ensures TableOf(held, cs, t)
  {
    Table(seq(|cs|, i requires 0 <= i < |cs| => cs[i].claim.Some?),
          seq(|cs|, i requires 0 <= i < |cs| =>
            seq(|cs|, j requires 0 <= j < |cs| => Compared(held, cs[i], cs[j]))))
  }

  /* ---- The verdict on a table ---- */

  /** Two observations, by position in source order; an observation that could
      not be loaded is paired with itself. */
  type Pair = (nat, nat)

  datatype Kind = Contradictory | Unprovable | Unordered

  ghost predicate Keep(t: Table, kind: Kind, a: nat, b: nat) {
    && t.Valid(a) && t.Valid(b)
    && match kind
       case Contradictory => t.At(a, b).Contradiction?
       case Unprovable => t.At(a, b).Unproved?
       case Unordered => t.Eligible(a) && t.Eligible(b) && t.At(a, b) == Related(Incomparable)
  }

  /** The pairs a < b of a kind that come before (i, j), in order. */
  ghost function PairsUpTo(t: Table, kind: Kind, i: nat, j: nat): seq<Pair>
    decreases i, j
  {
    if j > i + 1 then
      PairsUpTo(t, kind, i, j - 1) + if Keep(t, kind, i, j - 1) then [(i, j - 1)] else []
    else if i > 0 then PairsUpTo(t, kind, i - 1, t.Size())
    else []
  }

  ghost function AllPairs(t: Table, kind: Kind): seq<Pair> {
    if t.Size() == 0 then [] else PairsUpTo(t, kind, t.Size() - 1, t.Size())
  }

  ghost function Unloaded(t: Table, n: nat): seq<Pair> {
    if n == 0 then [] else Unloaded(t, n - 1) + if t.Valid(n - 1) then [] else [(n - 1, n - 1)]
  }

  ghost function Winners(t: Table, n: nat): seq<nat> {
    if n == 0 then [] else Winners(t, n - 1) + if t.Winner(n - 1) then [n - 1] else []
  }

  datatype Verdict =
    | Selected(winners: seq<nat>, unavailable: seq<Pair>)
    | Conflicting(conflicts: seq<Pair>)
    | NoMaximum(pairs: seq<Pair>)
    | Unevaluated(failures: seq<Pair>)

  /** What arbitration of a table decides. */
  ghost function Arbitrate(t: Table): Verdict {
    var failures := Unloaded(t, t.Size()) + AllPairs(t, Unprovable);
    if AllPairs(t, Contradictory) != [] then Conflicting(AllPairs(t, Contradictory))
    else if Winners(t, t.Size()) != [] then Selected(Winners(t, t.Size()), failures)
    else if exists i: nat :: t.Eligible(i) then NoMaximum(AllPairs(t, Unordered))
    else Unevaluated(failures)
  }

  /* ---- What the verdict means ---- */

  /** The list holds only pairs of its kind that come before its end ... */
  lemma {:induction false} PairsSound(t: Table, kind: Kind, i: nat, j: nat)
    requires i < j <= t.Size()
    ensures forall q | q in PairsUpTo(t, kind, i, j) :: q.0 < q.1 < t.Size() && Keep(t, kind, q.0, q.1)
    decreases i, j
  {
    if j > i + 1 {
      PairsSound(t, kind, i, j - 1);
    } else if i > 0 {
      PairsSound(t, kind, i - 1, t.Size());
    }
  }

  /** ... and all of them. */
  lemma {:induction false} PairsComplete(t: Table, kind: Kind, i: nat, j: nat, a: nat, b: nat)
    requires i < j <= t.Size() && a < b < t.Size() && (a < i || (a == i && b < j)) && Keep(t, kind, a, b)
    ensures (a, b) in PairsUpTo(t, kind, i, j)
    decreases i, j
  {
    if j > i + 1 {
      if (a, b) != (i, j - 1) { PairsComplete(t, kind, i, j - 1, a, b); }
    } else {
      PairsComplete(t, kind, i - 1, t.Size(), a, b);
    }
  }

  lemma {:induction false} WinnersAre(t: Table, n: nat)
    ensures forall i | i in Winners(t, n) :: 0 <= i < n && t.Winner(i)
    ensures forall i: nat | i < n && t.Winner(i) :: i in Winners(t, n)
    ensures forall a, b | 0 <= a < b < |Winners(t, n)| :: Winners(t, n)[a] < Winners(t, n)[b]
  {
    if n > 0 {
      WinnersAre(t, n - 1);
      var prev := Winners(t, n - 1);
      assert forall a | 0 <= a < |prev| :: prev[a] in prev;
    }
  }

  lemma {:induction false} PairAbsent(t: Table, kind: Kind, i: nat, j: nat)
    requires AllPairs(t, kind) == [] && i < j < t.Size()
    ensures !Keep(t, kind, i, j)
  {
    if Keep(t, kind, i, j) { PairsComplete(t, kind, t.Size() - 1, t.Size(), i, j); }
  }

  lemma {:induction false} NothingApartIsOrdered(t: Table)
    requires Lawful(t) && AllPairs(t, Contradictory) == [] && AllPairs(t, Unordered) == []
    ensures Ordered(t, t.Size())
  {
    forall i: nat, j: nat | i < j < t.Size() && t.Eligible(i) && t.Eligible(j)
      ensures t.At(i, j).Related? && t.At(i, j) != Related(Incomparable)
    {
      MissingProofDisqualifies(t, i, j);
      PairAbsent(t, Contradictory, i, j);
      PairAbsent(t, Unordered, i, j);
    }
  }

  /** Without contradictions, having eligible claims but no winner means that
      some two of them are incomparable. */
  lemma {:induction false} NoMaximumHasWitness(t: Table, some: nat)
    requires Lawful(t) && t.Eligible(some) && AllPairs(t, Contradictory) == [] && Winners(t, t.Size()) == []
    ensures AllPairs(t, Unordered) != []
  {
    if AllPairs(t, Unordered) == [] {
      NothingApartIsOrdered(t);
      var m := WinnerExists(t, some);
      WinnersAre(t, t.Size());
    }
  }

  /** A selection is correct: every winner includes every eligible claim, all
      winners carry one and the same claim, and every eligible observation of
      that claim is among them. */
  lemma {:induction false} SelectionIsMaximum(held: set<Manifest>, cs: seq<Candidate>, t: Table, i: nat, j: nat)
    requires AllAdmitted(cs) && TableOf(held, cs, t) && Arbitrate(t).Selected?
    requires i in Arbitrate(t).winners && t.Eligible(j)
    ensures t.Valid(i) && t.Valid(j) && Includes(held, cs[i].claim.value, cs[j].claim.value)
    ensures j in Arbitrate(t).winners <==> cs[j].claim == cs[i].claim
  {
    TableIsLawful(held, cs, t);
    WinnersAre(t, t.Size());
    if cs[j].claim == cs[i].claim {
      SameClaimWins(held, cs, t, i, j);
    } else if t.Winner(j) {
      WinnersAgree(t, i, j);
      InclusionIsAntisymmetric(held, cs[i].claim.value, cs[j].claim.value);
    }
  }

  lemma {:induction false} NoConflictBelow(held: set<Manifest>, cs: seq<Candidate>, t: Table, i: nat)
    requires AllAdmitted(cs) && TableOf(held, cs, t) && t.Valid(i) && forall j: nat | t.Valid(j) :: AtLeast(t.At(i, j))
    ensures AllPairs(t, Contradictory) == []
  {
    var pairs := AllPairs(t, Contradictory);
    if pairs != [] {
      PairsSound(t, Contradictory, t.Size() - 1, t.Size());
      var q := pairs[0];
      assert q in pairs;
      assert AtLeast(t.At(i, q.0)) && AtLeast(t.At(i, q.1));
      IncludedAreCompatible(held, cs[i].claim.value, cs[q.0].claim.value, cs[q.1].claim.value);
    }
  }

  /** Conversely, a claim proved to include every claim that loaded is selected. */
  lemma {:induction false} DominatorIsSelected(held: set<Manifest>, cs: seq<Candidate>, t: Table, i: nat)
    requires AllAdmitted(cs) && TableOf(held, cs, t) && t.Valid(i) && forall j: nat | t.Valid(j) :: AtLeast(t.At(i, j))
    ensures Arbitrate(t).Selected? && i in Arbitrate(t).winners
    ensures forall k | k in Arbitrate(t).winners :: k < |cs| && cs[k].claim == cs[i].claim
  {
    NoConflictBelow(held, cs, t, i);
    assert t.Winner(i);
    WinnersAre(t, t.Size());
    forall k | k in Arbitrate(t).winners ensures k < |cs| && cs[k].claim == cs[i].claim {
      SelectionIsMaximum(held, cs, t, i, k);
    }
  }

  lemma {:induction false} SameClaimWins(held: set<Manifest>, cs: seq<Candidate>, t: Table, i: nat, j: nat)
    requires TableOf(held, cs, t) && t.Winner(i) && t.Eligible(j) && cs[i].claim == cs[j].claim
    ensures t.Winner(j)
  {
    forall k: nat | t.Eligible(k) ensures AtLeast(t.At(j, k)) {
      assert t.At(j, k) == Compared(held, cs[j], cs[k]) == Compared(held, cs[i], cs[k]) == t.At(i, k);
    }
  }

  /* ---- Filling the matrix ---- */

  /** The pair comes before (i, j) in the order the loops visit pairs. */
  predicate Before(a: nat, b: nat, i: nat, j: nat) {
    a < i || (a == i && b < j)
  }

  /** The two observations have been compared, in either order, or are one. */
  predicate Seen(a: nat, b: nat, i: nat, j: nat) {
    a == b || (if a < b then Before(a, b, i, j) else Before(b, a, i, j))
  }

  /** What the matrix holds for a pair when the loops have reached (i, j). */
  ghost function Cell(t: Table, a: nat, b: nat, i: nat, j: nat): Option<Relation> {
    if t.Valid(a) && t.Valid(b) && Seen(a, b, i, j) && t.At(a, b).Related? then Some(t.At(a, b).relation) else None
  }

  /** The matrix: a relation for each pair that has one. */
  type Matrix = map<Pair, Relation>

  ghost predicate MatrixOk(t: Table, m: Matrix, i: nat, j: nat) {
    forall a: nat, b: nat | a < t.Size() && b < t.Size() ::
      (if (a, b) in m then Some(m[(a, b)]) else None) == Cell(t, a, b, i, j)
  }

  ghost predicate MarkedBy(t: Table, a: nat, b: nat, i: nat, j: nat) {
    t.Valid(b) && Seen(a, b, i, j) && t.At(a, b).Unproved? && t.At(a, b).left
  }

  ghost predicate Marked(t: Table, a: nat, i: nat, j: nat) {
    exists b: nat :: MarkedBy(t, a, b, i, j)
  }

  /** The observations that are still healthy. */
  ghost predicate EligibleOk(t: Table, eligible: set<nat>, i: nat, j: nat) {
    forall a: nat | a < t.Size() :: a in eligible <==> t.Valid(a) && !Marked(t, a, i, j)
  }

  /** Loading: each observation is related to itself if it has a claim. */
  method LoadClaims(cs: seq<Candidate>, ghost t: Table) returns (m: Matrix, eligible: set<nat>, failures: seq<Pair>)
    requires Lawful(t) && |cs| == t.Size() && forall i | 0 <= i < |cs| :: t.valid[i] == cs[i].claim.Some?
    ensures MatrixOk(t, m, 0, 0) && EligibleOk(t, eligible, 0, 0)
    ensures failures == Unloaded(t, |cs|)
  {
    m, eligible, failures := map[], {}, [];
    for i := 0 to |cs|
      invariant failures == Unloaded(t, i)
      invariant forall a: nat, b: nat :: (a, b) in m <==> a == b && a < i && t.Valid(a)
      invariant forall q | q in m :: m[q] == Equivalent
      invariant forall a: nat :: a in eligible <==> a < i && t.Valid(a)
    {
      if cs[i].claim.None? {
        failures := failures + [(i, i)];
      } else {
        m, eligible := m[(i, i) := Equivalent], eligible + {i};
      }
    }
    CellsAtStart(t);
  }

  lemma {:induction false} CellsAtStart(t: Table)
    requires Lawful(t)
    ensures forall a: nat, b: nat | a < t.Size() && b < t.Size() ::
              Cell(t, a, b, 0, 0) == if a == b && t.Valid(a) then Some(Equivalent) else None
    ensures forall a: nat | t.Valid(a) :: !Marked(t, a, 0, 0)
  {
  }

  /** The cells after one more pair. */
  lemma {:induction false} CellsStep(t: Table, i: nat, j: nat, next: nat, a: nat, b: nat)
    requires Lawful(t) && i < j < t.Size() && next == j + 1 && a < t.Size() && b < t.Size()
    ensures (a, b) == (i, j) ==>
              Cell(t, a, b, i, next) ==
              if t.Valid(i) && t.Valid(j) && t.At(i, j).Related? then Some(t.At(i, j).relation) else None
    ensures (a, b) == (j, i) ==>
              Cell(t, a, b, i, next) ==
              if t.Valid(i) && t.Valid(j) && t.At(i, j).Related? then Some(Reverse(t.At(i, j).relation)) else None
    ensures (a, b) != (i, j) && (a, b) != (j, i) ==> Cell(t, a, b, i, next) == Cell(t, a, b, i, j)
    ensures (a, b) == (i, j) || (a, b) == (j, i) ==> Cell(t, a, b, i, j) == None
  {
  }

  lemma {:induction false} MarksStep(t: Table, i: nat, j: nat, next: nat, a: nat, b: nat)
    requires Lawful(t) && i < j < t.Size() && next == j + 1 && a < t.Size()
    ensures MarkedBy(t, a, b, i, next) <==>
            MarkedBy(t, a, b, i, j) || ((a, b) in {(i, j), (j, i)} && MarkedBy(t, a, b, i, next))
  {
  }

  /** A relation is recorded on both sides of the matrix. */
  method RecordRelation(m0: Matrix, i: nat, j: nat, outcome: Option<Outcome>, ghost t: Table, ghost next: nat)
    returns (m: Matrix)
    requires Lawful(t) && i < j < t.Size() && MatrixOk(t, m0, i, j) && next == j + 1
    requires outcome == if t.Valid(i) && t.Valid(j) then Some(t.At(i, j)) else None
    ensures MatrixOk(t, m, i, next)
  {
    m := m0;
    if outcome.Some? && outcome.value.Related? {
      m := m[(i, j) := outcome.value.relation];
      m := m[(j, i) := Reverse(outcome.value.relation)];
    }
    forall a: nat, b: nat | a < t.Size() && b < t.Size()
      ensures (if (a, b) in m then Some(m[(a, b)]) else None) == Cell(t, a, b, i, next)
    {
      CellsStep(t, i, j, next, a, b);
    }
  }

  /** A missing proof disqualifies the sides it is attributed to. */
  method RecordHealth(eligible0: set<nat>, i: nat, j: nat, outcome: Option<Outcome>, ghost t: Table, ghost next: nat)
    returns (eligible: set<nat>)
    requires Lawful(t) && i < j < t.Size() && EligibleOk(t, eligible0, i, j) && next == j + 1
    requires outcome == if t.Valid(i) && t.Valid(j) then Some(t.At(i, j)) else None
    ensures EligibleOk(t, eligible, i, next)
  {
    eligible := eligible0;
    if outcome.Some? && outcome.value.Unproved? {
      if outcome.value.left { eligible := eligible - {i}; }
      if outcome.value.right { eligible := eligible - {j}; }
    }
    forall a: nat | a < t.Size() ensures a in eligible <==> t.Valid(a) && !Marked(t, a, i, next) {
      MarksOf(t, i, j, next, a);
    }
  }

  /** Who is marked after one more pair. */
  lemma {:induction false} MarksOf(t: Table, i: nat, j: nat, next: nat, a: nat)
    requires Lawful(t) && i < j < t.Size() && next == j + 1 && a < t.Size()
    ensures Marked(t, a, i, next) <==>
            || Marked(t, a, i, j)
            || (a == i && t.Valid(j) && t.At(i, j).Unproved? && t.At(i, j).left)
            || (a == j && t.Valid(i) && t.At(j, i).Unproved? && t.At(j, i).left)
  {
    if b: nat :| MarkedBy(t, a, b, i, next) { MarksStep(t, i, j, next, a, b); }
    if b: nat :| MarkedBy(t, a, b, i, j) {
      MarksStep(t, i, j, next, a, b);
      assert MarkedBy(t, a, b, i, next);
    }
    if a == i && t.Valid(j) && t.At(i, j).Unproved? && t.At(i, j).left { assert MarkedBy(t, a, j, i, next); }
    if a == j && t.Valid(i) && t.At(j, i).Unproved? && t.At(j, i).left { assert MarkedBy(t, a, i, i, next); }
  }

  /* ---- The pairwise loops ---- */

  /** Two places in the loops before which the same pairs have been seen. */
  ghost predicate SamePlace(t: Table, i: nat, j: nat, i': nat, j': nat) {
    forall a: nat, b: nat | a < t.Size() && b < t.Size() :: Seen(a, b, i, j) <==> Seen(a, b, i', j')
  }

  /** Moving between such places changes nothing. */
  lemma {:induction false} Moves(t: Table, m: Matrix, eligible: set<nat>, i: nat, j: nat, i': nat, j': nat)
    requires SamePlace(t, i, j, i', j') && MatrixOk(t, m, i, j) && EligibleOk(t, eligible, i, j)
    ensures MatrixOk(t, m, i', j') && EligibleOk(t, eligible, i', j')
  {
    forall a: nat, b: nat | a < t.Size() && b < t.Size() ensures Cell(t, a, b, i, j) == Cell(t, a, b, i', j') {
    }
    forall a: nat | a < t.Size() ensures Marked(t, a, i, j) <==> Marked(t, a, i', j') {
      if b: nat :| MarkedBy(t, a, b, i, j) { assert MarkedBy(t, a, b, i', j'); }
      if b: nat :| MarkedBy(t, a, b, i', j') { assert MarkedBy(t, a, b, i, j); }
    }
  }

  lemma {:induction false} RowDone(t: Table, i: nat, next: nat, first: nat)
    requires next == i + 1 && first == next + 1
    ensures SamePlace(t, i, t.Size(), next, first)
  {
  }

  lemma {:induction false} Start(t: Table)
    ensures SamePlace(t, 0, 0, 0, 1)
  {
  }

  lemma {:induction false} Finish(t: Table, last: nat)
    requires last == t.Size() + 1
    ensures SamePlace(t, t.Size(), last, t.Size(), 0)
  {
  }

  method ClassifyPair(held: set<Manifest>, cs: seq<Candidate>, i: nat, j: nat, ghost t: Table)
    returns (r: Option<Outcome>)
    requires AllAdmitted(cs) && TableOf(held, cs, t) && i < |cs| && j < |cs|
    ensures r == if t.Valid(i) && t.Valid(j) then Some(t.At(i, j)) else None
  {
    if cs[i].claim.None? || cs[j].claim.None? { return None; }
    var o := ClassifyClaims(held, cs[i].claim.value, cs[j].claim.value);
    return Some(o);
  }

  /** What the loops have gathered when they reach (i, j). */
  ghost predicate Gathered(t: Table, i: nat, j: nat, conflicts: seq<Pair>, failures: seq<Pair>) {
    && conflicts == PairsUpTo(t, Contradictory, i, j)
    && failures == Unloaded(t, t.Size()) + PairsUpTo(t, Unprovable, i, j)
  }

  lemma {:induction false} GatherStep(t: Table, i: nat, j: nat, next: nat, outcome: Option<Outcome>,
                                      conflicts: seq<Pair>, failures: seq<Pair>)
    requires i < j < t.Size() && next == j + 1 && Gathered(t, i, j, conflicts, failures)
    requires outcome == if t.Valid(i) && t.Valid(j) then Some(t.At(i, j)) else None
    ensures Gathered(t, i, next,
                     if outcome.Some? && outcome.value.Contradiction? then conflicts + [(i, j)] else conflicts,
                     if outcome.Some? && outcome.value.Unproved? then failures + [(i, j)] else failures)
  {
  }

  lemma {:induction false} GatherRowDone(t: Table, i: nat, next: nat, first: nat, conflicts: seq<Pair>,
                                         failures: seq<Pair>)
    requires i < t.Size() && next == i + 1 && first == next + 1 && Gathered(t, i, t.Size(), conflicts, failures)
    ensures Gathered(t, next, first, conflicts, failures)
  {
  }

  /** One row: observation i against all later ones. */
  method CompareRow(held: set<Manifest>, cs: seq<Candidate>, i: nat, m0: Matrix, eligible0: set<nat>,
                    conflicts0: seq<Pair>, failures0: seq<Pair>, ghost t: Table)
    returns (m: Matrix, eligible: set<nat>, conflicts: seq<Pair>, failures: seq<Pair>)
    requires AllAdmitted(cs) && TableOf(held, cs, t) && Lawful(t) && i < |cs|
    requires MatrixOk(t, m0, i, i + 1) && EligibleOk(t, eligible0, i, i + 1)
    requires Gathered(t, i, i + 1, conflicts0, failures0)
    ensures MatrixOk(t, m, i, |cs|) && EligibleOk(t, eligible, i, |cs|) && Gathered(t, i, |cs|, conflicts, failures)
  {
    m, eligible, conflicts, failures := m0, eligible0, conflicts0, failures0;
    var j := i + 1;
    while j < |cs|
      invariant i < j <= |cs|
      invariant MatrixOk(t, m, i, j) && EligibleOk(t, eligible, i, j) && Gathered(t, i, j, conflicts, failures)
    {
      var next := j + 1;
      var outcome := ClassifyPair(held, cs, i, j, t);
      m := RecordRelation(m, i, j, outcome, t, next);
      eligible := RecordHealth(eligible, i, j, outcome, t, next);
      GatherStep(t, i, j, next, outcome, conflicts, failures);
      if outcome.Some? && outcome.value.Contradiction? { conflicts := conflicts + [(i, j)]; }
      if outcome.Some? && outcome.value.Unproved? { failures := failures + [(i, j)]; }
      j := next;
    }
    assert j == |cs|;
  }

  /** All pairs, in source order. */
  method CompareAll(held: set<Manifest>, cs: seq<Candidate>, m0: Matrix, eligible0: set<nat>,
                    unloaded: seq<Pair>, ghost t: Table)
    returns (m: Matrix, eligible: set<nat>, conflicts: seq<Pair>, failures: seq<Pair>)
    requires AllAdmitted(cs) && TableOf(held, cs, t) && Lawful(t) && cs != []
    requires MatrixOk(t, m0, 0, 0) && EligibleOk(t, eligible0, 0, 0) && unloaded == Unloaded(t, |cs|)
    ensures MatrixOk(t, m, |cs|, 0) && EligibleOk(t, eligible, |cs|, 0)
    ensures conflicts == AllPairs(t, Contradictory)
    ensures failures == Unloaded(t, |cs|) + AllPairs(t, Unprovable)
  {
    m, eligible, conflicts, failures := m0, eligible0, [], unloaded;
    Start(t);
    Moves(t, m, eligible, 0, 0, 0, 1);
    var i, first := 0, 1;
    while i < |cs|
      invariant i <= |cs| && first == i + 1
      invariant MatrixOk(t, m, i, first) && EligibleOk(t, eligible, i, first) &&
                Gathered(t, i, first, conflicts, failures)
    {
      m, eligible, conflicts, failures := CompareRow(held, cs, i, m, eligible, conflicts, failures, t);
      var next, second := i + 1, first + 1;
      RowDone(t, i, next, second);
      Moves(t, m, eligible, i, |cs|, next, second);
      GatherRowDone(t, i, next, second, conflicts, failures);
      i, first := next, second;
    }
    assert i == |cs|;
    Finish(t, first);
    Moves(t, m, eligible, i, first, i, 0);
    GatheredAll(t, first, conflicts, failures);
  }

  lemma {:induction false} GatheredAll(t: Table, first: nat, conflicts: seq<Pair>, failures: seq<Pair>)
    requires t.Size() > 0 && first == t.Size() + 1 && Gathered(t, t.Size(), first, conflicts, failures)
    ensures conflicts == AllPairs(t, Contradictory)
    ensures failures == Unloaded(t, t.Size()) + AllPairs(t, Unprovable)
  {
  }

  /** The finished matrix and health flags mean what they should. */
  lemma {:induction false} FinishedMeans(t: Table, a: nat, b: nat)
    requires a < t.Size() && b < t.Size()
    ensures Cell(t, a, b, t.Size(), 0) ==
            if t.Valid(a) && t.Valid(b) && t.At(a, b).Related? then Some(t.At(a, b).relation) else None
    ensures t.Eligible(a) <==> t.Valid(a) && !Marked(t, a, t.Size(), 0)
  {
    var n := t.Size();
    if c: nat :| MarkedBy(t, a, c, n, 0) { assert t.Valid(c) && t.At(a, c).Unproved? && t.At(a, c).left; }
    if c: nat :| t.Valid(c) && t.At(a, c).Unproved? && t.At(a, c).left { assert MarkedBy(t, a, c, n, 0); }
  }

  /* ---- The verdict from the matrix ---- */

  /** The finished loops: the matrix and the healthy set describe the table. */
  ghost predicate Finished(t: Table, m: Matrix, eligible: set<nat>) {
    && (forall a: nat | a < t.Size() :: a in eligible <==> t.Eligible(a))
    && (forall a: nat, b: nat | a < t.Size() && b < t.Size() ::
          (if (a, b) in m then Some(m[(a, b)]) else None) ==
          if t.Valid(a) && t.Valid(b) && t.At(a, b).Related? then Some(t.At(a, b).relation) else None)
  }

  lemma {:induction false} FinishedFrom(t: Table, m: Matrix, eligible: set<nat>)
    requires MatrixOk(t, m, t.Size(), 0) && EligibleOk(t, eligible, t.Size(), 0)
    ensures Finished(t, m, eligible)
  {
    forall a: nat | a < t.Size() ensures a in eligible <==> t.Eligible(a) { FinishedMeans(t, a, a); }
    forall a: nat, b: nat | a < t.Size() && b < t.Size()
      ensures (if (a, b) in m then Some(m[(a, b)]) else None) ==
              if t.Valid(a) && t.Valid(b) && t.At(a, b).Related? then Some(t.At(a, b).relation) else None
    {
      FinishedMeans(t, a, b);
    }
  }

  method DominatesAll(i: nat, n: nat, m: Matrix, eligible: set<nat>, ghost t: Table) returns (all: bool)
    requires Finished(t, m, eligible) && n == t.Size() && i < n
    ensures all <==> t.Winner(i)
  {
    if i !in eligible { return false; }
    all := true;
    for j := 0 to n
      invariant all <==> forall b: nat | b < j && t.Eligible(b) :: AtLeast(t.At(i, b))
    {
      if j in eligible && !((i, j) in m && (m[(i, j)] == Equivalent || m[(i, j)] == LeftDominates)) { all := false; }
    }
  }

  lemma {:induction false} WinnersStep(t: Table, i: nat, next: nat)
    requires next == i + 1
    ensures Winners(t, next) == if t.Winner(i) then Winners(t, i) + [i] else Winners(t, i)
  {
  }

  method PickWinners(n: nat, m: Matrix, eligible: set<nat>, ghost t: Table) returns (winners: seq<nat>)
    requires Finished(t, m, eligible) && n == t.Size()
    ensures winners == Winners(t, n)
  {
    winners := [];
    var i := 0;
    while i < n
      invariant i <= n && winners == Winners(t, i)
    {
      var all := DominatesAll(i, n, m, eligible, t);
      var next := i + 1;
      WinnersStep(t, i, next);
      if all { winners := winners + [i]; }
      i := next;
    }
    assert i == n;
  }

  method ListIncomparable(n: nat, m: Matrix, eligible: set<nat>, ghost t: Table) returns (pairs: seq<Pair>)
    requires Finished(t, m, eligible) && n == t.Size() && n > 0
    ensures pairs == AllPairs(t, Unordered)
  {
    pairs := [];
    var i, first := 0, 1;
    while i < n
      invariant i <= n && first == i + 1 && pairs == PairsUpTo(t, Unordered, i, first)
    {
      var j := first;
      while j < n
        invariant first <= j <= n && pairs == PairsUpTo(t, Unordered, i, j)
      {
        if i in eligible && j in eligible && (i, j) in m && m[(i, j)] == Incomparable { pairs := pairs + [(i, j)]; }
        j := j + 1;
      }
      assert j == n;
      i, first := first, first + 1;
    }
    assert i == n;
  }

  /** The failures between two healthy observations. */
  method Blocking(failures: seq<Pair>, eligible: set<nat>) returns (blocking: seq<Pair>)
    ensures forall q :: q in blocking <==> q in failures && q.0 in eligible && q.1 in eligible
    ensures blocking == [] <==> forall q | q in failures :: !(q.0 in eligible && q.1 in eligible)
  {
    blocking := [];
    for k := 0 to |failures|
      invariant forall q :: q in blocking <==> q in failures[..k] && q.0 in eligible && q.1 in eligible
      invariant blocking == [] <==> forall q | q in failures[..k] :: !(q.0 in eligible && q.1 in eligible)
    {
      if failures[k].0 in eligible && failures[k].1 in eligible { blocking := blocking + [failures[k]]; }
      assert failures[..k + 1] == failures[..k] + [failures[k]];
    }
    assert failures[..|failures|] == failures;
  }

  lemma {:induction false} UnloadedAre(t: Table, n: nat)
    requires n <= t.Size()
    ensures forall q | q in Unloaded(t, n) :: q.0 == q.1 < t.Size() && !t.Valid(q.0)
  {
    if n > 0 { UnloadedAre(t, n - 1); }
  }

  lemma {:induction false} FailuresInvolveUnhealthy(t: Table, failures: seq<Pair>)
    requires Lawful(t) && failures == Unloaded(t, t.Size()) + AllPairs(t, Unprovable)
    ensures forall q | q in failures :: q.0 < t.Size() && q.1 < t.Size() && !(t.Eligible(q.0) && t.Eligible(q.1))
  {
    UnloadedAre(t, t.Size());
    if t.Size() > 0 { PairsSound(t, Unprovable, t.Size() - 1, t.Size()); }
    forall q | q in failures ensures q.0 < t.Size() && q.1 < t.Size() && !(t.Eligible(q.0) && t.Eligible(q.1)) {
      if q in AllPairs(t, Unprovable) && t.Eligible(q.0) && t.Eligible(q.1) { MissingProofDisqualifies(t, q.0, q.1); }
    }
  }

  /** There are none: a missing proof disqualifies one of its sides. */
  lemma {:induction false} NothingBlocks(t: Table, m: Matrix, eligible: set<nat>, failures: seq<Pair>,
                                         blocking: seq<Pair>)
    requires Lawful(t) && Finished(t, m, eligible) && failures == Unloaded(t, t.Size()) + AllPairs(t, Unprovable)
    requires blocking == [] <==> forall q | q in failures :: !(q.0 in eligible && q.1 in eligible)
    ensures blocking == []
  {
    FailuresInvolveUnhealthy(t, failures);
  }

  /** The selection loop decides what Arbitrate says. Both of its internal
      errors are unreachable. */
  method Decide(held: set<Manifest>, cs: seq<Candidate>, ghost t: Table) returns (r: Verdict)
    requires AllAdmitted(cs) && TableOf(held, cs, t) && cs != []
    ensures r == Arbitrate(t)
    ensures r.NoMaximum? ==> r.pairs != []
  {
    TableIsLawful(held, cs, t);
    var m, eligible, unloaded := LoadClaims(cs, t);
    var conflicts, failures;
    m, eligible, conflicts, failures := CompareAll(held, cs, m, eligible, unloaded, t);
    FinishedFrom(t, m, eligible);
    if conflicts != [] { return Conflicting(conflicts); }
    var winners := PickWinners(|cs|, m, eligible, t);
    if winners == [] {
      var healthy := AnyHealthy(|cs|, eligible, t, m);
      var blocking := Blocking(failures, eligible);
      NothingBlocks(t, m, eligible, failures, blocking);
      if !healthy { return Unevaluated(failures); }
      var pairs := ListIncomparable(|cs|, m, eligible, t);
      ghost var some: nat :| t.Eligible(some);
      NoMaximumHasWitness(t, some);
      return NoMaximum(pairs);
    }
    WinnersAllAgree(t, winners);
    return Selected(winners, failures);
  }

  method AnyHealthy(n: nat, eligible: set<nat>, ghost t: Table, ghost m: Matrix) returns (some: bool)
    requires Finished(t, m, eligible) && n == t.Size()
    ensures some <==> exists i: nat :: t.Eligible(i)
  {
    some := false;
    for i := 0 to n
      invariant some <==> exists a: nat :: a < i && t.Eligible(a)
    {
      if i in eligible { some := true; }
    }
  }

  lemma {:induction false} WinnersAllAgree(t: Table, winners: seq<nat>)
    requires Lawful(t) && winners == Winners(t, t.Size())
    ensures forall i, j | i in winners && j in winners :: t.At(i, j) == Related(Equivalent)
  {
    WinnersAre(t, t.Size());
    forall i, j | i in winners && j in winners ensures t.At(i, j) == Related(Equivalent) { WinnersAgree(t, i, j); }
  }

  /* ---- Input order ---- */

  ghost predicate Sorted(cs: seq<Candidate>) {
    forall i, j | 0 <= i < j < |cs| :: cs[i].source <= cs[j].source
  }

  method FindPlace(cs: seq<Candidate>, c: Candidate) returns (k: nat)
    requires Sorted(cs)
    ensures k <= |cs|
    ensures (forall a | 0 <= a < k :: cs[a].source <= c.source) && (forall a | k <= a < |cs| :: cs[a].source > c.source)
  {
    k := |cs|;
    while k > 0 && cs[k - 1].source > c.source
      invariant k <= |cs| && forall a | k <= a < |cs| :: cs[a].source > c.source
    {
      k := k - 1;
    }
  }

  lemma {:induction false} InsertSorted(lo: seq<Candidate>, c: Candidate, hi: seq<Candidate>)
    requires Sorted(lo + hi)
    requires (forall a | 0 <= a < |lo| :: lo[a].source <= c.source) &&
             (forall a | 0 <= a < |hi| :: hi[a].source > c.source)
    ensures Sorted(lo + [c] + hi)
  {
    var all, r := lo + hi, lo + [c] + hi;
    forall i, j | 0 <= i < j < |r| ensures r[i].source <= r[j].source {
      if i < |lo| && j > |lo| { assert r[i] == all[i] && r[j] == all[j - 1]; }
      if i < |lo| && j < |lo| { assert r[i] == all[i] && r[j] == all[j]; }
      if i > |lo| { assert r[i] == all[i - 1] && r[j] == all[j - 1]; }
    }
  }

  method Insert(cs: seq<Candidate>, c: Candidate) returns (r: seq<Candidate>)
    requires Sorted(cs)
    ensures Sorted(r) && multiset(r) == multiset(cs) + multiset{c}
  {
    var k := FindPlace(cs, c);
    var lo, hi := cs[..k], cs[k..];
    assert cs == lo + hi;
    InsertSorted(lo, c, hi);
    r := lo + [c] + hi;
  }

  method SortBySource(candidates: seq<Candidate>) returns (cs: seq<Candidate>)
    ensures Sorted(cs) && multiset(cs) == multiset(candidates)
  {
    cs := [];
    for i := 0 to |candidates|
      invariant Sorted(cs) && multiset(cs) == multiset(candidates[..i])
    {
      cs := Insert(cs, candidates[i]);
      assert candidates[..i + 1] == candidates[..i] + [candidates[i]];
    }
    assert candidates[..|candidates|] == candidates;
  }

  ghost predicate DistinctSources(cs: seq<Candidate>) {
    forall i, j | 0 <= i < j < |cs| :: cs[i].source != cs[j].source
  }

  ghost predicate SameMembers(a: seq<Candidate>, b: seq<Candidate>) {
    forall c :: c in a <==> c in b
  }

  lemma {:induction false} HasMember(b: seq<Candidate>)
    requires b != []
    ensures exists c :: c in b
  {
    assert b[0] in b;
  }

  lemma {:induction false} LastIsSame(a: seq<Candidate>, b: seq<Candidate>)
    requires Sorted(a) && Sorted(b) && DistinctSources(a) && SameMembers(a, b) && a != []
    ensures b != [] && a[|a| - 1] == b[|b| - 1]
  {
    var x := a[|a| - 1];
    assert x in a;
    var j :| 0 <= j < |b| && b[j] == x;
    var y := b[|b| - 1];
    assert y in b;
    var i :| 0 <= i < |a| && a[i] == y;
  }

  lemma {:induction false} WithoutLast(a: seq<Candidate>, c: Candidate)
    requires a != [] && DistinctSources(a)
    ensures c in a[..|a| - 1] <==> c in a && c != a[|a| - 1]
  {
    var n := |a| - 1;
    assert a == a[..n] + [a[n]];
    if c in a[..n] {
      var i :| 0 <= i < n && a[i] == c;
    }
  }

  /** Observations of distinct sources have one sorted order: the order they
      came in is forgotten. */
  lemma {:induction false} SortedOnce(a: seq<Candidate>, b: seq<Candidate>)
    requires Sorted(a) && Sorted(b) && DistinctSources(a) && DistinctSources(b) && SameMembers(a, b)
    ensures a == b
  {
    if a == [] {
      if b != [] { HasMember(b); }
    } else {
      LastIsSame(a, b);
      var p, q := a[..|a| - 1], b[..|b| - 1];
      forall c ensures c in p <==> c in q {
        WithoutLast(a, c);
        WithoutLast(b, c);
      }
      SortedOnce(p, q);
      assert a == p + [a[|a| - 1]] && b == q + [b[|b| - 1]];
    }
  }

  /** The first n sources ascend, each one above its neighbour. */
  predicate Ascending(cs: seq<Candidate>, n: nat)
    requires n <= |cs|
  {
    n <= 1 || (cs[n - 2].source < cs[n - 1].source && Ascending(cs, n - 1))
  }

  lemma {:induction false} AscendingMeans(cs: seq<Candidate>, n: nat)
    requires n <= |cs| && Ascending(cs, n)
    ensures forall i, j | 0 <= i < j < n :: cs[i].source < cs[j].source
  {
    if n > 1 { AscendingMeans(cs, n - 1); }
  }

  /** The observations in source order. */
  predicate InSourceOrder(candidates: seq<Candidate>, cs: seq<Candidate>) {
    multiset(cs) == multiset(candidates) && Ascending(cs, |cs|)
  }

  /** SelectFinalizedClaim: nothing without observations or with a repeated
      source; otherwise the verdict on the observations in source order. */
  method SelectFinalizedClaim(held: set<Manifest>, candidates: seq<Candidate>)
    returns (r: Option<Verdict>, cs: seq<Candidate>, ghost t: Table)
    requires AllAdmitted(candidates)
    ensures r.None? <==> candidates == [] || !DistinctSources(candidates)
    ensures r.Some? ==> InSourceOrder(candidates, cs) && AllAdmitted(cs)
    ensures r.Some? ==> t == MakeTable(held, cs) && r.value == Arbitrate(t)
    ensures r.Some? && r.value.NoMaximum? ==> r.value.pairs != []
  {
    cs := SortBySource(candidates);
    t := MakeTable(held, cs);
    if cs == [] {
      assert multiset(candidates) == multiset{};
      SameLength(cs, candidates);
      return None, cs, t;
    }
    var i := 1;
    while i < |cs|
      invariant 1 <= i <= |cs| && Ascending(cs, i)
    {
      if cs[i - 1].source == cs[i].source {
        RepeatedSource(cs, candidates, i);
        return None, cs, t;
      }
      i := i + 1;
    }
    assert i == |cs|;
    AscendingIsDistinct(cs, candidates);
    AdmittedStays(candidates, cs);
    var v := Decide(held, cs, t);
    return Some(v), cs, t;
  }

  lemma {:induction false} SameLength(a: seq<Candidate>, b: seq<Candidate>)
    requires multiset(a) == multiset(b)
    ensures |a| == |b|
  {
    assert |a| == |multiset(a)| && |b| == |multiset(b)|;
  }

  lemma {:induction false} TwoPlaces(b: seq<Candidate>, x: Candidate, y: Candidate)
    requires DistinctSources(b) && x in b && y in b && x.source == y.source
    ensures x == y
  {
    var i :| 0 <= i < |b| && b[i] == x;
    var j :| 0 <= j < |b| && b[j] == y;
  }

  lemma {:induction false} CountTwice(b: seq<Candidate>, i: nat, j: nat)
    requires i < j < |b| && b[i] == b[j]
    ensures multiset(b)[b[i]] >= 2
  {
    assert b == b[..i] + [b[i]] + b[i + 1..j] + [b[j]] + b[j + 1..];
  }

  lemma {:induction false} LastOnlyOnce(b: seq<Candidate>)
    requires DistinctSources(b) && b != []
    ensures multiset(b[..|b| - 1])[b[|b| - 1]] == 0
  {
    var rest, last := b[..|b| - 1], b[|b| - 1];
    forall i | 0 <= i < |rest| ensures rest[i] != last {
      assert b[i].source != last.source;
    }
  }

  lemma {:induction false} CountOnce(b: seq<Candidate>, x: Candidate)
    requires DistinctSources(b)
    ensures multiset(b)[x] <= 1
  {
    if b != [] {
      var rest, last := b[..|b| - 1], b[|b| - 1];
      assert b == rest + [last];
      CountOnce(rest, x);
      LastOnlyOnce(b);
    }
  }

  /** A source that repeats in the sorted list repeats in the input. */
  lemma {:induction false} RepeatedSource(cs: seq<Candidate>, candidates: seq<Candidate>, i: nat)
    requires multiset(cs) == multiset(candidates) && 1 <= i < |cs| && cs[i - 1].source == cs[i].source
    ensures !DistinctSources(candidates)
  {
    var x, y := cs[i - 1], cs[i];
    assert x in multiset(candidates) && y in multiset(candidates);
    if x == y { CountTwice(cs, i - 1, i); }
    if DistinctSources(candidates) {
      TwoPlaces(candidates, x, y);
      CountOnce(candidates, x);
    }
  }

  lemma {:induction false} AscendingIsDistinct(cs: seq<Candidate>, candidates: seq<Candidate>)
    requires multiset(cs) == multiset(candidates) && Ascending(cs, |cs|) && cs != []
    ensures candidates != [] && DistinctSources(candidates)
  {
    SameLength(cs, candidates);
    AscendingMeans(cs, |cs|);
    if i, j :| 0 <= i < j < |candidates| && candidates[i].source == candidates[j].source {
      var x, y := candidates[i], candidates[j];
      assert x in multiset(cs) && y in multiset(cs);
      TwoPlaces(cs, x, y);
      CountTwice(candidates, i, j);
      CountOnce(cs, x);
    }
  }

  lemma {:induction false} AdmittedStays(candidates: seq<Candidate>, cs: seq<Candidate>)
    requires AllAdmitted(candidates) && multiset(cs) == multiset(candidates)
    ensures AllAdmitted(cs)
  {
    forall i | 0 <= i < |cs| && cs[i].claim.Some? ensures Admitted(cs[i].claim.value.root) {
      assert cs[i] in multiset(candidates);
      var j :| 0 <= j < |candidates| && candidates[j] == cs[i];
    }
  }

  /** The verdict does not depend on the order of the observations: two lists of
      the same observations have one and the same source order. */
  lemma {:induction false} OrderIsIrrelevant(held: set<Manifest>, a: seq<Candidate>, b: seq<Candidate>,
                                             x: seq<Candidate>, y: seq<Candidate>)
    requires multiset(a) == multiset(b) && InSourceOrder(a, x) && InSourceOrder(b, y)
    ensures x == y && Arbitrate(MakeTable(held, x)) == Arbitrate(MakeTable(held, y))
  {
    forall c ensures c in x <==> c in y {
      assert c in multiset(x) <==> c in multiset(y);
    }
    AscendingMeans(x, |x|);
    AscendingMeans(y, |y|);
    SortedOnce(x, y);
  }
}
