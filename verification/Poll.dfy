/** Source-set polling of finalized heads (follow/source_finalized_poll.go,
    follow/source_poll.go, follow/conflict_runtime.go): arbitrate, compare the
    winner with the durable checkpoint, latch contradictions first, then
    advance. */
module Poll {
  import opened Dag
  import opened HeadState
  import opened Readers
  import opened Admission
  import opened Manifests
  import opened Claims
  import opened Arbitration
  import opened Verdicts

  type HeadName = string

  /* ---- Lineage: what a run of checkpoints must keep ---- */

  ghost predicate LinksBelow(m: Manifest, ancestor: Manifest, k: nat) {
    Below(m, ancestor, k)
  }

  /** b is a point in the history of a: same archive and parameters, b's root is
      the exact projection of a's, and b's manifest is a's or an ancestor of it. */
  ghost predicate Lineage(a: Claim, b: Claim) {
    && Admitted(a.root) && Admitted(b.root)
    && a.archive == b.archive && RootIncludes(a.root, b.root)
    && (a.manifest == b.manifest ||
        (a.manifest.Some? && b.manifest.Some? && exists k: nat :: LinksBelow(a.manifest.value, b.manifest.value, k)))
  }

  lemma {:induction false} LineageReflexive(a: Claim)
    requires Admitted(a.root)
    ensures Lineage(a, a)
  {
  }

  lemma {:induction false} LineageTransitive(a: Claim, b: Claim, c: Claim)
    requires Lineage(a, b) && Lineage(b, c)
    ensures Lineage(a, c)
  {
    RootsTransitive(a.root, b.root, c.root);
    if a.manifest != b.manifest && b.manifest != c.manifest {
      var j: nat :| LinksBelow(a.manifest.value, b.manifest.value, j);
      var k: nat :| LinksBelow(b.manifest.value, c.manifest.value, k);
      BelowAdds(a.manifest.value, b.manifest.value, c.manifest.value, j, k);
      assert LinksBelow(a.manifest.value, c.manifest.value, j + k);
    }
  }

  lemma {:induction false} IncludedIsLineage(held: set<Manifest>, a: Claim, b: Claim)
    requires Admitted(a.root) && Admitted(b.root) && Includes(held, a, b)
    ensures Lineage(a, b)
  {
    IncludesBoth(held, a, b);
    ProvedIsDescended(held, a.manifest, b.manifest);
    if a.manifest != b.manifest {
      var k: nat :| LinksAway(held, a.manifest.value, b.manifest.value, k);
      AwayIsBelow(held, a.manifest.value, b.manifest.value, k);
      assert LinksBelow(a.manifest.value, b.manifest.value, k);
    }
  }

  /** Every claim of the sequence is a point in the history of every later one. */
  ghost predicate Unbroken(history: seq<Claim>) {
    && (forall i | 0 <= i < |history| :: Admitted(history[i].root))
    && forall i, j | 0 <= i <= j < |history| :: Lineage(history[j], history[i])
  }

  lemma {:induction false} UnbrokenExtends(history: seq<Claim>, next: Claim)
    requires Unbroken(history) && Admitted(next.root)
    requires history != [] ==> Lineage(next, history[|history| - 1])
    ensures Unbroken(history + [next])
  {
    var h := history + [next];
    LineageReflexive(next);
    forall i, j | 0 <= i <= j < |h| ensures Lineage(h[j], h[i]) {
      if j == |history| && i < j { LineageTransitive(next, history[|history| - 1], history[i]); }
    }
  }

  /* ---- One head of one poll ---- */

  datatype Decision = Hold | Freeze | Advance(claim: Claim)

  /** The decision against the durable checkpoint: a proved advance is eligible,
      a contradiction freezes the head, everything else holds. */
  function Continuity(held: set<Manifest>, prior: Option<Claim>, winner: Claim): Decision
    requires UsableParams(winner.root.params) && (prior.Some? ==> UsableParams(prior.value.root.params))
  {
    if prior.None? then Advance(winner) else
      match Classify(held, winner, prior.value)
      case Contradiction(_) => Freeze
      case Unproved(_, _) => Hold
      case Related(relation) => if relation == LeftDominates then Advance(winner) else Hold
  }

  /** The claim of the first winner. */
  function Representative(cs: seq<Candidate>, winners: seq<nat>): Option<Claim> {
    if winners != [] && winners[0] < |cs| then cs[winners[0]].claim else None
  }

  /** What one head's observations, in source order, decide. */
  ghost function Decided(held: set<Manifest>, cs: seq<Candidate>, prior: Option<Claim>): Decision
    requires AllAdmitted(cs) && (prior.Some? ==> Admitted(prior.value.root))
  {
    if cs == [] then Hold else
      match Arbitrate(MakeTable(held, cs))
      case Conflicting(_) => Freeze
      case NoMaximum(_) => Hold
      case Unevaluated(_) => Hold
      case Selected(winners, _) =>
        var winner := Representative(cs, winners);
        if winner.Some? && Admitted(winner.value.root) then Continuity(held, prior, winner.value) else Hold
  }

  ghost predicate TopContradicts(held: set<Manifest>, observations: seq<Candidate>, prior: Option<Claim>,
                                 c: Candidate) {
    Tops(held, observations, c) && prior.Some? && Contradicts(held, c.claim.value, prior.value)
  }

  /** The head must be frozen: two observations clash, or the one at the top
      contradicts the checkpoint. */
  ghost predicate Freezes(held: set<Manifest>, observations: seq<Candidate>, prior: Option<Claim>) {
    && DistinctSources(observations)
    && (Clash(held, observations) || exists c :: TopContradicts(held, observations, prior, c))
  }

  ghost predicate TopClaim(held: set<Manifest>, observations: seq<Candidate>, w: Claim) {
    exists c :: Tops(held, observations, c) && c.claim == Some(w)
  }

  /** The head must advance to w: nothing clashes, w is the claim at the top, and
      it properly includes the checkpoint. */
  ghost predicate Adopts(held: set<Manifest>, observations: seq<Candidate>, prior: Option<Claim>, w: Claim) {
    && DistinctSources(observations) && !Clash(held, observations) && TopClaim(held, observations, w)
    && (prior.Some? ==> ShownToInclude(held, w, prior.value) && w != prior.value)
  }

  /** The decision is determined by the observations, whatever their order. */
  ghost predicate DecisionIs(held: set<Manifest>, observations: seq<Candidate>, prior: Option<Claim>, d: Decision) {
    && (d == Freeze <==> Freezes(held, observations, prior))
    && forall w: Claim :: d == Advance(w) <==> Adopts(held, observations, prior, w)
  }

  lemma {:induction false} TopIsAdmitted(held: set<Manifest>, observations: seq<Candidate>, c: Candidate)
    requires AllAdmitted(observations) && Tops(held, observations, c)
    ensures c.claim.Some? && Admitted(c.claim.value.root)
  {
  }

  /** With a claim at the top and no clash, the decision is the one against the
      checkpoint. */
  lemma {:induction false} TopDecides(held: set<Manifest>, observations: seq<Candidate>, prior: Option<Claim>,
                                      top: Candidate)
    requires AllAdmitted(observations) && (prior.Some? ==> Admitted(prior.value.root))
    requires DistinctSources(observations) && !Clash(held, observations) && Tops(held, observations, top)
    requires UsableParams(top.claim.value.root.params)
    ensures DecisionIs(held, observations, prior, Continuity(held, prior, top.claim.value))
  {
    var w := top.claim.value;
    TopIsAdmitted(held, observations, top);
    ContinuityMeans(held, prior, w);
    var d := Continuity(held, prior, w);
    if c :| TopContradicts(held, observations, prior, c) { TopsAgree(held, observations, c, top); }
    if d == Freeze { assert TopContradicts(held, observations, prior, top); }
    forall v: Claim ensures d == Advance(v) <==> Adopts(held, observations, prior, v) {
      if c :| Tops(held, observations, c) && c.claim == Some(v) { TopsAgree(held, observations, c, top); }
      if d == Advance(v) { assert TopClaim(held, observations, v); }
    }
  }

  /** Without one, nothing is adopted, and only a clash freezes the head. */
  lemma {:induction false} NoTopDecides(held: set<Manifest>, observations: seq<Candidate>, prior: Option<Claim>)
    requires DistinctSources(observations) && (Clash(held, observations) || !SomeTops(held, observations))
    ensures DecisionIs(held, observations, prior, if Clash(held, observations) then Freeze else Hold)
  {
    if c :| TopContradicts(held, observations, prior, c) { assert Tops(held, observations, c); }
    forall v: Claim ensures !Adopts(held, observations, prior, v) {
      if c :| Tops(held, observations, c) && c.claim == Some(v) { assert SomeTops(held, observations); }
    }
  }

  lemma {:induction false} NothingDecides(held: set<Manifest>, observations: seq<Candidate>, prior: Option<Claim>)
    requires observations == [] || !DistinctSources(observations)
    ensures DecisionIs(held, observations, prior, Hold)
  {
  }

  lemma {:induction false} DecidedMeans(held: set<Manifest>, observations: seq<Candidate>, cs: seq<Candidate>,
                                        prior: Option<Claim>)
    requires AllAdmitted(observations) && AllAdmitted(cs) && (prior.Some? ==> Admitted(prior.value.root))
    requires SameMembersAs(observations, cs) && DistinctSources(observations) && cs != []
    ensures DecisionIs(held, observations, prior, Decided(held, cs, prior))
  {
    var t := MakeTable(held, cs);
    VerdictMeans(held, observations, cs, t);
    if Clash(held, observations) || !SomeTops(held, observations) {
      NoTopDecides(held, observations, prior);
    } else {
      ListedTops(held, observations, cs, t, Arbitrate(t).winners);
      var top := cs[Arbitrate(t).winners[0]];
      TopIsAdmitted(held, observations, top);
      TopDecides(held, observations, prior, top);
    }
  }

  /** preflightFinalizedHead: arbitration of the observations, then continuity. */
  method PreflightHead(held: set<Manifest>, observations: seq<Candidate>, prior: Option<Claim>)
    returns (r: Decision, ghost cs: seq<Candidate>)
    requires AllAdmitted(observations) && (prior.Some? ==> Admitted(prior.value.root))
    ensures if observations == [] || !DistinctSources(observations) then r == Hold
            else InSourceOrder(observations, cs) && AllAdmitted(cs) && r == Decided(held, cs, prior)
    ensures r.Advance? ==>
            Admitted(r.claim.root) && (prior.Some? ==> Lineage(r.claim, prior.value) && r.claim != prior.value)
    ensures r.Advance? ==> exists c :: c in observations && c.claim == Some(r.claim)
    ensures r.Advance? ==> Dominant(held, observations, r.claim)
    ensures r.Freeze? ==> Disputed(held, observations, prior)
    ensures DecisionIs(held, observations, prior, r)
  {
    var verdict, sorted;
    ghost var t;
    verdict, sorted, t := SelectFinalizedClaim(held, observations);
    cs := sorted;
    if verdict.None? {
      NothingDecides(held, observations, prior);
      return Hold, cs;
    }
    SameObservations(observations, cs);
    DecidedMeans(held, observations, cs, prior);
    match verdict.value {
      case Conflicting(conflicts) =>
        ConflictIsDispute(held, observations, cs, t, prior);
        return Freeze, cs;
      case NoMaximum(_) => return Hold, cs;
      case Unevaluated(_) => return Hold, cs;
      case Selected(winners, _) =>
        WinnersAre(t, t.Size());
        assert winners[0] in winners;
        var winner := sorted[winners[0]].claim.value;
        WinnerIsDominant(held, observations, cs, t, winners[0]);
        ContinuityMeans(held, prior, winner);
        assert cs[winners[0]] in observations;
        r := Continuity(held, prior, winner);
    }
  }

  /** No observation that could be evaluated against the claim contradicts it or
      goes beyond it: the claim includes every other one, or a proof is missing
      on the other one's own side. */
  ghost predicate Dominant(held: set<Manifest>, observations: seq<Candidate>, claim: Claim)
    requires AllAdmitted(observations) && UsableParams(claim.root.params)
  {
    forall c | c in observations && c.claim.Some? ::
      UsableParams(c.claim.value.root.params) &&
      (Includes(held, claim, c.claim.value) ||
       exists d :: d in observations && d.claim.Some? && MissingProof(held, c.claim.value, d.claim.value))
  }

  /** There is evidence of incompatible histories: between two observations, or
      between one and the durable checkpoint. */
  ghost predicate Disputed(held: set<Manifest>, observations: seq<Candidate>, prior: Option<Claim>) {
    exists c :: c in observations && c.claim.Some? &&
      ((prior.Some? && Contradicts(held, c.claim.value, prior.value)) ||
       exists d :: d in observations && d.claim.Some? && Contradicts(held, c.claim.value, d.claim.value))
  }

  lemma {:induction false} SameObservations(observations: seq<Candidate>, cs: seq<Candidate>)
    requires multiset(cs) == multiset(observations)
    ensures SameMembersAs(observations, cs)
  {
    forall c ensures c in cs <==> c in observations {
      assert c in multiset(cs) <==> c in multiset(observations);
    }
  }

  /** A head advances exactly to a winner that properly includes its checkpoint,
      and freezes exactly when the two contradict each other. */
  lemma {:induction false} ContinuityMeans(held: set<Manifest>, prior: Option<Claim>, winner: Claim)
    requires Admitted(winner.root) && (prior.Some? ==> Admitted(prior.value.root))
    ensures Continuity(held, prior, winner).Advance? <==>
            prior.None? || (Includes(held, winner, prior.value) && winner != prior.value)
    ensures Continuity(held, prior, winner).Advance? ==>
              Continuity(held, prior, winner).claim == winner && (prior.Some? ==> Lineage(winner, prior.value))
    ensures Continuity(held, prior, winner).Freeze? <==> prior.Some? && Contradicts(held, winner, prior.value)
  {
    if prior.Some? {
      InclusionIsAntisymmetric(held, winner, prior.value);
      ClassifySwaps(held, winner, prior.value);
      if Includes(held, winner, prior.value) { IncludedIsLineage(held, winner, prior.value); }
    }
  }

  /** A poll makes progress: an observed claim that includes all the others and
      properly includes the checkpoint is adopted. */
  lemma {:induction false} DominatorIsAdopted(held: set<Manifest>, cs: seq<Candidate>, prior: Option<Claim>, i: nat,
                                              w: Claim)
    requires AllAdmitted(cs) && (prior.Some? ==> Admitted(prior.value.root))
    requires i < |cs| && cs[i].claim == Some(w) && UsableParams(w.root.params)
    requires forall j | 0 <= j < |cs| && cs[j].claim.Some? ::
               UsableParams(cs[j].claim.value.root.params) && Includes(held, w, cs[j].claim.value)
    requires prior.Some? ==> UsableParams(prior.value.root.params) && Includes(held, w, prior.value) && w != prior.value
    ensures Decided(held, cs, prior) == Advance(w)
  {
    var t := MakeTable(held, cs);
    assert t.Valid(i);
    DominatorIsSelected(held, cs, t, i);
    var winners := Arbitrate(t).winners;
    assert winners[0] in winners;
    ContinuityMeans(held, prior, w);
  }

  lemma {:induction false} ConflictIsDispute(held: set<Manifest>, observations: seq<Candidate>, cs: seq<Candidate>,
                                             t: Table,
                                             prior: Option<Claim>)
    requires AllAdmitted(cs) && t == MakeTable(held, cs) && Arbitrate(t).Conflicting?
    requires SameMembersAs(observations, cs)
    ensures Disputed(held, observations, prior)
  {
    var pairs := AllPairs(t, Contradictory);
    PairsSound(t, Contradictory, t.Size() - 1, t.Size());
    var q := pairs[0];
    assert q in pairs;
    assert cs[q.0] in cs && cs[q.1] in cs;
    assert Contradicts(held, cs[q.0].claim.value, cs[q.1].claim.value);
  }

  lemma {:induction false} WinnerIsDominant(held: set<Manifest>, observations: seq<Candidate>, cs: seq<Candidate>,
                                            t: Table, i: nat)
    requires AllAdmitted(cs) && AllAdmitted(observations) && t == MakeTable(held, cs) && Arbitrate(t).Selected?
    requires i in Arbitrate(t).winners && SameMembersAs(observations, cs)
    requires i < |cs| && cs[i].claim.Some? && UsableParams(cs[i].claim.value.root.params)
    ensures Dominant(held, observations, cs[i].claim.value)
  {
    forall c | c in observations && c.claim.Some?
      ensures UsableParams(c.claim.value.root.params)
      ensures Includes(held, cs[i].claim.value, c.claim.value) ||
              exists d :: d in observations && d.claim.Some? && MissingProof(held, c.claim.value, d.claim.value)
    {
      var j :| 0 <= j < |cs| && cs[j] == c;
      if t.Eligible(j) {
        SelectionIsMaximum(held, cs, t, i, j);
      } else {
        var k: nat :| t.Valid(k) && t.At(j, k).Unproved? && t.At(j, k).left;
        assert cs[k] in cs;
        assert MissingProof(held, c.claim.value, cs[k].claim.value);
      }
    }
  }

  /* ---- Polls of all heads ---- */

  ghost predicate Observed(observed: map<HeadName, seq<Candidate>>) {
    forall h | h in observed :: AllAdmitted(observed[h])
  }

  /** The decision a poll takes for one head. */
  ghost predicate DecisionFor(held: set<Manifest>, observations: seq<Candidate>, latched: bool, prior: Option<Claim>,
                              d: Decision) {
    if latched then d == Hold
    else (prior.Some? ==> Admitted(prior.value.root)) && DecisionIs(held, observations, prior, d)
  }

  /** What makes a decision safe to carry out. */
  ghost predicate Safe(held: set<Manifest>, observations: seq<Candidate>, latched: bool, prior: Option<Claim>,
                       d: Decision) {
    && (latched ==> d == Hold)
    && (d.Advance? ==> Admitted(d.claim.root) && (prior.Some? ==> Lineage(d.claim, prior.value)))
    && (d.Freeze? ==> Disputed(held, observations, prior))
  }

  function Frozen(decisions: map<HeadName, Decision>): (frozen: set<HeadName>)
    ensures forall h :: h in frozen <==> h in decisions && decisions[h].Freeze?
  {
    set h | h in decisions && decisions[h].Freeze?
  }

  function PriorOf(checkpoints: map<HeadName, Claim>, h: HeadName): Option<Claim> {
    if h in checkpoints then Some(checkpoints[h]) else None
  }

  /** The decision for head h is the right one, and safe. */
  ghost predicate GoodDecision(held: set<Manifest>, observed: map<HeadName, seq<Candidate>>, latches: set<HeadName>,
                               checkpoints: map<HeadName, Claim>, h: HeadName, d: Decision) {
    && DecisionFor(held, ObservationsOf(observed, h), h in latches, PriorOf(checkpoints, h), d)
    && Safe(held, ObservationsOf(observed, h), h in latches, PriorOf(checkpoints, h), d)
  }

  ghost predicate GoodDecisions(held: set<Manifest>, observed: map<HeadName, seq<Candidate>>, latches: set<HeadName>,
                                checkpoints: map<HeadName, Claim>, decisions: map<HeadName, Decision>) {
    forall h | h in decisions :: GoodDecision(held, observed, latches, checkpoints, h, decisions[h])
  }

  lemma {:induction false} GoodDecisionsStep(held: set<Manifest>, observed: map<HeadName, seq<Candidate>>,
                                             latches: set<HeadName>, checkpoints: map<HeadName, Claim>,
                                             decisions: map<HeadName, Decision>, h: HeadName, d: Decision)
    requires GoodDecisions(held, observed, latches, checkpoints, decisions)
    requires GoodDecision(held, observed, latches, checkpoints, h, d)
    ensures GoodDecisions(held, observed, latches, checkpoints, decisions[h := d])
  {
  }

  /** What the later phases of a poll need of its decisions. */
  lemma {:induction false} DecisionsAreSafe(held: set<Manifest>, observed: map<HeadName, seq<Candidate>>,
                                            latches: set<HeadName>, checkpoints: map<HeadName, Claim>,
                                            decisions: map<HeadName, Decision>)
    requires GoodDecisions(held, observed, latches, checkpoints, decisions)
    ensures forall h | h in decisions && decisions[h].Advance? ::
              Admitted(decisions[h].claim.root) && (h in checkpoints ==> Lineage(decisions[h].claim, checkpoints[h]))
    ensures forall h | h in decisions && h in latches :: decisions[h] == Hold
    ensures forall h | h in decisions && decisions[h].Freeze? ::
              Disputed(held, ObservationsOf(observed, h), PriorOf(checkpoints, h))
  {
    forall h | h in decisions
      ensures Safe(held, ObservationsOf(observed, h), h in latches, PriorOf(checkpoints, h), decisions[h])
    {
      assert GoodDecision(held, observed, latches, checkpoints, h, decisions[h]);
    }
  }

  /** The decision of an open head is to freeze exactly when it must, and to
      advance to exactly what it must adopt. */
  lemma {:induction false} DecisionsAreExact(held: set<Manifest>, observed: map<HeadName, seq<Candidate>>,
                                             latches: set<HeadName>, checkpoints: map<HeadName, Claim>,
                                             decisions: map<HeadName, Decision>)
    requires GoodDecisions(held, observed, latches, checkpoints, decisions)
    ensures forall h | h in decisions && h !in latches ::
              decisions[h].Freeze? <==> MustFreeze(held, observed, checkpoints, h)
    ensures forall h, w: Claim | h in decisions && h !in latches && MustAdopt(held, observed, checkpoints, h, w) ::
              decisions[h] == Advance(w)
  {
    forall h | h in decisions && h !in latches
      ensures DecisionIs(held, ObservationsOf(observed, h), PriorOf(checkpoints, h), decisions[h])
    {
      assert GoodDecision(held, observed, latches, checkpoints, h, decisions[h]);
    }
  }

  ghost predicate MustFreeze(held: set<Manifest>, observed: map<HeadName, seq<Candidate>>,
                             checkpoints: map<HeadName, Claim>, h: HeadName) {
    Freezes(held, ObservationsOf(observed, h), PriorOf(checkpoints, h))
  }

  ghost predicate MustAdopt(held: set<Manifest>, observed: map<HeadName, seq<Candidate>>,
                            checkpoints: map<HeadName, Claim>, h: HeadName, w: Claim) {
    Adopts(held, ObservationsOf(observed, h), PriorOf(checkpoints, h), w)
  }

  function ObservationsOf(observed: map<HeadName, seq<Candidate>>, h: HeadName): seq<Candidate> {
    if h in observed then observed[h] else []
  }

  /** The history ends in the checkpoint and is unbroken. */
  ghost predicate EndsIn(history: seq<Claim>, checkpoint: Claim) {
    history != [] && history[|history| - 1] == checkpoint && Unbroken(history)
  }

  ghost predicate HistoryOk(checkpoints: map<HeadName, Claim>, history: map<HeadName, seq<Claim>>) {
    checkpoints.Keys == history.Keys && forall h | h in checkpoints :: EndsIn(history[h], checkpoints[h])
  }

  ghost function PastOf(history: map<HeadName, seq<Claim>>, h: HeadName): seq<Claim> {
    if h in history then history[h] else []
  }

  lemma {:induction false} EndsInNext(past: seq<Claim>, prior: Option<Claim>, claim: Claim)
    requires Admitted(claim.root) && (past == [] || prior.Some?)
    requires prior.Some? ==> EndsIn(past, prior.value) && Lineage(claim, prior.value)
    ensures EndsIn(past + [claim], claim)
  {
    UnbrokenExtends(past, claim);
  }

  lemma {:induction false} HistoryStep(checkpoints: map<HeadName, Claim>, history: map<HeadName, seq<Claim>>,
                                       h: HeadName, claim: Claim)
    requires HistoryOk(checkpoints, history) && Admitted(claim.root)
    requires h in checkpoints ==> Lineage(claim, checkpoints[h])
    ensures HistoryOk(checkpoints[h := claim], history[h := PastOf(history, h) + [claim]])
  {
    EndsInNext(PastOf(history, h), PriorOf(checkpoints, h), claim);
  }

  lemma {:induction false} PriorAdmitted(checkpoints: map<HeadName, Claim>, history: map<HeadName, seq<Claim>>,
                                         h: HeadName)
    requires HistoryOk(checkpoints, history) && h in checkpoints
    ensures Admitted(checkpoints[h].root)
  {
    assert EndsIn(history[h], checkpoints[h]);
  }

  /** The checkpoints after the heads outside todo have been written. */
  ghost predicate Written(before: map<HeadName, Claim>, after: map<HeadName, Claim>, decisions: map<HeadName, Decision>,
                          pruned: set<HeadName>, todo: set<HeadName>) {
    forall h :: PriorOf(after, h) ==
                if Advances(decisions, pruned, h) && h !in todo then Some(decisions[h].claim) else PriorOf(before, h)
  }

  lemma {:induction false} WrittenStep(before: map<HeadName, Claim>, after: map<HeadName, Claim>,
                                       decisions: map<HeadName, Decision>, pruned: set<HeadName>, todo: set<HeadName>,
                                       h: HeadName)
    requires Written(before, after, decisions, pruned, todo) && h in todo
    ensures PriorOf(after, h) == PriorOf(before, h)
    ensures Advances(decisions, pruned, h) ==>
              Written(before, after[h := decisions[h].claim], decisions, pruned, todo - {h})
    ensures !Advances(decisions, pruned, h) ==> Written(before, after, decisions, pruned, todo - {h})
  {
  }

  /** No history is ever cut or rewritten. */
  ghost predicate Grows(before: map<HeadName, seq<Claim>>, after: map<HeadName, seq<Claim>>) {
    forall h | h in before :: h in after && before[h] <= after[h]
  }

  lemma {:induction false} GrowsStep(before: map<HeadName, seq<Claim>>, after: map<HeadName, seq<Claim>>, h: HeadName,
                                     claim: Claim)
    requires Grows(before, after)
    ensures Grows(before, after[h := PastOf(after, h) + [claim]])
  {
  }

  class Follower {
    var checkpoints: map<HeadName, Claim>
    var latches: set<HeadName>
    /** All checkpoints a head has had, oldest first. */
    ghost var history: map<HeadName, seq<Claim>>

    ghost predicate Valid()
      reads this
    {
      HistoryOk(checkpoints, history)
    }

    constructor ()
      ensures Valid() && checkpoints == map[] && latches == {} && history == map[]
    {
      checkpoints, latches, history := map[], {}, map[];
    }

    /** The decision for one head: nothing for a latched one. */
    method DecideHead(h: HeadName, held: set<Manifest>, observed: map<HeadName, seq<Candidate>>) returns (r: Decision)
      requires Valid() && Observed(observed)
      ensures GoodDecision(held, observed, latches, checkpoints, h, r)
    {
      if h in latches { return Hold; }
      ghost var cs;
      if h in checkpoints { PriorAdmitted(checkpoints, history, h); }
      r, cs := PreflightHead(held, ObservationsOf(observed, h), PriorOf(checkpoints, h));
    }

    /** preflightFinalizedHeads: every configured head against the same state. */
    method Preflight(names: seq<HeadName>, held: set<Manifest>, observed: map<HeadName, seq<Candidate>>)
      returns (decisions: map<HeadName, Decision>)
      requires Valid() && Observed(observed)
      ensures forall h :: h in decisions <==> h in names
      ensures GoodDecisions(held, observed, latches, checkpoints, decisions)
    {
      decisions := map[];
      for i := 0 to |names|
        invariant forall h :: h in decisions <==> h in names[..i]
        invariant GoodDecisions(held, observed, latches, checkpoints, decisions)
      {
        var d := DecideHead(names[i], held, observed);
        GoodDecisionsStep(held, observed, latches, checkpoints, decisions, names[i], d);
        decisions := decisions[names[i] := d];
        assert names[..i + 1] == names[..i] + [names[i]];
      }
      assert names[..|names|] == names;
    }

    /** A checkpoint and its place in the history are written together. */
    method Write(h: HeadName, claim: Claim)
      requires Valid() && Admitted(claim.root) && (h in checkpoints ==> Lineage(claim, checkpoints[h]))
      modifies this`checkpoints, this`history
      ensures Valid()
      ensures checkpoints == old(checkpoints)[h := claim]
      ensures history == old(history)[h := PastOf(old(history), h) + [claim]]
    {
      HistoryStep(checkpoints, history, h, claim);
      history := history[h := PastOf(history, h) + [claim]];
      checkpoints := checkpoints[h := claim];
    }

    /** The advances that survive closure checks, all in one batch. */
    method CommitPlans(decisions: map<HeadName, Decision>, pruned: set<HeadName>)
      requires Valid()
      requires forall h | h in decisions && decisions[h].Advance? ::
          Admitted(decisions[h].claim.root) && (h in checkpoints ==> Lineage(decisions[h].claim, checkpoints[h]))
      modifies this`checkpoints, this`history
      ensures Valid()
      ensures Written(old(checkpoints), checkpoints, decisions, pruned, {})
      ensures Grows(old(history), history)
    {
      var todo := decisions.Keys;
      while todo != {}
        invariant todo <= decisions.Keys && Valid()
        invariant Written(old(checkpoints), checkpoints, decisions, pruned, todo)
        invariant Grows(old(history), history)
        decreases |todo|
      {
        var h :| h in todo;
        WrittenStep(old(checkpoints), checkpoints, decisions, pruned, todo, h);
        if decisions[h].Advance? && h !in pruned {
          GrowsStep(old(history), history, h, decisions[h].claim);
          Write(h, decisions[h].claim);
        }
        todo := todo - {h};
      }
    }

    /** One poll. Contradictions are latched before anything advances; if that
        batch fails nothing at all changes. A latched head keeps its checkpoint,
        whatever it publishes. */
    method Poll(names: seq<HeadName>, held: set<Manifest>, observed: map<HeadName, seq<Candidate>>,
                latchCommits: bool, planCommits: bool, pruned: set<HeadName>)
      returns (decisions: map<HeadName, Decision>)
      requires Valid() && Observed(observed)
      modifies this
      ensures Valid()
      ensures forall h :: h in decisions <==> h in names
      ensures GoodDecisions(held, observed, old(latches), old(checkpoints), decisions)
      ensures latches == old(latches) + (if latchCommits then Frozen(decisions) else {})
      ensures forall h | h in latches && h !in old(latches) ::
                Disputed(held, ObservationsOf(observed, h), PriorOf(old(checkpoints), h))
      ensures if (latchCommits || Frozen(decisions) == {}) && planCommits
              then Written(old(checkpoints), checkpoints, decisions, pruned, {})
              else checkpoints == old(checkpoints)
      ensures latchCommits ==> forall h | h in names && h !in old(latches) ::
                (h in latches <==> MustFreeze(held, observed, old(checkpoints), h))
      ensures (latchCommits || Frozen(decisions) == {}) && planCommits ==>
                forall h, w: Claim | h in names && h !in old(latches) && h !in pruned
                  && MustAdopt(held, observed, old(checkpoints), h, w) :: PriorOf(checkpoints, h) == Some(w)
      ensures forall h | h in latches :: PriorOf(checkpoints, h) == PriorOf(old(checkpoints), h)
      ensures Grows(old(history), history)
    {
      decisions := Preflight(names, held, observed);
      DecisionsAreSafe(held, observed, latches, checkpoints, decisions);
      DecisionsAreExact(held, observed, latches, checkpoints, decisions);
      var frozen := Frozen(decisions);
      if frozen != {} {
        if !latchCommits { return; }
        latches := latches + frozen;
      }
      if planCommits { CommitPlans(decisions, pruned); }
    }

    /** An operator clears a latch. */
    method Clear(h: HeadName)
      requires Valid()
      modifies this`latches
      ensures Valid() && latches == old(latches) - {h}
    {
      latches := latches - {h};
    }
  }

  ghost predicate Advances(decisions: map<HeadName, Decision>, pruned: set<HeadName>, h: HeadName) {
    h in decisions && decisions[h].Advance? && h !in pruned
  }

  /* ---- Runs ---- */

  datatype Step =
    | PollOnce(names: seq<HeadName>, held: set<Manifest>, observed: map<HeadName, seq<Candidate>>,
               latchCommits: bool, planCommits: bool, pruned: set<HeadName>)
    | ClearLatch(head: HeadName)

  ghost predicate GoodSteps(steps: seq<Step>) {
    forall i | 0 <= i < |steps| && steps[i].PollOnce? :: Observed(steps[i].observed)
  }

  ghost predicate NeverCleared(steps: seq<Step>, n: nat, h: HeadName)
    requires n <= |steps|
  {
    forall i | 0 <= i < n :: steps[i] != ClearLatch(h)
  }

  /** Any run of polls and clears. The checkpoints of every head form an unbroken
      history, and a head whose latch is not cleared keeps its checkpoint. */
  method Execute(f: Follower, steps: seq<Step>)
    requires f.Valid() && GoodSteps(steps)
    modifies f
    ensures f.Valid()
    ensures Grows(old(f.history), f.history)
    ensures forall h | h in old(f.latches) && NeverCleared(steps, |steps|, h) ::
              h in f.latches && PriorOf(f.checkpoints, h) == PriorOf(old(f.checkpoints), h)
  {
    for i := 0 to |steps|
      invariant f.Valid()
      invariant Grows(old(f.history), f.history)
      invariant forall h | h in old(f.latches) && NeverCleared(steps, i, h) ::
          h in f.latches && PriorOf(f.checkpoints, h) == PriorOf(old(f.checkpoints), h)
    {
      match steps[i]
      case PollOnce(names, held, observed, latchCommits, planCommits, pruned) =>
        var _ := f.Poll(names, held, observed, latchCommits, planCommits, pruned);
      case ClearLatch(h) => f.Clear(h);
    }
  }

  /** In an unbroken history every earlier root is the exact projection of every
      later one, and coverage never falls. */
  lemma {:induction false} EarlierIsProjection(history: seq<Claim>, i: nat, j: nat)
    requires Unbroken(history) && i <= j < |history|
    ensures UsableParams(history[j].root.params)
    ensures CompareCoverage(history[j].root.synced, history[i].root.synced) >= 0
    ensures history[i].root == history[j].root ||
            ProjectTo(history[j].root, history[i].root.synced) == Ok(history[i].root)
  {
    assert Lineage(history[j], history[i]);
  }

  /** So what a checkpoint covered reads the same in every later one. */
  lemma {:induction false} CoveredStaysReadable(history: seq<Claim>, i: nat, j: nat)
    requires Unbroken(history) && i <= j < |history|
    ensures UsableParams(history[i].root.params) && UsableParams(history[j].root.params)
    ensures Agree(history[j].root, history[i].root)
    ensures forall s: nat | Covers(history[i].root, s) :: Covers(history[j].root, s)
  {
    assert Lineage(history[j], history[i]);
    InclusionReads(history[j].root, history[i].root);
  }
}
