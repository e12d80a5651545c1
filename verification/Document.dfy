/**
  Whole-document admission under one pinned signer (follow/follow.go,
  follow/state.go, follow/manifest.go).

  A signed publication document lists heads. A follower keeps one durable
  checkpoint for each head it is configured for and one revision floor for the
  signer. A document is preflighted head by head without a write; if every head
  passes, one batch rewrites all checkpoints and the floor. A head the document
  leaves out is withdrawn: its checkpoint becomes a tombstone that retains the
  last line published for it. The digest of a document is the document itself,
  which is what a collision-free digest amounts to.
 */
module Document {
  import opened Dag
  import opened Manifests
  import opened FirstManifest

  datatype Entry = Entry(name: nat, root: Cid, origin: nat, syncedTo: Option<nat>, segBits: nat, fanoutBits: nat,
                         depth: nat, manifest: Option<Manifest>)

  /** rest: the other signed fields, such as the version, the archive ID and the
      publisher's addresses. */
  datatype Doc = Doc(net: nat, revision: nat, updatedAt: nat, heads: seq<Entry>, rest: seq<nat>)

  /** A document whose signature by `authority` was verified. */
  datatype Candidate = Candidate(doc: Doc, authority: nat)

  datatype Floor = Floor(revision: nat, digest: Doc)

  datatype Checkpoint = Checkpoint(authority: nat, revision: nat, digest: Doc, updatedAt: nat, net: nat,
                                   selected: bool, published: Option<Entry>)

  /** What is served for a head: a root and a manifest tip. */
  datatype Served = Served(root: Cid, tip: Option<Manifest>)

  datatype State = State(checkpoints: map<nat, Checkpoint>, floors: map<nat, Floor>, serving: map<nat, Served>)

  datatype Config = Config(names: seq<nat>, net: nat, signer: nat)

  /** What content addressing fixes: the coverage a root encodes, for roots that
      pass the structural walk, and what a manifest block decodes to. */
  datatype Facts = Facts(coverage: Cid -> Option<nat>, schema: Schema)

  /** What one attempt meets: the manifests it can read, the heads in quarantine,
      the heads whose root cannot be loaded or registered, and whether the batch
      commits. */
  datatype Attempt = Attempt(held: set<Manifest>, quarantined: set<nat>, unloadable: set<nat>, commits: bool)

  /* ---- One head ---- */

  function LineOf(prior: Option<Checkpoint>): Option<Entry> {
    if prior.Some? then prior.value.published else None
  }

  /** The document's line for a name; if it is listed twice the later one. */
  function Listed(heads: seq<Entry>, name: nat, upTo: nat): Option<Entry>
    requires upTo <= |heads|
  {
    if upTo == 0 then None
    else if heads[upTo - 1].name == name then Some(heads[upTo - 1])
    else Listed(heads, name, upTo - 1)
  }

  /** Line i is the last one with the name. */
  ghost predicate LastLine(heads: seq<Entry>, name: nat, i: nat) {
    i < |heads| && heads[i].name == name && forall j | i < j < |heads| :: heads[j].name != name
  }

  lemma {:induction false} ListedIs(heads: seq<Entry>, name: nat, upTo: nat)
    requires upTo <= |heads|
    ensures Listed(heads, name, upTo).None? <==> forall i | 0 <= i < upTo :: heads[i].name != name
    ensures forall i | 0 <= i < upTo && heads[i].name == name && (forall j | i < j < upTo :: heads[j].name != name) ::
              Listed(heads, name, upTo) == Some(heads[i])
    ensures Listed(heads, name, upTo).Some? ==>
              exists i | 0 <= i < upTo ::
                && Listed(heads, name, upTo) == Some(heads[i]) && heads[i].name == name
                && forall j | i < j < upTo :: heads[j].name != name
    decreases upTo
  {
    if upTo > 0 { ListedIs(heads, name, upTo - 1); }
  }

  /** The line of a name is its last one, wherever it stands in the document. */
  lemma {:induction false} LineIs(doc: Doc, name: nat)
    ensures LineFor(doc, name).None? <==> forall i | 0 <= i < |doc.heads| :: doc.heads[i].name != name
    ensures forall i: nat | LastLine(doc.heads, name, i) :: LineFor(doc, name) == Some(doc.heads[i])
    ensures LineFor(doc, name).Some? ==>
              exists i: nat :: LastLine(doc.heads, name, i) && LineFor(doc, name) == Some(doc.heads[i])
  {
    ListedIs(doc.heads, name, |doc.heads|);
    if LineFor(doc, name).Some? {
      var i :| 0 <= i < |doc.heads| && LineFor(doc, name) == Some(doc.heads[i]) && doc.heads[i].name == name
        && forall j | i < j < |doc.heads| :: doc.heads[j].name != name;
      assert LastLine(doc.heads, name, i);
    }
  }

  function LineFor(doc: Doc, name: nat): Option<Entry> {
    Listed(doc.heads, name, |doc.heads|)
  }

  /** Parameters a head keeps for good, through withdrawal and reappearance. */
  predicate SameArchive(prior: Entry, next: Entry) {
    prior.name == next.name && prior.segBits == next.segBits && prior.fanoutBits == next.fanoutBits &&
      prior.origin == next.origin
  }

  /** checkManifestAncestry. */
  predicate Ancestry(facts: Facts, a: Attempt, name: nat, tip: Option<Manifest>, floor: Option<Manifest>) {
    if floor.None? then tip.Some? ==> FirstChainOk(facts.schema, LIMITS, a.held, name, tip.value)
    else tip == floor || (tip.Some? && Descends(a.held, tip.value, floor.value, MAX_MANIFEST_WALK).Reached?)
  }

  function FloorTip(line: Option<Entry>): Option<Manifest> {
    if line.Some? then line.value.manifest else None
  }

  /** Coverage, parameters and filter history do not go back. */
  predicate Continues(facts: Facts, a: Attempt, line: Option<Entry>, e: Entry)
    requires e.syncedTo.Some?
  {
    && (line.Some? ==> SameArchive(line.value, e))
    && (line.Some? && line.value.syncedTo.Some? ==> e.syncedTo.value >= line.value.syncedTo.value)
    && Ancestry(facts, a, e.name, e.manifest, FloorTip(line))
    && (e.manifest.Some? ==> e.manifest.value in a.held)
  }

  function Selected(c: Candidate, e: Entry): Checkpoint {
    Checkpoint(c.authority, c.doc.revision, c.doc, c.doc.updatedAt, c.doc.net, true, Some(e))
  }

  function Tombstone(c: Candidate, prior: Option<Checkpoint>): Checkpoint {
    Checkpoint(c.authority, c.doc.revision, c.doc, c.doc.updatedAt, c.doc.net, false, LineOf(prior))
  }

  /** checkpointMatchesDocument: the checkpoint already records this line of this document. */
  predicate Matches(cp: Checkpoint, c: Candidate, e: Entry) {
    && cp.selected && cp.published == Some(e) && cp.net == c.doc.net
    && cp.revision == c.doc.revision && cp.authority == c.authority && cp.digest == c.doc
  }

  predicate IsServing(serving: map<nat, Served>, e: Entry) {
    e.name in serving && serving[e.name] == Served(e.root, e.manifest)
  }

  function Prior(s: State, name: nat): Option<Checkpoint> {
    if name in s.checkpoints then Some(s.checkpoints[name]) else None
  }

  predicate EntryFits(facts: Facts, a: Attempt, s: State, c: Candidate, e: Entry) {
    var prior := Prior(s, e.name);
    && e.name !in a.quarantined && e.syncedTo.Some?
    && (prior.Some? ==> prior.value.net == c.doc.net)
    && Continues(facts, a, LineOf(prior), e)
    && ((prior.Some? && IsServing(s.serving, e) && Matches(prior.value, c, e))
        || (e.name !in a.unloadable && facts.coverage(e.root) == e.syncedTo))
  }

  /** A listed but empty head withdraws only a head that never had coverage. */
  predicate WithdrawalFits(s: State, c: Candidate, name: nat, listed: bool) {
    var prior := Prior(s, name);
    (prior.Some? ==> prior.value.net == c.doc.net) && (listed ==> LineOf(prior).None?)
  }

  /** The checkpoint a document leaves a head with, or none if it is refused. */
  function Outcome(facts: Facts, a: Attempt, s: State, c: Candidate, name: nat): Option<Checkpoint> {
    var line := LineFor(c.doc, name);
    if line.Some? && line.value.syncedTo.Some? then
      if EntryFits(facts, a, s, c, line.value) then Some(Selected(c, line.value)) else None
    else if WithdrawalFits(s, c, name, line.Some?) then Some(Tombstone(c, Prior(s, name)))
    else None
  }

  /* ---- The document ---- */

  predicate IsFresh(floors: map<nat, Floor>, c: Candidate) {
    c.authority in floors ==>
      (c.doc.revision > floors[c.authority].revision
       || (c.doc.revision == floors[c.authority].revision && c.doc == floors[c.authority].digest))
  }

  predicate Authentic(cfg: Config, c: Candidate) {
    c.authority == cfg.signer && c.doc.net == cfg.net && c.doc.revision > 0
  }

  predicate Admissible(cfg: Config, facts: Facts, a: Attempt, s: State, c: Candidate) {
    && Authentic(cfg, c) && IsFresh(s.floors, c) && a.commits
    && forall i | 0 <= i < |cfg.names| :: Outcome(facts, a, s, c, cfg.names[i]).Some?
  }

  function Rewritten(cfg: Config, facts: Facts, a: Attempt, s: State, c: Candidate): map<nat, Checkpoint>
    requires Admissible(cfg, facts, a, s, c)
  {
    map n | n in cfg.names :: Outcome(facts, a, s, c, n).value
  }

  function ServedBy(checkpoints: map<nat, Checkpoint>): map<nat, Served> {
    map n | n in checkpoints && checkpoints[n].selected && checkpoints[n].published.Some? ::
      Served(checkpoints[n].published.value.root, checkpoints[n].published.value.manifest)
  }

  /** All checkpoints and the floor move, or nothing does. */
  function Publish(cfg: Config, facts: Facts, a: Attempt, s: State, c: Candidate): State {
    if Admissible(cfg, facts, a, s, c) then
      var checkpoints := Rewritten(cfg, facts, a, s, c);
      State(checkpoints, s.floors[c.authority := Floor(c.doc.revision, c.doc)], ServedBy(checkpoints))
    else s
  }

  /* ---- What the durable state is at any time ---- */

  predicate LineOk(facts: Facts, n: nat, line: Entry) {
    line.name == n && line.syncedTo.Some? && facts.coverage(line.root) == line.syncedTo
  }

  /** A checkpoint of the generation the floor records. */
  predicate CheckpointOk(cfg: Config, facts: Facts, floor: Floor, n: nat, cp: Checkpoint) {
    && cp.authority == cfg.signer && cp.revision == floor.revision && cp.digest == floor.digest
    && cp.updatedAt == floor.digest.updatedAt && cp.net == cfg.net
    && (cp.selected ==> cp.published.Some?)
    && (cp.published.Some? ==> LineOk(facts, n, cp.published.value))
    && FollowsDoc(cp, n)
  }

  /** The head is selected exactly when its document has a covered line for it,
      and then with that line. */
  predicate FollowsDoc(cp: Checkpoint, n: nat) {
    var line := LineFor(cp.digest, n);
    && cp.selected == (line.Some? && line.value.syncedTo.Some?)
    && (cp.selected ==> cp.published == line)
  }

  predicate NamesCovered(names: seq<nat>, checkpoints: map<nat, Checkpoint>) {
    (forall n | n in names :: n in checkpoints) && (forall n | n in checkpoints :: n in names)
  }

  predicate FloorOk(cfg: Config, floors: map<nat, Floor>) {
    cfg.signer in floors && floors[cfg.signer].revision > 0 &&
      floors[cfg.signer].digest.revision == floors[cfg.signer].revision
  }

  /** Every configured head has a checkpoint of one and the same document, the one
      the signer's floor records. */
  predicate OneGeneration(cfg: Config, facts: Facts, s: State) {
    && FloorOk(cfg, s.floors) && NamesCovered(cfg.names, s.checkpoints)
    && forall n | n in s.checkpoints :: CheckpointOk(cfg, facts, s.floors[cfg.signer], n, s.checkpoints[n])
  }

  predicate Untouched(s: State) {
    s.checkpoints == map[] && s.floors == map[]
  }

  predicate ServingOk(s: State) {
    forall n | n in s.serving :: n in ServedBy(s.checkpoints) && s.serving[n] == ServedBy(s.checkpoints)[n]
  }

  predicate Coherent(cfg: Config, facts: Facts, s: State) {
    (Untouched(s) || OneGeneration(cfg, facts, s)) && ServingOk(s)
  }

  lemma {:induction false} LineAbout(heads: seq<Entry>, name: nat)
    ensures Listed(heads, name, |heads|).Some? ==> Listed(heads, name, |heads|).value.name == name
  {
    ListedIs(heads, name, |heads|);
  }

  lemma {:induction false} OutcomeOk(cfg: Config, facts: Facts, a: Attempt, s: State, c: Candidate, n: nat)
    requires Coherent(cfg, facts, s) && Authentic(cfg, c) && Outcome(facts, a, s, c, n).Some?
    ensures CheckpointOk(cfg, facts, Floor(c.doc.revision, c.doc), n, Outcome(facts, a, s, c, n).value)
  {
    LineAbout(c.doc.heads, n);
    var prior := Prior(s, n);
    assert LineOf(prior).Some? ==> LineOk(facts, n, LineOf(prior).value);
  }

  /** A document, admitted or not, leaves the state coherent. */
  lemma {:induction false} PublishKeepsCoherent(cfg: Config, facts: Facts, a: Attempt, s: State, c: Candidate)
    requires Coherent(cfg, facts, s)
    ensures Coherent(cfg, facts, Publish(cfg, facts, a, s, c))
  {
    if Admissible(cfg, facts, a, s, c) {
      var s' := Publish(cfg, facts, a, s, c);
      forall n | n in s'.checkpoints ensures CheckpointOk(cfg, facts, s'.floors[cfg.signer], n, s'.checkpoints[n]) {
        OutcomeOk(cfg, facts, a, s, c, n);
      }
    }
  }

  /* ---- Nothing goes back ---- */

  ghost predicate TipNoEarlier(m: Option<Manifest>, m': Option<Manifest>) {
    m.Some? ==> m'.Some? && exists k: nat :: Below(m'.value, m.value, k)
  }

  /** What a head was last published with is never lost, and what follows it
      covers as much, in the same archive, with the same filter history behind it. */
  ghost predicate LineNoEarlier(line: Option<Entry>, line': Option<Entry>) {
    line.Some? && line.value.syncedTo.Some? ==>
      && line'.Some? && line'.value.syncedTo.Some?
      && line'.value.name == line.value.name && line'.value.origin == line.value.origin
      && line'.value.segBits == line.value.segBits && line'.value.fanoutBits == line.value.fanoutBits
      && line'.value.syncedTo.value >= line.value.syncedTo.value
      && TipNoEarlier(line.value.manifest, line'.value.manifest)
  }

  ghost predicate FloorNoEarlier(cfg: Config, floors: map<nat, Floor>, floors': map<nat, Floor>) {
    cfg.signer in floors ==>
      && cfg.signer in floors' && floors'[cfg.signer].revision >= floors[cfg.signer].revision
      && (floors'[cfg.signer].revision == floors[cfg.signer].revision ==> floors'[cfg.signer] == floors[cfg.signer])
  }

  ghost predicate NoEarlier(cfg: Config, s: State, s': State) {
    FloorNoEarlier(cfg, s.floors, s'.floors) && forall n :: LineNoEarlier(LineOf(Prior(s, n)), LineOf(Prior(s', n)))
  }

  lemma {:induction false} TipTransitive(m: Option<Manifest>, m': Option<Manifest>, m'': Option<Manifest>)
    requires TipNoEarlier(m, m') && TipNoEarlier(m', m'')
    ensures TipNoEarlier(m, m'')
  {
    if m.Some? {
      var j: nat :| Below(m'.value, m.value, j);
      var k: nat :| Below(m''.value, m'.value, k);
      BelowAdds(m''.value, m'.value, m.value, k, j);
    }
  }

  lemma {:induction false} NoEarlierTransitive(cfg: Config, s: State, s': State, s'': State)
    requires NoEarlier(cfg, s, s') && NoEarlier(cfg, s', s'')
    ensures NoEarlier(cfg, s, s'')
  {
    forall n ensures LineNoEarlier(LineOf(Prior(s, n)), LineOf(Prior(s'', n))) {
      var l, l', l'' := LineOf(Prior(s, n)), LineOf(Prior(s', n)), LineOf(Prior(s'', n));
      assert LineNoEarlier(l, l') && LineNoEarlier(l', l'');
      if l.Some? && l.value.syncedTo.Some? { TipTransitive(l.value.manifest, l'.value.manifest, l''.value.manifest); }
    }
  }

  lemma {:induction false} LineSame(line: Option<Entry>)
    ensures LineNoEarlier(line, line)
  {
    if line.Some? && line.value.manifest.Some? {
      assert Below(line.value.manifest.value, line.value.manifest.value, 0);
    }
  }

  lemma {:induction false} StateSame(cfg: Config, s: State, s': State)
    requires s'.checkpoints == s.checkpoints && s'.floors == s.floors
    ensures NoEarlier(cfg, s, s')
  {
    forall n ensures LineNoEarlier(LineOf(Prior(s, n)), LineOf(Prior(s', n))) { LineSame(LineOf(Prior(s, n))); }
  }

  lemma {:induction false} AncestryIsBelow(facts: Facts, a: Attempt, name: nat, tip: Option<Manifest>,
                                           floor: Option<Manifest>)
    requires Ancestry(facts, a, name, tip, floor)
    ensures TipNoEarlier(floor, tip)
  {
    if floor.Some? {
      if tip == floor { assert Below(tip.value, floor.value, 0); }
      else {
        var k := ReachedIsNear(a.held, tip.value, floor.value, MAX_MANIFEST_WALK);
        AwayIsBelow(a.held, tip.value, floor.value, k);
      }
    }
  }

  lemma {:induction false} OutcomeAdvances(facts: Facts, a: Attempt, s: State, c: Candidate, n: nat)
    requires Outcome(facts, a, s, c, n).Some?
    ensures LineNoEarlier(LineOf(Prior(s, n)), Outcome(facts, a, s, c, n).value.published)
  {
    LineAbout(c.doc.heads, n);
    var line, prior := LineFor(c.doc, n), LineOf(Prior(s, n));
    if line.Some? && line.value.syncedTo.Some? { AncestryIsBelow(facts, a, n, line.value.manifest, FloorTip(prior)); }
    else { LineSame(prior); }
  }

  /** Whatever is published, no floor falls: not the revision, not the coverage of
      any head, selected or withdrawn. */
  lemma {:induction false} PublishAdvances(cfg: Config, facts: Facts, a: Attempt, s: State, c: Candidate)
    requires Coherent(cfg, facts, s)
    ensures NoEarlier(cfg, s, Publish(cfg, facts, a, s, c))
  {
    var s' := Publish(cfg, facts, a, s, c);
    if Admissible(cfg, facts, a, s, c) {
      forall n ensures LineNoEarlier(LineOf(Prior(s, n)), LineOf(Prior(s', n))) {
        if n in cfg.names { OutcomeAdvances(facts, a, s, c, n); }
      }
    } else {
      StateSame(cfg, s, s');
    }
  }

  /* ---- What a document must be, and what it does ---- */

  /** The tip is the one recorded, or has it among the ancestors a walk can reach;
      without one recorded, its whole chain is of this head. */
  ghost predicate TipFits(facts: Facts, a: Attempt, n: nat, tip: Option<Manifest>, recorded: Option<Manifest>) {
    if recorded.None? then
      tip.Some? ==>
        && Depth(tip.value) < MAX_MANIFEST_WALK && ChainBytes(facts.schema, tip.value) <= MAX_CHAIN_BYTES
        && forall m: Manifest, k: nat | LinksBelow(tip.value, m, k) :: ManifestOf(facts.schema, LIMITS, a.held, n, m)
    else
      tip == recorded || (tip.Some? && exists k: nat | k < MAX_MANIFEST_WALK ::
        LinksAway(a.held, tip.value, recorded.value, k))
  }

  ghost predicate LinksAway(held: set<Manifest>, m: Manifest, ancestor: Manifest, k: nat) {
    Away(held, m, ancestor, k)
  }

  lemma {:induction false} AncestryIff(facts: Facts, a: Attempt, n: nat, tip: Option<Manifest>,
                                       recorded: Option<Manifest>)
    ensures Ancestry(facts, a, n, tip, recorded) <==> TipFits(facts, a, n, tip, recorded)
  {
    if tip.Some? && recorded.None? { FirstChainIff(facts.schema, a.held, n, tip.value); }
    if tip.Some? && recorded.Some? {
      if Descends(a.held, tip.value, recorded.value, MAX_MANIFEST_WALK).Reached? {
        var k := ReachedIsNear(a.held, tip.value, recorded.value, MAX_MANIFEST_WALK);
        assert LinksAway(a.held, tip.value, recorded.value, k);
      }
      if k: nat :| k < MAX_MANIFEST_WALK && LinksAway(a.held, tip.value, recorded.value, k) {
        NearIsReached(a.held, tip.value, recorded.value, MAX_MANIFEST_WALK, k);
      }
    }
  }

  /** The line goes on from the one retained for the head. */
  ghost predicate GoesOn(line: Entry, e: Entry) {
    && e.name == line.name && e.origin == line.origin && e.segBits == line.segBits && e.fanoutBits == line.fanoutBits
    && (line.syncedTo.Some? ==> e.syncedTo.Some? && line.syncedTo.value <= e.syncedTo.value)
  }

  /** This very line of this very document is recorded and served. */
  ghost predicate AlreadyThere(s: State, c: Candidate, n: nat, e: Entry) {
    && n in s.checkpoints && n in s.serving && s.serving[n] == Served(e.root, e.manifest)
    && var cp := s.checkpoints[n];
       && cp.selected && cp.published == Some(e) && cp.digest == c.doc && cp.revision == c.doc.revision
       && cp.authority == c.authority && cp.net == c.doc.net
  }

  ghost predicate LineFits(facts: Facts, a: Attempt, s: State, c: Candidate, n: nat, e: Entry) {
    var retained := if n in s.checkpoints then s.checkpoints[n].published else None;
    && n !in a.quarantined
    && (retained.Some? ==> GoesOn(retained.value, e))
    && TipFits(facts, a, n, e.manifest, if retained.Some? then retained.value.manifest else None)
    && (e.manifest.Some? ==> e.manifest.value in a.held)
    && (AlreadyThere(s, c, n, e) || (n !in a.unloadable && facts.coverage(e.root) == e.syncedTo))
  }

  /** What the document must be for one configured head: its last line fits if it
      has coverage, and an explicitly empty one is only for a head without any. */
  ghost predicate Accepts(facts: Facts, a: Attempt, s: State, c: Candidate, n: nat) {
    && (n in s.checkpoints ==> s.checkpoints[n].net == c.doc.net)
    && forall i: nat | LastLine(c.doc.heads, n, i) ::
         if c.doc.heads[i].syncedTo.Some? then LineFits(facts, a, s, c, n, c.doc.heads[i])
         else n in s.checkpoints ==> s.checkpoints[n].published.None?
  }

  lemma {:induction false} LineFitsIff(facts: Facts, a: Attempt, s: State, c: Candidate, n: nat, e: Entry)
    requires e.name == n && e.syncedTo.Some?
    ensures EntryFits(facts, a, s, c, e) <==>
            (n in s.checkpoints ==> s.checkpoints[n].net == c.doc.net) && LineFits(facts, a, s, c, n, e)
  {
    AncestryIff(facts, a, n, e.manifest, FloorTip(LineOf(Prior(s, n))));
  }

  /** A head accepts the document exactly when it is such. */
  lemma {:induction false} AcceptsIff(facts: Facts, a: Attempt, s: State, c: Candidate, n: nat)
    ensures Outcome(facts, a, s, c, n).Some? <==> Accepts(facts, a, s, c, n)
  {
    LineIs(c.doc, n);
    var line := LineFor(c.doc, n);
    if line.Some? {
      var i: nat :| LastLine(c.doc.heads, n, i) && line == Some(c.doc.heads[i]);
      if line.value.syncedTo.Some? { LineFitsIff(facts, a, s, c, n, line.value); }
    }
  }

  /** What an admitted document does to one configured head: its last line, if it
      has coverage, is recorded and served; otherwise nothing is served and what
      was last published is retained. */
  ghost predicate Adopted(s: State, s': State, c: Candidate, n: nat) {
    && n in s'.checkpoints
    && var cp := s'.checkpoints[n];
       && cp.authority == c.authority && cp.revision == c.doc.revision && cp.digest == c.doc
       && cp.updatedAt == c.doc.updatedAt && cp.net == c.doc.net
       && (forall i: nat | LastLine(c.doc.heads, n, i) && c.doc.heads[i].syncedTo.Some? ::
             && cp.selected && cp.published == Some(c.doc.heads[i])
             && n in s'.serving && s'.serving[n] == Served(c.doc.heads[i].root, c.doc.heads[i].manifest))
       && ((forall i: nat | LastLine(c.doc.heads, n, i) :: c.doc.heads[i].syncedTo.None?) ==>
             && !cp.selected && n !in s'.serving
             && cp.published == if n in s.checkpoints then s.checkpoints[n].published else None)
  }

  lemma {:induction false} PublishAdopts(cfg: Config, facts: Facts, a: Attempt, s: State, c: Candidate, n: nat)
    requires Admissible(cfg, facts, a, s, c) && n in cfg.names
    ensures Adopted(s, Publish(cfg, facts, a, s, c), c, n)
  {
    LineIs(c.doc, n);
    var i :| 0 <= i < |cfg.names| && cfg.names[i] == n;
    assert Outcome(facts, a, s, c, cfg.names[i]).Some?;
  }

  /** The document is of the configured signer and network, has a revision, and
      is newer than the recorded one or the same document. */
  ghost predicate Timely(cfg: Config, s: State, c: Candidate) {
    && c.authority == cfg.signer && c.doc.net == cfg.net && c.doc.revision > 0
    && (cfg.signer in s.floors ==>
          s.floors[cfg.signer].revision < c.doc.revision || s.floors[cfg.signer] == Floor(c.doc.revision, c.doc))
  }

  lemma {:induction false} AdmissibleIff(cfg: Config, facts: Facts, a: Attempt, s: State, c: Candidate)
    ensures Admissible(cfg, facts, a, s, c) <==>
            Timely(cfg, s, c) && a.commits && forall n | n in cfg.names :: Accepts(facts, a, s, c, n)
  {
    forall n | n in cfg.names ensures Outcome(facts, a, s, c, n).Some? <==> Accepts(facts, a, s, c, n) {
      AcceptsIff(facts, a, s, c, n);
    }
    if Timely(cfg, s, c) && a.commits && forall n | n in cfg.names :: Accepts(facts, a, s, c, n) {
      forall i | 0 <= i < |cfg.names| ensures Outcome(facts, a, s, c, cfg.names[i]).Some? {
        assert cfg.names[i] in cfg.names;
      }
    }
    if Admissible(cfg, facts, a, s, c) {
      forall n | n in cfg.names ensures Accepts(facts, a, s, c, n) {
        var i :| 0 <= i < |cfg.names| && cfg.names[i] == n;
        assert Outcome(facts, a, s, c, cfg.names[i]).Some?;
      }
    }
  }

  /** A follower that has seen nothing admits any authentic document whose
      configured lines have coverage that their roots encode, and no manifest. */
  lemma {:induction false} FirstDocument(cfg: Config, facts: Facts, a: Attempt, s: State, c: Candidate)
    requires Untouched(s) && c.authority == cfg.signer && c.doc.net == cfg.net && c.doc.revision > 0 && a.commits
    requires forall i | 0 <= i < |c.doc.heads| && c.doc.heads[i].name in cfg.names ::
               var e := c.doc.heads[i];
               && e.syncedTo.Some? && e.manifest.None? && facts.coverage(e.root) == e.syncedTo
               && e.name !in a.quarantined && e.name !in a.unloadable
    ensures Admissible(cfg, facts, a, s, c)
  {
    AdmissibleIff(cfg, facts, a, s, c);
  }

  /* ---- Resuming ---- */

  /** The group check: one generation, recorded by the floor of the configured signer. */
  predicate Resumable(cfg: Config, checkpoints: map<nat, Checkpoint>, floors: map<nat, Floor>) {
    && cfg.names != [] && |checkpoints| == |cfg.names|
    && (forall n | n in cfg.names :: n in checkpoints)
    && (forall n | n in cfg.names :: Grouped(checkpoints[n], checkpoints[cfg.names[0]], n))
    && Recorded(cfg, floors, checkpoints[cfg.names[0]])
  }

  predicate Grouped(cp: Checkpoint, first: Checkpoint, n: nat) {
    && cp.authority == first.authority && cp.revision == first.revision && cp.digest == first.digest
    && cp.updatedAt == first.updatedAt && cp.net == first.net
    && (cp.published.Some? ==> cp.published.value.name == n)
    && (cp.selected ==> cp.published.Some?)
  }

  predicate Recorded(cfg: Config, floors: map<nat, Floor>, first: Checkpoint) {
    && first.authority in floors && floors[first.authority] == Floor(first.revision, first.digest)
    && first.authority == cfg.signer && first.net == cfg.net
  }

  predicate Loads(facts: Facts, unloadable: set<nat>, n: nat, cp: Checkpoint) {
    cp.selected && cp.published.Some? ==>
      n !in unloadable && facts.coverage(cp.published.value.root) == cp.published.value.syncedTo
  }

  function Resumed(cfg: Config, facts: Facts, unloadable: set<nat>, s: State): State {
    if Resumable(cfg, s.checkpoints, s.floors)
       && forall n | n in cfg.names :: Loads(facts, unloadable, n, s.checkpoints[n])
    then s.(serving := ServedBy(s.checkpoints)) else s
  }

  /** No duplicates among the configured names. */
  predicate Proper(cfg: Config) {
    cfg.names != [] && forall i, j | 0 <= i < j < |cfg.names| :: cfg.names[i] != cfg.names[j]
  }

  lemma {:induction false} CountNames(names: seq<nat>, n: nat)
    requires n <= |names| && forall i, j | 0 <= i < j < |names| :: names[i] != names[j]
    ensures |(set i | 0 <= i < n :: names[i])| == n
    decreases n
  {
    var all := set i | 0 <= i < n :: names[i];
    if n > 0 {
      CountNames(names, n - 1);
      var fewer := set i | 0 <= i < n - 1 :: names[i];
      assert all == fewer + {names[n - 1]};
    }
  }

  lemma {:induction false} KeysCount(names: seq<nat>, checkpoints: map<nat, Checkpoint>)
    requires NamesCovered(names, checkpoints) && forall i, j | 0 <= i < j < |names| :: names[i] != names[j]
    ensures |checkpoints| == |names|
  {
    var all := set i | 0 <= i < |names| :: names[i];
    CountNames(names, |names|);
    assert checkpoints.Keys == all;
  }

  /** Whatever an admission leaves behind, a restart accepts. */
  lemma {:induction false} OneGenerationResumes(cfg: Config, facts: Facts, s: State)
    requires Proper(cfg) && OneGeneration(cfg, facts, s)
    ensures Resumable(cfg, s.checkpoints, s.floors)
    ensures Resumed(cfg, facts, {}, s).serving == ServedBy(s.checkpoints)
  {
    KeysCount(cfg.names, s.checkpoints);
    var first := s.checkpoints[cfg.names[0]];
    forall n | n in cfg.names ensures Grouped(s.checkpoints[n], first, n) {
      assert CheckpointOk(cfg, facts, s.floors[cfg.signer], n, s.checkpoints[n]);
      assert CheckpointOk(cfg, facts, s.floors[cfg.signer], cfg.names[0], first);
    }
  }

  /* ---- Runs ---- */

  datatype Event =
    | Offer(candidate: Candidate, attempt: Attempt)
    | Restart
    | Resume(unloadable: set<nat>)

  function Step(cfg: Config, facts: Facts, s: State, e: Event): State {
    match e
    case Offer(c, a) => Publish(cfg, facts, a, s, c)
    case Restart => s.(serving := map[])
    case Resume(unloadable) => Resumed(cfg, facts, unloadable, s)
  }

  function Run(cfg: Config, facts: Facts, s: State, events: seq<Event>): State
    decreases |events|
  {
    if events == [] then s
    else Step(cfg, facts, Run(cfg, facts, s, events[..|events| - 1]), events[|events| - 1])
  }

  lemma {:induction false} StepKeeps(cfg: Config, facts: Facts, s: State, e: Event)
    requires Coherent(cfg, facts, s)
    ensures Coherent(cfg, facts, Step(cfg, facts, s, e)) && NoEarlier(cfg, s, Step(cfg, facts, s, e))
  {
    match e
    case Offer(c, a) =>
      PublishKeepsCoherent(cfg, facts, a, s, c);
      PublishAdvances(cfg, facts, a, s, c);
    case Restart => StateSame(cfg, s, Step(cfg, facts, s, e));
    case Resume(_) => StateSame(cfg, s, Step(cfg, facts, s, e));
  }

  /** Over every run of documents, crashes and restarts: all checkpoints carry the
      document the floor records, and no floor ever falls. */
  lemma {:induction false} RunKeeps(cfg: Config, facts: Facts, s: State, events: seq<Event>)
    requires Coherent(cfg, facts, s)
    ensures Coherent(cfg, facts, Run(cfg, facts, s, events)) && NoEarlier(cfg, s, Run(cfg, facts, s, events))
    decreases |events|
  {
    if events == [] {
      StateSame(cfg, s, s);
    } else {
      var before := Run(cfg, facts, s, events[..|events| - 1]);
      RunKeeps(cfg, facts, s, events[..|events| - 1]);
      StepKeeps(cfg, facts, before, events[|events| - 1]);
      NoEarlierTransitive(cfg, s, before, Run(cfg, facts, s, events));
    }
  }

  ghost predicate IsLineOf(doc: Doc, n: nat, i: nat, v: Served) {
    && LastLine(doc.heads, n, i) && doc.heads[i].syncedTo.Some?
    && v == Served(doc.heads[i].root, doc.heads[i].manifest)
  }

  /** Over every run, what is served for a head is its last line in the document
      that the signer's floor records. */
  lemma {:induction false} ServedIsPublished(cfg: Config, facts: Facts, s: State, events: seq<Event>, n: nat)
    requires Coherent(cfg, facts, s) && n in Run(cfg, facts, s, events).serving
    ensures var s' := Run(cfg, facts, s, events);
            cfg.signer in s'.floors && exists i: nat :: IsLineOf(s'.floors[cfg.signer].digest, n, i, s'.serving[n])
  {
    RunKeeps(cfg, facts, s, events);
    var s' := Run(cfg, facts, s, events);
    assert n in ServedBy(s'.checkpoints);
    var doc := s'.floors[cfg.signer].digest;
    assert CheckpointOk(cfg, facts, s'.floors[cfg.signer], n, s'.checkpoints[n]);
    LineIs(doc, n);
    var i: nat :| LastLine(doc.heads, n, i) && LineFor(doc, n) == Some(doc.heads[i]);
    assert IsLineOf(doc, n, i, s'.serving[n]);
  }

  /** Once a document is admitted, no document of a lower revision and no other
      document of the same revision is ever admitted again. */
  lemma {:induction false} SupersededForGood(cfg: Config, facts: Facts, a: Attempt, s: State, c: Candidate,
                                             events: seq<Event>, a': Attempt, c': Candidate)
    requires Coherent(cfg, facts, s) && Admissible(cfg, facts, a, s, c)
    requires c'.doc.revision < c.doc.revision || (c'.doc.revision == c.doc.revision && c'.doc != c.doc)
    ensures !Admissible(cfg, facts, a', Run(cfg, facts, Publish(cfg, facts, a, s, c), events), c')
  {
    PublishKeepsCoherent(cfg, facts, a, s, c);
    RunKeeps(cfg, facts, Publish(cfg, facts, a, s, c), events);
  }

  /** Publishing a document again changes nothing that is durable, even if the
      roots cannot be loaded any more. */
  lemma {:induction false} AgainChangesNothing(cfg: Config, facts: Facts, a: Attempt, s: State, c: Candidate,
                                               a': Attempt)
    requires Coherent(cfg, facts, s) && Admissible(cfg, facts, a, s, c)
    ensures var s' := Publish(cfg, facts, a, s, c); Publish(cfg, facts, a', s', c) == s'
  {
    var s' := Publish(cfg, facts, a, s, c);
    if Admissible(cfg, facts, a', s', c) {
      forall n | n in cfg.names ensures Outcome(facts, a', s', c, n) == Outcome(facts, a, s, c, n) {
        SameOutcome(facts, a, s, c, a', s', n);
      }
      assert Rewritten(cfg, facts, a', s', c) == s'.checkpoints;
      assert s'.floors[c.authority := Floor(c.doc.revision, c.doc)] == s'.floors;
    }
  }

  lemma {:induction false} SameOutcome(facts: Facts, a: Attempt, s: State, c: Candidate, a': Attempt, s': State, n: nat)
    requires n in s'.checkpoints && Outcome(facts, a, s, c, n) == Some(s'.checkpoints[n])
    requires Outcome(facts, a', s', c, n).Some?
    ensures Outcome(facts, a', s', c, n) == Outcome(facts, a, s, c, n)
  {
  }

  /* ---- The follower ---- */

  /** What phase 1 decides for one head: what to expose, what to checkpoint. */
  datatype Plan = Plan(name: nat, expose: Option<Entry>, withdraw: bool, write: bool, cp: Checkpoint)

  /** The plan brings the head to the checkpoint the document calls for. */
  predicate Carries(s: State, p: Plan, name: nat, cp: Checkpoint) {
    && p.name == name
    && (if p.write then p.cp == cp else name in s.checkpoints && s.checkpoints[name] == cp)
    && p.withdraw == !cp.selected
    && (p.expose.Some? ==> cp.selected && cp.published == p.expose)
    && (p.expose.None? && cp.selected ==>
       cp.published.Some? && cp.published.value.name == name && IsServing(s.serving, cp.published.value))
  }

  predicate PlansCarry(facts: Facts, a: Attempt, s: State, c: Candidate, names: seq<nat>, plans: seq<Plan>) {
    && |plans| == |names|
    && forall i | 0 <= i < |plans| ::
         Outcome(facts, a, s, c, names[i]).Some? &&
         Carries(s, plans[i], names[i], Outcome(facts, a, s, c, names[i]).value)
  }

  function Written(checkpoints: map<nat, Checkpoint>, plans: seq<Plan>, n: nat): map<nat, Checkpoint>
    requires n <= |plans|
  {
    if n == 0 then checkpoints
    else if plans[n - 1].write then Written(checkpoints, plans, n - 1)[plans[n - 1].name := plans[n - 1].cp]
    else Written(checkpoints, plans, n - 1)
  }

  function Installed(serving: map<nat, Served>, plans: seq<Plan>, n: nat): map<nat, Served>
    requires n <= |plans|
  {
    if n == 0 then serving
    else
      var before, p := Installed(serving, plans, n - 1), plans[n - 1];
      if p.withdraw then map k | k in before && k != p.name :: before[k]
      else if p.expose.Some? then before[p.name := Served(p.expose.value.root, p.expose.value.manifest)]
      else before
  }

  /** The plans bring each head to the checkpoint wanted for it. */
  predicate Reach(s: State, names: seq<nat>, plans: seq<Plan>, want: map<nat, Checkpoint>) {
    |plans| == |names| && forall i | 0 <= i < |plans| ::
      names[i] in want && Carries(s, plans[i], names[i], want[names[i]])
  }

  /** The writes of the first n plans leave the first n heads where they should be. */
  lemma {:induction false} WrittenIs(s: State, names: seq<nat>, plans: seq<Plan>, want: map<nat, Checkpoint>, n: nat)
    requires Reach(s, names, plans, want) && n <= |plans|
    ensures var w := Written(s.checkpoints, plans, n);
      && s.checkpoints.Keys <= w.Keys && (forall k | k in w :: k in s.checkpoints || k in names)
      && (forall k | k in w :: (k in s.checkpoints && w[k] == s.checkpoints[k]) || (k in want && w[k] == want[k]))
      && (forall j | 0 <= j < n :: names[j] in w && w[names[j]] == want[names[j]])
    decreases n
  {
    if n > 0 { WrittenIs(s, names, plans, want, n - 1); }
  }

  lemma {:induction false} WrittenAll(cfg: Config, facts: Facts, s: State, plans: seq<Plan>, want: map<nat, Checkpoint>)
    requires Coherent(cfg, facts, s) && Reach(s, cfg.names, plans, want) && forall n | n in want :: n in cfg.names
    ensures Written(s.checkpoints, plans, |plans|) == want
  {
    WrittenIs(s, cfg.names, plans, want, |plans|);
    var w := Written(s.checkpoints, plans, |plans|);
    forall k | k in w ensures k in want && w[k] == want[k] {
      var j :| 0 <= j < |cfg.names| && cfg.names[j] == k;
    }
    forall k | k in want ensures k in w {
      var j :| 0 <= j < |cfg.names| && cfg.names[j] == k;
    }
  }

  /** What a head serves is what its checkpoint selects. */
  predicate ServesLike(v: map<nat, Served>, cp: Checkpoint, k: nat) {
    if cp.selected then
      cp.published.Some? && k in v && v[k] == Served(cp.published.value.root, cp.published.value.manifest)
    else k !in v
  }

  lemma {:induction false} InstalledStep(s: State, names: seq<nat>, plans: seq<Plan>, want: map<nat, Checkpoint>,
                                         n: nat, j: nat)
    requires Reach(s, names, plans, want) && j <= n < |plans|
    requires j < n ==> ServesLike(Installed(s.serving, plans, n), want[names[j]], names[j])
    requires forall k | k in Installed(s.serving, plans, n) && k !in names[..n] ::
             k in s.serving && Installed(s.serving, plans, n)[k] == s.serving[k]
    requires forall k | k in s.serving && k !in names[..n] :: k in Installed(s.serving, plans, n)
    requires names[n] in names[..n] ==> ServesLike(Installed(s.serving, plans, n), want[names[n]], names[n])
    ensures ServesLike(Installed(s.serving, plans, n + 1), want[names[j]], names[j])
  {
    assert Carries(s, plans[n], names[n], want[names[n]]);
    assert Carries(s, plans[j], names[j], want[names[j]]);
  }

  lemma {:induction false} InstalledIs(s: State, names: seq<nat>, plans: seq<Plan>, want: map<nat, Checkpoint>, n: nat)
    requires Reach(s, names, plans, want) && n <= |plans|
    ensures var v := Installed(s.serving, plans, n);
      && (forall j | 0 <= j < n :: ServesLike(v, want[names[j]], names[j]))
      && (forall k | k in v && k !in names[..n] :: k in s.serving && v[k] == s.serving[k])
      && (forall k | k in s.serving && k !in names[..n] :: k in v)
    decreases n
  {
    if n > 0 {
      var m := n - 1;
      InstalledIs(s, names, plans, want, m);
      assert names[..n] == names[..m] + [names[m]];
      if names[m] in names[..m] {
        var i :| 0 <= i < m && names[i] == names[m];
      }
      forall j | 0 <= j < n ensures ServesLike(Installed(s.serving, plans, n), want[names[j]], names[j]) {
        InstalledStep(s, names, plans, want, m, j);
      }
    }
  }

  lemma {:induction false} ServesAll(v: map<nat, Served>, checkpoints: map<nat, Checkpoint>)
    requires (forall k | k in checkpoints :: ServesLike(v, checkpoints[k], k)) && forall k | k in v :: k in checkpoints
    ensures v == ServedBy(checkpoints)
  {
    var w := ServedBy(checkpoints);
    forall k | k in v ensures k in w && v[k] == w[k] { assert ServesLike(v, checkpoints[k], k); }
    forall k | k in w ensures k in v { assert ServesLike(v, checkpoints[k], k); }
  }

  lemma {:induction false} InstalledAll(cfg: Config, facts: Facts, s: State, plans: seq<Plan>,
                                        want: map<nat, Checkpoint>)
    requires Coherent(cfg, facts, s) && Reach(s, cfg.names, plans, want)
    requires NamesCovered(cfg.names, want)
    ensures Installed(s.serving, plans, |plans|) == ServedBy(want)
  {
    InstalledIs(s, cfg.names, plans, want, |plans|);
    var v := Installed(s.serving, plans, |plans|);
    assert cfg.names[..|plans|] == cfg.names;
    forall k | k in want ensures ServesLike(v, want[k], k) {
      var j :| 0 <= j < |cfg.names| && cfg.names[j] == k;
    }
    forall k | k in v ensures k in want {
      assert k !in cfg.names ==> k in ServedBy(s.checkpoints);
    }
    ServesAll(v, want);
  }

  class Subscriber {
    const cfg: Config
    const facts: Facts
    var checkpoints: map<nat, Checkpoint>
    var floors: map<nat, Floor>
    var serving: map<nat, Served>

    constructor (cfg: Config, facts: Facts)
      ensures this.cfg == cfg && this.facts == facts && Untouched(Now()) && Valid()
    {
      this.cfg, this.facts := cfg, facts;
      checkpoints, floors, serving := map[], map[], map[];
    }

    function Now(): State
      reads this
    {
      State(checkpoints, floors, serving)
    }

    predicate Valid()
      reads this
    {
      Coherent(cfg, facts, Now())
    }

    /** checkManifestAncestry. */
    method CheckAncestry(a: Attempt, name: nat, tip: Option<Manifest>, floor: Option<Manifest>) returns (ok: bool)
      ensures ok == Ancestry(facts, a, name, tip, floor)
    {
      if floor.None? {
        if tip.None? { return true; }
        ok := ValidateFirstChain(facts.schema, LIMITS, a.held, name, tip.value);
        return;
      }
      if tip == floor { return true; }
      if tip.None? { return false; }
      var walk := ManifestDescends(a.held, tip.value, floor.value);
      return walk.Reached?;
    }

    /** A covered line: every reason to refuse it, then what to write and expose. */
    method PreflightEntry(a: Attempt, c: Candidate, e: Entry) returns (r: Option<Plan>)
      requires e.syncedTo.Some?
      ensures r.Some? == EntryFits(facts, a, Now(), c, e)
      ensures r.Some? && Valid() && Authentic(cfg, c) ==> Carries(Now(), r.value, e.name, Selected(c, e))
    {
      if e.name in a.quarantined { return None; }
      var prior := Prior(Now(), e.name);
      if prior.Some? && prior.value.net != c.doc.net { return None; }
      var line := LineOf(prior);
      if line.Some? && !SameArchive(line.value, e) { return None; }
      if line.Some? && line.value.syncedTo.Some? && e.syncedTo.value < line.value.syncedTo.value { return None; }
      var ancestry := CheckAncestry(a, e.name, e.manifest, FloorTip(line));
      if !ancestry { return None; }
      if e.manifest.Some? && e.manifest.value !in a.held { return None; }
      var matches := prior.Some? && Matches(prior.value, c, e);
      if matches && IsServing(serving, e) {
        return Some(Plan(e.name, None, false, false, prior.value));
      }
      if e.name in a.unloadable || facts.coverage(e.root) != e.syncedTo { return None; }
      return Some(Plan(e.name, Some(e), false, !matches, Selected(c, e)));
    }

    method PreflightWithdrawal(c: Candidate, name: nat, listed: bool) returns (r: Option<Plan>)
      ensures r.Some? == WithdrawalFits(Now(), c, name, listed)
      ensures r.Some? ==> Carries(Now(), r.value, name, Tombstone(c, Prior(Now(), name)))
    {
      var prior := Prior(Now(), name);
      if listed && prior.Some? && prior.value.published.Some? { return None; }
      if prior.Some? && prior.value.net != c.doc.net { return None; }
      return Some(Plan(name, None, true, true, Tombstone(c, prior)));
    }

    method Find(heads: seq<Entry>, name: nat) returns (line: Option<Entry>)
      ensures line == Listed(heads, name, |heads|)
    {
      line := None;
      for i := 0 to |heads|
        invariant line == Listed(heads, name, i)
      {
        if heads[i].name == name { line := Some(heads[i]); }
      }
    }

    method Preflight(a: Attempt, c: Candidate, name: nat) returns (r: Option<Plan>)
      requires Valid() && Authentic(cfg, c)
      ensures r.Some? == Outcome(facts, a, Now(), c, name).Some?
      ensures r.Some? ==> Carries(Now(), r.value, name, Outcome(facts, a, Now(), c, name).value)
    {
      var line := Find(c.doc.heads, name);
      LineAbout(c.doc.heads, name);
      if line.Some? && line.value.syncedTo.Some? {
        r := PreflightEntry(a, c, line.value);
      } else {
        r := PreflightWithdrawal(c, name, line.Some?);
      }
    }

    /** Phase 1: every head, no write; one refusal refuses the document. */
    method Plans(a: Attempt, c: Candidate) returns (ok: bool, plans: seq<Plan>)
      requires Valid() && Authentic(cfg, c)
      ensures ok == (forall i | 0 <= i < |cfg.names| :: Outcome(facts, a, Now(), c, cfg.names[i]).Some?)
      ensures ok ==> PlansCarry(facts, a, Now(), c, cfg.names, plans)
    {
      ok, plans := true, [];
      for i := 0 to |cfg.names|
        invariant ok == (forall j | 0 <= j < i :: Outcome(facts, a, Now(), c, cfg.names[j]).Some?)
        invariant ok ==> |plans| == i
        invariant ok ==> forall j | 0 <= j < i ::
                  Carries(Now(), plans[j], cfg.names[j], Outcome(facts, a, Now(), c, cfg.names[j]).value)
      {
        var plan := Preflight(a, c, cfg.names[i]);
        if plan.Some? { plans := plans + [plan.value]; } else { ok := false; }
      }
    }

    /** Phase 2: one batch, then one exposure. */
    method Commit(c: Candidate, plans: seq<Plan>)
      modifies this
      ensures checkpoints == Written(old(checkpoints), plans, |plans|)
      ensures floors == old(floors)[c.authority := Floor(c.doc.revision, c.doc)]
      ensures serving == Installed(old(serving), plans, |plans|)
    {
      var batch := checkpoints;
      for i := 0 to |plans|
        invariant batch == Written(old(checkpoints), plans, i)
      {
        if plans[i].write { batch := batch[plans[i].name := plans[i].cp]; }
      }
      checkpoints, floors := batch, floors[c.authority := Floor(c.doc.revision, c.doc)];
      for i := 0 to |plans|
        invariant checkpoints == batch && floors == old(floors)[c.authority := Floor(c.doc.revision, c.doc)]
        invariant serving == Installed(old(serving), plans, i)
      {
        var p := plans[i];
        if p.withdraw { serving := map k | k in serving && k != p.name :: serving[k]; }
        else if p.expose.Some? { serving := serving[p.name := Served(p.expose.value.root, p.expose.value.manifest)]; }
      }
    }

    /** admit: the document is adopted whole or not at all. */
    method Admit(a: Attempt, c: Candidate) returns (ok: bool)
      requires Valid()
      modifies this
      ensures Valid() && ok == Admissible(cfg, facts, a, old(Now()), c)
      ensures Now() == Publish(cfg, facts, a, old(Now()), c)
      ensures ok <==> Timely(cfg, old(Now()), c) && a.commits
                      && forall n | n in cfg.names :: Accepts(facts, a, old(Now()), c, n)
      ensures ok ==> forall n | n in cfg.names :: Adopted(old(Now()), Now(), c, n)
      ensures ok ==> NamesCovered(cfg.names, checkpoints)
      ensures ok ==> floors == old(floors)[cfg.signer := Floor(c.doc.revision, c.doc)]
      ensures !ok ==> Now() == old(Now())
    {
      AdmissibleIff(cfg, facts, a, Now(), c);
      if c.authority != cfg.signer || c.doc.net != cfg.net || c.doc.revision == 0 { return false; }
      if c.authority in floors {
        var floor := floors[c.authority];
        if c.doc.revision < floor.revision || (c.doc.revision == floor.revision && c.doc != floor.digest) {
          return false;
        }
      }
      var passed, plans := Plans(a, c);
      if !passed || !a.commits { return false; }
      ghost var s := Now();
      ghost var want := Rewritten(cfg, facts, a, s, c);
      assert Reach(s, cfg.names, plans, want);
      WrittenAll(cfg, facts, s, plans, want);
      InstalledAll(cfg, facts, s, plans, want);
      PublishKeepsCoherent(cfg, facts, a, s, c);
      Commit(c, plans);
      assert Now() == Publish(cfg, facts, a, s, c);
      forall n | n in cfg.names ensures Adopted(s, Now(), c, n) { PublishAdopts(cfg, facts, a, s, c, n); }
      return true;
    }

    /** resumeDocumentCheckpoint: serve what the last admitted document selected,
        if every checkpoint is of one generation and every root loads. */
    method Resume(unloadable: set<nat>) returns (ok: bool)
      requires Valid()
      modifies this`serving
      ensures Valid() && Now() == Resumed(cfg, facts, unloadable, old(Now()))
      ensures Proper(cfg) && unloadable == {} && !Untouched(Now()) ==> ok
      ensures Proper(cfg) && !Untouched(Now()) ==>
                (ok <==> forall n | n in cfg.names && n in checkpoints && checkpoints[n].selected :: n !in unloadable)
      ensures ok ==> forall n | n in cfg.names :: n in checkpoints && ServesLike(serving, checkpoints[n], n)
      ensures !ok ==> serving == old(serving)
    {
      var grouped := CheckGroup();
      var loaded := true;
      for i := 0 to |cfg.names|
        invariant grouped ==> loaded == (forall j | 0 <= j < i ::
                  Loads(facts, unloadable, cfg.names[j], checkpoints[cfg.names[j]]))
      {
        var n := cfg.names[i];
        if grouped && checkpoints[n].selected && checkpoints[n].published.Some? {
          var line := checkpoints[n].published.value;
          if n in unloadable || facts.coverage(line.root) != line.syncedTo { loaded := false; }
        }
      }
      if Proper(cfg) && !Untouched(Now()) { OneGenerationResumes(cfg, facts, Now()); }
      ok := grouped && loaded;
      if ok { serving := ServedBy(checkpoints); }
    }

    method CheckGroup() returns (ok: bool)
      ensures ok == Resumable(cfg, checkpoints, floors)
      ensures ok ==> cfg.signer in floors && forall n | n in cfg.names ::
                && n in checkpoints && checkpoints[n].authority == cfg.signer && checkpoints[n].net == cfg.net
                && floors[cfg.signer] == Floor(checkpoints[n].revision, checkpoints[n].digest)
    {
      if cfg.names == [] || |checkpoints| != |cfg.names| { return false; }
      for i := 0 to |cfg.names|
        invariant forall j | 0 <= j < i :: cfg.names[j] in checkpoints
      {
        if cfg.names[i] !in checkpoints { return false; }
      }
      var first := checkpoints[cfg.names[0]];
      for i := 0 to |cfg.names|
        invariant forall j | 0 <= j < i :: Grouped(checkpoints[cfg.names[j]], first, cfg.names[j])
      {
        var n := cfg.names[i];
        var cp := checkpoints[n];
        if cp.authority != first.authority || cp.revision != first.revision || cp.digest != first.digest ||
          cp.updatedAt != first.updatedAt {
          return false;
        }
        if cp.net != first.net { return false; }
        if cp.published.Some? && cp.published.value.name != n { return false; }
        if cp.selected && cp.published.None? { return false; }
      }
      if first.authority !in floors || floors[first.authority] != Floor(first.revision, first.digest) { return false; }
      return first.authority == cfg.signer && first.net == cfg.net;
    }
  }
}
