/** What a head contains, without trees: rows and a coverage boundary. The
    mutators of archive/apply.go and archive/truncate.go are given here as
    partial functions on contents; the engine is proved against them. */
module Contents {
  import opened Arith
  import opened Dag
  import opened Rows
  import opened HeadState
  import opened Lookup

  datatype RefRow = RefRow(slot: nat, vhs: seq<VersionedHash>)

  /** The blobs the archive can resolve and holds. */
  type Catalog = map<VersionedHash, BlobCid>

  datatype Contents = Contents(rows: seq<Row>, synced: Option<nat>)

  const EMPTY: Contents := Contents([], None)

  /* ---- Batches ---- */

  /** What validateShape insists on. */
  ghost predicate ValidBatch(p: Params, batch: seq<RefRow>, newSynced: nat) {
    && p.originSlot <= newSynced
    && (forall i, j | 0 <= i < j < |batch| :: batch[i].slot < batch[j].slot)
    && (forall i | 0 <= i < |batch| ::
          p.originSlot <= batch[i].slot <= newSynced && 1 <= |batch[i].vhs| <= MAX_BLOBS_PER_SLOT)
  }

  predicate Held(cat: Catalog, vhs: seq<VersionedHash>) {
    forall j | 0 <= j < |vhs| :: vhs[j] in cat
  }

  predicate AllHeld(cat: Catalog, batch: seq<RefRow>) {
    forall i | 0 <= i < |batch| :: Held(cat, batch[i].vhs)
  }

  /** The row is the batch's row with every hash resolved, in the same order. */
  predicate Resolves(cat: Catalog, ref: RefRow, row: Row) {
    && row.slot == ref.slot && |row.entries| == |ref.vhs|
    && forall j | 0 <= j < |ref.vhs| ::
         ref.vhs[j] in cat && row.entries[j] == RefEntry(ref.vhs[j], cat[ref.vhs[j]])
  }

  function ResolvedRow(cat: Catalog, ref: RefRow): (row: Row)
    requires Held(cat, ref.vhs)
    ensures Resolves(cat, ref, row)
  {
    Row(ref.slot, seq(|ref.vhs|, j requires 0 <= j < |ref.vhs| => RefEntry(ref.vhs[j], cat[ref.vhs[j]])))
  }

  function Resolved(cat: Catalog, batch: seq<RefRow>): (rows: seq<Row>)
    requires AllHeld(cat, batch)
    ensures |rows| == |batch| && forall i | 0 <= i < |batch| :: Resolves(cat, batch[i], rows[i])
  {
    if batch == [] then []
    else Resolved(cat, batch[..|batch| - 1]) + [ResolvedRow(cat, batch[|batch| - 1])]
  }

  /** A batch resolves in one way only. */
  lemma {:induction false} ResolvedUnique(cat: Catalog, batch: seq<RefRow>, a: seq<Row>, b: seq<Row>)
    requires |a| == |batch| == |b|
    requires forall i | 0 <= i < |batch| :: Resolves(cat, batch[i], a[i]) && Resolves(cat, batch[i], b[i])
    ensures a == b
  {
    forall i | 0 <= i < |batch| ensures a[i] == b[i] {
      assert a[i].entries == b[i].entries;
    }
  }

  predicate SameHashes(row: Row, vhs: seq<VersionedHash>) {
    |row.entries| == |vhs| && forall j | 0 <= j < |vhs| :: row.entries[j].vh == vhs[j]
  }

  /** verifyReplay: the stored row at the slot carries the same hashes in the
      same order. */
  predicate Replayed(rows: seq<Row>, ref: RefRow) {
    RowAt(rows, ref.slot).Some? && SameHashes(RowAt(rows, ref.slot).value, ref.vhs)
  }

  predicate AllReplayed(rows: seq<Row>, batch: seq<RefRow>) {
    forall i | 0 <= i < |batch| :: Replayed(rows, batch[i])
  }

  predicate AllAfter(synced: Option<nat>, batch: seq<RefRow>) {
    synced.Some? ==> forall i | 0 <= i < |batch| :: batch[i].slot > synced.value
  }

  /** The batch lies entirely at or before synced_to. */
  predicate IsReplay(synced: Option<nat>, newSynced: nat) {
    synced.Some? && newSynced <= synced.value
  }

  /* ---- The mutators ---- */

  /** ApplyRefs: an exact replay changes nothing, an extension appends, and
      everything else is refused. */
  ghost function Applied(p: Params, cat: Catalog, c: Contents, batch: seq<RefRow>, newSynced: nat): Result<Contents> {
    if !ValidBatch(p, batch, newSynced) then Err(Conflict)
    else if IsReplay(c.synced, newSynced) then
      if AllReplayed(c.rows, batch) then Ok(c) else Err(Conflict)
    else if !AllAfter(c.synced, batch) then Err(Conflict)
    else if !AllHeld(cat, batch) then Err(MissingBlobs)
    else if newSynced >= MAX_INT64 then Err(Unencodable)
    else Ok(Contents(c.rows + Resolved(cat, batch), Some(newSynced)))
  }

  function TruncatedTo(p: Params, c: Contents, slot: nat): Result<Contents> {
    if c.synced.None? || slot > c.synced.value || slot < p.originSlot then Err(Conflict)
    else Ok(Contents(RowsUpTo(c.rows, slot), Some(slot)))
  }

  datatype Op = Apply(batch: seq<RefRow>, newSynced: nat) | TruncateTo(slot: nat) | TruncateAll

  ghost function Step(p: Params, cat: Catalog, c: Contents, op: Op): Result<Contents> {
    match op
    case Apply(batch, newSynced) => Applied(p, cat, c, batch, newSynced)
    case TruncateTo(slot) => TruncatedTo(p, c, slot)
    case TruncateAll => Ok(EMPTY)
  }

  /** A refused operation changes nothing. */
  ghost function After(p: Params, cat: Catalog, c: Contents, op: Op): Contents {
    if Step(p, cat, c, op).Ok? then Step(p, cat, c, op).value else c
  }

  /** The contents after the first n operations. */
  ghost function Run(p: Params, cat: Catalog, c: Contents, ops: seq<Op>, n: nat): Contents
    requires n <= |ops|
  {
    if n == 0 then c else After(p, cat, Run(p, cat, c, ops, n - 1), ops[n - 1])
  }

  /* ---- What every operation keeps ---- */

  ghost predicate FromCatalog(cat: Catalog, rows: seq<Row>) {
    forall i, j | 0 <= i < |rows| && 0 <= j < |rows[i].entries| ::
      rows[i].entries[j].vh in cat && rows[i].entries[j].blob == cat[rows[i].entries[j].vh]
  }

  ghost predicate Legal(p: Params, cat: Catalog, c: Contents) {
    && (c.synced.None? ==> c.rows == [])
    && (c.synced.Some? ==> Stores(p, c.rows, c.synced.value))
    && FromCatalog(cat, c.rows)
  }

  lemma {:induction false} AppendedStores(p: Params, cat: Catalog, c: Contents, batch: seq<RefRow>, newSynced: nat)
    requires Legal(p, cat, c) && ValidBatch(p, batch, newSynced) && AllHeld(cat, batch)
    requires AllAfter(c.synced, batch) && !IsReplay(c.synced, newSynced) && newSynced < MAX_INT64
    ensures Stores(p, c.rows + Resolved(cat, batch), newSynced)
    ensures FromCatalog(cat, c.rows + Resolved(cat, batch))
  {
    var more := Resolved(cat, batch);
    var all := c.rows + more;
    forall i | |c.rows| <= i < |all|
      ensures all[i] == more[i - |c.rows|] && Resolves(cat, batch[i - |c.rows|], all[i])
    {
    }
    assert forall i | 0 <= i < |c.rows| :: all[i] == c.rows[i];
  }

  lemma {:induction false} StepKeepsLegal(p: Params, cat: Catalog, c: Contents, op: Op)
    requires Legal(p, cat, c)
    ensures Legal(p, cat, After(p, cat, c, op))
  {
    match op
    case Apply(batch, newSynced) =>
      if Step(p, cat, c, op).Ok? && !IsReplay(c.synced, newSynced) {
        AppendedStores(p, cat, c, batch, newSynced);
      }
    case TruncateTo(slot) =>
      if Step(p, cat, c, op).Ok? {
        var n := UpToIsPrefix(c.rows, slot);
      }
    case TruncateAll =>
  }

  lemma {:induction false} RunKeepsLegal(p: Params, cat: Catalog, c: Contents, ops: seq<Op>, n: nat)
    requires n <= |ops| && Legal(p, cat, c)
    ensures Legal(p, cat, Run(p, cat, c, ops, n))
  {
    if n > 0 {
      RunKeepsLegal(p, cat, c, ops, n - 1);
      StepKeepsLegal(p, cat, Run(p, cat, c, ops, n - 1), ops[n - 1]);
    }
  }

  /* ---- A fresh build of the surviving rows ---- */

  function RefsOf(row: Row): (ref: RefRow)
    ensures ref.slot == row.slot && SameHashes(row, ref.vhs)
  {
    RefRow(row.slot, seq(|row.entries|, j requires 0 <= j < |row.entries| => row.entries[j].vh))
  }

  /** The snapshot BuildGeneration takes: the rows as references. */
  function Snapshot(rows: seq<Row>): (batch: seq<RefRow>)
    ensures |batch| == |rows| && forall i | 0 <= i < |rows| :: batch[i] == RefsOf(rows[i])
  {
    seq(|rows|, i requires 0 <= i < |rows| => RefsOf(rows[i]))
  }

  lemma {:induction false} SnapshotResolves(cat: Catalog, rows: seq<Row>)
    requires FromCatalog(cat, rows)
    ensures AllHeld(cat, Snapshot(rows)) && Resolved(cat, Snapshot(rows)) == rows
  {
    var batch := Snapshot(rows);
    forall i | 0 <= i < |rows| ensures Resolves(cat, batch[i], rows[i]) {
    }
    ResolvedUnique(cat, batch, Resolved(cat, batch), rows);
  }

  lemma {:induction false} SnapshotValid(p: Params, rows: seq<Row>, synced: nat)
    requires Stores(p, rows, synced)
    ensures ValidBatch(p, Snapshot(rows), synced)
  {
    var batch := Snapshot(rows);
    assert forall i | 0 <= i < |rows| :: batch[i].slot == rows[i].slot && |batch[i].vhs| == |rows[i].entries|;
  }

  lemma {:induction false} FreshBuild(p: Params, cat: Catalog, rows: seq<Row>, synced: nat)
    requires Stores(p, rows, synced) && FromCatalog(cat, rows)
    ensures Applied(p, cat, EMPTY, Snapshot(rows), synced) == Ok(Contents(rows, Some(synced)))
  {
    SnapshotValid(p, rows, synced);
    SnapshotResolves(cat, rows);
    assert [] + rows == rows;
  }

  /** History does not matter: whatever operations led to c, building its rows
      afresh in one batch is accepted and gives c again. */
  lemma {:induction false} FreshBuildReaches(p: Params, cat: Catalog, ops: seq<Op>) returns (c: Contents)
    ensures c == Run(p, cat, EMPTY, ops, |ops|)
    ensures c.synced.None? ==> c == EMPTY
    ensures c.synced.Some? ==> Applied(p, cat, EMPTY, Snapshot(c.rows), c.synced.value) == Ok(c)
  {
    RunKeepsLegal(p, cat, EMPTY, ops, |ops|);
    c := Run(p, cat, EMPTY, ops, |ops|);
    if c.synced.Some? { FreshBuild(p, cat, c.rows, c.synced.value); }
  }

  /* ---- Splitting a batch ---- */

  lemma {:induction false} ResolvedAppend(cat: Catalog, a: seq<RefRow>, b: seq<RefRow>)
    requires AllHeld(cat, a) && AllHeld(cat, b)
    ensures AllHeld(cat, a + b) && Resolved(cat, a + b) == Resolved(cat, a) + Resolved(cat, b)
  {
    var parts := Resolved(cat, a) + Resolved(cat, b);
    forall i | 0 <= i < |a + b| ensures Held(cat, (a + b)[i].vhs) && Resolves(cat, (a + b)[i], parts[i]) {
      if i < |a| {
        assert (a + b)[i] == a[i];
      } else {
        assert (a + b)[i] == b[i - |a|];
      }
    }
    ResolvedUnique(cat, a + b, Resolved(cat, a + b), parts);
  }

  lemma {:induction false} SplitValid(p: Params, a: seq<RefRow>, b: seq<RefRow>, mid: nat, end: nat)
    requires mid < end && p.originSlot <= mid
    requires (forall i | 0 <= i < |a| :: a[i].slot <= mid) && (forall i | 0 <= i < |b| :: b[i].slot > mid)
    ensures ValidBatch(p, a + b, end) <==> ValidBatch(p, a, mid) && ValidBatch(p, b, end)
  {
    var all := a + b;
    assert forall i | 0 <= i < |a| :: all[i] == a[i];
    assert forall i | 0 <= i < |b| :: all[|a| + i] == b[i];
    if ValidBatch(p, a, mid) && ValidBatch(p, b, end) {
      forall i | 0 <= i < |all|
        ensures p.originSlot <= all[i].slot <= end && 1 <= |all[i].vhs| <= MAX_BLOBS_PER_SLOT
      {
        if i >= |a| { assert all[i] == b[i - |a|]; }
      }
      forall i, j | 0 <= i < j < |all| ensures all[i].slot < all[j].slot {
        if i >= |a| {
          assert all[i] == b[i - |a|] && all[j] == b[j - |a|];
        } else if j >= |a| {
          assert all[j] == b[j - |a|];
        }
      }
    }
  }

  lemma {:induction false} SplitConditions(cat: Catalog, synced: Option<nat>, a: seq<RefRow>, b: seq<RefRow>, mid: nat)
    requires synced.Some? ==> synced.value < mid
    requires forall i | 0 <= i < |b| :: b[i].slot > mid
    ensures AllAfter(synced, a + b) <==> AllAfter(synced, a)
    ensures AllHeld(cat, a + b) <==> AllHeld(cat, a) && AllHeld(cat, b)
    ensures AllAfter(Some(mid), b)
  {
    var all := a + b;
    assert forall i | 0 <= i < |a| :: all[i] == a[i];
    assert forall i | 0 <= i < |b| :: all[|a| + i] == b[i];
    assert forall i | |a| <= i < |all| :: all[i] == b[i - |a|];
  }

  /** Cutting a batch in two at any slot it advances over changes neither
      whether it is accepted nor what it leaves behind. */
  lemma {:induction false} SplittingIsIrrelevant(p: Params, cat: Catalog, c: Contents,
                                                 a: seq<RefRow>, b: seq<RefRow>, mid: nat, end: nat)
    requires p.originSlot <= mid < end && !IsReplay(c.synced, mid)
    requires (forall i | 0 <= i < |a| :: a[i].slot <= mid) && (forall i | 0 <= i < |b| :: b[i].slot > mid)
    ensures var whole := Applied(p, cat, c, a + b, end);
            var first := Applied(p, cat, c, a, mid);
            && (whole.Ok? <==> first.Ok? && Applied(p, cat, first.value, b, end).Ok?)
            && (whole.Ok? ==> whole == Applied(p, cat, first.value, b, end))
  {
    SplitValid(p, a, b, mid, end);
    SplitConditions(cat, c.synced, a, b, mid);
    if AllHeld(cat, a) && AllHeld(cat, b) {
      ResolvedAppend(cat, a, b);
      AppendAssociates(c.rows, Resolved(cat, a), Resolved(cat, b));
    }
  }

  lemma {:induction false} AppendAssociates(x: seq<Row>, y: seq<Row>, z: seq<Row>)
    ensures x + (y + z) == x + y + z
  {
  }

  /* ---- Replays ---- */

  lemma {:induction false} RowAtAppend(rows: seq<Row>, more: seq<Row>, slot: nat)
    requires WellFormedRows(rows + more) && WellFormedRows(rows) && RowAt(rows, slot).Some?
    ensures RowAt(rows + more, slot) == RowAt(rows, slot)
  {
    FindRowMeans(rows, |rows|, slot);
    var i :| 0 <= i < |rows| && rows[i] == RowAt(rows, slot).value;
    assert (rows + more)[i] == rows[i];
    RowAtIs(rows + more, i);
  }

  /** The batch would be accepted as a replay. */
  ghost predicate Replays(p: Params, c: Contents, batch: seq<RefRow>, newSynced: nat) {
    ValidBatch(p, batch, newSynced) && IsReplay(c.synced, newSynced) && AllReplayed(c.rows, batch)
  }

  lemma {:induction false} AcceptedReplays(p: Params, cat: Catalog, c: Contents, batch: seq<RefRow>, newSynced: nat)
    requires Legal(p, cat, c) && Applied(p, cat, c, batch, newSynced).Ok?
    ensures Replays(p, Applied(p, cat, c, batch, newSynced).value, batch, newSynced)
  {
    if !IsReplay(c.synced, newSynced) {
      AppendedStores(p, cat, c, batch, newSynced);
      var more := Resolved(cat, batch);
      var all := c.rows + more;
      forall i | 0 <= i < |batch| ensures Replayed(all, batch[i]) {
        assert all[|c.rows| + i] == more[i] && Resolves(cat, batch[i], more[i]);
        RowAtIs(all, |c.rows| + i);
      }
    }
  }

  lemma {:induction false} ExtendingKeepsReplays(p: Params, cat: Catalog, c: Contents, batch: seq<RefRow>,
                                                 newSynced: nat,
                                                 more: seq<RefRow>, later: nat)
    requires Legal(p, cat, c) && Replays(p, c, batch, newSynced)
    ensures Replays(p, After(p, cat, c, Apply(more, later)), batch, newSynced)
  {
    if Applied(p, cat, c, more, later).Ok? && !IsReplay(c.synced, later) {
      AppendedStores(p, cat, c, more, later);
      forall i | 0 <= i < |batch| ensures Replayed(c.rows + Resolved(cat, more), batch[i]) {
        RowAtAppend(c.rows, Resolved(cat, more), batch[i].slot);
      }
    }
  }

  /** Replaying any batch that was ever accepted is a no-op, for as long as the
      head only grows. */
  lemma {:induction false} ReplayIsNoOp(p: Params, cat: Catalog, c: Contents, batch: seq<RefRow>, newSynced: nat,
                                        ops: seq<Op>, n: nat)
    requires Legal(p, cat, c) && n <= |ops| && forall i | 0 <= i < |ops| :: ops[i].Apply?
    requires Applied(p, cat, c, batch, newSynced).Ok?
    ensures var d := Run(p, cat, Applied(p, cat, c, batch, newSynced).value, ops, n);
            && Legal(p, cat, d) && Replays(p, d, batch, newSynced)
            && Applied(p, cat, d, batch, newSynced) == Ok(d)
  {
    var c1 := Applied(p, cat, c, batch, newSynced).value;
    if n == 0 {
      StepKeepsLegal(p, cat, c, Apply(batch, newSynced));
      AcceptedReplays(p, cat, c, batch, newSynced);
    } else {
      ReplayIsNoOp(p, cat, c, batch, newSynced, ops, n - 1);
      var d := Run(p, cat, c1, ops, n - 1);
      StepKeepsLegal(p, cat, d, ops[n - 1]);
      ExtendingKeepsReplays(p, cat, d, batch, newSynced, ops[n - 1].batch, ops[n - 1].newSynced);
    }
  }
}
