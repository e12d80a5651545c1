/** The head engine (archive/archive.go, archive/apply.go, archive/truncate.go,
    archive/generation.go): the mutators of one head, proved against its
    contents. */
module Archive {
  import opened Arith
  import opened Dag
  import opened Directory
  import opened Rows
  import opened HeadState
  import opened Lookup
  import opened Readers
  import opened Contents

  /* ---- Checking and resolving a batch ---- */

  method ValidateShape(p: Params, batch: seq<RefRow>, newSynced: nat) returns (ok: bool)
    ensures ok <==> ValidBatch(p, batch, newSynced)
  {
    if newSynced < p.originSlot { return false; }
    for i := 0 to |batch|
      invariant forall j, k | 0 <= j < k < i :: batch[j].slot < batch[k].slot
      invariant forall j | 0 <= j < i ::
          p.originSlot <= batch[j].slot <= newSynced && 1 <= |batch[j].vhs| <= MAX_BLOBS_PER_SLOT
    {
      var r := batch[i];
      if i > 0 && r.slot <= batch[i - 1].slot { return false; }
      if r.slot < p.originSlot || r.slot > newSynced { return false; }
      if |r.vhs| == 0 || |r.vhs| > MAX_BLOBS_PER_SLOT { return false; }
    }
    return true;
  }

  /** resolveRows: every missing hash is gathered before the batch is refused. */
  method ResolveRows(cat: Catalog, batch: seq<RefRow>) returns (r: Result<seq<Row>>)
    ensures r == if AllHeld(cat, batch) then Ok(Resolved(cat, batch)) else Err(MissingBlobs)
  {
    var missing: seq<VersionedHash> := [];
    var out: seq<Row> := [];
    for i := 0 to |batch|
      invariant |out| == i
      invariant missing == [] <==> AllHeld(cat, batch[..i])
      invariant missing == [] ==> forall k | 0 <= k < i :: Resolves(cat, batch[k], out[k])
    {
      var more, entries := ResolveRow(cat, batch[i]);
      assert batch[..i + 1] == batch[..i] + [batch[i]];
      missing := missing + more;
      out := out + [Row(batch[i].slot, entries)];
    }
    assert batch[..|batch|] == batch;
    if missing != [] { return Err(MissingBlobs); }
    ResolvedUnique(cat, batch, out, Resolved(cat, batch));
    return Ok(out);
  }

  method ResolveRow(cat: Catalog, ref: RefRow) returns (missing: seq<VersionedHash>, entries: seq<RefEntry>)
    ensures missing == [] <==> Held(cat, ref.vhs)
    ensures missing == [] ==> Resolves(cat, ref, Row(ref.slot, entries))
  {
    missing, entries := [], [];
    for j := 0 to |ref.vhs|
      invariant missing == [] <==> forall k | 0 <= k < j :: ref.vhs[k] in cat
      invariant missing == [] ==> |entries| == j &&
                                  forall k | 0 <= k < j :: entries[k] == RefEntry(ref.vhs[k], cat[ref.vhs[k]])
    {
      var vh := ref.vhs[j];
      if vh in cat {
        entries := entries + [RefEntry(vh, cat[vh])];
      } else {
        missing := missing + [vh];
      }
    }
  }

  /* ---- What readers see of the mutators ---- */

  lemma {:induction false} TruncationReads(before: State, rows: seq<Row>, slot: nat, after: State)
    requires Represents(before, rows) && Covers(before, slot) && Truncated(before, slot) == Ok(after)
    ensures after.params == before.params && ReadsUpTo(before, after, slot)
  {
    var e :| Encodes(before, rows, e);
    EncodesShaped(before, rows, e);
    var mid := ProjectionReads(before, e, slot);
  }

  /** The slot reads as covered, with the row the reference resolves to. */
  ghost predicate ReadsRef(st: State, catalog: Catalog, ref: RefRow)
    requires UsableParams(st.params)
  {
    exists row: Row :: Resolves(catalog, ref, row) && RowLookup(st, ref.slot) == Ok((Found, Some(row)))
  }

  /** The slot reads as covered, with a row of exactly these references. */
  ghost predicate ReadsHashes(st: State, ref: RefRow)
    requires UsableParams(st.params)
  {
    exists row: Row :: RefsOf(row) == ref && RowLookup(st, ref.slot) == Ok((Found, Some(row)))
  }

  ghost predicate AllRead(st: State, batch: seq<RefRow>)
    requires UsableParams(st.params)
  {
    forall i | 0 <= i < |batch| :: ReadsHashes(st, batch[i])
  }

  ghost predicate SlotOf(batch: seq<RefRow>, s: nat) {
    exists i | 0 <= i < |batch| :: batch[i].slot == s
  }

  lemma {:induction false} SameRefs(row: Row, ref: RefRow)
    requires row.slot == ref.slot
    ensures SameHashes(row, ref.vhs) <==> RefsOf(row) == ref
  {
    if SameHashes(row, ref.vhs) { assert RefsOf(row).vhs == ref.vhs; }
  }

  lemma {:induction false} ReplayReads(st: State, rows: seq<Row>, batch: seq<RefRow>)
    requires Represents(st, rows) && st.synced.Some? && ValidBatch(st.params, batch, st.synced.value)
    ensures AllReplayed(rows, batch) <==> AllRead(st, batch)
  {
    forall i | 0 <= i < |batch| ensures Replayed(rows, batch[i]) <==> ReadsHashes(st, batch[i]) {
      LookupRefines(st, rows, batch[i].slot);
      FindRowMeans(rows, |rows|, batch[i].slot);
      if RowAt(rows, batch[i].slot).Some? { SameRefs(RowAt(rows, batch[i].slot).value, batch[i]); }
    }
  }

  /** After an extension the batch's slots read as its rows, the other slots it
      covers as empty, and everything else as before. */
  ghost predicate ReadsBatch(before: State, after: State, catalog: Catalog, batch: seq<RefRow>, newSynced: nat)
    requires UsableParams(before.params) && UsableParams(after.params)
  {
    && after.synced == Some(newSynced)
    && (forall i | 0 <= i < |batch| :: ReadsRef(after, catalog, batch[i]))
    && (forall s: nat | !SlotOf(batch, s) ::
          RowLookup(after, s) ==
          if Covers(after, s) && !Covers(before, s) then Ok((Found, None)) else RowLookup(before, s))
  }

  lemma {:induction false} ExtensionReads(before: State, rows: seq<Row>, after: State, more: seq<Row>,
                                          catalog: Catalog, batch: seq<RefRow>, newSynced: nat)
    requires Represents(before, rows) && Represents(after, rows + more) && before.params == after.params
    requires after.synced == Some(newSynced) && (before.synced.Some? ==> before.synced.value < newSynced)
    requires |more| == |batch| && forall i | 0 <= i < |batch| :: Resolves(catalog, batch[i], more[i])
    ensures ReadsBatch(before, after, catalog, batch, newSynced)
  {
    var all := rows + more;
    forall i | 0 <= i < |batch| ensures ReadsRef(after, catalog, batch[i]) {
      assert all[|rows| + i] == more[i];
      RowAtIs(all, |rows| + i);
      LookupRefines(after, all, batch[i].slot);
    }
    forall s: nat | !SlotOf(batch, s)
      ensures RowLookup(after, s) ==
              if Covers(after, s) && !Covers(before, s) then Ok((Found, None)) else RowLookup(before, s)
    {
      OldSlotReads(before, rows, after, more, batch, s);
    }
  }

  lemma {:induction false} OldSlotReads(before: State, rows: seq<Row>, after: State, more: seq<Row>,
                                        batch: seq<RefRow>, s: nat)
    requires Represents(before, rows) && Represents(after, rows + more) && before.params == after.params
    requires after.synced.Some? && (before.synced.Some? ==> before.synced.value < after.synced.value)
    requires |more| == |batch| && forall i | 0 <= i < |batch| :: more[i].slot == batch[i].slot
    requires !SlotOf(batch, s)
    ensures RowLookup(after, s) ==
            if Covers(after, s) && !Covers(before, s) then Ok((Found, None)) else RowLookup(before, s)
  {
    var all := rows + more;
    LookupRefines(before, rows, s);
    LookupRefines(after, all, s);
    assert forall row: Row | row.slot == s :: row in all <==> row in rows;
    SameRowAt(all, rows, s);
    FindRowMeans(rows, |rows|, s);
  }

  method VerifyReplay(st: State, batch: seq<RefRow>, ghost rows: seq<Row>) returns (r: Result<()>)
    requires Represents(st, rows) && st.synced.Some?
    requires ValidBatch(st.params, batch, st.synced.value)
    ensures r == if AllReplayed(rows, batch) then Ok(()) else Err(Conflict)
    ensures r.Ok? <==> AllRead(st, batch)
  {
    ReplayReads(st, rows, batch);
    for i := 0 to |batch|
      invariant AllReplayed(rows, batch[..i])
    {
      LookupRefines(st, rows, batch[i].slot);
      var found := LookupRow(st, batch[i].slot);
      var stored := found.value.1;
      var same := stored.Some? && |stored.value.entries| == |batch[i].vhs|;
      if same {
        for j := 0 to |batch[i].vhs|
          invariant same <==> forall k | 0 <= k < j :: stored.value.entries[k].vh == batch[i].vhs[k]
        {
          same := same && stored.value.entries[j].vh == batch[i].vhs[j];
        }
      }
      if !same { assert !Replayed(rows, batch[i]); return Err(Conflict); }
      assert batch[..i + 1] == batch[..i] + [batch[i]];
    }
    assert batch[..|batch|] == batch;
    return Ok(());
  }

  /* ---- The window loop ---- */

  /** dirAppend, with the digits pathDigits computes. */
  method AppendEntry(dir: Cid, depth: nat, fanoutBits: nat, i: nat, kid: Cid) returns (r: Result<(Cid, nat)>)
    requires 1 <= fanoutBits <= 32
    ensures r == DirAppend(dir, depth, fanoutBits, i, kid)
  {
    if depth == 0 {
      if i != 0 { return Err(Internal); }
      return Ok((Commit([kid]), 1));
    }
    var root, level := dir, depth;
    if i > Capacity(depth, fanoutBits) { return Err(Internal); }
    if i == Capacity(depth, fanoutBits) { root, level := Commit([dir]), depth + 1; }
    var digits, ok := PathDigits(i, level, fanoutBits);
    if !ok { return Err(Internal); }
    var newDir :- DirSet(root, RouteOf(digits), kid);
    return Ok((newDir, level));
  }

  /** The first ri rows lie in windows before w and the others do not. */
  ghost predicate Consumed(rows: seq<Row>, ri: nat, w: nat, segBits: nat) {
    && ri <= |rows|
    && (forall i | 0 <= i < ri :: Ord(rows[i].slot, segBits) < w)
    && (forall i | ri <= i < |rows| :: Ord(rows[i].slot, segBits) >= w)
  }

  /** The next rows of the batch that fall in window w are all of its rows there. */
  method GatherBatch(resolved: seq<Row>, from: nat, w: nat, segBits: nat) returns (batch: seq<Row>, ri: nat)
    requires WellFormedRows(resolved) && Consumed(resolved, from, w, segBits)
    ensures batch == InWindow(resolved, w, segBits) && Consumed(resolved, ri, w + 1, segBits)
  {
    batch, ri := [], from;
    while ri < |resolved| && Ord(resolved[ri].slot, segBits) == w
      invariant from <= ri <= |resolved| && batch == resolved[from..ri]
      invariant forall i | from <= i < ri :: Ord(resolved[i].slot, segBits) == w
    {
      batch := batch + [resolved[ri]];
      ri := ri + 1;
    }
    forall i | ri <= i < |resolved| ensures Ord(resolved[i].slot, segBits) > w {
      OrdMonotone(resolved[ri].slot, resolved[i].slot, segBits);
    }
    MiddleIsWindow(resolved, from, ri, w, segBits);
  }

  lemma {:induction false} MiddleIsWindow(rows: seq<Row>, lo: nat, hi: nat, w: nat, segBits: nat)
    requires lo <= hi <= |rows|
    requires forall i | 0 <= i < lo :: Ord(rows[i].slot, segBits) != w
    requires forall i | lo <= i < hi :: Ord(rows[i].slot, segBits) == w
    requires forall i | hi <= i < |rows| :: Ord(rows[i].slot, segBits) != w
    ensures InWindow(rows, w, segBits) == rows[lo..hi]
  {
    var a, b, c := rows[..lo], rows[lo..hi], rows[hi..];
    assert rows == a + b + c;
    InWindowAppend(a + b, c, w, segBits);
    InWindowAppend(a, b, w, segBits);
    InWindowNone(a, w, segBits);
    InWindowAll(b, w, segBits);
    InWindowNone(c, w, segBits);
  }

  /** Rows of later windows do not disturb what is sealed. */
  lemma {:induction false} SealedByMore(p: Params, rows: seq<Row>, more: seq<Row>, e: seq<Cid>, w: nat)
    requires SealedBy(p, rows, e) && w == Base(p) + |e|
    requires forall i | 0 <= i < |more| :: Ord(more[i].slot, p.segBits) >= w
    ensures SealedBy(p, rows + more, e)
  {
    forall i | 0 <= i < |e| ensures e[i] == SealedEntry(p, rows + more, Base(p) + i) {
      InWindowAppend(rows, more, Base(p) + i, p.segBits);
      InWindowNone(more, Base(p) + i, p.segBits);
      assert InWindow(rows, Base(p) + i, p.segBits) + [] == InWindow(rows, Base(p) + i, p.segBits);
    }
  }

  /** A window that coverage has not passed the end of is the last one. */
  lemma {:induction false} UnsealedIsLast(p: Params, newSynced: nat, w: nat)
    requires p.segBits <= 63 && newSynced < MAX_UINT64
    requires w <= Ord(newSynced, p.segBits) && newSynced < WindowEnd(w, p.segBits)
    ensures w == Ord(newSynced, p.segBits) == OpenWindow(p, newSynced)
  {
    var w1 := Ord(newSynced, p.segBits);
    OpenWindowStep(p, newSynced);
    WindowOfSlot(newSynced, p.segBits);
    EarlierWindow(w, w1, p.segBits);
  }

  /** What the window loop has built when it reaches window w: everything below
      the open window is sealed, and the open segment holds that window's rows. */
  ghost predicate Built(p: Params, rows: seq<Row>, dir: Cid, depth: nat, e: seq<Cid>, w: nat)
    requires UsableParams(p)
  {
    && w == Base(p) + |e| && SealedBy(p, rows, e)
    && DirOf(FanoutOf(p), dir, depth, e) && WriterOrNone(dir, depth)
  }

  lemma {:induction false} BuiltNext(p: Params, rows: seq<Row>, dir: Cid, depth: nat, e: seq<Cid>, w: nat)
    returns (dir': Cid, depth': nat, e': seq<Cid>)
    requires UsableParams(p) && Built(p, rows, dir, depth, e, w) && w <= MAX_INT64
    ensures SealWindow(p, dir, depth, w, InWindow(rows, w, p.segBits)) == Ok((dir', depth'))
    ensures Built(p, rows, dir', depth', e', w + 1)
  {
    dir', depth', e' := SealExtends(p, rows, dir, depth, w, e);
  }

  /** seal: the open segment becomes the directory's entry for window w, null
      when it is empty, and an empty segment opens over window w + 1. */
  method Seal(p: Params, dir: Cid, depth: nat, open: Block, w: nat, ghost rows: seq<Row>, ghost e: seq<Cid>)
    returns (dir': Cid, depth': nat, open': Block, ghost e': seq<Cid>)
    requires UsableParams(p) && w <= MAX_INT64 && open == SegmentOf(p, rows, w)
    requires Built(p, rows, dir, depth, e, w)
    ensures Built(p, rows, dir', depth', e', w + 1)
    ensures open' == Segment(WindowStart(w + 1, p.segBits), [], Canonical)
  {
    ghost var d, l;
    d, l, e' := BuiltNext(p, rows, dir, depth, e, w);
    var sealed := if open.rows == [] then Undef else Link(open);
    var r := AppendEntry(dir, depth, p.fanoutBits, w - Base(p), sealed);
    dir', depth' := r.value.0, r.value.1;
    open' := Segment(WindowStart(w + 1, p.segBits), [], Canonical);
  }

  /** The window loop's invariant at window w of a batch that ends at newSynced:
      rows of earlier windows are placed, and past the last window the open
      segment is the one coverage up to newSynced requires. */
  ghost predicate Filled(p: Params, rows: seq<Row>, resolved: seq<Row>, newSynced: nat,
                         dir: Cid, depth: nat, open: Block, e: seq<Cid>, ri: nat, w: nat)
    requires UsableParams(p)
  {
    var last := Ord(newSynced, p.segBits);
    var openW := if w <= last then w else OpenWindow(p, newSynced);
    && w <= last + 1 && Consumed(resolved, ri, w, p.segBits)
    && Built(p, rows + resolved, dir, depth, e, openW)
    && open == SegmentOf(p, if w <= last then rows else rows + resolved, openW)
  }

  /** One turn of the window loop. */
  method FillWindow(p: Params, dir: Cid, depth: nat, open: Block, ri: nat, w: nat, resolved: seq<Row>, newSynced: nat,
                    ghost rows: seq<Row>, ghost e: seq<Cid>, ghost w0: nat)
    returns (dir': Cid, depth': nat, open': Block, ri': nat, ghost e': seq<Cid>)
    requires UsableParams(p) && Stores(p, rows + resolved, newSynced) && WellFormedRows(resolved)
    requires w0 <= w <= Ord(newSynced, p.segBits)
    requires forall i | 0 <= i < |rows| :: Ord(rows[i].slot, p.segBits) <= w0
    requires Filled(p, rows, resolved, newSynced, dir, depth, open, e, ri, w)
    ensures Filled(p, rows, resolved, newSynced, dir', depth', open', e', ri', w + 1)
  {
    var k := p.segBits;
    ghost var all := rows + resolved;
    var batch: seq<Row>;
    batch, ri' := GatherBatch(resolved, ri, w, k);
    InWindowAppend(rows, resolved, w, k);
    open' := if |batch| > 0 then Segment(open.slot0, open.rows + batch, Canonical) else open;
    assert open' == SegmentOf(p, all, w);
    OpenWindowStep(p, newSynced);
    if WindowEnd(w, k) <= newSynced {
      NextWindowEmpty(p, rows, resolved, newSynced, w0, w);
      dir', depth', open', e' := Seal(p, dir, depth, open', w, all, e);
    } else {
      UnsealedIsLast(p, newSynced, w);
      dir', depth', e' := dir, depth, e;
    }
  }

  method FillWindows(p: Params, dir0: Cid, depth0: nat, open0: Block, w0: nat, resolved: seq<Row>, newSynced: nat,
                     ghost rows: seq<Row>, ghost e0: seq<Cid>)
    returns (next: State)
    requires UsableParams(p) && Stores(p, rows + resolved, newSynced) && WellFormedRows(resolved)
    requires Built(p, rows, dir0, depth0, e0, w0) && w0 <= Ord(newSynced, p.segBits)
    requires open0 == SegmentOf(p, rows, w0)
    requires forall i | 0 <= i < |rows| :: Ord(rows[i].slot, p.segBits) <= w0
    requires forall i | 0 <= i < |resolved| :: Ord(resolved[i].slot, p.segBits) >= w0
    requires forall i | 0 <= i < |resolved| :: resolved[i].slot <= newSynced
    ensures Represents(next, rows + resolved) && next.params == p && next.synced == Some(newSynced)
  {
    var w1 := Ord(newSynced, p.segBits);
    var dir, depth, open, ri := dir0, depth0, open0, 0;
    ghost var e := e0;
    SealedByMore(p, rows, resolved, e0, w0);
    var w := w0;
    while w <= w1
      invariant w0 <= w <= w1 + 1
      invariant Filled(p, rows, resolved, newSynced, dir, depth, open, e, ri, w)
    {
      dir, depth, open, ri, e := FillWindow(p, dir, depth, open, ri, w, resolved, newSynced, rows, e, w0);
      w := w + 1;
    }
    EverythingConsumed(p, resolved, ri, newSynced);
    next := State(p, Some(newSynced), depth, dir, Link(open), Canonical);
    assert Encodes(next, rows + resolved, e);
  }

  /** When the window loop ends every row has been placed. */
  lemma {:induction false} EverythingConsumed(p: Params, resolved: seq<Row>, ri: nat, newSynced: nat)
    requires Consumed(resolved, ri, Ord(newSynced, p.segBits) + 1, p.segBits)
    requires forall i | 0 <= i < |resolved| :: resolved[i].slot <= newSynced
    ensures ri == |resolved|
  {
    if ri < |resolved| { OrdMonotone(resolved[ri].slot, newSynced, p.segBits); }
  }

  /** The window after one that was just sealed starts out without old rows. */
  lemma {:induction false} NextWindowEmpty(p: Params, rows: seq<Row>, resolved: seq<Row>, newSynced: nat, w0: nat,
                                           w: nat)
    requires p.segBits <= 63 && newSynced < MAX_UINT64 && w0 <= w <= Ord(newSynced, p.segBits)
    requires WindowEnd(w, p.segBits) <= newSynced
    requires forall i | 0 <= i < |rows| :: Ord(rows[i].slot, p.segBits) <= w0
    requires forall i | 0 <= i < |rows + resolved| :: (rows + resolved)[i].slot <= newSynced
    ensures SegmentOf(p, rows, w + 1) == Segment(WindowStart(w + 1, p.segBits), [], Canonical)
    ensures w == Ord(newSynced, p.segBits) ==>
              && OpenWindow(p, newSynced) == w + 1
              && SegmentOf(p, rows + resolved, w + 1) == Segment(WindowStart(w + 1, p.segBits), [], Canonical)
  {
    InWindowNone(rows, w + 1, p.segBits);
    OpenWindowStep(p, newSynced);
    if w == Ord(newSynced, p.segBits) { LaterWindowEmpty(rows + resolved, newSynced, w + 1, p.segBits); }
  }

  /* ---- Truncation ---- */

  /** truncate, step by step. */
  method TruncateState(st: State, slot: nat) returns (r: Result<State>)
    requires UsableParams(st.params)
    ensures r == Truncated(st, slot)
  {
    var p := st.params;
    if st.synced.None? || slot > st.synced.value || slot < p.originSlot { return Err(Conflict); }
    var t := Ord(slot, p.segBits);
    BaseBelowOpen(p, slot);
    var openW :- OpenOrd(st);
    var link := FindSegment(st, t);
    if link.Err? { return Err(link.fault); }
    var rows: seq<Row> := [];
    if link.value.Link? {
      var seg :- DecodeSegment(link.value);
      rows := CopyRowsUpTo(seg.rows, slot);
    }
    var cut := CutDirectory(st, t, openW);
    if cut.Err? { return Err(cut.fault); }
    r := Reopen(p, cut.value.0, cut.value.1, slot, rows);
  }

  method CutDirectory(st: State, t: nat, openW: nat) returns (r: Result<(Cid, nat)>)
    requires UsableParams(st.params) && Base(st.params) <= t
    ensures r == CutBelow(st, t, openW)
  {
    var n := t - Base(st.params);
    if t == openW { return Ok((st.dir, st.depth)); }
    if n == 0 { return Ok((Undef, 0)); }
    var digits, ok := PathDigits(n, st.depth, st.params.fanoutBits);
    if !ok || st.depth == 0 { return Err(Internal); }
    var cut :- DirTruncate(st.dir, RouteOf(digits));
    r := DirShrink(cut, st.depth);
  }

  method Reopen(p: Params, dir: Cid, depth: nat, slot: nat, rows: seq<Row>) returns (r: Result<State>)
    requires UsableParams(p) && p.originSlot <= slot
    ensures r == Reopened(p, dir, depth, slot, rows)
  {
    BaseBelowOpen(p, slot);
    var t := Ord(slot, p.segBits);
    var open, dir', depth' := Segment(WindowStart(t, p.segBits), rows, Canonical), dir, depth;
    if WindowEnd(t, p.segBits) <= slot {
      var sealed := AppendEntry(dir, depth, p.fanoutBits, t - Base(p), if rows == [] then Undef else Link(open));
      if sealed.Err? { return Err(sealed.fault); }
      dir', depth' := sealed.value.0, sealed.value.1;
      open := Segment(WindowStart(t + 1, p.segBits), [], Canonical);
    }
    return Ok(State(p, Some(slot), depth', dir', Link(open), Canonical));
  }

  /* ---- The engine ---- */

  /** The open segment is always the window synced_to + 1 falls in, so an apply
      resumes exactly where the open segment is. */
  lemma {:induction false} ResumesInOpenWindow(st: State, rows: seq<Row>)
    requires Represents(st, rows) && st.synced.Some?
    ensures OpenOrd(st) == Ok(OpenWindow(st.params, st.synced.value))
  {
    var e :| Encodes(st, rows, e);
    EncodesShaped(st, rows, e);
    ShapedRanges(st, e);
  }

  lemma {:induction false} ResolvedWellFormed(p: Params, cat: Catalog, batch: seq<RefRow>, newSynced: nat)
    requires ValidBatch(p, batch, newSynced) && AllHeld(cat, batch)
    ensures WellFormedRows(Resolved(cat, batch))
    ensures forall i | 0 <= i < |batch| :: Resolved(cat, batch)[i].slot == batch[i].slot
  {
    var rows := Resolved(cat, batch);
    assert forall i | 0 <= i < |batch| :: Resolves(cat, batch[i], rows[i]);
  }

  /** The rest of ApplyRefs: from the published state, or from nothing, over the
      windows of the batch to the next state. */
  method ExtendState(st: State, resolved: seq<Row>, newSynced: nat, ghost rows: seq<Row>) returns (next: State)
    requires Represents(st, rows) && Stores(st.params, rows + resolved, newSynced) && WellFormedRows(resolved)
    requires st.synced.Some? ==> st.synced.value < newSynced
    requires forall i | 0 <= i < |resolved| ::
        && st.params.originSlot <= resolved[i].slot <= newSynced
        && (st.synced.Some? ==> st.synced.value < resolved[i].slot)
    ensures Represents(next, rows + resolved)
    ensures next.params == st.params && next.synced == Some(newSynced)
  {
    var p := st.params;
    var startSlot := if st.synced.Some? then st.synced.value + 1 else p.originSlot;
    var w0 := Ord(startSlot, p.segBits);
    OrdMonotone(startSlot, newSynced, p.segBits);
    forall i | 0 <= i < |resolved| ensures Ord(resolved[i].slot, p.segBits) >= w0 {
      OrdMonotone(startSlot, resolved[i].slot, p.segBits);
    }
    ghost var e: seq<Cid> := [];
    var open := Segment(WindowStart(w0, p.segBits), [], Canonical);
    if st.synced.Some? {
      e :| Encodes(st, rows, e);
      ResumesInOpenWindow(st, rows);
      assert OpenOrd(st) == Ok(w0);
      forall i | 0 <= i < |rows| ensures Ord(rows[i].slot, p.segBits) <= w0 {
        OrdMonotone(rows[i].slot, startSlot, p.segBits);
      }
      open := st.open.block;
    }
    next := FillWindows(p, st.dir, st.depth, open, w0, resolved, newSynced, rows, e);
  }

  /** Whether every row of the batch is past the coverage. */
  method AllNew(synced: Option<nat>, batch: seq<RefRow>) returns (ok: bool)
    ensures ok <==> AllAfter(synced, batch)
  {
    if synced.Some? {
      for i := 0 to |batch|
        invariant forall j | 0 <= j < i :: batch[j].slot > synced.value
      {
        if batch[i].slot <= synced.value { return false; }
      }
    }
    return true;
  }

  /** ApplyRefs for a batch that advances coverage: refused as Applied says, or
      the next state and the rows it adds. */
  method Advance(st: State, catalog: Catalog, batch: seq<RefRow>, newSynced: nat, ghost rows: seq<Row>)
    returns (r: Result<State>, ghost more: seq<Row>)
    requires Represents(st, rows) && FromCatalog(catalog, rows)
    requires ValidBatch(st.params, batch, newSynced) && !IsReplay(st.synced, newSynced)
    ensures match Applied(st.params, catalog, Contents(rows, st.synced), batch, newSynced)
            case Err(f) => r == Err(f)
            case Ok(c) =>
              && r.Ok? && r.value.params == st.params && c == Contents(rows + more, r.value.synced)
              && Represents(r.value, rows + more) && FromCatalog(catalog, rows + more)
              && ReadsBatch(st, r.value, catalog, batch, newSynced)
  {
    more := [];
    var news := AllNew(st.synced, batch);
    if !news { return Err(Conflict), more; }
    var resolved := ResolveRows(catalog, batch);
    if resolved.Err? { return Err(resolved.fault), more; }
    if newSynced >= MAX_INT64 { return Err(Unencodable), more; }
    AppendedStores(st.params, catalog, Contents(rows, st.synced), batch, newSynced);
    ResolvedWellFormed(st.params, catalog, batch, newSynced);
    var next := ExtendState(st, resolved.value, newSynced, rows);
    ExtensionReads(st, rows, next, resolved.value, catalog, batch, newSynced);
    return Ok(next), resolved.value;
  }

  class Head {
    const params: Params
    const catalog: Catalog
    var cur: State
    ghost var rows: seq<Row>

    /** The published state is the canonical encoding of the rows. */
    ghost predicate Valid()
      reads this
    {
      cur.params == params && Represents(cur, rows) && FromCatalog(catalog, rows)
    }

    ghost function Abstract(): Contents
      reads this
    {
      Contents(rows, cur.synced)
    }

    constructor (params: Params, catalog: Catalog)
      requires UsableParams(params)
      ensures Valid() && this.params == params && this.catalog == catalog
      ensures Abstract() == EMPTY && cur == EmptyState(params)
    {
      this.params, this.catalog := params, catalog;
      cur, rows := EmptyState(params), [];
    }

    /** ApplyRefs does exactly what Applied says: a refusal leaves the state
        alone, a replay is a no-op, an extension appends the resolved rows. */
    method ApplyRefs(batch: seq<RefRow>, newSynced: nat) returns (r: Result<bool>)
      requires Valid()
      modifies this
      ensures Valid()
      ensures var outcome := Applied(params, catalog, old(Abstract()), batch, newSynced);
              match outcome
              case Err(f) => r == Err(f) && cur == old(cur) && rows == old(rows)
              case Ok(c) =>
                && r == Ok(IsReplay(old(cur.synced), newSynced)) && Abstract() == c
                && (r.value ==> cur == old(cur))
      ensures r == Ok(true) <==>
              && ValidBatch(params, batch, newSynced) && IsReplay(old(cur.synced), newSynced)
              && AllRead(old(cur), batch)
      ensures r == Ok(false) ==> ReadsBatch(old(cur), cur, catalog, batch, newSynced)
    {
      var ok := ValidateShape(params, batch, newSynced);
      if !ok { return Err(Conflict); }
      var last := if batch == [] then 0 else batch[|batch| - 1].slot;
      if cur.synced.Some? && newSynced <= cur.synced.value && last <= cur.synced.value {
        var replay := VerifyReplay(cur, batch, rows);
        if replay.Err? { return Err(replay.fault); }
        return Ok(true);
      }
      var next;
      ghost var more;
      next, more := Advance(cur, catalog, batch, newSynced, rows);
      if next.Err? { return Err(next.fault); }
      cur := next.value;
      rows := rows + more;
      return Ok(false);
    }

    /** Truncate does exactly what TruncatedTo says: readers see every slot up to
        the cut as before, and none after it. */
    method Truncate(slot: nat) returns (r: Result<()>)
      requires Valid()
      modifies this
      ensures Valid()
      ensures match TruncatedTo(params, old(Abstract()), slot)
              case Err(f) => r == Err(f) && cur == old(cur) && rows == old(rows)
              case Ok(c) => r == Ok(()) && Abstract() == c
      ensures r.Ok? <==> Covers(old(cur), slot)
      ensures r.Ok? ==> forall row: Row :: row in rows <==> row in old(rows) && row.slot <= slot
      ensures r.Ok? ==> ReadsUpTo(old(cur), cur, slot)
    {
      var next := TruncateState(cur, slot);
      if cur.synced.Some? && params.originSlot <= slot <= cur.synced.value {
        ghost var st := TruncatedRepresents(cur, rows, slot);
        UpToMembers(rows, slot);
        TruncationReads(cur, rows, slot, st);
        cur := next.value;
        rows := RowsUpTo(rows, slot);
        return Ok(());
      }
      return Err(Conflict);
    }

    /** TruncateToEmpty returns the root to the one New wrote. */
    method TruncateToEmpty()
      requires Valid()
      modifies this
      ensures Valid() && Abstract() == EMPTY && cur == EmptyState(params)
    {
      cur, rows := EmptyState(params), [];
    }
  }

  /** New: an empty head, or a refusal of its parameters. */
  method New(params: Params, catalog: Catalog) returns (r: Result<Head>)
    ensures r.Ok? <==> UsableParams(params)
    ensures r.Ok? ==> fresh(r.value) && r.value.Valid() && r.value.params == params && r.value.catalog == catalog
    ensures r.Ok? ==> r.value.Abstract() == EMPTY && r.value.cur == EmptyState(params)
  {
    if params.segBits > 63 || params.fanoutBits == 0 || params.fanoutBits > 32 { return Err(BadParams); }
    if params.originSlot > MAX_INT64 { return Err(Unencodable); }
    var h := new Head(params, catalog);
    return Ok(h);
  }

  /** BuildGeneration: a fresh head from one snapshot. */
  method BuildGeneration(params: Params, catalog: Catalog, snapshot: seq<RefRow>, synced: nat)
    returns (r: Result<Head>)
    ensures r.Ok? <==> UsableParams(params) && Applied(params, catalog, EMPTY, snapshot, synced).Ok?
    ensures r.Ok? ==> fresh(r.value) && r.value.Valid() && r.value.params == params && r.value.catalog == catalog
    ensures r.Ok? ==> Ok(r.value.Abstract()) == Applied(params, catalog, EMPTY, snapshot, synced)
  {
    var ok := ValidateShape(params, snapshot, synced);
    if !ok { return Err(Conflict); }
    var h := New(params, catalog);
    if h.Err? { return h; }
    var applied := h.value.ApplyRefs(snapshot, synced);
    if applied.Err? { return Err(applied.fault); }
    return h;
  }

  /** Two heads with the same parameters, rows and coverage have the same root,
      directory, depth and open segment. */
  lemma {:induction false} SameContentsSameRoot(a: Head, b: Head)
    requires a.Valid() && b.Valid() && a.params == b.params && a.Abstract() == b.Abstract()
    ensures a.cur == b.cur
  {
    RepresentsUnique(a.cur, b.cur, a.rows);
  }

  /** Runs any sequence of operations, ignoring refusals. */
  method Execute(h: Head, ops: seq<Op>)
    requires h.Valid()
    modifies h
    ensures h.Valid()
    ensures h.Abstract() == Run(h.params, h.catalog, old(h.Abstract()), ops, |ops|)
  {
    for i := 0 to |ops|
      invariant h.Valid() && h.Abstract() == Run(h.params, h.catalog, old(h.Abstract()), ops, i)
    {
      match ops[i]
      case Apply(batch, newSynced) => var _ := h.ApplyRefs(batch, newSynced);
      case TruncateTo(slot) => var _ := h.Truncate(slot);
      case TruncateAll => h.TruncateToEmpty();
    }
  }

  /** Canonical form. One head goes through any run of applies and truncations;
      another is made new and, if the run left coverage, given the surviving rows
      and that coverage in a single apply. Both end in the same state. */
  method RunThenRebuild(params: Params, catalog: Catalog, ops: seq<Op>, snapshot: seq<RefRow>)
    returns (h: Head, g: Head)
    requires UsableParams(params)
    requires snapshot == Snapshot(Run(params, catalog, EMPTY, ops, |ops|).rows)
    ensures fresh(h) && fresh(g) && h != g && h.Valid() && g.Valid()
    ensures h.Abstract() == Run(params, catalog, EMPTY, ops, |ops|)
    ensures h.cur.synced.None? ==> g.cur == EmptyState(params)
    ensures h.cur.synced.Some? ==> Ok(g.Abstract()) == Applied(params, catalog, EMPTY, snapshot, h.cur.synced.value)
    ensures g.cur == h.cur
  {
    ghost var c := FreshBuildReaches(params, catalog, ops);
    h := new Head(params, catalog);
    Execute(h, ops);
    if h.cur.synced.None? {
      g := new Head(params, catalog);
    } else {
      var built := BuildGeneration(params, catalog, snapshot, h.cur.synced.value);
      g := built.value;
    }
    SameContentsSameRoot(h, g);
  }
}
