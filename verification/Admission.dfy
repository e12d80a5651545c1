/** Which roots a node admits, and what admission guarantees
    (archive/archive.go, archive/enumerate.go). */
module Admission {
  import opened Arith
  import opened Dag
  import opened Directory
  import opened Rows
  import opened HeadState
  import opened Geometry
  import opened Enumerate

  /** What DecodeHead and loadState insist on. */
  ghost predicate Loadable(st: State) {
    && UsableParams(st.params) && !st.form.Foreign?
    && (st.depth == 0 <==> st.dir.Undef?)
    && (st.synced.Some? ==> st.params.originSlot <= st.synced.value <= MAX_INT64)
    && (st.synced.Some? <==> st.open.Link?)
    && (st.dir.Link? ==> IndexCid(st.dir)) && (st.open.Link? ==> IndexCid(st.open))
    && GoodGeometry(st)
  }

  /** What Enumerate accepts: the open segment and every page and segment of the
      directory are where coverage puts them. */
  ghost predicate Admitted(st: State) {
    && Loadable(st)
    && (st.synced.Some? ==>
          var p, openW := st.params, OpenWindow(st.params, st.synced.value);
          && SegmentOk(p, st.open, openW, st.synced.value, true)
          && (st.depth > 0 ==> Placed(p, st.dir, st.depth, 0, openW - Base(p))))
  }

  /* ---- Well-placed segments ---- */

  lemma {:induction false} SegmentOkAt(p: Params, c: Cid, w: nat, upper: nat, open: bool)
    requires p.segBits <= 63 && Addressable(w, p.segBits) && upper <= WindowEnd(w, p.segBits)
    requires SegmentOk(p, c, w, upper, open)
    ensures SegmentAt(p, c, w)
  {
    var rows := c.block.rows;
    ValidRowsIff(c.block.slot0, rows);
    WindowShifts(w, p.segBits);
    forall i | 0 <= i < |rows| ensures Ord(rows[i].slot, p.segBits) == w {
      WindowBounds(w, rows[i].slot, p.segBits);
    }
  }

  lemma {:induction false} EntriesOkAt(p: Params, e: seq<Cid>, openW: nat)
    requires p.segBits <= 63 && Addressable(openW, p.segBits) && openW == Base(p) + |e| && EntriesOk(p, e, 0)
    ensures EntriesAt(p, e)
  {
    forall i | 0 <= i < |e| && e[i].Link? ensures SegmentAt(p, e[i], Base(p) + i) {
      EarlierWindow(Base(p) + i, openW, p.segBits);
      assert Base(p) + 0 + i == Base(p) + i;
      SegmentOkAt(p, e[i], Base(p) + i, WindowEnd(Base(p) + i, p.segBits), false);
    }
  }

  /** Coverage up to MaxInt64 ends with a window, and the next one starts at a
      slot that no segment can encode. */
  lemma {:induction false} LastEncodableWindow(p: Params)
    requires p.segBits <= 63
    ensures WindowStart(OpenWindow(p, MAX_INT64), p.segBits) > MAX_INT64
  {
    var k := p.segBits;
    var w := Pow2(63 - k);
    Pow2At64();
    Pow2Adds(63 - k, k);
    OffsetIsProduct(w, Pow2(k));
    WindowShifts(w, k);
    StartIsInWindow(w, k);
  }

  /** Admission makes a covered state shaped: its directory is the vector of its
      sealed windows, whoever built it. */
  lemma {:induction false} AdmittedShaped(st: State) returns (e: seq<Cid>)
    requires Admitted(st) && st.synced.Some?
    ensures Shaped(st, e) && EntriesOk(st.params, e, 0)
  {
    e := AdmittedVector(st, OpenWindow(st.params, st.synced.value) - Base(st.params));
    ShapedFrom(st, e);
  }

  lemma {:induction false} ShapedFrom(st: State, e: seq<Cid>)
    requires Admitted(st) && st.synced.Some? && Base(st.params) + |e| == OpenWindow(st.params, st.synced.value)
    requires DirOf(FanoutOf(st.params), st.dir, st.depth, e) && EntriesOk(st.params, e, 0)
    ensures Shaped(st, e)
  {
    var p, synced := st.params, st.synced.value;
    var openW := OpenWindow(p, synced);
    if synced == MAX_INT64 { LastEncodableWindow(p); }
    OpenWindowStep(p, synced);
    WindowOfSlot(synced + 1, p.segBits);
    SegmentOkAt(p, st.open, openW, synced, true);
    EntriesOkAt(p, e, openW);
  }

  lemma {:induction false} AdmittedVector(st: State, n: nat) returns (e: seq<Cid>)
    requires Admitted(st) && st.synced.Some? && n == OpenWindow(st.params, st.synced.value) - Base(st.params)
    ensures |e| == n && DirOf(FanoutOf(st.params), st.dir, st.depth, e) && EntriesOk(st.params, e, 0)
  {
    e := [];
    if n > 0 {
      CanonicalDepthIsLeast(n, st.params.fanoutBits);
      e := PlacedHolds(st.params, st.dir, st.depth, 0, n);
    }
  }

  /* ---- What the walk reports ---- */

  datatype SealedSegment = SealedSegment(cid: Cid, ord: nat, firstSlot: nat, lastSlot: nat)

  function Report(p: Params, c: Cid, w: nat): SealedSegment {
    SealedSegment(c, w, WindowStart(w, p.segBits), WindowEnd(w, p.segBits))
  }

  /** The non-null ones of the first m entries of e, the entries from position
      off of the directory on. */
  function Listing(p: Params, e: seq<Cid>, off: nat, m: nat): seq<SealedSegment>
    requires m <= |e|
  {
    if m == 0 then []
    else if e[m - 1].Link? then Listing(p, e, off, m - 1) + [Report(p, e[m - 1], Base(p) + off + m - 1)]
    else Listing(p, e, off, m - 1)
  }

  lemma {:induction false} ListingPrefix(p: Params, a: seq<Cid>, b: seq<Cid>, off: nat, m: nat)
    requires m <= |a| && m <= |b| && forall i | 0 <= i < m :: a[i] == b[i]
    ensures Listing(p, a, off, m) == Listing(p, b, off, m)
  {
    if m > 0 { ListingPrefix(p, a, b, off, m - 1); }
  }

  lemma {:induction false} ListingAppend(p: Params, a: seq<Cid>, b: seq<Cid>, off: nat, mid: nat, m: nat)
    requires m <= |b| && mid == off + |a|
    ensures Listing(p, a + b, off, |a| + m) == Listing(p, a, off, |a|) + Listing(p, b, mid, m)
  {
    if m == 0 {
      ListingPrefix(p, a + b, a, off, |a|);
    } else {
      ListingAppend(p, a, b, off, mid, m - 1);
      assert (a + b)[|a| + m - 1] == b[m - 1];
      assert Base(p) + off + (|a| + m) - 1 == Base(p) + mid + m - 1;
    }
  }

  lemma {:induction false} ListingNull(p: Params, e: seq<Cid>, off: nat, m: nat)
    requires m <= |e|
    ensures Listing(p, e, off, m) == [] <==> forall i | 0 <= i < m :: e[i].Undef?
  {
    if m > 0 { ListingNull(p, e, off, m - 1); }
  }

  /** The listing names exactly the non-null entries, in strictly ascending order. */
  lemma {:induction false} ListingExact(p: Params, e: seq<Cid>, off: nat, m: nat)
    requires m <= |e|
    ensures forall i | 0 <= i < m && e[i].Link? :: Report(p, e[i], Base(p) + off + i) in Listing(p, e, off, m)
    ensures forall s | s in Listing(p, e, off, m) ::
              && Base(p) + off <= s.ord < Base(p) + off + m
              && e[s.ord - Base(p) - off].Link? && s == Report(p, e[s.ord - Base(p) - off], s.ord)
    ensures forall i, j | 0 <= i < j < |Listing(p, e, off, m)| ::
            Listing(p, e, off, m)[i].ord < Listing(p, e, off, m)[j].ord
  {
    if m > 0 {
      ListingExact(p, e, off, m - 1);
      var prev := Listing(p, e, off, m - 1);
      assert forall i | 0 <= i < |prev| :: prev[i] in prev;
    }
  }

  /** Admission is sound. On every admitted state, whoever built it, the walk's
      report lists a segment for a window exactly when the arithmetic lookup
      finds that segment there; it ascends strictly and names no segment twice. */
  lemma {:induction false} ReportMatchesLookup(st: State, e: seq<Cid>, w: nat)
    requires Shaped(st, e) && EntriesOk(st.params, e, 0)
    requires Base(st.params) <= w < OpenWindow(st.params, st.synced.value)
    ensures SegmentFor(st, w).Ok?
    ensures forall s: SealedSegment :: s.ord == w ==>
              (s in Listing(st.params, e, 0, |e|) <==>
               s.cid.Link? && SegmentFor(st, w) == Ok(s.cid) && s == Report(st.params, s.cid, w))
  {
    var p, list, i := st.params, Listing(st.params, e, 0, |e|), w - Base(st.params);
    ShapedReads(st, e, w, i);
    ListingExact(p, e, 0, |e|);
    forall s: SealedSegment | s.ord == w
      ensures s in list <==> s.cid.Link? && SegmentFor(st, w) == Ok(s.cid) && s == Report(p, s.cid, w)
    {
      assert Base(p) + 0 + i == w;
    }
  }

  /** No two windows of a head have the same segment: neither two sealed ones,
      nor a sealed one and the open one. */
  lemma {:induction false} NoSegmentTwice(st: State, e: seq<Cid>)
    requires Shaped(st, e)
    ensures forall i, j | 0 <= i < j < |e| && e[i].Link? && e[j].Link? :: e[i] != e[j]
    ensures forall i | 0 <= i < |e| && e[i].Link? :: e[i] != st.open
  {
    forall i, j | 0 <= i < j < |e| && e[i].Link? && e[j].Link? ensures e[i] != e[j] { SealedDiffer(st, e, i, j); }
    forall i | 0 <= i < |e| && e[i].Link? ensures e[i] != st.open { OpenDiffers(st, e, i); }
  }

  /** A segment belongs to one window only: its first slot says which. */
  lemma {:induction false} WindowOfSegment(p: Params, c: Cid, v: nat, w: nat)
    requires p.segBits <= 63 && v <= w && Addressable(w, p.segBits) && SegmentAt(p, c, v) && SegmentAt(p, c, w)
    ensures v == w
  {
    EarlierWindow(v, w, p.segBits);
    SameStart(p, v, w);
  }

  lemma {:induction false} SealedDiffer(st: State, e: seq<Cid>, i: nat, j: nat)
    requires Shaped(st, e) && i < j < |e| && e[i].Link? && e[j].Link?
    ensures e[i] != e[j]
  {
    var p, v, w := st.params, Base(st.params) + i, Base(st.params) + j;
    OpenWindowStep(p, st.synced.value);
    EarlierWindow(w, OpenWindow(p, st.synced.value), p.segBits);
    if e[i] == e[j] { WindowOfSegment(p, e[i], v, w); }
  }

  lemma {:induction false} OpenDiffers(st: State, e: seq<Cid>, i: nat)
    requires Shaped(st, e) && i < |e| && e[i].Link?
    ensures e[i] != st.open
  {
    var p, v, w := st.params, Base(st.params) + i, OpenWindow(st.params, st.synced.value);
    OpenWindowStep(p, st.synced.value);
    if e[i] == st.open { WindowOfSegment(p, e[i], v, w); }
  }

  /* ---- What admission means, window by window ---- */

  /** Rows of window w within the coverage, with links that blobs have. */
  ghost predicate RowsSound(p: Params, rows: seq<Row>, w: nat, synced: nat) {
    && WellFormedRows(rows)
    && forall i | 0 <= i < |rows| ::
         && Ord(rows[i].slot, p.segBits) == w && p.originSlot <= rows[i].slot <= synced
         && forall j | 0 <= j < |rows[i].entries| :: rows[i].entries[j].blob.rawSha256
  }

  /** What a reader finds in the window is sound, and a sealed segment has rows. */
  ghost predicate WindowSound(st: State, w: nat)
    requires UsableParams(st.params) && st.synced.Some?
  {
    && SegmentFor(st, w).Ok? && WindowRows(st, w).Ok?
    && var c, rows := SegmentFor(st, w).value, WindowRows(st, w).value;
       && RowsSound(st.params, rows, w, st.synced.value)
       && (c.Link? ==> IndexCid(c))
       && (c.Link? && w < OpenWindow(st.params, st.synced.value) ==> rows != [])
  }

  lemma {:induction false} OkIsSound(p: Params, c: Cid, w: nat, upper: nat, synced: nat, open: bool)
    requires p.segBits <= 63 && Addressable(w, p.segBits) && upper <= WindowEnd(w, p.segBits) && upper <= synced
    requires SegmentOk(p, c, w, upper, open)
    ensures RowsSound(p, c.block.rows, w, synced) && IndexCid(c) && (!open ==> c.block.rows != [])
  {
    SegmentOkAt(p, c, w, upper, open);
    ValidRowsIff(c.block.slot0, c.block.rows);
  }

  lemma {:induction false} SoundIsOk(p: Params, c: Cid, w: nat, upper: nat, synced: nat, open: bool)
    requires p.segBits <= 63 && Addressable(w, p.segBits)
    requires SegmentAt(p, c, w) && IndexCid(c) && RowsSound(p, c.block.rows, w, synced)
    requires upper == if open then synced else WindowEnd(w, p.segBits)
    requires open || c.block.rows != []
    ensures SegmentOk(p, c, w, upper, open)
  {
    var rows := c.block.rows;
    ValidRowsIff(c.block.slot0, rows);
    if rows != [] { WindowBounds(w, rows[|rows| - 1].slot, p.segBits); }
  }

  ghost predicate WindowsSound(st: State)
    requires UsableParams(st.params) && st.synced.Some?
  {
    forall w: nat | Base(st.params) <= w <= OpenWindow(st.params, st.synced.value) :: WindowSound(st, w)
  }

  lemma {:induction false} AdmittedWindow(st: State, e: seq<Cid>, w: nat, i: nat)
    requires Admitted(st) && st.synced.Some? && Shaped(st, e) && EntriesOk(st.params, e, 0)
    requires w == Base(st.params) + i && i <= |e|
    ensures WindowSound(st, w)
  {
    if i == |e| { OpenSound(st, e, w); } else { SealedSound(st, e, w, i); }
  }

  lemma {:induction false} OpenSound(st: State, e: seq<Cid>, w: nat)
    requires Admitted(st) && st.synced.Some? && Shaped(st, e) && w == Base(st.params) + |e|
    ensures WindowSound(st, w)
  {
    ShapedReads(st, e, w, |e|);
    OpenRowsSound(st.params, st.open, w, st.synced.value);
  }

  lemma {:induction false} OpenRowsSound(p: Params, c: Cid, w: nat, synced: nat)
    requires p.segBits <= 63 && synced < MAX_UINT64 && w == OpenWindow(p, synced) && SegmentOk(p, c, w, synced, true)
    ensures RowsSound(p, c.block.rows, w, synced) && IndexCid(c)
  {
    OpenWindowStep(p, synced);
    WindowOfSlot(synced + 1, p.segBits);
    OkIsSound(p, c, w, synced, synced, true);
  }

  lemma {:induction false} SealedSound(st: State, e: seq<Cid>, w: nat, i: nat)
    requires Shaped(st, e) && EntriesOk(st.params, e, 0) && w == Base(st.params) + i && i < |e|
    ensures WindowSound(st, w)
  {
    ShapedReads(st, e, w, i);
    if e[i].Link? {
      assert Base(st.params) + 0 + i == w;
      SealedRowsSound(st.params, e[i], w, st.synced.value);
    }
  }

  lemma {:induction false} SealedRowsSound(p: Params, c: Cid, w: nat, synced: nat)
    requires p.segBits <= 63 && synced < MAX_UINT64 && w < OpenWindow(p, synced)
    requires SegmentOk(p, c, w, WindowEnd(w, p.segBits), false)
    ensures RowsSound(p, c.block.rows, w, synced) && IndexCid(c) && c.block.rows != []
  {
    OpenWindowStep(p, synced);
    EarlierWindow(w, OpenWindow(p, synced), p.segBits);
    SealedEndsEarlier(p, synced, w);
    OkIsSound(p, c, w, WindowEnd(w, p.segBits), synced, false);
  }

  lemma {:induction false} SealedEndsEarlier(p: Params, synced: nat, w: nat)
    requires p.segBits <= 63 && synced < MAX_UINT64 && w < OpenWindow(p, synced)
    ensures WindowEnd(w, p.segBits) <= synced
  {
    var k, openW := p.segBits, OpenWindow(p, synced);
    OpenWindowStep(p, synced);
    EarlierWindow(w, openW, k);
    WindowShifts(w, k);
    WindowShifts(openW, k);
    OffsetMonotone(w + 1, openW, Pow2(k));
  }

  /** Admission of a covered head, said without the checks: it loads, it is
      shaped, its pages are index pages, and every window a reader can ask for is
      sound. */
  lemma {:induction false} AdmittedIff(st: State)
    requires UsableParams(st.params) && st.synced.Some?
    ensures Admitted(st) <==>
            && Loadable(st) && (st.depth > 0 ==> IndexPages(st.dir, st.depth))
            && WindowsSound(st) && exists e :: Shaped(st, e)
  {
    if Admitted(st) { AdmittedIsSound(st); }
    if e :| Shaped(st, e) && Loadable(st) && WindowsSound(st) && (st.depth > 0 ==> IndexPages(st.dir, st.depth)) {
      SoundIsAdmitted(st, e);
    }
  }

  lemma {:induction false} AdmittedIsSound(st: State)
    requires Admitted(st) && st.synced.Some?
    ensures (st.depth > 0 ==> IndexPages(st.dir, st.depth)) && WindowsSound(st) && exists e :: Shaped(st, e)
  {
    var e := AdmittedShaped(st);
    var p, openW := st.params, OpenWindow(st.params, st.synced.value);
    forall w: nat | Base(p) <= w <= openW ensures WindowSound(st, w) { AdmittedWindow(st, e, w, w - Base(p)); }
    if st.depth > 0 { PlacedIndexed(p, st.dir, st.depth, 0, openW - Base(p)); }
  }

  lemma {:induction false} SoundIsAdmitted(st: State, e: seq<Cid>)
    requires Shaped(st, e) && Loadable(st) && WindowsSound(st) && (st.depth > 0 ==> IndexPages(st.dir, st.depth))
    ensures Admitted(st)
  {
    var p, synced := st.params, st.synced.value;
    var openW := OpenWindow(p, synced);
    OpenWindowStep(p, synced);
    ShapedReads(st, e, openW, |e|);
    assert WindowSound(st, openW);
    SoundIsOk(p, st.open, openW, synced, synced, true);
    SoundEntries(st, e);
    if st.depth > 0 { IndexedPlaced(p, st.dir, st.depth, 0, e); }
  }

  lemma {:induction false} SoundEntries(st: State, e: seq<Cid>)
    requires Shaped(st, e) && WindowsSound(st)
    ensures EntriesOk(st.params, e, 0)
  {
    var p := st.params;
    forall i | 0 <= i < |e| && e[i].Link?
      ensures SegmentOk(p, e[i], Base(p) + 0 + i, WindowEnd(Base(p) + 0 + i, p.segBits), false)
    {
      SoundEntry(st, e, i, Base(p) + i);
    }
  }

  lemma {:induction false} SoundEntry(st: State, e: seq<Cid>, i: nat, w: nat)
    requires Shaped(st, e) && WindowsSound(st) && i < |e| && e[i].Link? && w == Base(st.params) + i
    ensures SegmentOk(st.params, e[i], w, WindowEnd(w, st.params.segBits), false)
  {
    var p, openW := st.params, OpenWindow(st.params, st.synced.value);
    OpenWindowStep(p, st.synced.value);
    EarlierWindow(w, openW, p.segBits);
    ShapedReads(st, e, w, i);
    assert WindowSound(st, w);
    SoundIsOk(p, e[i], w, WindowEnd(w, p.segBits), st.synced.value, false);
  }

  /* ---- Admission is complete for the writer ---- */

  lemma {:induction false} SegmentOfOk(p: Params, rows: seq<Row>, synced: nat, w: nat, upper: nat, open: bool)
    requires UsableParams(p) && Stores(p, rows, synced) && GoodBlobs(rows) && w <= OpenWindow(p, synced)
    requires open || InWindow(rows, w, p.segBits) != []
    requires upper == if open then synced else WindowEnd(w, p.segBits)
    ensures SegmentOk(p, Link(SegmentOf(p, rows, w)), w, upper, open)
  {
    var mine := InWindow(rows, w, p.segBits);
    SegmentDecodes(p, rows, synced, w);
    InWindowRows(rows, w, p.segBits);
    ValidRowsIff(WindowStart(w, p.segBits), mine);
    forall i | 0 <= i < |mine|
      ensures p.originSlot <= mine[i].slot <= upper
      ensures forall j | 0 <= j < |mine[i].entries| :: mine[i].entries[j].blob.rawSha256
    {
      assert mine[i] in rows;
      WindowBounds(w, mine[i].slot, p.segBits);
    }
  }

  /** Every state the mutators reach with at most 2^20 sealed windows and
      well-formed blob links is admitted. */
  lemma {:induction false} WriterAdmitted(st: State, rows: seq<Row>)
    requires Represents(st, rows) && GoodBlobs(rows)
    requires st.synced.Some? ==>
               OpenWindow(st.params, st.synced.value) - Base(st.params) <= MAX_ENUMERATION_OUTPUTS
    ensures Admitted(st)
  {
    if st.synced.Some? {
      var p, synced := st.params, st.synced.value;
      var e: seq<Cid> :| Encodes(st, rows, e);
      SegmentOfOk(p, rows, synced, OpenWindow(p, synced), synced, true);
      WriterEntriesOk(p, rows, synced, e);
      WriterDirectory(st, e);
    }
  }

  lemma {:induction false} WriterEntriesOk(p: Params, rows: seq<Row>, synced: nat, e: seq<Cid>)
    requires UsableParams(p) && Stores(p, rows, synced) && GoodBlobs(rows)
    requires SealedBy(p, rows, e) && Base(p) + |e| == OpenWindow(p, synced)
    ensures EntriesOk(p, e, 0)
  {
    forall i | 0 <= i < |e| && e[i].Link?
      ensures SegmentOk(p, e[i], Base(p) + 0 + i, WindowEnd(Base(p) + 0 + i, p.segBits), false)
    {
      SealedIsOk(p, rows, synced, e[i], Base(p) + i);
    }
  }

  lemma {:induction false} SealedIsOk(p: Params, rows: seq<Row>, synced: nat, c: Cid, w: nat)
    requires UsableParams(p) && Stores(p, rows, synced) && GoodBlobs(rows) && w <= OpenWindow(p, synced)
    requires c == SealedEntry(p, rows, w) && c.Link?
    ensures SegmentOk(p, c, w, WindowEnd(w, p.segBits), false)
  {
    SegmentOfOk(p, rows, synced, w, WindowEnd(w, p.segBits), false);
  }

  lemma {:induction false} WriterDirectory(st: State, e: seq<Cid>)
    requires UsableParams(st.params) && DirOf(FanoutOf(st.params), st.dir, st.depth, e)
    requires WriterOrNone(st.dir, st.depth) && EntriesOk(st.params, e, 0)
    ensures st.depth == CanonicalDepth(|e|, st.params.fanoutBits)
    ensures st.depth == 0 <==> st.dir.Undef?
    ensures st.dir.Link? ==> IndexCid(st.dir) && Placed(st.params, st.dir, st.depth, 0, |e|)
  {
    if e != [] {
      CanonicalDepthIsLeast(|e|, st.params.fanoutBits);
      LeastDepthUnique(FanoutOf(st.params), |e|, st.depth, CanonicalDepth(|e|, st.params.fanoutBits));
      WriterPlaced(st.params, st.dir, st.depth, 0, e);
    }
  }
}
