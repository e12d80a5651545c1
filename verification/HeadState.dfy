/** One immutable version of a head, what it stores, and the projection of a
    head to an earlier slot (archive/archive.go, archive/lookup.go,
    archive/truncate.go). */
module HeadState {
  import opened Arith
  import opened Dag
  import opened Directory
  import opened Rows

  datatype Params = Params(name: string, net: string, originSlot: nat, segBits: nat, fanoutBits: nat)

  /** A published state. Its root is the CID of the Head block it encodes to, so
      two states have the same root exactly when they are equal; form is the
      encoding of that Head block. */
  datatype State = State(params: Params, synced: Option<nat>, depth: nat, dir: Cid, open: Cid, form: Form)

  /** The ranges New and Load insist on. */
  predicate UsableParams(p: Params) {
    p.originSlot <= MAX_INT64 && p.segBits <= 63 && 1 <= p.fanoutBits <= 32
  }

  /** dirBase: the ordinal of the head's first window. */
  function Base(p: Params): nat {
    Ord(p.originSlot, p.segBits)
  }

  /** The window synced_to + 1 falls in: the one window that is open. */
  function OpenWindow(p: Params, synced: nat): nat {
    Ord(synced + 1, p.segBits)
  }

  function FanoutOf(p: Params): (f: nat)
    requires UsableParams(p)
    ensures f >= 2
  {
    Fanout(p.fanoutBits)
  }

  /** The state New publishes. */
  function EmptyState(p: Params): State {
    State(p, None, 0, Undef, Undef, Canonical)
  }

  /* ---- What a writer's state stores ---- */

  /** rows is a legal content for coverage [origin, synced]. */
  ghost predicate Stores(p: Params, rows: seq<Row>, synced: nat) {
    && p.originSlot <= synced < MAX_INT64
    && WellFormedRows(rows)
    && forall i | 0 <= i < |rows| :: p.originSlot <= rows[i].slot <= synced
  }

  function SegmentOf(p: Params, rows: seq<Row>, w: nat): Block {
    Segment(WindowStart(w, p.segBits), InWindow(rows, w, p.segBits), Canonical)
  }

  /** What window w seals to: its segment, or null when it has no rows. */
  function SealedEntry(p: Params, rows: seq<Row>, w: nat): Cid {
    if InWindow(rows, w, p.segBits) == [] then Undef else Link(SegmentOf(p, rows, w))
  }

  /** e lists what the windows from the head's first one on seal to. */
  ghost predicate SealedBy(p: Params, rows: seq<Row>, e: seq<Cid>) {
    forall i | 0 <= i < |e| :: e[i] == SealedEntry(p, rows, Base(p) + i)
  }

  /** The state is the one canonical encoding of rows under its coverage: every
      window below the open one is sealed in order, the open window is the one
      synced_to + 1 falls in, and the directory has its least depth. */
  ghost predicate Represents(st: State, rows: seq<Row>) {
    && UsableParams(st.params) && st.form == Canonical
    && match st.synced
       case None => rows == [] && st == EmptyState(st.params)
       case Some(synced) => Stores(st.params, rows, synced) && exists e :: Encodes(st, rows, e)
  }

  ghost predicate Encodes(st: State, rows: seq<Row>, e: seq<Cid>) {
    && UsableParams(st.params) && st.synced.Some?
    && Base(st.params) + |e| == OpenWindow(st.params, st.synced.value)
    && SealedBy(st.params, rows, e)
    && st.open == Link(SegmentOf(st.params, rows, OpenWindow(st.params, st.synced.value)))
    && DirOf(FanoutOf(st.params), st.dir, st.depth, e)
    && WriterOrNone(st.dir, st.depth)
  }

  /** Canonicity: the rows and the coverage determine the root. */
  lemma {:induction false} RepresentsUnique(a: State, b: State, rows: seq<Row>)
    requires Represents(a, rows) && Represents(b, rows)
    requires a.params == b.params && a.synced == b.synced
    ensures a == b
  {
    if a.synced.Some? {
      var e :| Encodes(a, rows, e);
      var e' :| Encodes(b, rows, e');
      assert e == e';
      DirUnique(FanoutOf(a.params), a.dir, a.depth, b.dir, b.depth, e);
    }
  }

  lemma {:induction false} DirUnique(f: nat, dir: Cid, depth: nat, dir': Cid, depth': nat, e: seq<Cid>)
    requires f >= 2 && DirOf(f, dir, depth, e) && DirOf(f, dir', depth', e)
    requires WriterOrNone(dir, depth) && WriterOrNone(dir', depth')
    ensures dir == dir' && depth == depth'
  {
    if e != [] {
      LeastDepthUnique(f, |e|, depth, depth');
      TreeUnique(f, dir, dir', e, depth);
    }
  }

  /* ---- Windows in range ---- */

  /** The next slot is in the same window, or begins the next one. */
  lemma {:induction false} NextOrdinal(k: nat, slot: nat, next: nat, w: nat, after: nat)
    requires k <= 63 && next == slot + 1 <= MAX_UINT64 && w == Ord(slot, k) && after == w + 1
    ensures Ord(next, k) == if WindowEnd(w, k) <= slot then after else w
  {
    WindowOfSlot(slot, k);
    WindowShifts(w, k);
    WindowBounds(w, next, k);
    if WindowEnd(w, k) <= slot {
      NextWindowInRange(w, k);
      WindowOfSlot(next, k);
      WindowShifts(after, k);
      StartIsInWindow(after, k);
    }
  }

  /** After synced_to, the open window is the same when synced_to is inside its
      window and the next one when it closes it. */
  lemma {:induction false} OpenWindowStep(p: Params, synced: nat)
    requires p.segBits <= 63 && synced < MAX_UINT64
    ensures Ord(synced, p.segBits) <= synced <= WindowEnd(Ord(synced, p.segBits), p.segBits)
    ensures OpenWindow(p, synced) ==
            Ord(synced, p.segBits) + (if WindowEnd(Ord(synced, p.segBits), p.segBits) <= synced then 1 else 0)
    ensures Addressable(OpenWindow(p, synced), p.segBits)
    ensures OpenWindow(p, synced) <= WindowStart(OpenWindow(p, synced), p.segBits) <= synced + 1
  {
    var k := p.segBits;
    var t := Ord(synced, k);
    WindowOfSlot(synced, k);
    WindowOfSlot(synced + 1, k);
    WindowShifts(t, k);
    WindowShifts(OpenWindow(p, synced), k);
    NextOrdinal(k, synced, synced + 1, t, t + 1);
  }

  /** Every segment a writer's state names decodes. */
  lemma {:induction false} SegmentDecodes(p: Params, rows: seq<Row>, synced: nat, w: nat)
    requires UsableParams(p) && Stores(p, rows, synced) && w <= OpenWindow(p, synced)
    ensures Addressable(w, p.segBits)
    ensures DecodeSegment(Link(SegmentOf(p, rows, w))) == Ok(SegmentOf(p, rows, w))
    ensures Ord(SegmentOf(p, rows, w).slot0, p.segBits) == w
  {
    var k := p.segBits;
    OpenWindowStep(p, synced);
    EarlierWindow(w, OpenWindow(p, synced), k);
    StartIsInWindow(w, k);
    InWindowRows(rows, w, k);
    var mine := InWindow(rows, w, k);
    forall i | 0 <= i < |mine| ensures WindowStart(w, k) <= mine[i].slot <= synced {
      assert mine[i] in mine;
      WindowBounds(w, mine[i].slot, k);
    }
    ValidRowsIff(WindowStart(w, k), mine);
  }

  lemma {:induction false} BaseBelowOpen(p: Params, synced: nat)
    requires p.originSlot <= synced
    ensures Base(p) <= Ord(synced, p.segBits) <= OpenWindow(p, synced)
  {
    OrdMonotone(p.originSlot, synced, p.segBits);
    OrdMonotone(synced, synced + 1, p.segBits);
  }

  /* ---- Reading a state ---- */

  /** openOrd: the window of the open segment, read off its first slot. */
  function OpenOrd(st: State): Result<nat> {
    var seg :- DecodeSegment(st.open);
    Ok(Ord(seg.slot0, st.params.segBits))
  }

  /** sealedSegment: the directory's entry for window w; Undef when there is
      none, or when the index does not fit the tree. */
  function SealedSegment(st: State, w: nat): Result<Cid>
    requires UsableParams(st.params)
  {
    var base := Base(st.params);
    if st.depth == 0 || w < base then Ok(Undef)
    else if st.depth > 64 || w - base >= Span(FanoutOf(st.params), st.depth) then Ok(Undef)
    else Walk(st.dir, RouteTo(FanoutOf(st.params), w - base, st.depth))
  }

  /** segmentFor: the segment of window w, open or sealed. */
  function SegmentFor(st: State, w: nat): Result<Cid>
    requires UsableParams(st.params)
  {
    if st.synced.None? then Ok(Undef) else
      var openW :- OpenOrd(st);
      if w == openW then Ok(st.open) else SealedSegment(st, w)
  }

  /** The rows stored for window w. */
  function WindowRows(st: State, w: nat): Result<seq<Row>>
    requires UsableParams(st.params)
  {
    var c :- SegmentFor(st, w);
    if c.Undef? then Ok([]) else
      var seg :- DecodeSegment(c);
      Ok(seg.rows)
  }

  /* ---- Projection: truncate ---- */

  /** The directory that keeps only the windows below t. */
  function CutBelow(st: State, t: nat, openW: nat): Result<(Cid, nat)>
    requires UsableParams(st.params)
  {
    if t == openW then Ok((st.dir, st.depth))
    else if t <= Base(st.params) then Ok((Undef, 0))
    else
      var n := t - Base(st.params);
      if st.depth == 0 || st.depth > 64 || n >= Span(FanoutOf(st.params), st.depth) then Err(Internal)
      else CutDir(FanoutOf(st.params), st.dir, st.depth, n)
  }

  /** seal: the window's segment becomes directory entry t - base, null when it
      has no rows. */
  function SealWindow(p: Params, dir: Cid, depth: nat, t: nat, rows: seq<Row>): Result<(Cid, nat)>
    requires UsableParams(p) && Base(p) <= t
  {
    DirAppend(dir, depth, p.fanoutBits, t - Base(p),
              if rows == [] then Undef else Link(Segment(WindowStart(t, p.segBits), rows, Canonical)))
  }

  /** Publish coverage up to slot, whose window t holds rows: the window stays
      open, or is sealed when slot is its last. */
  function Reopened(p: Params, dir: Cid, depth: nat, slot: nat, rows: seq<Row>): Result<State>
    requires UsableParams(p) && p.originSlot <= slot
  {
    BaseBelowOpen(p, slot);
    var t := Ord(slot, p.segBits);
    if WindowEnd(t, p.segBits) <= slot then
      var (dir', depth') :- SealWindow(p, dir, depth, t, rows);
      Ok(State(p, Some(slot), depth', dir', Link(Segment(WindowStart(t + 1, p.segBits), [], Canonical)), Canonical))
    else
      Ok(State(p, Some(slot), depth, dir, Link(Segment(WindowStart(t, p.segBits), rows, Canonical)), Canonical))
  }

  /** truncate: the head restored to coverage [origin, slot]. */
  function Truncated(st: State, slot: nat): Result<State>
    requires UsableParams(st.params)
  {
    if st.synced.None? || slot > st.synced.value || slot < st.params.originSlot then Err(Conflict) else
      var t := Ord(slot, st.params.segBits);
      var openW :- OpenOrd(st);
      var rows :- WindowRows(st, t);
      var (dir, depth) :- CutBelow(st, t, openW);
      Reopened(st.params, dir, depth, slot, RowsUpTo(rows, slot))
  }

  /* ---- States of the right shape, whoever encoded them ---- */

  /** The state has the geometry its coverage requires: e is the vector of its
      sealed entries, one for each window below the open one. */
  ghost predicate Shaped(st: State, e: seq<Cid>) {
    && UsableParams(st.params) && st.synced.Some?
    && var p, synced := st.params, st.synced.value;
       && p.originSlot <= synced < MAX_INT64
       && Base(p) + |e| == OpenWindow(p, synced)
       && DirOf(FanoutOf(p), st.dir, st.depth, e)
       && SegmentAt(p, st.open, OpenWindow(p, synced))
       && EntriesAt(p, e)
  }

  ghost predicate EntriesAt(p: Params, e: seq<Cid>) {
    forall i | 0 <= i < |e| && e[i].Link? :: SegmentAt(p, e[i], Base(p) + i)
  }

  /** The link leads to a segment of window w, with rows of that window. */
  ghost predicate SegmentAt(p: Params, c: Cid, w: nat) {
    && DecodeSegment(c).Ok?
    && c.block.slot0 == WindowStart(w, p.segBits)
    && forall i | 0 <= i < |c.block.rows| :: Ord(c.block.rows[i].slot, p.segBits) == w
  }

  /** The rows of window w according to the vector of entries. */
  function RowsAt(open: Cid, e: seq<Cid>, i: nat): seq<Row> {
    var c := if i == |e| then open else At(e, i);
    if c.Link? && c.block.Segment? then c.block.rows else []
  }

  lemma {:induction false} ShapedRanges(st: State, e: seq<Cid>)
    requires Shaped(st, e)
    ensures |e| <= MAX_INT64
    ensures OpenOrd(st) == Ok(Base(st.params) + |e|)
    ensures e != [] ==> 1 <= st.depth <= 63 && |e| <= Span(FanoutOf(st.params), st.depth)
  {
    var p, synced := st.params, st.synced.value;
    var openW := OpenWindow(p, synced);
    OpenWindowStep(p, synced);
    StartIsInWindow(openW, p.segBits);
    if e != [] { LeastDepthFits(p.fanoutBits, |e|, st.depth); }
  }

  /** Reading any window of a shaped state reads its vector. */
  lemma {:induction false} ShapedReads(st: State, e: seq<Cid>, w: nat, i: nat)
    requires Shaped(st, e) && w == Base(st.params) + i && i <= |e|
    ensures SegmentFor(st, w) == Ok(if i == |e| then st.open else e[i])
    ensures WindowRows(st, w) == Ok(RowsAt(st.open, e, i))
  {
    ShapedRanges(st, e);
    if i < |e| {
      WalkReads(FanoutOf(st.params), st.dir, e, st.depth, i);
      assert At(e, i) == e[i];
    }
  }

  /** Cutting a shaped state's directory keeps the windows below t. */
  lemma {:induction false} ShapedCut(st: State, e: seq<Cid>, t: nat, n: nat) returns (dir: Cid, depth: nat)
    requires Shaped(st, e) && t == Base(st.params) + n && n <= |e|
    ensures CutBelow(st, t, Base(st.params) + |e|) == Ok((dir, depth))
    ensures DirOf(FanoutOf(st.params), dir, depth, e[..n])
    ensures WriterOrNone(st.dir, st.depth) ==> WriterOrNone(dir, depth)
  {
    ShapedRanges(st, e);
    if n == |e| {
      dir, depth := st.dir, st.depth;
      assert e[..n] == e;
    } else if n == 0 {
      dir, depth := Undef, 0;
    } else {
      CutDirKeepsPrefix(FanoutOf(st.params), st.dir, st.depth, e, n);
      dir := CutDir(FanoutOf(st.params), st.dir, st.depth, n).value.0;
      depth := CutDir(FanoutOf(st.params), st.dir, st.depth, n).value.1;
    }
  }

  /** The parts of a truncation: what it reads and what it keeps. */
  lemma {:induction false} TruncatedParts(st: State, e: seq<Cid>, slot: nat, t: nat, n: nat)
    returns (dir: Cid, depth: nat)
    requires Shaped(st, e) && st.params.originSlot <= slot <= st.synced.value
    requires t == Ord(slot, st.params.segBits) && t == Base(st.params) + n
    ensures n <= |e|
    ensures CutBelow(st, t, Base(st.params) + |e|) == Ok((dir, depth))
    ensures DirOf(FanoutOf(st.params), dir, depth, e[..n])
    ensures WriterOrNone(st.dir, st.depth) ==> WriterOrNone(dir, depth)
    ensures Truncated(st, slot) == Reopened(st.params, dir, depth, slot, RowsUpTo(RowsAt(st.open, e, n), slot))
  {
    OrdMonotone(slot, st.synced.value + 1, st.params.segBits);
    ShapedRanges(st, e);
    ShapedReads(st, e, t, n);
    dir, depth := ShapedCut(st, e, t, n);
  }

  /* ---- Truncation of a writer's state ---- */

  lemma {:induction false} SegmentOfAt(p: Params, rows: seq<Row>, synced: nat, w: nat)
    requires UsableParams(p) && Stores(p, rows, synced) && w <= OpenWindow(p, synced)
    ensures SegmentAt(p, Link(SegmentOf(p, rows, w)), w)
  {
    SegmentDecodes(p, rows, synced, w);
    InWindowRows(rows, w, p.segBits);
    var mine := InWindow(rows, w, p.segBits);
    assert forall i | 0 <= i < |mine| :: mine[i] in mine;
  }

  lemma {:induction false} EncodesShaped(st: State, rows: seq<Row>, e: seq<Cid>)
    requires Encodes(st, rows, e) && Stores(st.params, rows, st.synced.value)
    ensures Shaped(st, e)
  {
    var p, synced := st.params, st.synced.value;
    forall i | 0 <= i < |e| && e[i].Link? ensures SegmentAt(p, e[i], Base(p) + i) {
      SegmentOfAt(p, rows, synced, Base(p) + i);
    }
    SegmentOfAt(p, rows, synced, OpenWindow(p, synced));
  }

  /** The rows a writer's vector holds for a window are that window's rows. */
  lemma {:induction false} RowsAtSealed(p: Params, rows: seq<Row>, open: Cid, w: nat, e: seq<Cid>, t: nat, n: nat)
    requires SealedBy(p, rows, e) && open == Link(SegmentOf(p, rows, w)) && w == Base(p) + |e|
    requires n <= |e| && t == Base(p) + n
    ensures RowsAt(open, e, n) == InWindow(rows, t, p.segBits)
  {
  }

  lemma {:induction false} SealWindowAppends(p: Params, rows: seq<Row>, dir: Cid, depth: nat, t: nat)
    requires UsableParams(p) && Base(p) <= t
    ensures SealWindow(p, dir, depth, t, InWindow(rows, t, p.segBits)) ==
            DirAppend(dir, depth, p.fanoutBits, t - Base(p), SealedEntry(p, rows, t))
  {
  }

  lemma {:induction false} SealedByStep(p: Params, rows: seq<Row>, e: seq<Cid>, t: nat)
    requires SealedBy(p, rows, e) && Base(p) + |e| == t
    ensures SealedBy(p, rows, e + [SealedEntry(p, rows, t)])
  {
  }

  /** Sealing window t extends the sealed entries by exactly that window. */
  lemma {:induction false} SealExtends(p: Params, rows: seq<Row>, dir: Cid, depth: nat, t: nat, e: seq<Cid>)
    returns (dir': Cid, depth': nat, e': seq<Cid>)
    requires UsableParams(p) && Base(p) + |e| == t <= MAX_INT64
    requires SealedBy(p, rows, e)
    requires DirOf(FanoutOf(p), dir, depth, e) && WriterOrNone(dir, depth)
    ensures SealWindow(p, dir, depth, t, InWindow(rows, t, p.segBits)) == Ok((dir', depth'))
    ensures |e'| == |e| + 1 && SealedBy(p, rows, e')
    ensures DirOf(FanoutOf(p), dir', depth', e') && WriterOrNone(dir', depth')
  {
    var x := SealedEntry(p, rows, t);
    SealedByStep(p, rows, e, t);
    SealWindowAppends(p, rows, dir, depth, t);
    dir', depth' := AppendExtends(dir, depth, p.fanoutBits, e, x);
    e' := e + [x];
  }

  /** Publishing coverage up to slot over the right directory and open rows is
      the canonical state of those rows. */
  lemma {:induction false} ReopenedRepresents(p: Params, dir: Cid, depth: nat, slot: nat, rows: seq<Row>, e: seq<Cid>,
                                              t: nat)
    returns (next: State)
    requires UsableParams(p) && Stores(p, rows, slot) && t == Base(p) + |e| && t == Ord(slot, p.segBits)
    requires SealedBy(p, rows, e)
    requires DirOf(FanoutOf(p), dir, depth, e) && WriterOrNone(dir, depth)
    ensures Reopened(p, dir, depth, slot, InWindow(rows, t, p.segBits)) == Ok(next)
    ensures Represents(next, rows) && next.params == p && next.synced == Some(slot)
  {
    OpenWindowStep(p, slot);
    if WindowEnd(t, p.segBits) <= slot {
      next := ReopenedClosed(p, dir, depth, slot, rows, e, t);
    } else {
      next := State(p, Some(slot), depth, dir, Link(SegmentOf(p, rows, t)), Canonical);
      assert Encodes(next, rows, e);
    }
  }

  /** The case where slot is the last of its window: the window is sealed and
      the next one opened empty. */
  lemma {:induction false} ReopenedClosed(p: Params, dir: Cid, depth: nat, slot: nat, rows: seq<Row>, e: seq<Cid>,
                                          t: nat)
    returns (next: State)
    requires UsableParams(p) && Stores(p, rows, slot) && t == Base(p) + |e| && t == Ord(slot, p.segBits)
    requires SealedBy(p, rows, e) && WindowEnd(t, p.segBits) <= slot
    requires DirOf(FanoutOf(p), dir, depth, e) && WriterOrNone(dir, depth)
    ensures Reopened(p, dir, depth, slot, InWindow(rows, t, p.segBits)) == Ok(next)
    ensures Represents(next, rows) && next.params == p && next.synced == Some(slot)
  {
    OpenWindowStep(p, slot);
    var dir', depth', e' := SealExtends(p, rows, dir, depth, t, e);
    LaterWindowEmpty(rows, slot, t + 1, p.segBits);
    next := State(p, Some(slot), depth', dir', Link(SegmentOf(p, rows, t + 1)), Canonical);
    assert Encodes(next, rows, e');
  }

  lemma {:induction false} LaterWindowEmpty(rows: seq<Row>, slot: nat, w: nat, segBits: nat)
    requires forall i | 0 <= i < |rows| :: rows[i].slot <= slot
    requires w > Ord(slot, segBits)
    ensures InWindow(rows, w, segBits) == []
  {
    forall i | 0 <= i < |rows| ensures Ord(rows[i].slot, segBits) != w {
      OrdMonotone(rows[i].slot, slot, segBits);
    }
    InWindowNone(rows, w, segBits);
  }

  lemma {:induction false} UpToStores(p: Params, rows: seq<Row>, synced: nat, slot: nat)
    requires Stores(p, rows, synced) && p.originSlot <= slot <= synced
    ensures Stores(p, RowsUpTo(rows, slot), slot)
  {
    var n := UpToIsPrefix(rows, slot);
  }

  /** The rows a truncation keeps of the cut's own window. */
  lemma {:induction false} CutRows(p: Params, rows: seq<Row>, open: Cid, w: nat, e: seq<Cid>,
                                   slot: nat, t: nat, n: nat)
    requires SealedBy(p, rows, e) && open == Link(SegmentOf(p, rows, w)) && w == Base(p) + |e|
    requires WellFormedRows(rows) && t == Ord(slot, p.segBits) && n <= |e| && t == Base(p) + n
    ensures RowsUpTo(RowsAt(open, e, n), slot) == InWindow(RowsUpTo(rows, slot), t, p.segBits)
  {
    RowsAtSealed(p, rows, open, w, e, t, n);
    InWindowUpTo(rows, slot, t, p.segBits);
  }

  /** The sealed entries below the cut are the same for the surviving rows. */
  lemma {:induction false} SealedUpTo(p: Params, rows: seq<Row>, slot: nat, e: seq<Cid>, n: nat)
    requires WellFormedRows(rows) && n <= |e| && Base(p) + n <= Ord(slot, p.segBits)
    requires SealedBy(p, rows, e)
    ensures SealedBy(p, RowsUpTo(rows, slot), e[..n])
  {
    var kept := RowsUpTo(rows, slot);
    forall i | 0 <= i < n ensures e[i] == SealedEntry(p, kept, Base(p) + i) {
      InWindowUpTo(rows, slot, Base(p) + i, p.segBits);
    }
  }

  /** What a truncation of a writer's state keeps. */
  lemma {:induction false} TruncatedContents(st: State, rows: seq<Row>, e: seq<Cid>, slot: nat, t: nat, n: nat)
    returns (dir: Cid, depth: nat)
    requires Shaped(st, e) && Encodes(st, rows, e) && WellFormedRows(rows)
    requires st.params.originSlot <= slot <= st.synced.value
    requires t == Ord(slot, st.params.segBits) && t == Base(st.params) + n
    ensures n <= |e| && SealedBy(st.params, RowsUpTo(rows, slot), e[..n])
    ensures DirOf(FanoutOf(st.params), dir, depth, e[..n]) && WriterOrNone(dir, depth)
    ensures Truncated(st, slot) ==
            Reopened(st.params, dir, depth, slot, InWindow(RowsUpTo(rows, slot), t, st.params.segBits))
  {
    dir, depth := TruncatedParts(st, e, slot, t, n);
    SealedUpTo(st.params, rows, slot, e, n);
    CutRows(st.params, rows, st.open, OpenWindow(st.params, st.synced.value), e, slot, t, n);
  }

  /** Truncation is canonical: the state it yields is the one canonical state of
      the rows at or before slot. */
  lemma {:induction false} TruncatedRepresents(st: State, rows: seq<Row>, slot: nat) returns (next: State)
    requires Represents(st, rows) && st.synced.Some? && st.params.originSlot <= slot <= st.synced.value
    ensures Truncated(st, slot) == Ok(next)
    ensures Represents(next, RowsUpTo(rows, slot))
    ensures next.params == st.params && next.synced == Some(slot)
  {
    var e :| Encodes(st, rows, e);
    EncodesShaped(st, rows, e);
    var t := Ord(slot, st.params.segBits);
    BaseBelowOpen(st.params, slot);
    var n := t - Base(st.params);
    var dir, depth := TruncatedContents(st, rows, e, slot, t, n);
    UpToStores(st.params, rows, st.synced.value, slot);
    next := ReopenedRepresents(st.params, dir, depth, slot, RowsUpTo(rows, slot), e[..n], t);
  }

  /** Truncating to synced_to is the identity. */
  lemma {:induction false} TruncateToSyncedIsIdentity(st: State, rows: seq<Row>)
    requires Represents(st, rows) && st.synced.Some?
    ensures Truncated(st, st.synced.value) == Ok(st)
  {
    var next := TruncatedRepresents(st, rows, st.synced.value);
    UpToAll(rows, st.synced.value);
    RepresentsUnique(next, st, rows);
  }
}
