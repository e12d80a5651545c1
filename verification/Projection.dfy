/** Projecting a head to an earlier slot, on every state of the right shape and
    not only on the states this writer encodes (archive/truncate.go as
    follow/equivalence.go uses it). */
module Projection {
  import opened Arith
  import opened Dag
  import opened Directory
  import opened Rows
  import opened HeadState

  /** rows can be the rows of a segment of window t. */
  ghost predicate RowsOfWindow(p: Params, rows: seq<Row>, t: nat) {
    SegmentAt(p, Link(Segment(WindowStart(t, p.segBits), rows, Canonical)), t)
  }

  lemma {:induction false} CutIsOfWindow(p: Params, rows: seq<Row>, t: nat, slot: nat)
    requires RowsOfWindow(p, rows, t)
    ensures RowsOfWindow(p, RowsUpTo(rows, slot), t)
  {
    ValidRowsIff(WindowStart(t, p.segBits), rows);
    var n := UpToIsPrefix(rows, slot);
    ValidRowsIff(WindowStart(t, p.segBits), rows[..n]);
  }

  lemma {:induction false} EmptyIsOfWindow(p: Params, t: nat)
    requires WindowStart(t, p.segBits) <= MAX_INT64
    ensures RowsOfWindow(p, [], t)
  {
  }

  /** What the vector holds for a window are rows of that window. */
  lemma {:induction false} RowsAtOfWindow(st: State, e: seq<Cid>, t: nat, n: nat)
    requires Shaped(st, e) && t == Base(st.params) + n && n <= |e|
    ensures RowsOfWindow(st.params, RowsAt(st.open, e, n), t)
  {
    var p, synced := st.params, st.synced.value;
    OpenWindowStep(p, synced);
    EarlierWindow(t, OpenWindow(p, synced), p.segBits);
    EmptyIsOfWindow(p, t);
  }

  /** The entry a sealed window takes. */
  function Entry(p: Params, rows: seq<Row>, t: nat): Cid {
    if rows == [] then Undef else Link(Segment(WindowStart(t, p.segBits), rows, Canonical))
  }

  /** Reopening inside a window keeps the directory. */
  lemma {:induction false} ReopenedOpen(p: Params, dir: Cid, depth: nat, slot: nat, rows: seq<Row>, e: seq<Cid>, t: nat)
    returns (next: State)
    requires UsableParams(p) && p.originSlot <= slot < MAX_INT64
    requires t == Base(p) + |e| && t == Ord(slot, p.segBits) && slot < WindowEnd(t, p.segBits)
    requires DirOf(FanoutOf(p), dir, depth, e) && EntriesAt(p, e) && RowsOfWindow(p, rows, t)
    ensures Reopened(p, dir, depth, slot, rows) == Ok(next)
    ensures next == State(p, Some(slot), depth, dir,
                          Link(Segment(WindowStart(t, p.segBits), rows, Canonical)), Canonical)
    ensures Shaped(next, e)
  {
    OpenWindowStep(p, slot);
    next := State(p, Some(slot), depth, dir, Link(Segment(WindowStart(t, p.segBits), rows, Canonical)), Canonical);
  }

  /** Reopening at the last slot of a window seals it. */
  lemma {:induction false} ReopenedSealed(p: Params, dir: Cid, depth: nat, slot: nat, rows: seq<Row>, e: seq<Cid>,
                                          t: nat)
    returns (next: State)
    requires UsableParams(p) && p.originSlot <= slot < MAX_INT64
    requires t == Base(p) + |e| && t == Ord(slot, p.segBits) && WindowEnd(t, p.segBits) <= slot
    requires DirOf(FanoutOf(p), dir, depth, e) && EntriesAt(p, e) && RowsOfWindow(p, rows, t)
    ensures Reopened(p, dir, depth, slot, rows) == Ok(next)
    ensures next.params == p && next.synced == Some(slot) && next.form == Canonical
    ensures DirAppend(dir, depth, p.fanoutBits, |e|, Entry(p, rows, t)) == Ok((next.dir, next.depth))
    ensures Shaped(next, e + [Entry(p, rows, t)])
  {
    var x, w := Entry(p, rows, t), t + 1;
    OpensNext(p, slot, t, w);
    EntryAt(p, rows, t, x);
    var dir', depth' := AppendExtends(dir, depth, p.fanoutBits, e, x);
    next := SealedState(p, dir', depth', slot, w);
    EntriesExtend(p, e, x, t);
    SealedShaped(p, dir', depth', slot, e + [x], w);
    ReopenedUnfolds(p, dir, depth, slot, rows, t, |e|, dir', depth');
  }

  lemma {:induction false} OpensNext(p: Params, slot: nat, t: nat, w: nat)
    requires UsableParams(p) && p.originSlot <= slot < MAX_INT64 && t == Ord(slot, p.segBits)
    requires WindowEnd(t, p.segBits) <= slot && w == t + 1
    ensures w == OpenWindow(p, slot) && t <= slot
  {
    OpenWindowStep(p, slot);
  }

  lemma {:induction false} EntryAt(p: Params, rows: seq<Row>, t: nat, x: Cid)
    requires RowsOfWindow(p, rows, t) && x == Entry(p, rows, t)
    ensures x.Link? ==> SegmentAt(p, x, t)
  {
  }

  lemma {:induction false} SealedShaped(p: Params, dir: Cid, depth: nat, slot: nat, e: seq<Cid>, w: nat)
    requires UsableParams(p) && p.originSlot <= slot < MAX_INT64 && w == OpenWindow(p, slot) && w == Base(p) + |e|
    requires DirOf(FanoutOf(p), dir, depth, e) && EntriesAt(p, e)
    ensures Shaped(SealedState(p, dir, depth, slot, w), e)
  {
    OpenWindowStep(p, slot);
    EmptyIsOfWindow(p, w);
  }

  /** Coverage ends with a window, so window w opens empty. */
  function SealedState(p: Params, dir: Cid, depth: nat, slot: nat, w: nat): State {
    State(p, Some(slot), depth, dir, Link(Segment(WindowStart(w, p.segBits), [], Canonical)), Canonical)
  }

  lemma {:induction false} ReopenedUnfolds(p: Params, dir: Cid, depth: nat, slot: nat, rows: seq<Row>, t: nat, n: nat,
                                           dir': Cid, depth': nat)
    requires UsableParams(p) && p.originSlot <= slot
    requires t == Base(p) + n && t == Ord(slot, p.segBits) && WindowEnd(t, p.segBits) <= slot
    requires DirAppend(dir, depth, p.fanoutBits, n, Entry(p, rows, t)) == Ok((dir', depth'))
    ensures Reopened(p, dir, depth, slot, rows) == Ok(SealedState(p, dir', depth', slot, t + 1))
  {
  }

  lemma {:induction false} EntriesExtend(p: Params, e: seq<Cid>, x: Cid, t: nat)
    requires EntriesAt(p, e) && t == Base(p) + |e| && (x.Link? ==> SegmentAt(p, x, t))
    ensures EntriesAt(p, e + [x])
  {
  }

  lemma {:induction false} EntriesPrefix(p: Params, e: seq<Cid>, n: nat)
    requires EntriesAt(p, e) && n <= |e|
    ensures EntriesAt(p, e[..n])
  {
  }

  /** What a truncation to slot keeps of a shaped state: rows of the cut's own
      window, and the directory below it. */
  ghost predicate Keeps(st: State, e: seq<Cid>, slot: nat, t: nat, n: nat, dir: Cid, depth: nat, rows: seq<Row>) {
    && Shaped(st, e) && st.params.originSlot <= slot <= st.synced.value
    && t == Ord(slot, st.params.segBits) && t == Base(st.params) + n && n <= |e|
    && CutBelow(st, t, Base(st.params) + |e|) == Ok((dir, depth))
    && DirOf(FanoutOf(st.params), dir, depth, e[..n]) && EntriesAt(st.params, e[..n])
    && rows == RowsUpTo(RowsAt(st.open, e, n), slot) && RowsOfWindow(st.params, rows, t)
    && Truncated(st, slot) == Reopened(st.params, dir, depth, slot, rows)
  }

  lemma {:induction false} TruncationKeeps(st: State, e: seq<Cid>, slot: nat, t: nat, n: nat)
    returns (dir: Cid, depth: nat, rows: seq<Row>)
    requires Shaped(st, e) && st.params.originSlot <= slot <= st.synced.value
    requires t == Ord(slot, st.params.segBits) && t == Base(st.params) + n
    ensures Keeps(st, e, slot, t, n, dir, depth, rows)
  {
    dir, depth := TruncatedParts(st, e, slot, t, n);
    rows := RowsUpTo(RowsAt(st.open, e, n), slot);
    EntriesPrefix(st.params, e, n);
    RowsAtOfWindow(st, e, t, n);
    CutIsOfWindow(st.params, RowsAt(st.open, e, n), t, slot);
  }

  /* ---- Cutting directories twice ---- */

  /** The directory of the first n of a directory's `total` entries. */
  function PrefixCut(f: nat, dir: Cid, depth: nat, total: nat, n: nat): Result<(Cid, nat)>
    requires f >= 2 && n <= total && (0 < n < total ==> depth >= 1)
  {
    if n == total then Ok((dir, depth)) else if n == 0 then Ok((Undef, 0)) else CutDir(f, dir, depth, n)
  }

  lemma {:induction false} CutBelowIs(st: State, e: seq<Cid>, t: nat, n: nat)
    requires Shaped(st, e) && t == Base(st.params) + n && n <= |e|
    ensures 0 < n < |e| ==> st.depth >= 1
    ensures CutBelow(st, t, Base(st.params) + |e|) == PrefixCut(FanoutOf(st.params), st.dir, st.depth, |e|, n)
  {
    ShapedRanges(st, e);
  }

  lemma {:induction false} PrefixCutTwice(f: nat, dir: Cid, depth: nat, e: seq<Cid>, m: nat, n: nat, dir1: Cid,
                                          depth1: nat)
    requires f >= 2 && DirOf(f, dir, depth, e) && n <= m <= |e| && (e != [] ==> depth >= 1)
    requires PrefixCut(f, dir, depth, |e|, m) == Ok((dir1, depth1))
    ensures 0 < n < m ==> depth1 >= 1
    ensures PrefixCut(f, dir1, depth1, m, n) == PrefixCut(f, dir, depth, |e|, n)
  {
    if 0 < n < m < |e| { CutTwice(f, dir, depth, e, m, n); }
  }

  lemma {:induction false} PrefixCutAppend(fanoutBits: nat, dir: Cid, depth: nat, e: seq<Cid>, m: nat, n: nat,
                                           dir1: Cid, depth1: nat, x: Cid, dir2: Cid, depth2: nat)
    requires 1 <= fanoutBits <= 32 && DirOf(Fanout(fanoutBits), dir, depth, e) && n <= m < |e| <= MAX_INT64
    requires depth >= 1 && PrefixCut(Fanout(fanoutBits), dir, depth, |e|, m) == Ok((dir1, depth1))
    requires DirOf(Fanout(fanoutBits), dir1, depth1, e[..m])
    requires DirAppend(dir1, depth1, fanoutBits, m, x) == Ok((dir2, depth2))
    ensures 0 < n ==> depth2 >= 1
    ensures PrefixCut(Fanout(fanoutBits), dir2, depth2, m + 1, n) == PrefixCut(Fanout(fanoutBits), dir, depth, |e|, n)
  {
    var f := Fanout(fanoutBits);
    if n == m && n > 0 {
      CutAppendCut(fanoutBits, dir, depth, e, n, x);
    } else if 0 < n < m {
      var d, l := CutAfterAppend(fanoutBits, dir1, depth1, e[..m], x, n);
      CutTwice(f, dir, depth, e, m, n);
    }
  }

  /* ---- Projections compose ---- */

  lemma {:induction false} RowsAtPrefix(open: Cid, open': Cid, e: seq<Cid>, e': seq<Cid>, n: nat)
    requires n < |e| && n < |e'| && e[n] == e'[n]
    ensures RowsAt(open', e', n) == RowsAt(open, e, n)
  {
  }

  lemma {:induction false} RowsCutTwice(p: Params, rows: seq<Row>, t: nat, s1: nat, s2: nat)
    requires RowsOfWindow(p, rows, t) && s2 <= s1
    ensures RowsUpTo(RowsUpTo(rows, s1), s2) == RowsUpTo(rows, s2)
  {
    ValidRowsIff(WindowStart(t, p.segBits), rows);
    UpToTwice(rows, s1, s2);
  }

  /** The second projection after one that stopped inside a window. */
  lemma {:induction false} ComposeOpen(st: State, e: seq<Cid>, s1: nat, t1: nat, n1: nat,
                                       dir1: Cid, depth1: nat, rows1: seq<Row>, mid: State,
                                       s2: nat, t2: nat, n2: nat)
    requires Keeps(st, e, s1, t1, n1, dir1, depth1, rows1)
    requires mid == State(st.params, Some(s1), depth1, dir1,
                          Link(Segment(WindowStart(t1, st.params.segBits), rows1, Canonical)), Canonical)
    requires Shaped(mid, e[..n1]) && st.params.originSlot <= s2 <= s1
    requires t2 == Ord(s2, st.params.segBits) && t2 == Base(st.params) + n2
    ensures Truncated(mid, s2) == Truncated(st, s2)
  {
    var p, e1 := st.params, e[..n1];
    var dir2, depth2, rows2 := TruncationKeeps(st, e, s2, t2, n2);
    var dir3, depth3, rows3 := TruncationKeeps(mid, e1, s2, t2, n2);
    ShapedRanges(st, e);
    CutBelowIs(st, e, t1, n1);
    CutBelowIs(st, e, t2, n2);
    CutBelowIs(mid, e1, t2, n2);
    PrefixCutTwice(FanoutOf(p), st.dir, st.depth, e, n1, n2, dir1, depth1);
    if n2 < n1 {
      RowsAtPrefix(st.open, mid.open, e, e1, n2);
    } else {
      RowsAtOfWindow(st, e, t1, n1);
      RowsCutTwice(p, RowsAt(st.open, e, n1), t1, s1, s2);
    }
  }

  /** The second projection after one that sealed its last window. */
  lemma {:induction false} ComposeSealed(st: State, e: seq<Cid>, s1: nat, t1: nat, n1: nat,
                                         dir1: Cid, depth1: nat, rows1: seq<Row>, mid: State,
                                         s2: nat, t2: nat, n2: nat)
    requires Keeps(st, e, s1, t1, n1, dir1, depth1, rows1) && n1 < |e|
    requires mid.params == st.params && mid.synced == Some(s1)
    requires DirAppend(dir1, depth1, st.params.fanoutBits, n1, Entry(st.params, rows1, t1)) == Ok((mid.dir, mid.depth))
    requires Shaped(mid, e[..n1] + [Entry(st.params, rows1, t1)]) && st.params.originSlot <= s2 <= s1
    requires t2 == Ord(s2, st.params.segBits) && t2 == Base(st.params) + n2 && n2 <= n1
    ensures Truncated(mid, s2) == Truncated(st, s2)
  {
    var p, x := st.params, Entry(st.params, rows1, t1);
    var e1 := e[..n1] + [x];
    var dir2, depth2, rows2 := TruncationKeeps(st, e, s2, t2, n2);
    var dir3, depth3, rows3 := TruncationKeeps(mid, e1, s2, t2, n2);
    ShapedRanges(st, e);
    CutBelowIs(st, e, t1, n1);
    CutBelowIs(st, e, t2, n2);
    CutBelowIs(mid, e1, t2, n2);
    PrefixCutAppend(p.fanoutBits, st.dir, st.depth, e, n1, n2, dir1, depth1, x, mid.dir, mid.depth);
    if n2 < n1 {
      RowsAtPrefix(st.open, mid.open, e, e1, n2);
    } else {
      RowsAtOfWindow(st, e, t1, n1);
      RowsCutTwice(p, RowsAt(st.open, e, n1), t1, s1, s2);
      assert RowsAt(mid.open, e1, n1) == rows1;
    }
  }

  /** A window that a projection seals lies below the open one. */
  lemma {:induction false} SealedBelowOpen(st: State, e: seq<Cid>, slot: nat, t: nat, n: nat)
    requires Shaped(st, e) && slot <= st.synced.value && t == Ord(slot, st.params.segBits) && t == Base(st.params) + n
    requires WindowEnd(t, st.params.segBits) <= slot
    ensures n < |e|
  {
    var p, synced := st.params, st.synced.value;
    OpenWindowStep(p, slot);
    OrdMonotone(slot + 1, synced + 1, p.segBits);
  }

  /** Projecting to s1 and then to s2 <= s1 is projecting to s2, and the
      projection of a shaped state is shaped. */
  lemma {:induction false} ProjectionsCompose(st: State, e: seq<Cid>, s1: nat, s2: nat)
    returns (mid: State, e1: seq<Cid>)
    requires Shaped(st, e) && st.params.originSlot <= s2 <= s1 <= st.synced.value
    ensures Truncated(st, s1) == Ok(mid) && Shaped(mid, e1)
    ensures mid.params == st.params && mid.synced == Some(s1) && mid.form == Canonical
    ensures Truncated(mid, s2) == Truncated(st, s2)
  {
    var p := st.params;
    var t1, t2 := Ord(s1, p.segBits), Ord(s2, p.segBits);
    BaseBelowOpen(p, s1);
    BaseBelowOpen(p, s2);
    OrdMonotone(s2, s1, p.segBits);
    var n1, n2 := t1 - Base(p), t2 - Base(p);
    var dir1, depth1, rows1 := TruncationKeeps(st, e, s1, t1, n1);
    if WindowEnd(t1, p.segBits) <= s1 {
      SealedBelowOpen(st, e, s1, t1, n1);
      mid := ReopenedSealed(p, dir1, depth1, s1, rows1, e[..n1], t1);
      e1 := e[..n1] + [Entry(p, rows1, t1)];
      ComposeSealed(st, e, s1, t1, n1, dir1, depth1, rows1, mid, s2, t2, n2);
    } else {
      mid := ReopenedOpen(p, dir1, depth1, s1, rows1, e[..n1], t1);
      e1 := e[..n1];
      ComposeOpen(st, e, s1, t1, n1, dir1, depth1, rows1, mid, s2, t2, n2);
    }
  }
}
