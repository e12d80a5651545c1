/** What a reader sees of a projection: on every well-shaped state, whoever
    encoded it, cutting back forgets the later slots and nothing else. */
module Readers {
  import opened Arith
  import opened Dag
  import opened Rows
  import opened HeadState
  import opened Lookup
  import opened Projection

  ghost predicate Covers(st: State, s: nat) {
    st.synced.Some? && st.params.originSlot <= s <= st.synced.value
  }

  /** Every slot up to the cut reads as before, and every later one as not covered. */
  ghost predicate ReadsUpTo(before: State, after: State, slot: nat)
    requires UsableParams(before.params) && UsableParams(after.params)
  {
    && after.synced == Some(slot)
    && forall s: nat ::
         RowLookup(after, s) == if s <= slot then RowLookup(before, s) else Ok((NotYetCovered, None))
  }

  /** The cut's own window reads the same up to the cut. */
  lemma {:induction false} CutRowsRead(p: Params, rows: seq<Row>, t: nat, slot: nat, s: nat)
    requires RowsOfWindow(p, rows, t) && s <= slot
    ensures RowAt(RowsUpTo(rows, slot), s) == RowAt(rows, s)
  {
    ValidRowsIff(WindowStart(t, p.segBits), rows);
    var n := UpToIsPrefix(rows, slot);
    SameRowAt(rows, rows[..n], s);
  }

  /** The projected state is shaped by a vector that agrees with the old one below
      the cut's window and has the cut rows in it. */
  lemma {:induction false} ProjectedVector(st: State, e: seq<Cid>, slot: nat, t: nat, n: nat)
    returns (mid: State, e1: seq<Cid>)
    requires Shaped(st, e) && st.params.originSlot <= slot <= st.synced.value
    requires t == Ord(slot, st.params.segBits) && t == Base(st.params) + n
    ensures Truncated(st, slot) == Ok(mid) && Shaped(mid, e1) && mid.params == st.params && mid.synced == Some(slot)
    ensures n <= |e| && n <= |e1| && e1[..n] == e[..n]
    ensures RowsOfWindow(st.params, RowsAt(st.open, e, n), t)
    ensures RowsAt(mid.open, e1, n) == RowsUpTo(RowsAt(st.open, e, n), slot)
  {
    var p := st.params;
    var dir, depth, rows := TruncationKeeps(st, e, slot, t, n);
    RowsAtOfWindow(st, e, t, n);
    if WindowEnd(t, p.segBits) <= slot {
      mid := ReopenedSealed(p, dir, depth, slot, rows, e[..n], t);
      e1 := e[..n] + [Entry(p, rows, t)];
    } else {
      mid := ReopenedOpen(p, dir, depth, slot, rows, e[..n], t);
      e1 := e[..n];
    }
  }

  /** A covered slot of a shaped state reads from the vector. */
  lemma {:induction false} SlotReads(st: State, e: seq<Cid>, s: nat, w: nat) returns (i: nat)
    requires Shaped(st, e) && Covers(st, s) && w == Ord(s, st.params.segBits)
    ensures i <= |e| && w == Base(st.params) + i
    ensures RowLookup(st, s) == Ok((Found, RowAt(RowsAt(st.open, e, i), s)))
  {
    BaseBelowOpen(st.params, s);
    OrdMonotone(s, st.synced.value + 1, st.params.segBits);
    i := w - Base(st.params);
    ShapedReads(st, e, w, i);
  }

  lemma {:induction false} SameRead(p: Params, open: Cid, e: seq<Cid>, open': Cid, e': seq<Cid>, n: nat, i: nat, t: nat,
                                    slot: nat, s: nat)
    requires i <= n <= |e| && n <= |e'| && e'[..n] == e[..n] && s <= slot
    requires RowsOfWindow(p, RowsAt(open, e, n), t)
    requires RowsAt(open', e', n) == RowsUpTo(RowsAt(open, e, n), slot)
    ensures RowAt(RowsAt(open', e', i), s) == RowAt(RowsAt(open, e, i), s)
  {
    if i < n {
      assert e'[i] == e'[..n][i] == e[..n][i] == e[i];
    } else {
      CutRowsRead(p, RowsAt(open, e, n), t, slot, s);
    }
  }

  lemma {:induction false} ProjectedSlot(st: State, e: seq<Cid>, slot: nat, t: nat, n: nat, mid: State, e1: seq<Cid>,
                                         s: nat)
    requires Shaped(st, e) && Shaped(mid, e1) && mid.params == st.params && mid.synced == Some(slot)
    requires st.params.originSlot <= s <= slot <= st.synced.value
    requires t == Ord(slot, st.params.segBits) && t == Base(st.params) + n && n <= |e| && n <= |e1|
    requires e1[..n] == e[..n] && RowsOfWindow(st.params, RowsAt(st.open, e, n), t)
    requires RowsAt(mid.open, e1, n) == RowsUpTo(RowsAt(st.open, e, n), slot)
    ensures RowLookup(mid, s) == RowLookup(st, s)
  {
    var p := st.params;
    var w := Ord(s, p.segBits);
    OrdMonotone(s, slot, p.segBits);
    var i := SlotReads(st, e, s, w);
    var j := SlotReads(mid, e1, s, w);
    SameRead(p, st.open, e, mid.open, e1, n, i, t, slot, s);
  }

  /** Projection forgets exactly the slots after the cut. */
  lemma {:induction false} ProjectionReads(st: State, e: seq<Cid>, slot: nat) returns (mid: State)
    requires Shaped(st, e) && st.params.originSlot <= slot <= st.synced.value
    ensures Truncated(st, slot) == Ok(mid) && mid.params == st.params && ReadsUpTo(st, mid, slot)
  {
    var p := st.params;
    var t := Ord(slot, p.segBits);
    BaseBelowOpen(p, slot);
    var n := t - Base(p);
    var e1;
    mid, e1 := ProjectedVector(st, e, slot, t, n);
    forall s: nat
      ensures RowLookup(mid, s) == if s <= slot then RowLookup(st, s) else Ok((NotYetCovered, None))
    {
      if p.originSlot <= s <= slot { ProjectedSlot(st, e, slot, t, n, mid, e1, s); }
    }
  }
}
