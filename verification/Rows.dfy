/** Rows of a head, window by window. */
module Rows {
  import opened Arith
  import opened Dag

  /** Rows are strictly ascending by slot, with at least one entry each and no
      more than the ceiling. */
  predicate WellFormedRows(rows: seq<Row>) {
    && (forall i, j | 0 <= i < j < |rows| :: rows[i].slot < rows[j].slot)
    && (forall i | 0 <= i < |rows| :: 1 <= |rows[i].entries| <= MAX_BLOBS_PER_SLOT)
  }

  /** Segment.Validate compares neighbours only; that is enough for the rows to
      ascend everywhere. */
  lemma {:induction false} ValidUpToMeans(slot0: nat, rows: seq<Row>, n: nat)
    requires n <= |rows| && ValidUpTo(slot0, rows, n)
    ensures forall i, j | 0 <= i < j < n :: rows[i].slot < rows[j].slot
    ensures forall i | 0 <= i < n :: slot0 <= rows[i].slot && 1 <= |rows[i].entries| <= MAX_BLOBS_PER_SLOT
  {
    if n > 0 { ValidUpToMeans(slot0, rows, n - 1); }
  }

  lemma {:induction false} AscendingIsValid(slot0: nat, rows: seq<Row>, n: nat)
    requires n <= |rows| && WellFormedRows(rows) && forall i | 0 <= i < |rows| :: slot0 <= rows[i].slot
    ensures ValidUpTo(slot0, rows, n)
  {
    if n > 0 { AscendingIsValid(slot0, rows, n - 1); }
  }

  lemma {:induction false} ValidRowsIff(slot0: nat, rows: seq<Row>)
    ensures ValidRows(slot0, rows) <==> WellFormedRows(rows) && forall i | 0 <= i < |rows| :: slot0 <= rows[i].slot
  {
    if ValidRows(slot0, rows) { ValidUpToMeans(slot0, rows, |rows|); }
    if WellFormedRows(rows) && forall i | 0 <= i < |rows| :: slot0 <= rows[i].slot {
      AscendingIsValid(slot0, rows, |rows|);
    }
  }

  /** The rows of window w among the first n, in order. */
  function Picked(rows: seq<Row>, n: nat, w: nat, segBits: nat): seq<Row>
    requires n <= |rows|
  {
    if n == 0 then []
    else if Ord(rows[n - 1].slot, segBits) == w then Picked(rows, n - 1, w, segBits) + [rows[n - 1]]
    else Picked(rows, n - 1, w, segBits)
  }

  /** The rows of window w, in order. */
  function InWindow(rows: seq<Row>, w: nat, segBits: nat): seq<Row> {
    Picked(rows, |rows|, w, segBits)
  }

  /** Where the loop of copyRowsUpTo stops when it has reached row i. */
  function FirstAfter(rows: seq<Row>, maxSlot: nat, i: nat): (n: nat)
    requires i <= |rows|
    ensures i <= n <= |rows|
    decreases |rows| - i
  {
    if i == |rows| || rows[i].slot > maxSlot then i else FirstAfter(rows, maxSlot, i + 1)
  }

  /** copyRowsUpTo: the rows before the first one that is later than maxSlot. */
  function RowsUpTo(rows: seq<Row>, maxSlot: nat): seq<Row> {
    rows[..FirstAfter(rows, maxSlot, 0)]
  }

  method CopyRowsUpTo(rows: seq<Row>, maxSlot: nat) returns (out: seq<Row>)
    ensures out == RowsUpTo(rows, maxSlot)
  {
    out := [];
    for i := 0 to |rows|
      invariant out == rows[..i] && FirstAfter(rows, maxSlot, i) == FirstAfter(rows, maxSlot, 0)
    {
      if rows[i].slot > maxSlot { return; }
      out := out + [rows[i]];
    }
  }

  /* ---- Cutting by slot ---- */

  lemma {:induction false} StopsAt(rows: seq<Row>, i: nat, n: nat, maxSlot: nat)
    requires i <= n <= |rows|
    requires forall j | i <= j < n :: rows[j].slot <= maxSlot
    requires n < |rows| ==> rows[n].slot > maxSlot
    ensures FirstAfter(rows, maxSlot, i) == n
    decreases n - i
  {
    if i < n { StopsAt(rows, i + 1, n, maxSlot); }
  }

  lemma {:induction false} KeptAreEarlier(rows: seq<Row>, i: nat, maxSlot: nat)
    requires i <= |rows|
    ensures forall j | i <= j < FirstAfter(rows, maxSlot, i) :: rows[j].slot <= maxSlot
    ensures FirstAfter(rows, maxSlot, i) < |rows| ==> rows[FirstAfter(rows, maxSlot, i)].slot > maxSlot
    decreases |rows| - i
  {
    if i < |rows| && rows[i].slot <= maxSlot { KeptAreEarlier(rows, i + 1, maxSlot); }
  }

  /** On ascending rows, copyRowsUpTo keeps exactly the rows at or before the
      cut: a prefix, and everything after it is later. */
  lemma {:induction false} UpToIsPrefix(rows: seq<Row>, maxSlot: nat) returns (n: nat)
    requires WellFormedRows(rows)
    ensures n <= |rows| && RowsUpTo(rows, maxSlot) == rows[..n]
    ensures forall i | 0 <= i < n :: rows[i].slot <= maxSlot
    ensures forall i | n <= i < |rows| :: rows[i].slot > maxSlot
  {
    n := FirstAfter(rows, maxSlot, 0);
    KeptAreEarlier(rows, 0, maxSlot);
  }

  lemma {:induction false} UpToMembers(rows: seq<Row>, maxSlot: nat)
    requires WellFormedRows(rows)
    ensures forall row: Row :: row in RowsUpTo(rows, maxSlot) <==> row in rows && row.slot <= maxSlot
  {
    var n := UpToIsPrefix(rows, maxSlot);
  }

  lemma {:induction false} CutIsUpTo(rows: seq<Row>, n: nat, maxSlot: nat)
    requires n <= |rows|
    requires forall i | 0 <= i < n :: rows[i].slot <= maxSlot
    requires n < |rows| ==> rows[n].slot > maxSlot
    ensures RowsUpTo(rows, maxSlot) == rows[..n]
  {
    StopsAt(rows, 0, n, maxSlot);
  }

  lemma {:induction false} UpToAll(rows: seq<Row>, maxSlot: nat)
    requires forall i | 0 <= i < |rows| :: rows[i].slot <= maxSlot
    ensures RowsUpTo(rows, maxSlot) == rows
  {
    CutIsUpTo(rows, |rows|, maxSlot);
    assert rows[..|rows|] == rows;
  }

  lemma {:induction false} UpToTwice(rows: seq<Row>, a: nat, b: nat)
    requires WellFormedRows(rows) && b <= a
    ensures WellFormedRows(RowsUpTo(rows, a))
    ensures RowsUpTo(RowsUpTo(rows, a), b) == RowsUpTo(rows, b)
  {
    var n := UpToIsPrefix(rows, a);
    var m := UpToIsPrefix(rows, b);
    var k := if m <= n then m else n;
    assert forall i | 0 <= i < n :: rows[..n][i] == rows[i];
    CutIsUpTo(rows, k, b);
    CutIsUpTo(rows[..n], k, b);
    assert rows[..n][..k] == rows[..k];
  }

  /** Ascending rows are determined by which rows they are. */
  lemma {:induction false} SameMembers(a: seq<Row>, b: seq<Row>)
    requires WellFormedRows(a) && WellFormedRows(b) && forall row: Row :: row in a <==> row in b
    ensures a == b
  {
    if b != [] { assert b[0] in b; }
    if a != [] {
      var m, n := |a| - 1, |b| - 1;
      assert a[m] in b;
      assert b[n] in a;
      assert a[m] == b[n];
      forall row: Row ensures row in a[..m] <==> row in b[..n] {
        WithoutLast(a, m, row);
        WithoutLast(b, n, row);
      }
      SameMembers(a[..m], b[..n]);
      assert a == a[..m] + [a[m]] && b == b[..n] + [b[n]];
    }
  }

  lemma {:induction false} WithoutLast(rows: seq<Row>, m: nat, row: Row)
    requires WellFormedRows(rows) && |rows| == m + 1
    ensures row in rows[..m] <==> row in rows && row != rows[m]
  {
    assert rows == rows[..m] + [rows[m]];
  }

  /* ---- Cutting by window ---- */

  lemma {:induction false} PickedPrefix(a: seq<Row>, b: seq<Row>, n: nat, w: nat, segBits: nat)
    requires n <= |a| && n <= |b| && forall i | 0 <= i < n :: a[i] == b[i]
    ensures Picked(a, n, w, segBits) == Picked(b, n, w, segBits)
  {
    if n > 0 { PickedPrefix(a, b, n - 1, w, segBits); }
  }

  lemma {:induction false} PickedAppend(a: seq<Row>, b: seq<Row>, n: nat, w: nat, segBits: nat)
    requires n <= |b|
    ensures Picked(a + b, |a| + n, w, segBits) == Picked(a, |a|, w, segBits) + Picked(b, n, w, segBits)
  {
    if n == 0 {
      PickedPrefix(a + b, a, |a|, w, segBits);
    } else {
      PickedAppend(a, b, n - 1, w, segBits);
      assert (a + b)[|a| + n - 1] == b[n - 1];
    }
  }

  lemma {:induction false} InWindowAppend(a: seq<Row>, b: seq<Row>, w: nat, segBits: nat)
    ensures InWindow(a + b, w, segBits) == InWindow(a, w, segBits) + InWindow(b, w, segBits)
  {
    PickedAppend(a, b, |b|, w, segBits);
  }

  lemma {:induction false} PickedNone(rows: seq<Row>, n: nat, w: nat, segBits: nat)
    requires n <= |rows| && forall i | 0 <= i < n :: Ord(rows[i].slot, segBits) != w
    ensures Picked(rows, n, w, segBits) == []
  {
    if n > 0 { PickedNone(rows, n - 1, w, segBits); }
  }

  lemma {:induction false} InWindowNone(rows: seq<Row>, w: nat, segBits: nat)
    requires forall i | 0 <= i < |rows| :: Ord(rows[i].slot, segBits) != w
    ensures InWindow(rows, w, segBits) == []
  {
    PickedNone(rows, |rows|, w, segBits);
  }

  lemma {:induction false} PickedAll(rows: seq<Row>, n: nat, w: nat, segBits: nat)
    requires n <= |rows| && forall i | 0 <= i < n :: Ord(rows[i].slot, segBits) == w
    ensures Picked(rows, n, w, segBits) == rows[..n]
  {
    if n > 0 { PickedAll(rows, n - 1, w, segBits); }
  }

  lemma {:induction false} InWindowAll(rows: seq<Row>, w: nat, segBits: nat)
    requires forall i | 0 <= i < |rows| :: Ord(rows[i].slot, segBits) == w
    ensures InWindow(rows, w, segBits) == rows
  {
    PickedAll(rows, |rows|, w, segBits);
    assert rows[..|rows|] == rows;
  }

  /** The rows picked for a window are exactly the rows of that window. */
  lemma {:induction false} PickedRows(rows: seq<Row>, n: nat, w: nat, segBits: nat)
    requires n <= |rows|
    ensures forall i | 0 <= i < n && Ord(rows[i].slot, segBits) == w :: rows[i] in Picked(rows, n, w, segBits)
    ensures forall r | r in Picked(rows, n, w, segBits) :: Ord(r.slot, segBits) == w
    ensures forall r | r in Picked(rows, n, w, segBits) :: r in rows[..n]
  {
    if n > 0 {
      PickedRows(rows, n - 1, w, segBits);
      assert rows[..n] == rows[..n - 1] + [rows[n - 1]];
    }
  }

  lemma {:induction false} PickedWellFormed(rows: seq<Row>, n: nat, w: nat, segBits: nat)
    requires n <= |rows| && WellFormedRows(rows)
    ensures WellFormedRows(Picked(rows, n, w, segBits))
  {
    if n > 0 {
      PickedWellFormed(rows, n - 1, w, segBits);
      PickedRows(rows, n - 1, w, segBits);
      var sub := Picked(rows, n - 1, w, segBits);
      forall i | 0 <= i < |sub| ensures sub[i].slot < rows[n - 1].slot {
        assert sub[i] in rows[..n - 1];
      }
    }
  }

  /** The rows of a window are among the rows, in the window, and well formed. */
  lemma {:induction false} InWindowRows(rows: seq<Row>, w: nat, segBits: nat)
    requires WellFormedRows(rows)
    ensures WellFormedRows(InWindow(rows, w, segBits))
    ensures forall r :: r in InWindow(rows, w, segBits) <==> r in rows && Ord(r.slot, segBits) == w
  {
    PickedRows(rows, |rows|, w, segBits);
    PickedWellFormed(rows, |rows|, w, segBits);
    assert rows[..|rows|] == rows;
  }

  /** Cutting the rows at a slot leaves earlier windows alone, cuts the slot's
      own window, and empties later ones. */
  lemma {:induction false} InWindowUpTo(rows: seq<Row>, slot: nat, w: nat, segBits: nat)
    requires WellFormedRows(rows)
    ensures w < Ord(slot, segBits) ==> InWindow(RowsUpTo(rows, slot), w, segBits) == InWindow(rows, w, segBits)
    ensures w == Ord(slot, segBits) ==>
              InWindow(RowsUpTo(rows, slot), w, segBits) == RowsUpTo(InWindow(rows, w, segBits), slot)
    ensures w > Ord(slot, segBits) ==> InWindow(RowsUpTo(rows, slot), w, segBits) == []
  {
    var n := UpToIsPrefix(rows, slot);
    var kept, gone := rows[..n], rows[n..];
    assert rows == kept + gone;
    InWindowAppend(kept, gone, w, segBits);
    forall i | 0 <= i < |kept| ensures Ord(kept[i].slot, segBits) <= Ord(slot, segBits) {
      OrdMonotone(kept[i].slot, slot, segBits);
    }
    forall i | 0 <= i < |gone| ensures Ord(gone[i].slot, segBits) >= Ord(slot, segBits) {
      OrdMonotone(slot, gone[i].slot, segBits);
    }
    if w < Ord(slot, segBits) { InWindowNone(gone, w, segBits); }
    if w > Ord(slot, segBits) { InWindowNone(kept, w, segBits); }
    if w == Ord(slot, segBits) {
      var mine := InWindow(rows, w, segBits);
      InWindowRows(rows, w, segBits);
      InWindowRows(kept, w, segBits);
      InWindowRows(gone, w, segBits);
      SplitIsUpTo(InWindow(kept, w, segBits), InWindow(gone, w, segBits), slot);
    }
  }

  lemma {:induction false} SplitIsUpTo(low: seq<Row>, high: seq<Row>, slot: nat)
    requires forall r | r in low :: r.slot <= slot
    requires forall r | r in high :: r.slot > slot
    ensures RowsUpTo(low + high, slot) == low
  {
    var all := low + high;
    assert forall i | 0 <= i < |low| :: all[i] == low[i] && low[i] in low;
    if high != [] { assert all[|low|] == high[0] && high[0] in high; }
    CutIsUpTo(all, |low|, slot);
    assert all[..|low|] == low;
  }
}
