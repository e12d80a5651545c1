/** The read path (archive/lookup.go): a slot's row is found by arithmetic on its
    number, a walk down the directory and a binary search in one segment. */
module Lookup {
  import opened Arith
  import opened Dag
  import opened Directory
  import opened Rows
  import opened HeadState

  datatype Status = Found | BeforeOrigin | NotYetCovered | Absent

  /* ---- The abstract map: a plain scan of the rows ---- */

  function FindRow(rows: seq<Row>, n: nat, slot: nat): Option<Row>
    requires n <= |rows|
  {
    if n == 0 then None
    else if rows[n - 1].slot == slot then Some(rows[n - 1])
    else FindRow(rows, n - 1, slot)
  }

  function RowAt(rows: seq<Row>, slot: nat): Option<Row> {
    FindRow(rows, |rows|, slot)
  }

  lemma {:induction false} FindRowMeans(rows: seq<Row>, n: nat, slot: nat)
    requires n <= |rows|
    ensures FindRow(rows, n, slot).None? <==> forall i | 0 <= i < n :: rows[i].slot != slot
    ensures FindRow(rows, n, slot).Some? ==>
              FindRow(rows, n, slot).value in rows && FindRow(rows, n, slot).value.slot == slot
  {
    if n > 0 { FindRowMeans(rows, n - 1, slot); }
  }

  /** On ascending rows there is at most one answer. */
  lemma {:induction false} RowAtIs(rows: seq<Row>, i: nat)
    requires WellFormedRows(rows) && i < |rows|
    ensures RowAt(rows, rows[i].slot) == Some(rows[i])
  {
    FindRowMeans(rows, |rows|, rows[i].slot);
  }

  /** A row is the answer for its slot exactly when it is among the rows. */
  lemma {:induction false} RowAtMeans(rows: seq<Row>, slot: nat, row: Row)
    requires WellFormedRows(rows) && row.slot == slot
    ensures RowAt(rows, slot) == Some(row) <==> row in rows
    ensures RowAt(rows, slot).Some? ==> RowAt(rows, slot).value in rows && RowAt(rows, slot).value.slot == slot
  {
    FindRowMeans(rows, |rows|, slot);
    if row in rows {
      var i :| 0 <= i < |rows| && rows[i] == row;
      RowAtIs(rows, i);
    }
  }

  /** Rows that agree about one slot give the same answer for it. */
  lemma {:induction false} SameRowAt(a: seq<Row>, b: seq<Row>, slot: nat)
    requires WellFormedRows(a) && WellFormedRows(b)
    requires forall row: Row | row.slot == slot :: row in a <==> row in b
    ensures RowAt(a, slot) == RowAt(b, slot)
  {
    FindRowMeans(a, |a|, slot);
    FindRowMeans(b, |b|, slot);
    if RowAt(a, slot).Some? { RowAtMeans(b, slot, RowAt(a, slot).value); }
    if RowAt(b, slot).Some? { RowAtMeans(a, slot, RowAt(b, slot).value); }
  }

  /** Looking in a slot's own window misses nothing. */
  lemma {:induction false} RowAtInWindow(rows: seq<Row>, slot: nat, segBits: nat)
    requires WellFormedRows(rows)
    ensures RowAt(InWindow(rows, Ord(slot, segBits), segBits), slot) == RowAt(rows, slot)
  {
    var mine := InWindow(rows, Ord(slot, segBits), segBits);
    InWindowRows(rows, Ord(slot, segBits), segBits);
    FindRowMeans(rows, |rows|, slot);
    FindRowMeans(mine, |mine|, slot);
    if RowAt(mine, slot).Some? {
      var i :| 0 <= i < |rows| && rows[i] == RowAt(mine, slot).value;
      RowAtIs(rows, i);
    }
  }

  /** searchRows, with the loop of sort.Search. */
  method SearchRows(rows: seq<Row>, slot: nat) returns (r: Option<Row>)
    requires WellFormedRows(rows)
    ensures r == RowAt(rows, slot)
  {
    var lo, hi := 0, |rows|;
    while lo < hi
      invariant 0 <= lo <= hi <= |rows|
      invariant forall i | 0 <= i < lo :: rows[i].slot < slot
      invariant forall i | hi <= i < |rows| :: slot <= rows[i].slot
    {
      var mid := (lo + hi) / 2;
      if rows[mid].slot >= slot { hi := mid; } else { lo := mid + 1; }
    }
    FindRowMeans(rows, |rows|, slot);
    if lo < |rows| && rows[lo].slot == slot {
      RowAtIs(rows, lo);
      return Some(rows[lo]);
    }
    return None;
  }

  /* ---- The walk ---- */

  method WalkDigits(dir: Cid, digits: seq<nat>) returns (r: Result<Cid>)
    ensures r == Walk(dir, RouteOf(digits))
  {
    var cur := dir;
    for i := 0 to |digits|
      invariant Walk(cur, RouteOf(digits[i..])) == Walk(dir, RouteOf(digits))
    {
      assert digits[i..][1..] == digits[i + 1..];
      var page := DecodeDir(cur);
      if page.Err? { return Err(page.fault); }
      var kids := page.value;
      if digits[i] >= |kids| || kids[digits[i]].Undef? { return Ok(Undef); }
      cur := kids[digits[i]];
    }
    return Ok(cur);
  }

  method FindSealedSegment(st: State, w: nat) returns (r: Result<Cid>)
    requires UsableParams(st.params)
    ensures r == SealedSegment(st, w)
  {
    var base := Base(st.params);
    if st.depth == 0 || w < base { return Ok(Undef); }
    var digits, ok := PathDigits(w - base, st.depth, st.params.fanoutBits);
    if !ok { return Ok(Undef); }
    r := WalkDigits(st.dir, digits);
  }

  method FindSegment(st: State, w: nat) returns (r: Result<Cid>)
    requires UsableParams(st.params)
    ensures r == SegmentFor(st, w)
  {
    if st.synced.None? { return Ok(Undef); }
    var openW :- OpenOrd(st);
    if w == openW { return Ok(st.open); }
    r := FindSealedSegment(st, w);
  }

  /** What lookupRow answers, in terms of the window it reads. */
  function RowLookup(st: State, slot: nat): Result<(Status, Option<Row>)>
    requires UsableParams(st.params)
  {
    if slot < st.params.originSlot then Ok((BeforeOrigin, None))
    else if st.synced.None? || slot > st.synced.value then Ok((NotYetCovered, None))
    else
      var rows :- WindowRows(st, Ord(slot, st.params.segBits));
      Ok((Found, RowAt(rows, slot)))
  }

  method LookupRow(st: State, slot: nat) returns (r: Result<(Status, Option<Row>)>)
    requires UsableParams(st.params)
    ensures r == RowLookup(st, slot)
  {
    if slot < st.params.originSlot { return Ok((BeforeOrigin, None)); }
    if st.synced.None? || slot > st.synced.value { return Ok((NotYetCovered, None)); }
    var link := FindSegment(st, Ord(slot, st.params.segBits));
    if link.Err? { return Err(link.fault); }
    if link.value.Undef? { return Ok((Found, None)); }
    var seg :- DecodeSegment(link.value);
    ValidRowsIff(seg.slot0, seg.rows);
    var row := SearchRows(seg.rows, slot);
    return Ok((Found, row));
  }

  /** What an archive covering [origin, synced] with these rows answers. */
  function Answer(p: Params, synced: Option<nat>, rows: seq<Row>, slot: nat): (Status, Option<Row>) {
    if slot < p.originSlot then (BeforeOrigin, None)
    else if synced.None? || slot > synced.value then (NotYetCovered, None)
    else (Found, RowAt(rows, slot))
  }

  /** Lookup refines the abstract map: every slot gets exactly one of the three
      answers, and a covered slot its stored row if there is one. */
  lemma {:induction false} LookupRefines(st: State, rows: seq<Row>, slot: nat)
    requires Represents(st, rows)
    ensures RowLookup(st, slot) == Ok(Answer(st.params, st.synced, rows, slot))
  {
    if st.params.originSlot <= slot && st.synced.Some? && slot <= st.synced.value {
      var e :| Encodes(st, rows, e);
      WindowRowsAre(st, rows, e, slot);
      RowAtInWindow(rows, slot, st.params.segBits);
    }
  }

  /** The same without the abstract map: the status says where the slot lies, and
      a row is found exactly when it is one of the rows the state stands for. */
  lemma {:induction false} LookupMeans(st: State, rows: seq<Row>, slot: nat, row: Row)
    requires Represents(st, rows) && row.slot == slot
    ensures RowLookup(st, slot).Ok?
    ensures var (status, found) := RowLookup(st, slot).value;
            && (status == BeforeOrigin <==> slot < st.params.originSlot)
            && (status == Found <==> st.synced.Some? && st.params.originSlot <= slot <= st.synced.value)
            && status != Absent
            && (found == Some(row) <==> row in rows)
            && (found.Some? ==> found.value in rows && found.value.slot == slot)
  {
    LookupRefines(st, rows, slot);
    if st.synced.Some? { RowAtMeans(rows, slot, row); }
  }

  /** A covered slot's window holds exactly the rows of that window. */
  lemma {:induction false} WindowRowsAre(st: State, rows: seq<Row>, e: seq<Cid>, slot: nat)
    requires Encodes(st, rows, e) && Stores(st.params, rows, st.synced.value)
    requires st.params.originSlot <= slot <= st.synced.value
    ensures WindowRows(st, Ord(slot, st.params.segBits)) ==
            Ok(InWindow(rows, Ord(slot, st.params.segBits), st.params.segBits))
  {
    var p, synced := st.params, st.synced.value;
    var t := Ord(slot, p.segBits);
    BaseBelowOpen(p, slot);
    OrdMonotone(slot, synced + 1, p.segBits);
    var n := t - Base(p);
    EncodesShaped(st, rows, e);
    ShapedReads(st, e, t, n);
    RowsAtSealed(p, rows, st.open, OpenWindow(p, synced), e, t, n);
  }

  /* ---- Filtered lookup ---- */

  function EntriesOf(row: Option<Row>): seq<RefEntry> {
    if row.None? then [] else row.value.entries
  }

  /** The entry is the first one with the hash. */
  ghost predicate FirstWith(entries: seq<RefEntry>, vh: VersionedHash, e: RefEntry) {
    exists k | 0 <= k < |entries| ::
      entries[k] == e && e.vh == vh && forall j | 0 <= j < k :: entries[j].vh != vh
  }

  ghost predicate Lacks(entries: seq<RefEntry>, vh: VersionedHash) {
    forall k | 0 <= k < |entries| :: entries[k].vh != vh
  }

  method FindVH(row: Option<Row>, vh: VersionedHash) returns (r: Option<RefEntry>)
    ensures if r.Some? then FirstWith(EntriesOf(row), vh, r.value) else Lacks(EntriesOf(row), vh)
  {
    if row.None? { return None; }
    var entries := row.value.entries;
    for i := 0 to |entries|
      invariant forall k | 0 <= k < i :: entries[k].vh != vh
    {
      if entries[i].vh == vh { return Some(entries[i]); }
    }
    return None;
  }

  datatype Reply = Reply(status: Status, entries: seq<RefEntry>, missing: Option<VersionedHash>)

  /** LookupVHs answers whole requests only: one entry per requested hash in
      request order, or the first hash the covered slot does not carry. */
  method LookupVHs(st: State, slot: nat, vhs: seq<VersionedHash>, ghost rows: seq<Row>)
    returns (r: Result<Reply>)
    requires Represents(st, rows)
    ensures r.Ok?
    ensures var a := Answer(st.params, st.synced, rows, slot);
            if !a.0.Found? then r.value == Reply(a.0, [], None)
            else
              var held := EntriesOf(a.1);
              match r.value.status
              case Found =>
                && r.value.missing.None? && |r.value.entries| == |vhs|
                && forall i | 0 <= i < |vhs| :: FirstWith(held, vhs[i], r.value.entries[i])
              case Absent =>
                && r.value.entries == []
                && exists i | 0 <= i < |vhs| ::
                     && r.value.missing == Some(vhs[i]) && Lacks(held, vhs[i])
                     && forall j | 0 <= j < i :: !Lacks(held, vhs[j])
              case _ => false
  {
    LookupRefines(st, rows, slot);
    var found := LookupRow(st, slot);
    var status, row := found.value.0, found.value.1;
    if !status.Found? { return Ok(Reply(status, [], None)); }
    var entries: seq<RefEntry> := [];
    for i := 0 to |vhs|
      invariant |entries| == i
      invariant forall j | 0 <= j < i :: FirstWith(EntriesOf(row), vhs[j], entries[j])
    {
      var e := FindVH(row, vhs[i]);
      if e.None? { return Ok(Reply(Absent, [], Some(vhs[i]))); }
      entries := entries + [e.value];
    }
    return Ok(Reply(Found, entries, None));
  }
}
