/** The follower's durable source-set state (follow/conflict_state.go,
    follow/source_state.go): the roster marker, the permanent bindings of source
    IDs to keys, and the life cycle of conflict latches. */
module SourceStore {
  import opened Arith
  import opened Dag
  import opened Bytes
  import opened Evidence

  const MAX_BINDINGS: nat := 32

  type Text = seq<byte>

  datatype Marker = Marker(archive: Text, revision: nat, digest: Text, conflictAware: bool)

  /** The conflict rows of one head; each of the three may be absent. */
  datatype HeadRows = HeadRows(active: Option<Record>, sequence: Option<nat>, history: Option<seq<ClearRecord>>)

  /** What the store needs to know about evidence: which requests are canonical,
      and the evidence ID of a request and its sequence number. */
  datatype Codec = Codec(good: Request -> bool, id: (Request, nat) -> Text)

  function EvidenceCodec(hash: Hash): Codec {
    Codec(r => Typed(r) && NewRequest(r) == Some(r), (r, n) => hash(PutRequest(r, n, [])))
  }

  predicate GoodRecord(codec: Codec, record: Record) {
    && codec.good(record.request) && 1 <= record.sequence <= MAX_UINT64
    && record.evidence == codec.id(record.request, record.sequence)
  }

  /** With the evidence codec the good records are the ones that encode and
      decode. */
  lemma {:induction false} GoodIsCanonical(hash: Hash, record: Record)
    ensures GoodRecord(EvidenceCodec(hash), record) <==> CanonicalRecord(hash, record)
  {
  }

  const NO_ROWS: HeadRows := HeadRows(None, None, None)

  function RowsOf(rows: map<Text, HeadRows>, head: Text): HeadRows {
    if head in rows then rows[head] else NO_ROWS
  }

  /* ---- What startup validation accepts ---- */

  /** validateConflictRecordAgainstMarker. */
  predicate Covered(record: Record, marker: Marker) {
    && record.request.setRevision <= marker.revision
    && (record.request.setRevision == marker.revision ==> record.request.setDigest == marker.digest)
  }

  function LastSequence(h: seq<ClearRecord>): nat {
    if h == [] then 0 else h[|h| - 1].sequence
  }

  /** The rows of one head, as the scan decodes and validateConflictState checks
      them. */
  predicate RowsAccepted(codec: Codec, marker: Marker, head: Text, row: HeadRows) {
    && row.sequence.Some? && 1 <= row.sequence.value
    && (row.history.Some? ==> ValidHistory(row.history.value))
    && match row.active
       case Some(record) =>
         && GoodRecord(codec, record) && record.request.archive == marker.archive && record.request.head == head
         && record.sequence == row.sequence.value && Covered(record, marker)
         && (row.history.Some? <==> row.sequence.value > 1)
         && (row.history.Some? ==> LastSequence(row.history.value) == row.sequence.value - 1)
       case None =>
         row.history.Some? && LastSequence(row.history.value) == row.sequence.value
  }

  /** validateConflictState. */
  ghost predicate StateAccepted(codec: Codec, marker: Option<Marker>, rows: map<Text, HeadRows>) {
    if rows == map[] then marker.Some? ==> !marker.value.conflictAware
    else
      && marker.Some? && marker.value.conflictAware
      && forall head | head in rows :: RowsAccepted(codec, marker.value, head, rows[head])
  }

  /** What validation guarantees of a head: its sequence is that of its active
      record, or of its last clear; the record is canonical, of this archive and
      head, made under the active roster or an older one; and the history ends
      right before it. */
  lemma {:induction false} AcceptedMeans(codec: Codec, marker: Marker, rows: map<Text, HeadRows>, head: Text)
    requires StateAccepted(codec, Some(marker), rows) && head in rows
    ensures marker.conflictAware && rows[head].sequence.Some? && rows[head].sequence.value >= 1
    ensures var n, cleared := rows[head].sequence.value, LastSequence(HistoryOf(rows[head]));
            match rows[head].active
            case None => cleared == n
            case Some(record) =>
              && cleared == n - 1 && record.sequence == n && record.evidence == codec.id(record.request, n)
              && codec.good(record.request) && record.request.archive == marker.archive && record.request.head == head
              && record.request.setRevision <= marker.revision
              && (record.request.setRevision == marker.revision ==> record.request.setDigest == marker.digest)
  {
    assert RowsAccepted(codec, marker, head, rows[head]);
  }

  /* ---- The life cycle ---- */

  /** The last min(16, n) of the sequence numbers 1 to n, in order. */
  ghost predicate Ring(h: seq<ClearRecord>, n: nat) {
    && |h| == (if n < MAX_CLEAR_HISTORY then n else MAX_CLEAR_HISTORY)
    && forall i | 0 <= i < |h| :: ValidClear(h[i]) && h[i].sequence == n - |h| + i + 1
  }

  /** A head that has been cleared n times, and is latched or not. */
  ghost predicate Life(codec: Codec, marker: Marker, head: Text, row: HeadRows, n: nat) {
    && n <= MAX_UINT64 && ValidIdentity(marker.archive, head)
    && row.sequence == Some(n + if row.active.Some? then 1 else 0) && 1 <= row.sequence.value <= MAX_UINT64
    && (if n == 0 then row.history.None? else row.history.Some? && Ring(row.history.value, n))
    && (row.active.Some? ==>
          && GoodRecord(codec, row.active.value)
          && row.active.value.request.archive == marker.archive && row.active.value.request.head == head
          && row.active.value.sequence == row.sequence.value && Covered(row.active.value, marker))
  }

  lemma {:induction false} RingIsHistory(h: seq<ClearRecord>, n: nat)
    requires Ring(h, n) && 1 <= n <= MAX_UINT64
    ensures ValidHistory(h) && LastSequence(h) == n
  {
  }

  lemma {:induction false} LifeIsAccepted(codec: Codec, marker: Marker, head: Text, row: HeadRows, n: nat)
    requires Life(codec, marker, head, row, n)
    ensures RowsAccepted(codec, marker, head, row)
  {
    if n > 0 { RingIsHistory(row.history.value, n); }
  }

  /** Appending a clear and keeping the last sixteen. */
  function Appended(h: seq<ClearRecord>, c: ClearRecord): seq<ClearRecord> {
    var all := h + [c];
    if |all| > MAX_CLEAR_HISTORY then all[|all| - MAX_CLEAR_HISTORY..] else all
  }

  lemma {:induction false} RingStep(h: seq<ClearRecord>, n: nat, c: ClearRecord)
    requires Ring(h, n) && ValidClear(c) && c.sequence == n + 1
    ensures Ring(Appended(h, c), n + 1)
  {
    var all := h + [c];
    var r := Appended(h, c);
    var drop := |all| - |r|;
    forall i | 0 <= i < |r| ensures ValidClear(r[i]) && r[i].sequence == n + 1 - |r| + i + 1 {
      assert r[i] == all[drop + i];
    }
  }

  /** A later roster keeps what an earlier one covered. */
  ghost predicate Succeeds(old': Marker, new': Marker) {
    && old'.archive == new'.archive && old'.revision <= new'.revision
    && (old'.revision == new'.revision ==> old'.digest == new'.digest)
    && (old'.conflictAware ==> new'.conflictAware)
  }

  lemma {:induction false} LifeUnderNewMarker(codec: Codec, a: Marker, b: Marker, head: Text, row: HeadRows, n: nat)
    requires Life(codec, a, head, row, n) && Succeeds(a, b)
    ensures Life(codec, b, head, row, n)
  {
  }

  ghost predicate Lives(codec: Codec, marker: Option<Marker>, rows: map<Text, HeadRows>, clears: map<Text, nat>) {
    && rows.Keys == clears.Keys
    && (marker.None? ==> rows == map[])
    && (marker.Some? ==> (marker.value.conflictAware <==> rows != map[]))
    && (marker.Some? ==> forall head | head in rows :: Life(codec, marker.value, head, rows[head], clears[head]))
  }

  /** Every state of the life cycle passes startup validation. */
  lemma {:induction false} LivesAreAccepted(codec: Codec, marker: Option<Marker>, rows: map<Text, HeadRows>,
                                            clears: map<Text, nat>)
    requires Lives(codec, marker, rows, clears)
    ensures StateAccepted(codec, marker, rows)
  {
    forall head | head in rows ensures RowsAccepted(codec, marker.value, head, rows[head]) {
      LifeIsAccepted(codec, marker.value, head, rows[head], clears[head]);
    }
  }

  lemma {:induction false} LivesStep(codec: Codec, marker: Marker, aware: Marker, rows: map<Text, HeadRows>,
                                     clears: map<Text, nat>,
                                     head: Text, row: HeadRows, n: nat)
    requires Lives(codec, Some(marker), rows, clears) && Succeeds(marker, aware) && aware.conflictAware
    requires Life(codec, aware, head, row, n)
    ensures Lives(codec, Some(aware), rows[head := row], clears[head := n])
  {
    var rows', clears' := rows[head := row], clears[head := n];
    forall h | h in rows' ensures Life(codec, aware, h, rows'[h], clears'[h]) {
      if h != head { LifeUnderNewMarker(codec, marker, aware, h, rows[h], clears[h]); }
    }
    assert head in rows';
  }

  lemma {:induction false} LivesUnderNewMarker(codec: Codec, a: Marker, b: Marker, rows: map<Text, HeadRows>,
                                               clears: map<Text, nat>)
    requires Lives(codec, Some(a), rows, clears) && Succeeds(a, b) && a.conflictAware == b.conflictAware
    ensures Lives(codec, Some(b), rows, clears)
  {
    forall h | h in rows ensures Life(codec, b, h, rows[h], clears[h]) {
      LifeUnderNewMarker(codec, a, b, h, rows[h], clears[h]);
    }
  }

  /* ---- Bindings ---- */

  datatype Binding = Binding(id: Text, key: Text)

  /** The two tables are mutual inverses. */
  ghost predicate Bijection(forward: map<Text, Text>, reverse: map<Text, Text>) {
    && (forall id | id in forward :: forward[id] in reverse && reverse[forward[id]] == id)
    && (forall key | key in reverse :: reverse[key] in forward && forward[reverse[key]] == key)
  }

  predicate ValidBinding(b: Binding) {
    ValidSourceId(b.id) && |b.key| == 32 && !Zero(b.key)
  }

  ghost predicate ValidBindings(bs: seq<Binding>) {
    && 1 <= |bs| <= MAX_BINDINGS
    && (forall i | 0 <= i < |bs| :: ValidBinding(bs[i]))
    && forall i, j | 0 <= i < j < |bs| :: bs[i].id != bs[j].id && bs[i].key != bs[j].key
  }

  method ValidateBindings(bs: seq<Binding>) returns (ok: bool)
    ensures ok <==> ValidBindings(bs)
  {
    if |bs| == 0 || |bs| > MAX_BINDINGS { return false; }
    var ids, keys := {}, {};
    for i := 0 to |bs|
      invariant forall x :: x in ids <==> exists k :: 0 <= k < i && bs[k].id == x
      invariant forall x :: x in keys <==> exists k :: 0 <= k < i && bs[k].key == x
      invariant forall k | 0 <= k < i :: ValidBinding(bs[k])
      invariant forall j, k | 0 <= j < k < i :: bs[j].id != bs[k].id && bs[j].key != bs[k].key
    {
      if !ValidBinding(bs[i]) || bs[i].id in ids || bs[i].key in keys { return false; }
      ids, keys := ids + {bs[i].id}, keys + {bs[i].key};
    }
    return true;
  }

  /** The pair contradicts neither table. */
  predicate Bindable(forward: map<Text, Text>, reverse: map<Text, Text>, b: Binding) {
    && (b.id in forward ==> forward[b.id] == b.key)
    && (b.key in reverse ==> reverse[b.key] == b.id)
  }

  /** A pair that contradicts neither table is in both or in neither: the store
      never holds half a binding. */
  lemma {:induction false} NeverHalfBound(forward: map<Text, Text>, reverse: map<Text, Text>, b: Binding)
    requires Bijection(forward, reverse) && Bindable(forward, reverse, b)
    ensures b.id in forward <==> b.key in reverse
    ensures b.key !in reverse ==> forall id | id in forward :: forward[id] != b.key
  {
  }

  lemma {:induction false} BindStep(forward: map<Text, Text>, reverse: map<Text, Text>, b: Binding)
    requires Bijection(forward, reverse) && b.id !in forward && b.key !in reverse
    ensures Bijection(forward[b.id := b.key], reverse[b.key := b.id])
  {
  }

  /** The first n pairs have been added and nothing else. */
  ghost predicate Bound(before: map<Text, Text>, after: map<Text, Text>, bs: seq<Binding>, n: nat)
    requires n <= |bs|
  {
    && (forall id | id in before :: id in after && after[id] == before[id])
    && (forall id | id in after && id !in before :: exists k :: 0 <= k < n && bs[k].id == id && bs[k].key == after[id])
    && (forall k | 0 <= k < n :: bs[k].id in after && after[bs[k].id] == bs[k].key)
  }

  lemma {:induction false} BoundStep(before: map<Text, Text>, after: map<Text, Text>, bs: seq<Binding>, n: nat)
    requires n < |bs| && ValidBindings(bs) && Bound(before, after, bs, n)
    requires bs[n].id in before ==> before[bs[n].id] == bs[n].key
    ensures bs[n].id !in before ==> bs[n].id !in after
    ensures Bound(before, after[bs[n].id := bs[n].key], bs, n + 1)
    ensures bs[n].id in before ==> Bound(before, after, bs, n + 1)
  {
  }

  predicate ValidMarker(m: Marker) {
    |m.archive| == 32 && !Zero(m.archive) && m.revision != 0
  }

  /** What stageSourceSetActivation accepts. */
  ghost predicate Activatable(marker: Option<Marker>, forward: map<Text, Text>, reverse: map<Text, Text>,
                              next: Marker, bs: seq<Binding>) {
    && ValidMarker(next) && ValidBindings(bs)
    && (forall i | 0 <= i < |bs| :: Bindable(forward, reverse, bs[i]))
    && match marker
       case None => !next.conflictAware
       case Some(m) =>
         && m.archive == next.archive && m.revision <= next.revision
         && (m.revision == next.revision ==> m.digest == next.digest)
         && (m.digest == next.digest ==> forall i | 0 <= i < |bs| :: bs[i].id in forward)
  }

  /** The active roster can be activated again, and so can any later one that
      gives no ID another key and no key another ID. */
  lemma {:induction false} RosterIsAccepted(marker: Marker, forward: map<Text, Text>, reverse: map<Text, Text>,
                                            next: Marker, bs: seq<Binding>)
    requires Bijection(forward, reverse) && ValidMarker(next) && ValidBindings(bs) && next.archive == marker.archive
    requires forall i | 0 <= i < |bs| :: bs[i].id in forward ==> forward[bs[i].id] == bs[i].key
    requires forall i, id | 0 <= i < |bs| && id in forward && forward[id] == bs[i].key :: id == bs[i].id
    requires || (next.revision == marker.revision && next.digest == marker.digest
                 && forall i | 0 <= i < |bs| :: bs[i].id in forward)
             || (next.revision > marker.revision && next.digest != marker.digest)
    ensures Activatable(Some(marker), forward, reverse, next, bs)
  {
    forall i | 0 <= i < |bs| ensures Bindable(forward, reverse, bs[i]) {
      if bs[i].key in reverse { assert forward[reverse[bs[i].key]] == bs[i].key; }
    }
  }

  /** A roster with the digest of the active one binds nothing. */
  lemma {:induction false} SameDigestBindsNothing(marker: Marker, forward: map<Text, Text>, reverse: map<Text, Text>,
                                                  next: Marker, bs: seq<Binding>, after: map<Text, Text>)
    requires Activatable(Some(marker), forward, reverse, next, bs) && marker.digest == next.digest
    requires Bound(forward, after, bs, |bs|)
    ensures after == forward
  {
    assert forall id | id in after :: id in forward;
  }

  /* ---- Outcomes of the conflict operations ---- */

  function HistoryOf(row: HeadRows): seq<ClearRecord> {
    if row.history.Some? then row.history.value else []
  }

  /** conflictLatch: the active record of a head, refused unless it is a canonical
      record of that head, its sequence floor agrees and the marker covers it. */
  function LoadLatch(codec: Codec, marker: Option<Marker>, archive: Text, head: Text,
                     row: HeadRows): Result<Option<Record>> {
    match row.active
    case None => Ok(None)
    case Some(record) =>
      if && GoodRecord(codec, record) && record.request.archive == archive && record.request.head == head
         && row.sequence == Some(record.sequence)
         && marker.Some? && marker.value.archive == archive && marker.value.conflictAware
         && Covered(record, marker.value)
      then Ok(Some(record)) else Err(Internal)
  }

  predicate HistoryLoads(row: HeadRows) {
    row.history.Some? ==> ValidHistory(row.history.value)
  }

  /** The cleared sequence of a head is covered by its operator history. */
  predicate ClearedAgrees(row: HeadRows) {
    && HistoryLoads(row)
    && if row.sequence.None? then HistoryOf(row) == []
       else HistoryOf(row) != [] && LastSequence(HistoryOf(row)) == row.sequence.value
  }

  /** The history of a head ends right before its active occurrence. */
  predicate ActiveAgrees(row: HeadRows, sequence: nat) {
    && HistoryLoads(row)
    && (sequence == 1 ==> HistoryOf(row) == [])
    && (sequence > 1 ==> HistoryOf(row) != [])
    && (HistoryOf(row) != [] ==> LastSequence(HistoryOf(row)) == sequence - 1)
  }

  /** stageConflictLatch: what it answers, and whether a record is new. Rows that
      do not agree with each other are an internal fault. */
  function LatchOutcome(codec: Codec, marker: Option<Marker>, rows: map<Text, HeadRows>,
                        input: Request): Result<(Record, bool)> {
    if !ValidIdentity(input.archive, input.head) || !codec.good(input) then Err(Malformed)
    else if marker.None? || marker.value.archive != input.archive || marker.value.revision != input.setRevision
         || marker.value.digest != input.setDigest
    then Err(Conflict)
    else
      var row := RowsOf(rows, input.head);
      var active :- LoadLatch(codec, marker, input.archive, input.head, row);
      if active.Some? then
        if active.value.request == input then Ok((active.value, false)) else Err(Conflict)
      else if !ClearedAgrees(row) then Err(Internal)
      else
        var sequence := if row.sequence.Some? then row.sequence.value else 0;
        if sequence >= MAX_UINT64 then Err(Conflict)
        else Ok((Record(input, sequence + 1, codec.id(input, sequence + 1)), true))
  }

  datatype ClearRequest = ClearRequest(archive: Text, head: Text, evidence: Text, at: nat, operator: Text, note: Text)

  predicate ValidClearRequest(c: ClearRequest) {
    ValidIdentity(c.archive, c.head) && ValidClear(ClearRecord(0, c.evidence, c.at, c.operator, c.note))
  }

  /** The rows of a head of an archive; only one archive is ever active. */
  function RowsFor(marker: Option<Marker>, rows: map<Text, HeadRows>, archive: Text, head: Text): HeadRows {
    if marker.Some? && marker.value.archive == archive then RowsOf(rows, head) else NO_ROWS
  }

  /** stageClearConflictLatch: only the exact active evidence is cleared. */
  function ClearOutcome(codec: Codec, marker: Option<Marker>, rows: map<Text, HeadRows>,
                        c: ClearRequest): Result<ClearRecord> {
    if !ValidClearRequest(c) then Err(Malformed)
    else
      var row := RowsFor(marker, rows, c.archive, c.head);
      var active :- LoadLatch(codec, marker, c.archive, c.head, row);
      if active.None? || active.value.evidence != c.evidence then Err(Conflict)
      else if !ActiveAgrees(row, active.value.sequence) then Err(Internal)
      else Ok(ClearRecord(active.value.sequence, c.evidence, c.at, c.operator, c.note))
  }

  /** Rows that startup validation accepts always agree: the internal faults of
      latching and clearing cannot occur. */
  lemma {:induction false} RowsAlwaysAgree(codec: Codec, marker: Option<Marker>, rows: map<Text, HeadRows>,
                                           input: Request, c: ClearRequest)
    requires StateAccepted(codec, marker, rows)
    ensures LatchOutcome(codec, marker, rows, input) != Err(Internal)
    ensures ClearOutcome(codec, marker, rows, c) != Err(Internal)
  {
    LatchIsConsistent(codec, marker, rows, input);
    ClearIsConsistent(codec, marker, rows, c);
  }

  lemma {:induction false} LatchIsConsistent(codec: Codec, marker: Option<Marker>, rows: map<Text, HeadRows>,
                                             input: Request)
    requires StateAccepted(codec, marker, rows)
    ensures LatchOutcome(codec, marker, rows, input) != Err(Internal)
  {
    if input.head in rows { RowAgrees(codec, marker.value, input.head, rows[input.head]); }
  }

  lemma {:induction false} ClearIsConsistent(codec: Codec, marker: Option<Marker>, rows: map<Text, HeadRows>,
                                             c: ClearRequest)
    requires StateAccepted(codec, marker, rows)
    ensures ClearOutcome(codec, marker, rows, c) != Err(Internal)
  {
    if c.head in rows { RowAgrees(codec, marker.value, c.head, rows[c.head]); }
  }

  lemma {:induction false} RowAgrees(codec: Codec, marker: Marker, head: Text, row: HeadRows)
    requires RowsAccepted(codec, marker, head, row)
    ensures row.active.None? ==> ClearedAgrees(row)
    ensures row.active.Some? ==> ActiveAgrees(row, row.active.value.sequence)
  {
  }

  /** A canonical request of the very roster that is active. */
  predicate Entitled(codec: Codec, marker: Option<Marker>, input: Request) {
    && ValidIdentity(input.archive, input.head) && codec.good(input)
    && marker.Some? && marker.value.archive == input.archive
    && marker.value.revision == input.setRevision && marker.value.digest == input.setDigest
  }

  /** On accepted rows: a latch is written exactly for an entitled request of a
      head without one, at the next sequence; the latch already there is answered
      exactly for the same request. */
  lemma {:induction false} LatchIff(codec: Codec, marker: Option<Marker>, rows: map<Text, HeadRows>, input: Request,
                                    record: Record)
    requires StateAccepted(codec, marker, rows)
    ensures LatchOutcome(codec, marker, rows, input) == Ok((record, true)) <==>
            && Entitled(codec, marker, input) && RowsOf(rows, input.head).active.None?
            && record.request == input && record.sequence == FloorOf(rows, input.head) + 1 <= MAX_UINT64
            && record.evidence == codec.id(input, record.sequence)
    ensures LatchOutcome(codec, marker, rows, input) == Ok((record, false)) <==>
            Entitled(codec, marker, input) && RowsOf(rows, input.head).active == Some(record) && record.request == input
  {
    LatchIsConsistent(codec, marker, rows, input);
  }

  /** On accepted rows a clear succeeds exactly for the active record of exactly
      this evidence, and says who cleared which occurrence. */
  lemma {:induction false} ClearIff(codec: Codec, marker: Option<Marker>, rows: map<Text, HeadRows>, c: ClearRequest,
                                    record: ClearRecord)
    requires StateAccepted(codec, marker, rows)
    ensures ClearOutcome(codec, marker, rows, c) == Ok(record) <==>
            && ValidClearRequest(c) && marker.Some? && marker.value.archive == c.archive
            && c.head in rows && rows[c.head].active.Some? && rows[c.head].active.value.evidence == c.evidence
            && record.sequence == rows[c.head].active.value.sequence && record.evidence == c.evidence
            && record.at == c.at && record.operator == c.operator && record.note == c.note
  {
    ClearIsConsistent(codec, marker, rows, c);
  }

  /** The rows of a head that has just been latched. */
  function Latched(rows: map<Text, HeadRows>, record: Record): HeadRows {
    RowsOf(rows, record.request.head).(active := Some(record), sequence := Some(record.sequence))
  }

  /** The sequence floor of a head. */
  function FloorOf(rows: map<Text, HeadRows>, head: Text): nat {
    if RowsOf(rows, head).sequence.Some? then RowsOf(rows, head).sequence.value else 0
  }

  function CountOf(clears: map<Text, nat>, head: Text): nat {
    if head in clears then clears[head] else 0
  }

  /** Latching a head moves it from n clears to n clears and an active record. */
  lemma {:induction false} LatchLife(codec: Codec, marker: Marker, rows: map<Text, HeadRows>, clears: map<Text, nat>,
                                     input: Request, record: Record)
    requires Lives(codec, Some(marker), rows, clears)
    requires LatchOutcome(codec, Some(marker), rows, input) == Ok((record, true))
    ensures Life(codec, marker.(conflictAware := true), input.head, Latched(rows, record), CountOf(clears, input.head))
  {
    if input.head in rows { assert Life(codec, marker, input.head, rows[input.head], clears[input.head]); }
  }

  /** The rows of a head whose active record has just been cleared. */
  function Cleared(rows: map<Text, HeadRows>, head: Text, record: ClearRecord): HeadRows {
    HeadRows(None, RowsOf(rows, head).sequence, Some(Appended(HistoryOf(RowsOf(rows, head)), record)))
  }

  /** Clearing a head moves its active record into the history. */
  lemma {:induction false} ClearLife(codec: Codec, marker: Marker, rows: map<Text, HeadRows>, clears: map<Text, nat>,
                                     c: ClearRequest, record: ClearRecord)
    requires Lives(codec, Some(marker), rows, clears) && ClearOutcome(codec, Some(marker), rows, c) == Ok(record)
    ensures marker.conflictAware
    ensures Life(codec, marker, c.head, Cleared(rows, c.head, record), CountOf(clears, c.head) + 1)
  {
    assert Life(codec, marker, c.head, rows[c.head], clears[c.head]);
    RingStep(HistoryOf(rows[c.head]), clears[c.head], record);
  }

  lemma {:induction false} LatchKeepsLives(codec: Codec, marker: Marker, rows: map<Text, HeadRows>,
                                           clears: map<Text, nat>,
                                           input: Request, record: Record)
    requires Lives(codec, Some(marker), rows, clears)
    requires LatchOutcome(codec, Some(marker), rows, input) == Ok((record, true))
    ensures Lives(codec, Some(marker.(conflictAware := true)), rows[input.head := Latched(rows, record)],
                  clears[input.head := CountOf(clears, input.head)])
    ensures record.sequence > FloorOf(rows, input.head)
  {
    LatchLife(codec, marker, rows, clears, input, record);
    LivesStep(codec, marker, marker.(conflictAware := true), rows, clears, input.head, Latched(rows, record),
      CountOf(clears, input.head));
  }

  lemma {:induction false} ClearKeepsLives(codec: Codec, marker: Marker, rows: map<Text, HeadRows>,
                                           clears: map<Text, nat>, c: ClearRequest, record: ClearRecord)
    requires Lives(codec, Some(marker), rows, clears) && ClearOutcome(codec, Some(marker), rows, c) == Ok(record)
    ensures Lives(codec, Some(marker), rows[c.head := Cleared(rows, c.head, record)],
                  clears[c.head := CountOf(clears, c.head) + 1])
  {
    var n, row := CountOf(clears, c.head) + 1, Cleared(rows, c.head, record);
    ClearLife(codec, marker, rows, clears, c, record);
    LivesStep(codec, marker, marker, rows, clears, c.head, row, n);
  }

  /** What is cleared is the active record of exactly this evidence. */
  lemma {:induction false} ClearedWasActive(codec: Codec, marker: Option<Marker>, rows: map<Text, HeadRows>,
                                            c: ClearRequest, record: ClearRecord)
    requires ClearOutcome(codec, marker, rows, c) == Ok(record)
    ensures marker.Some? && RowsOf(rows, c.head).active.Some? && RowsOf(rows, c.head).sequence.Some?
    ensures var active := RowsOf(rows, c.head).active.value;
            active.evidence == c.evidence == record.evidence && active.sequence == record.sequence
  {
  }

  /** What a later state keeps of an earlier one. */
  ghost predicate Keeps(m: Option<Marker>, m': Option<Marker>, f: map<Text, Text>, f': map<Text, Text>,
                        rows: map<Text, HeadRows>, rows': map<Text, HeadRows>) {
    && (m.Some? ==> m'.Some? && Succeeds(m.value, m'.value))
    && (forall id | id in f :: id in f' && f'[id] == f[id])
    && (forall h | h in rows && rows[h].sequence.Some? ::
          h in rows' && rows'[h].sequence.Some? && rows[h].sequence.value <= rows'[h].sequence.value)
  }

  /** Rewriting the rows of one head keeps the state if its floor does not fall. */
  lemma {:induction false} KeepsRow(m: Marker, f: map<Text, Text>, rows: map<Text, HeadRows>, head: Text, row: HeadRows)
    requires row.sequence.Some?
    requires RowsOf(rows, head).sequence.Some? ==> RowsOf(rows, head).sequence.value <= row.sequence.value
    ensures Keeps(Some(m), Some(m), f, f, rows, rows[head := row])
    ensures Keeps(Some(m), Some(m.(conflictAware := true)), f, f, rows, rows[head := row])
  {
  }

  lemma {:induction false} ClearFollows(codec: Codec, marker: Option<Marker>, forward: map<Text, Text>,
                                        rows: map<Text, HeadRows>, clears: map<Text, nat>, c: ClearRequest,
                                        r: Result<ClearRecord>)
    requires r == ClearOutcome(codec, marker, rows, c)
    ensures Lives(codec, marker, rows, clears) ==> r != Err(Internal)
    ensures r.Ok? ==> marker.Some? && RowsOf(rows, c.head).active.Some?
    ensures r.Ok? ==>
              var active := RowsOf(rows, c.head).active.value;
              active.evidence == c.evidence == r.value.evidence && active.sequence == r.value.sequence
    ensures r.Ok? && Lives(codec, marker, rows, clears) ==>
              && Lives(codec, marker, rows[c.head := Cleared(rows, c.head, r.value)],
                       clears[c.head := CountOf(clears, c.head) + 1])
              && Keeps(marker, marker, forward, forward, rows, rows[c.head := Cleared(rows, c.head, r.value)])
  {
    if r.Ok? { ClearedWasActive(codec, marker, rows, c, r.value); }
    if Lives(codec, marker, rows, clears) {
      LivesAreAccepted(codec, marker, rows, clears);
      ClearIsConsistent(codec, marker, rows, c);
      if r.Ok? {
        ClearKeepsLives(codec, marker.value, rows, clears, c, r.value);
        KeepsRow(marker.value, forward, rows, c.head, Cleared(rows, c.head, r.value));
      }
    }
  }

  lemma {:induction false} KeepsTransitive(m0: Option<Marker>, m1: Option<Marker>, m2: Option<Marker>,
                                           f0: map<Text, Text>, f1: map<Text, Text>, f2: map<Text, Text>,
                                           r0: map<Text, HeadRows>, r1: map<Text, HeadRows>, r2: map<Text, HeadRows>)
    requires Keeps(m0, m1, f0, f1, r0, r1) && Keeps(m1, m2, f1, f2, r1, r2)
    ensures Keeps(m0, m2, f0, f2, r0, r2)
  {
  }

  class Store {
    const codec: Codec
    var marker: Option<Marker>
    var forward: map<Text, Text>
    var reverse: map<Text, Text>
    var rows: map<Text, HeadRows>
    /** How often each head has been cleared. */
    ghost var clears: map<Text, nat>

    ghost predicate Valid()
      reads this
    {
      && Bijection(forward, reverse) && Lives(codec, marker, rows, clears)
      && (if marker.Some? then !Zero(marker.value.archive) else forward == map[])
    }

    constructor (codec: Codec)
      ensures Valid() && this.codec == codec && marker.None? && rows == map[] && forward == map[] && clears == map[]
    {
      this.codec := codec;
      marker, forward, reverse, rows, clears := None, map[], map[], map[], map[];
    }

    /** Activating a roster binds its new sources, or changes nothing. */
    method Activate(next: Marker, bs: seq<Binding>) returns (ok: bool)
      requires Valid()
      modifies this`marker, this`forward, this`reverse
      ensures Valid()
      ensures ok <==> Activatable(old(marker), old(forward), old(reverse), next, bs)
      ensures ok ==> Bound(old(forward), forward, bs, |bs|)
      ensures ok ==> marker == Some(next.(conflictAware := old(marker).Some? && old(marker).value.conflictAware))
      ensures !ok ==> marker == old(marker) && forward == old(forward) && reverse == old(reverse)
      ensures Keeps(old(marker), marker, old(forward), forward, rows, rows)
    {
      if !ValidMarker(next) { return false; }
      var valid := ValidateBindings(bs);
      if !valid { return false; }
      if marker.Some? {
        var m := marker.value;
        if m.archive != next.archive || next.revision < m.revision { return false; }
        if next.revision == m.revision && next.digest != m.digest { return false; }
      } else if next.conflictAware {
        return false;
      }
      var f, r, bound := StageBindings(next, bs);
      if !bound { return false; }
      var features := if marker.Some? then marker.value.conflictAware else false;
      if marker.Some? { LivesUnderNewMarker(codec, marker.value, next.(conflictAware := features), rows, clears); }
      marker, forward, reverse := Some(next.(conflictAware := features)), f, r;
      return true;
    }

    /** The binding loop, against the committed tables. */
    method StageBindings(next: Marker, bs: seq<Binding>) returns (f: map<Text, Text>, r: map<Text, Text>, ok: bool)
      requires Valid() && ValidBindings(bs)
      ensures ok <==> && (forall i | 0 <= i < |bs| :: Bindable(forward, reverse, bs[i]))
                      && (marker.Some? && marker.value.digest == next.digest ==>
                            forall i | 0 <= i < |bs| :: bs[i].id in forward)
      ensures ok ==> Bijection(f, r) && Bound(forward, f, bs, |bs|)
    {
      f, r, ok := forward, reverse, true;
      for i := 0 to |bs|
        invariant forall k | 0 <= k < i :: Bindable(forward, reverse, bs[k])
        invariant marker.Some? && marker.value.digest == next.digest ==> forall k | 0 <= k < i :: bs[k].id in forward
        invariant Bijection(f, r) && Bound(forward, f, bs, i)
      {
        var b := bs[i];
        if !Bindable(forward, reverse, b) { return f, r, false; }
        NeverHalfBound(forward, reverse, b);
        BoundStep(forward, f, bs, i);
        if b.id !in forward {
          if marker.Some? && marker.value.digest == next.digest { return f, r, false; }
          NewKey(forward, reverse, f, r, bs, i);
          BindStep(f, r, b);
          f, r := f[b.id := b.key], r[b.key := b.id];
        }
      }
    }

    /** Latching: a new record, the one already active, or a refusal. A new
        record, its sequence floor and the marker's feature bit go together. */
    method Latch(input: Request) returns (r: Result<(Record, bool)>)
      modifies this`marker, this`rows, this`clears
      ensures old(Valid()) ==> Valid() && r != Err(Internal)
      ensures r == LatchOutcome(codec, old(marker), old(rows), input)
      ensures r.Ok? && r.value.1 ==>
                && marker == Some(old(marker).value.(conflictAware := true))
                && rows == old(rows)[input.head := Latched(old(rows), r.value.0)]
                && clears == old(clears)[input.head := CountOf(old(clears), input.head)]
      ensures !(r.Ok? && r.value.1) ==> marker == old(marker) && rows == old(rows) && clears == old(clears)
      ensures r.Ok? && r.value.1 ==> FloorOf(old(rows), input.head) < r.value.0.sequence == FloorOf(rows, input.head)
      ensures r.Ok? ==> r.value.0.request == input && RowsOf(rows, input.head).active == Some(r.value.0)
      ensures old(Valid()) ==> Keeps(old(marker), marker, forward, forward, old(rows), rows)
    {
      ghost var valid := Valid();
      r := LatchOutcome(codec, marker, rows, input);
      if valid {
        LivesAreAccepted(codec, marker, rows, clears);
        LatchIsConsistent(codec, marker, rows, input);
      }
      if r.Err? || !r.value.1 { return; }
      var record := r.value.0;
      if valid {
        LatchKeepsLives(codec, marker.value, rows, clears, input, record);
        KeepsRow(marker.value, forward, rows, input.head, Latched(rows, record));
      }
      clears := clears[input.head := CountOf(clears, input.head)];
      rows := rows[input.head := Latched(rows, record)];
      marker := Some(marker.value.(conflictAware := true));
    }

    /** Clearing: the active record of exactly this evidence moves into the
        history; the sequence floor and the feature bit stay. */
    method Clear(c: ClearRequest) returns (r: Result<ClearRecord>)
      modifies this`rows, this`clears
      ensures old(Valid()) ==> Valid() && r != Err(Internal)
      ensures r == ClearOutcome(codec, marker, old(rows), c)
      ensures r.Ok? ==>
                && rows == old(rows)[c.head := Cleared(old(rows), c.head, r.value)]
                && clears == old(clears)[c.head := CountOf(old(clears), c.head) + 1]
      ensures r.Err? ==> rows == old(rows) && clears == old(clears)
      ensures r.Ok? ==> RowsOf(old(rows), c.head).active.Some? && RowsOf(rows, c.head).active.None?
      ensures r.Ok? ==>
                var active := RowsOf(old(rows), c.head).active.value;
                active.evidence == c.evidence == r.value.evidence && active.sequence == r.value.sequence
      ensures old(Valid()) ==> Keeps(marker, marker, forward, forward, old(rows), rows)
    {
      r := ClearOutcome(codec, marker, rows, c);
      ClearFollows(codec, marker, forward, rows, clears, c, r);
      if r.Err? { return; }
      clears := clears[c.head := CountOf(clears, c.head) + 1];
      rows := rows[c.head := Cleared(rows, c.head, r.value)];
    }
  }

  /** A key that is new to the store is new to the batch as well. */
  lemma {:induction false} NewKey(forward: map<Text, Text>, reverse: map<Text, Text>, f: map<Text, Text>,
                                  r: map<Text, Text>,
                                  bs: seq<Binding>, n: nat)
    requires n < |bs| && ValidBindings(bs) && Bound(forward, f, bs, n) && Bijection(f, r)
    requires Bijection(forward, reverse) && Bindable(forward, reverse, bs[n]) && bs[n].id !in forward
    ensures bs[n].id !in f && bs[n].key !in r
  {
    NeverHalfBound(forward, reverse, bs[n]);
  }

  /* ---- Startup and runs ---- */

  /** Conflict rows are stored under an archive and a head. */
  datatype RowKey = RowKey(archive: Text, head: Text)

  ghost predicate KeysOk(stored: map<RowKey, HeadRows>, archive: Text) {
    forall k | k in stored :: k.archive == archive && ValidIdentity(k.archive, k.head)
  }

  /** The rows of one archive by head, and back. */
  ghost function ByHead(stored: map<RowKey, HeadRows>, archive: Text): map<Text, HeadRows> {
    map k | k in stored && k.archive == archive :: k.head := stored[k]
  }

  ghost function Keyed(archive: Text, rows: map<Text, HeadRows>): map<RowKey, HeadRows> {
    map head | head in rows :: RowKey(archive, head) := rows[head]
  }

  /** validateConflictState: every row belongs to the archive, and the rows of all
      heads are accepted. */
  ghost predicate StoredAccepted(codec: Codec, marker: Option<Marker>, stored: map<RowKey, HeadRows>, archive: Text) {
    && !Zero(archive) && KeysOk(stored, archive)
    && (marker.Some? ==> marker.value.archive == archive)
    && StateAccepted(codec, marker, ByHead(stored, archive))
  }

  /** scanConflictNamespace: the rows by head, or a refusal of their keys. */
  method ScanRows(stored: map<RowKey, HeadRows>, archive: Text) returns (ok: bool, rows: map<Text, HeadRows>)
    ensures ok <==> KeysOk(stored, archive)
    ensures ok ==> rows == ByHead(stored, archive)
  {
    var todo := stored.Keys;
    rows := map[];
    while todo != {}
      invariant todo <= stored.Keys
      invariant forall k | k in stored && k !in todo :: k.archive == archive && ValidIdentity(k.archive, k.head)
      invariant forall k | k in stored && k !in todo :: k.head in rows && rows[k.head] == stored[k]
      invariant forall h | h in rows :: RowKey(archive, h) in stored && RowKey(archive, h) !in todo
      decreases |todo|
    {
      var k :| k in todo;
      if !ValidIdentity(k.archive, k.head) || k.archive != archive { return false, rows; }
      rows := rows[k.head := stored[k]];
      todo := todo - {k};
    }
    return true, rows;
  }

  /** validateConflictState, head by head. */
  method ValidateConflictState(codec: Codec, marker: Option<Marker>, stored: map<RowKey, HeadRows>, archive: Text)
    returns (ok: bool)
    ensures ok <==> StoredAccepted(codec, marker, stored, archive)
  {
    if Zero(archive) { return false; }
    var scanned, rows := ScanRows(stored, archive);
    if !scanned { return false; }
    if marker.Some? && marker.value.archive != archive { return false; }
    if rows == map[] { return !(marker.Some? && marker.value.conflictAware); }
    if marker.None? || !marker.value.conflictAware { return false; }
    var todo := rows.Keys;
    while todo != {}
      invariant todo <= rows.Keys
      invariant forall h | h in rows && h !in todo :: RowsAccepted(codec, marker.value, h, rows[h])
      decreases |todo|
    {
      var h :| h in todo;
      if !RowsAccepted(codec, marker.value, h, rows[h]) { return false; }
      todo := todo - {h};
    }
    return true;
  }

  /** What a store keeps under its archive passes startup validation. */
  lemma {:induction false} LivesAreStored(codec: Codec, marker: Marker, rows: map<Text, HeadRows>,
                                          clears: map<Text, nat>)
    requires Lives(codec, Some(marker), rows, clears) && !Zero(marker.archive)
    ensures StoredAccepted(codec, Some(marker), Keyed(marker.archive, rows), marker.archive)
  {
    var stored := Keyed(marker.archive, rows);
    forall k | k in stored ensures k.archive == marker.archive && ValidIdentity(k.archive, k.head) {
      assert Life(codec, marker, k.head, rows[k.head], clears[k.head]);
    }
    assert ByHead(stored, marker.archive) == rows;
    LivesAreAccepted(codec, Some(marker), rows, clears);
  }

  datatype Op = ActivateOp(next: Marker,
                           bindings: seq<Binding>) | LatchOp(input: Request) | ClearOp(clear: ClearRequest)

  /** Any run of activations, latches and clears keeps the store acceptable to
      startup validation. No binding is ever changed or removed, the roster
      revision never falls and equal revisions carry equal digests, no head's
      sequence number falls, and the feature bit is never lost. */
  method Execute(s: Store, ops: seq<Op>)
    requires s.Valid()
    modifies s
    ensures s.Valid() && StateAccepted(s.codec, s.marker, s.rows)
    ensures s.marker.Some? ==>
      StoredAccepted(s.codec, s.marker, Keyed(s.marker.value.archive, s.rows), s.marker.value.archive)
    ensures Keeps(old(s.marker), s.marker, old(s.forward), s.forward, old(s.rows), s.rows)
  {
    for i := 0 to |ops|
      invariant s.Valid()
      invariant Keeps(old(s.marker), s.marker, old(s.forward), s.forward, old(s.rows), s.rows)
    {
      ghost var m, f, r := s.marker, s.forward, s.rows;
      match ops[i] {
        case ActivateOp(next, bindings) => var _ := s.Activate(next, bindings);
        case LatchOp(input) => var _ := s.Latch(input);
        case ClearOp(clear) => var _ := s.Clear(clear);
      }
      KeepsTransitive(old(s.marker), m, s.marker, old(s.forward), f, s.forward, old(s.rows), r, s.rows);
    }
    LivesAreAccepted(s.codec, s.marker, s.rows, s.clears);
    if s.marker.Some? { LivesAreStored(s.codec, s.marker.value, s.rows, s.clears); }
  }

  /** In every reachable store a head's history is the last min(16, clears) of
      its consecutive sequence numbers, and an active record is one past it. */
  lemma {:induction false} HistoryOfHead(s: Store, head: Text)
    requires s.Valid() && head in s.rows
    ensures head in s.clears
    ensures var row, n := s.rows[head], s.clears[head];
            && |HistoryOf(row)| == (if n < MAX_CLEAR_HISTORY then n else MAX_CLEAR_HISTORY)
            && LastSequence(HistoryOf(row)) == n
            && (forall i | 0 <= i < |HistoryOf(row)| :: HistoryOf(row)[i].sequence == n - |HistoryOf(row)| + i + 1)
            && row.sequence == Some(if row.active.Some? then n + 1 else n)
            && (row.active.Some? ==> row.active.value.sequence == n + 1)
  {
    assert Life(s.codec, s.marker.value, head, s.rows[head], s.clears[head]);
  }
}
