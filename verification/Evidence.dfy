/** Durable conflict evidence (follow/conflict_state.go): canonical requests, and
    the encodings of active records and of the operators' clear history. */
module Evidence {
  import opened Arith
  import opened Dag
  import opened Bytes

  const ENCODING_V1: byte := 1
  const MAX_HEAD_BYTES: nat := 255
  const MAX_CID_BYTES: nat := 256
  const MAX_SOURCE_ID_BYTES: nat := 63
  const MAX_PAIRS: nat := 496
  const MAX_CLEAR_HISTORY: nat := 16
  const MAX_OPERATOR_BYTES: nat := 63
  const MAX_NOTE_BYTES: nat := 512

  const SOURCE: byte := 1
  const DURABLE: byte := 2

  const EQUAL_COVERAGE: byte := 1
  const PREFIX_PROJECTION: byte := 2
  const MANIFEST_BRANCH: byte := 3

  /** One side of a conflict. CIDs are their bytes, empty when undefined. */
  datatype Summary = Summary(role: byte, version: byte, source: seq<byte>, revision: nat, digest: seq<byte>,
                             root: seq<byte>, synced: nat, covered: bool, manifest: seq<byte>)

  datatype Request = Request(archive: seq<byte>, head: seq<byte>, reason: byte, setRevision: nat, setDigest: seq<byte>,
                             pairs: nat, left: Summary, right: Summary)

  /** The values a Go struct of these fields can hold. */
  predicate TypedSummary(c: Summary) {
    |c.digest| == 32 && c.revision <= MAX_UINT64 && c.synced <= MAX_UINT64
  }

  predicate Typed(r: Request) {
    && |r.archive| == 32 && |r.setDigest| == 32 && r.setRevision <= MAX_UINT64 && r.pairs < 0x1_0000
    && TypedSummary(r.left) && TypedSummary(r.right)
  }

  predicate Zero(b: seq<byte>) {
    forall i | 0 <= i < |b| :: b[i] == 0
  }

  predicate ValidSourceId(s: seq<byte>) {
    && 1 <= |s| <= MAX_SOURCE_ID_BYTES
    && forall i | 0 <= i < |s| ::
         || 97 <= s[i] <= 122
         || 48 <= s[i] <= 57
         || (s[i] == 45 && 0 < i < |s| - 1)
  }

  predicate ValidText(s: seq<byte>) {
    forall i | 0 <= i < |s| :: s[i] != 0
  }

  /** validateConflictIdentity. */
  predicate ValidIdentity(archive: seq<byte>, head: seq<byte>) {
    !Zero(archive) && 1 <= |head| <= MAX_HEAD_BYTES && ValidText(head)
  }

  /** validateConflictCandidate. */
  predicate ValidSummary(c: Summary) {
    && (c.role == SOURCE || c.role == DURABLE)
    && (c.role == SOURCE ==> c.version == 0 && ValidSourceId(c.source) && c.revision != 0 && !Zero(c.digest))
    && (c.role == DURABLE ==>
          && 1 <= c.version <= 4
          && (c.version != 4 ==> c.revision == 0 && Zero(c.digest) && c.source == [])
          && (c.version == 4 ==> ValidSourceId(c.source) && c.revision != 0 && !Zero(c.digest)))
    && 1 <= |c.root| <= MAX_CID_BYTES && |c.manifest| <= MAX_CID_BYTES
    && (!c.covered ==> c.synced == 0)
  }

  /** validateConflictReasonEvidence. */
  predicate ReasonHolds(reason: byte, a: Summary, b: Summary) {
    if reason == EQUAL_COVERAGE then a.covered == b.covered && a.synced == b.synced && a.root != b.root
    else if reason == PREFIX_PROJECTION then !(a.covered == b.covered && a.synced == b.synced)
    else a.manifest != [] && b.manifest != [] && a.manifest != b.manifest
  }

  /** Everything NewConflictLatchRequest checks, apart from the order. */
  predicate ValidRequest(r: Request) {
    && ValidIdentity(r.archive, r.head)
    && EQUAL_COVERAGE <= r.reason <= MANIFEST_BRANCH
    && r.setRevision != 0 && !Zero(r.setDigest)
    && 1 <= r.pairs <= MAX_PAIRS
    && ValidSummary(r.left) && ValidSummary(r.right) && r.left != r.right
    && !(r.left.role == DURABLE && r.right.role == DURABLE)
    && !(r.left.role == SOURCE && r.right.role == SOURCE && r.left.source == r.right.source)
    && ReasonHolds(r.reason, r.left, r.right)
  }

  /* ---- Canonical order ---- */

  function Flag(b: bool): byte {
    if b then 1 else 0
  }

  /** conflictCandidateOrderBytes. */
  function OrderBytes(c: Summary): seq<byte> {
    PutInt(c.role, 1, PutInt(c.version, 1, PutSized(c.source, 1, PutInt(c.revision, 8, Put(c.digest,
      PutSized(c.root, 2, PutInt(c.synced, 8, PutInt(Flag(c.covered), 1, PutSized(c.manifest, 2, [])))))))))
  }

  predicate Ahead(a: Summary, b: Summary) {
    Less(OrderBytes(a), OrderBytes(b), 0)
  }

  /** Different candidates never have the same order bytes. */
  lemma {:induction false} OrderInjective(a: Summary, b: Summary)
    requires TypedSummary(a) && TypedSummary(b) && ValidSummary(a) && ValidSummary(b)
    requires OrderBytes(a) == OrderBytes(b)
    ensures a == b
  {
    Widths();
    var a9, b9 := PutSized(a.manifest, 2, []), PutSized(b.manifest, 2, []);
    var a8, b8 := PutInt(Flag(a.covered), 1, a9), PutInt(Flag(b.covered), 1, b9);
    var a7, b7 := PutInt(a.synced, 8, a8), PutInt(b.synced, 8, b8);
    var a6, b6 := PutSized(a.root, 2, a7), PutSized(b.root, 2, b7);
    var a5, b5 := Put(a.digest, a6), Put(b.digest, b6);
    var a4, b4 := PutInt(a.revision, 8, a5), PutInt(b.revision, 8, b5);
    var a3, b3 := PutSized(a.source, 1, a4), PutSized(b.source, 1, b4);
    var a2, b2 := PutInt(a.version, 1, a3), PutInt(b.version, 1, b3);
    PutIntCancels(a.role, b.role, 1, a2, b2);
    PutIntCancels(a.version, b.version, 1, a3, b3);
    PutSizedCancels(a.source, b.source, 1, a4, b4);
    PutIntCancels(a.revision, b.revision, 8, a5, b5);
    PutCancels(a.digest, b.digest, a6, b6);
    PutSizedCancels(a.root, b.root, 2, a7, b7);
    PutIntCancels(a.synced, b.synced, 8, a8, b8);
    PutIntCancels(Flag(a.covered), Flag(b.covered), 1, a9, b9);
    PutSizedCancels(a.manifest, b.manifest, 2, [], []);
  }

  /** NewConflictLatchRequest: validated, with the lesser endpoint on the left. */
  function NewRequest(input: Request): Option<Request> {
    if !ValidRequest(input) then None
    else if Ahead(input.right, input.left) then Some(input.(left := input.right, right := input.left))
    else Some(input)
  }

  /** Swapping the endpoints of the input does not change the request. */
  lemma {:induction false} SwapIsIrrelevant(input: Request)
    requires Typed(input)
    ensures NewRequest(input.(left := input.right, right := input.left)) == NewRequest(input)
  {
    if ValidRequest(input) {
      var a, b := input.left, input.right;
      if OrderBytes(a) == OrderBytes(b) { OrderInjective(a, b); }
      LessTotal(OrderBytes(a), OrderBytes(b), 0);
    }
  }

  /** Whatever is valid makes a request, which differs from the input at most in
      which side is which: the side with the lesser bytes is the left one. */
  lemma {:induction false} RequestKeepsSides(input: Request)
    requires Typed(input)
    ensures NewRequest(input).Some? <==> ValidRequest(input)
    ensures NewRequest(input).Some? ==>
              var r := NewRequest(input).value;
              && ((r.left == input.left && r.right == input.right) || (r.left == input.right && r.right == input.left))
              && r == input.(left := r.left, right := r.right) && Ahead(r.left, r.right)
  {
    if ValidRequest(input) {
      var a, b := input.left, input.right;
      if OrderBytes(a) == OrderBytes(b) { OrderInjective(a, b); }
      LessTotal(OrderBytes(a), OrderBytes(b), 0);
    }
  }

  /** A request is canonical: building it again changes nothing. */
  lemma {:induction false} RequestIsCanonical(input: Request)
    requires Typed(input) && NewRequest(input).Some?
    ensures Typed(NewRequest(input).value) && NewRequest(NewRequest(input).value) == NewRequest(input)
  {
    var a, b := input.left, input.right;
    LessTotal(OrderBytes(a), OrderBytes(b), 0);
  }

  /* ---- Encoding a candidate ---- */

  function Flags(c: Summary): byte {
    Flag(c.covered) + (if c.manifest != [] then 2 else 0)
  }

  /** appendConflictCandidate: the claim, after its provenance. */
  function PutClaim(c: Summary, rest: seq<byte>): seq<byte> {
    PutInt(Flags(c), 1, PutInt(c.synced, 8, PutSized(c.root, 2, PutSized(c.manifest, 2, rest))))
  }

  function PutSummary(c: Summary, rest: seq<byte>): seq<byte> {
    PutInt(c.role, 1, PutInt(c.version, 1,
      PutSized(c.source, 1, PutInt(c.revision, 8, Put(c.digest, PutClaim(c, rest))))))
  }

  /** decodeConflictCandidate. */
  function TakeClaim(s: seq<byte>): Parsed<(nat, seq<byte>, bool, seq<byte>)> {
    var (flags, s1) :- TakeInt(s, 1);
    if flags > 3 then Err(Malformed) else
      var (synced, s2) :- TakeInt(s1, 8);
      var (root, s3) :- TakeSized(s2, 2, MAX_CID_BYTES);
      if root == [] then Err(Malformed) else
        var (manifest, s4) :- TakeSized(s3, 2, MAX_CID_BYTES);
        if (manifest != []) != (flags >= 2) then Err(Malformed) else
          Ok(((synced, root, flags % 2 == 1, manifest), s4))
  }

  function TakeSummary(s: seq<byte>): Parsed<Summary> {
    var (role, s1) :- TakeInt(s, 1);
    var (version, s2) :- TakeInt(s1, 1);
    var (source, s3) :- TakeSized(s2, 1, MAX_SOURCE_ID_BYTES);
    var (revision, s4) :- TakeInt(s3, 8);
    var (digest, s5) :- Take(s4, 32);
    var (claim, s6) :- TakeClaim(s5);
    if role > 255 || version > 255 then Err(Malformed)
    else Ok((Summary(role, version, source, revision, digest, claim.1, claim.0, claim.2, claim.3), s6))
  }

  lemma {:induction false} ClaimRoundTrip(c: Summary, rest: seq<byte>)
    requires TypedSummary(c) && ValidSummary(c)
    ensures TakeClaim(PutClaim(c, rest)) == Ok(((c.synced, c.root, c.covered, c.manifest), rest))
  {
    Widths();
    var r4 := PutSized(c.manifest, 2, rest);
    var r3 := PutSized(c.root, 2, r4);
    var r2 := PutInt(c.synced, 8, r3);
    TakePutInt(Flags(c), 1, r2);
    TakePutInt(c.synced, 8, r3);
    TakePutSized(c.root, 2, MAX_CID_BYTES, r4);
    TakePutSized(c.manifest, 2, MAX_CID_BYTES, rest);
  }

  lemma {:induction false} SummaryRoundTrip(c: Summary, rest: seq<byte>)
    requires TypedSummary(c) && ValidSummary(c)
    ensures TakeSummary(PutSummary(c, rest)) == Ok((c, rest))
  {
    Widths();
    var r6 := PutClaim(c, rest);
    var r5 := Put(c.digest, r6);
    var r4 := PutInt(c.revision, 8, r5);
    var r3 := PutSized(c.source, 1, r4);
    var r2 := PutInt(c.version, 1, r3);
    TakePutInt(c.role, 1, r2);
    TakePutInt(c.version, 1, r3);
    TakePutSized(c.source, 1, MAX_SOURCE_ID_BYTES, r4);
    TakePutInt(c.revision, 8, r5);
    TakePut(c.digest, r6, 32);
    ClaimRoundTrip(c, rest);
  }

  /* ---- Encoding a record ---- */

  /** The canonical bytes of a request and its sequence number. */
  function PutRequest(r: Request, sequence: nat, rest: seq<byte>): seq<byte> {
    PutInt(ENCODING_V1, 1, Put(r.archive, PutSized(r.head, 2, PutInt(sequence, 8, PutInt(r.reason, 1,
      PutInt(r.setRevision, 8, Put(r.setDigest, PutInt(r.pairs, 2, PutSummary(r.left, PutSummary(r.right, rest))))))))))
  }

  /** encodeConflictRequest. */
  function Canonical(input: Request, sequence: nat): Option<seq<byte>> {
    match NewRequest(input)
    case None => None
    case Some(r) => Some(PutRequest(r, sequence, []))
  }

  function TakeRequest(s: seq<byte>): Parsed<(Request, nat)> {
    var (version, s1) :- TakeInt(s, 1);
    if version != ENCODING_V1 then Err(Malformed) else
      var (archive, s2) :- Take(s1, 32);
      var (head, s3) :- TakeSized(s2, 2, MAX_HEAD_BYTES);
      var (sequence, s4) :- TakeInt(s3, 8);
      var (reason, s5) :- TakeInt(s4, 1);
      var (setRevision, s6) :- TakeInt(s5, 8);
      var (setDigest, s7) :- Take(s6, 32);
      var (pairs, s8) :- TakeInt(s7, 2);
      var (left, s9) :- TakeSummary(s8);
      var (right, s10) :- TakeSummary(s9);
      if reason > 255 then Err(Malformed)
      else Ok(((Request(archive, head, reason, setRevision, setDigest, pairs, left, right), sequence), s10))
  }

  lemma {:induction false} RequestRoundTrip(r: Request, sequence: nat, rest: seq<byte>)
    requires Typed(r) && ValidRequest(r) && sequence <= MAX_UINT64
    ensures TakeRequest(PutRequest(r, sequence, rest)) == Ok(((r, sequence), rest))
  {
    Widths();
    var r10 := PutSummary(r.right, rest);
    var r9 := PutSummary(r.left, r10);
    var r8 := PutInt(r.pairs, 2, r9);
    var r7 := Put(r.setDigest, r8);
    var r6 := PutInt(r.setRevision, 8, r7);
    var r5 := PutInt(r.reason, 1, r6);
    var r4 := PutInt(sequence, 8, r5);
    var r3 := PutSized(r.head, 2, r4);
    var r2 := Put(r.archive, r3);
    TakePutInt(ENCODING_V1, 1, r2);
    TakePut(r.archive, r3, 32);
    TakePutSized(r.head, 2, MAX_HEAD_BYTES, r4);
    TakePutInt(sequence, 8, r5);
    TakePutInt(r.reason, 1, r6);
    TakePutInt(r.setRevision, 8, r7);
    TakePut(r.setDigest, r8, 32);
    TakePutInt(r.pairs, 2, r9);
    SummaryRoundTrip(r.left, r10);
    SummaryRoundTrip(r.right, rest);
  }

  /** SHA-256 under the evidence domain. */
  type Hash = seq<byte> -> seq<byte>

  ghost predicate Width32(hash: Hash) {
    forall b: seq<byte> {:trigger hash(b)} :: |hash(b)| == 32
  }

  datatype Record = Record(request: Request, sequence: nat, evidence: seq<byte>)

  /** recordFromRequest. */
  function RecordOf(hash: Hash, request: Request, sequence: nat): Option<Record> {
    if sequence == 0 then None else
      match Canonical(request, sequence)
      case None => None
      case Some(bytes) => Some(Record(request, sequence, hash(bytes)))
  }

  /** encodeConflictRecord: the canonical bytes, then the evidence ID. */
  function EncodeRecord(hash: Hash, record: Record): Option<seq<byte>> {
    match NewRequest(record.request)
    case None => None
    case Some(r) =>
      if record.sequence == 0 || record.evidence != hash(PutRequest(r, record.sequence, [])) then None
      else Some(PutRequest(r, record.sequence, record.evidence))
  }

  /** decodeConflictRecord: parse, then insist on the canonical bytes. */
  function DecodeRecord(hash: Hash, b: seq<byte>): Option<Record> {
    match TakeRequest(b)
    case Err(_) => None
    case Ok(((request, sequence), s)) =>
      if |s| != 32 then None else
        var record := Record(request, sequence, s);
        if EncodeRecord(hash, record) == Some(b) then Some(record) else None
  }

  /** A record the store can hold: canonical, with its own evidence ID. */
  ghost predicate CanonicalRecord(hash: Hash, record: Record) {
    && Typed(record.request) && 1 <= record.sequence <= MAX_UINT64
    && NewRequest(record.request) == Some(record.request)
    && record.evidence == hash(PutRequest(record.request, record.sequence, []))
  }

  lemma {:induction false} BuiltIsCanonical(hash: Hash, input: Request, sequence: nat)
    requires Typed(input) && NewRequest(input).Some? && 1 <= sequence <= MAX_UINT64
    ensures RecordOf(hash, NewRequest(input).value, sequence).Some?
    ensures CanonicalRecord(hash, RecordOf(hash, NewRequest(input).value, sequence).value)
  {
    RequestIsCanonical(input);
  }

  /** Decoding inverts encoding. */
  lemma {:induction false} RecordRoundTrip(hash: Hash, record: Record)
    requires Width32(hash) && CanonicalRecord(hash, record)
    ensures EncodeRecord(hash, record).Some?
    ensures DecodeRecord(hash, EncodeRecord(hash, record).value) == Some(record)
  {
    RequestRoundTrip(record.request, record.sequence, record.evidence);
  }

  /** Distinct records never share an encoding. */
  lemma {:induction false} EncodingIsInjective(hash: Hash, a: Record, b: Record)
    requires Width32(hash) && CanonicalRecord(hash, a) && CanonicalRecord(hash, b)
    requires EncodeRecord(hash, a) == EncodeRecord(hash, b)
    ensures a == b
  {
    RecordRoundTrip(hash, a);
    RecordRoundTrip(hash, b);
  }

  lemma {:induction false} TakenSummaryIsTyped(s: seq<byte>)
    ensures TakeSummary(s).Ok? ==> TypedSummary(TakeSummary(s).value.0)
  {
    Widths();
    if TakeSummary(s).Ok? {
      var s1 := TakeInt(s, 1).value.1;
      var s2 := TakeInt(s1, 1).value.1;
      var s3 := TakeSized(s2, 1, MAX_SOURCE_ID_BYTES).value.1;
      TakeIntBound(s3, 8);
      var s4 := TakeInt(s3, 8).value.1;
      var s5 := Take(s4, 32).value.1;
      TakeIntBound(TakeInt(s5, 1).value.1, 8);
    }
  }

  lemma {:induction false} TakenRequestIsTyped(s: seq<byte>)
    ensures TakeRequest(s).Ok? ==>
              Typed(TakeRequest(s).value.0.0) && TakeRequest(s).value.0.1 <= MAX_UINT64
  {
    Widths();
    if TakeRequest(s).Ok? {
      var s1 := TakeInt(s, 1).value.1;
      var s2 := Take(s1, 32).value.1;
      var s3 := TakeSized(s2, 2, MAX_HEAD_BYTES).value.1;
      TakeIntBound(s3, 8);
      var s4 := TakeInt(s3, 8).value.1;
      var s5 := TakeInt(s4, 1).value.1;
      TakeIntBound(s5, 8);
      var s6 := TakeInt(s5, 8).value.1;
      var s7 := Take(s6, 32).value.1;
      TakeIntBound(s7, 2);
      var s8 := TakeInt(s7, 2).value.1;
      TakenSummaryIsTyped(s8);
      TakenSummaryIsTyped(TakeSummary(s8).value.1);
    }
  }

  /** Decoding accepts only the one canonical encoding of a canonical record. */
  lemma {:induction false} DecodedIsCanonical(hash: Hash, b: seq<byte>)
    requires Width32(hash) && DecodeRecord(hash, b).Some?
    ensures CanonicalRecord(hash, DecodeRecord(hash, b).value)
    ensures EncodeRecord(hash, DecodeRecord(hash, b).value) == Some(b)
  {
    var record := DecodeRecord(hash, b).value;
    TakenRequestIsTyped(b);
    RequestIsCanonical(record.request);
    var r := NewRequest(record.request).value;
    RequestRoundTrip(r, record.sequence, record.evidence);
  }

  /* ---- Choosing one pair of many ---- */

  /** The requests of all conflicting pairs, each with its order bytes. */
  ghost predicate Requests(rs: seq<Request>) {
    rs != [] && forall i | 0 <= i < |rs| :: Typed(rs[i]) && NewRequest(rs[i]) == Some(rs[i])
  }

  function OrderKey(r: Request): seq<byte> {
    PutRequest(r, 0, [])
  }

  ghost predicate Least(rs: seq<Request>, key: Request -> seq<byte>, r: Request) {
    r in rs && forall i | 0 <= i < |rs| :: !Less(key(rs[i]), key(r), 0)
  }

  /** The request that sorting by a key puts first. */
  method LeastRequest(rs: seq<Request>, key: Request -> seq<byte>) returns (r: Request)
    requires rs != []
    ensures Least(rs, key, r)
  {
    var k := 0;
    LessTotal(key(rs[0]), key(rs[0]), 0);
    for n := 1 to |rs|
      invariant k < n && forall i | 0 <= i < n :: !Less(key(rs[i]), key(rs[k]), 0)
    {
      if Less(key(rs[n]), key(rs[k]), 0) {
        StillLeast(rs, key, n, k);
        k := n;
      }
    }
    r := rs[k];
  }

  lemma {:induction false} StillLeast(rs: seq<Request>, key: Request -> seq<byte>, n: nat, k: nat)
    requires k < n < |rs| && Less(key(rs[n]), key(rs[k]), 0)
    requires forall i | 0 <= i < n :: !Less(key(rs[i]), key(rs[k]), 0)
    ensures forall i | 0 <= i <= n :: !Less(key(rs[i]), key(rs[n]), 0)
  {
    LessTotal(key(rs[n]), key(rs[n]), 0);
    forall i | 0 <= i < n ensures !Less(key(rs[i]), key(rs[n]), 0) {
      if Less(key(rs[i]), key(rs[n]), 0) { LessTransitive(key(rs[i]), key(rs[n]), key(rs[k]), 0); }
    }
  }

  lemma {:induction false} KeyInjective(a: Request, b: Request)
    requires Typed(a) && Typed(b) && ValidRequest(a) && ValidRequest(b) && OrderKey(a) == OrderKey(b)
    ensures a == b
  {
    KeyReads(a, OrderKey(a));
    KeyReads(b, OrderKey(a));
  }

  lemma {:induction false} KeyReads(r: Request, key: seq<byte>)
    requires Typed(r) && ValidRequest(r) && key == OrderKey(r)
    ensures TakeRequest(key) == Ok(((r, 0), []))
  {
    RequestRoundTrip(r, 0, []);
  }

  /** The retained pair depends only on which pairs conflict, not on their order
      or on which side of each pair came first. */
  lemma {:induction false} LeastIsUnique(xs: seq<Request>, ys: seq<Request>, a: Request, b: Request)
    requires Requests(xs) && Requests(ys) && (forall r :: r in xs <==> r in ys)
    requires Least(xs, OrderKey, a) && Least(ys, OrderKey, b)
    ensures a == b
  {
    LeastKeyIsUnique(xs, ys, OrderKey, a, b);
    KeyInjective(a, b);
  }

  lemma {:induction false} LeastKeyIsUnique(xs: seq<Request>, ys: seq<Request>,
                                            key: Request -> seq<byte>, a: Request, b: Request)
    requires (forall r :: r in xs <==> r in ys) && Least(xs, key, a) && Least(ys, key, b)
    ensures key(a) == key(b)
  {
    var i :| 0 <= i < |ys| && ys[i] == a;
    var j :| 0 <= j < |xs| && xs[j] == b;
    LessTotal(key(a), key(b), 0);
  }

  /* ---- A request from an arbitration conflict ---- */

  /** One source's document, as far as evidence records it. */
  datatype Observed = Observed(source: seq<byte>, revision: Option<nat>, digest: seq<byte>)

  /** What the classifier says of a contradiction. */
  datatype Finding = Finding(archive: seq<byte>, head: seq<byte>, reason: byte,
                             leftRoot: seq<byte>, leftSynced: nat, leftCovered: bool, leftManifest: seq<byte>,
                             rightRoot: seq<byte>, rightSynced: nat, rightCovered: bool, rightManifest: seq<byte>)

  datatype Clash = Clash(left: Observed, right: Observed, finding: Option<Finding>)

  datatype Context = Context(archive: seq<byte>, head: seq<byte>, setRevision: nat, setDigest: seq<byte>)

  predicate TypedClash(c: Clash) {
    && |c.left.digest| == 32 && |c.right.digest| == 32
    && (c.left.revision.Some? ==> c.left.revision.value <= MAX_UINT64)
    && (c.right.revision.Some? ==> c.right.revision.value <= MAX_UINT64)
    && (c.finding.Some? ==> c.finding.value.leftSynced <= MAX_UINT64 && c.finding.value.rightSynced <= MAX_UINT64)
  }

  predicate TypedContext(x: Context) {
    |x.archive| == 32 && |x.setDigest| == 32 && x.setRevision <= MAX_UINT64
  }

  /** conflictSummaryFromCandidate. */
  function SummaryOf(o: Observed, root: seq<byte>, synced: nat, covered: bool, manifest: seq<byte>): Option<Summary> {
    if o.revision.None? then None
    else Some(Summary(SOURCE, 0, o.source, o.revision.value, o.digest, root, synced, covered, manifest))
  }

  /** The request of one pair, or none if the pair does not make one. */
  function ClashRequest(x: Context, count: nat, c: Clash): Option<Request> {
    if c.finding.None? || c.finding.value.archive != x.archive || c.finding.value.head != x.head then None
    else
      var f := c.finding.value;
      var left := SummaryOf(c.left, f.leftRoot, f.leftSynced, f.leftCovered, f.leftManifest);
      var right := SummaryOf(c.right, f.rightRoot, f.rightSynced, f.rightCovered, f.rightManifest);
      if left.None? || right.None? then None
      else NewRequest(Request(x.archive, x.head, f.reason, x.setRevision, x.setDigest, count, left.value, right.value))
  }

  /** What one side of a pair was observed to claim. */
  ghost predicate Tells(s: Summary, o: Observed, root: seq<byte>, synced: nat, covered: bool, manifest: seq<byte>) {
    && s.role == SOURCE && s.version == 0 && s.source == o.source && o.revision == Some(s.revision)
    && s.digest == o.digest && s.root == root && s.synced == synced && s.covered == covered && s.manifest == manifest
  }

  ghost predicate TellsClash(x: Context, count: nat, c: Clash, input: Request) {
    && c.finding.Some?
    && var f := c.finding.value;
       && f.archive == x.archive == input.archive && f.head == x.head == input.head && input.reason == f.reason
       && input.setRevision == x.setRevision && input.setDigest == x.setDigest && input.pairs == count
       && Tells(input.left, c.left, f.leftRoot, f.leftSynced, f.leftCovered, f.leftManifest)
       && Tells(input.right, c.right, f.rightRoot, f.rightSynced, f.rightCovered, f.rightManifest)
  }

  /** A pair makes a request exactly when it has evidence of this archive and head
      and tells a valid one; the request tells what was observed. */
  lemma {:induction false} ClashRequestIff(x: Context, count: nat, c: Clash)
    requires TypedContext(x) && TypedClash(c) && count < 0x1_0000
    ensures ClashRequest(x, count, c).Some? <==>
            exists input: Request :: TellsClash(x, count, c, input) && ValidRequest(input)
    ensures forall input: Request | TellsClash(x, count, c, input) :: ClashRequest(x, count, c) == NewRequest(input)
  {
    if c.finding.Some? && c.left.revision.Some? && c.right.revision.Some? {
      var f := c.finding.value;
      var left := SummaryOf(c.left, f.leftRoot, f.leftSynced, f.leftCovered, f.leftManifest).value;
      var right := SummaryOf(c.right, f.rightRoot, f.rightSynced, f.rightCovered, f.rightManifest).value;
      var told := Request(x.archive, x.head, f.reason, x.setRevision, x.setDigest, count, left, right);
      if f.archive == x.archive && f.head == x.head { assert TellsClash(x, count, c, told); }
      forall input: Request | TellsClash(x, count, c, input) ensures input == told {
        assert input.left == left && input.right == right;
      }
    }
  }

  function Turned(c: Clash): Clash {
    Clash(c.right, c.left,
          if c.finding.None? then None
          else
            var f := c.finding.value;
            Some(Finding(f.archive, f.head, f.reason, f.rightRoot, f.rightSynced, f.rightCovered, f.rightManifest,
                         f.leftRoot, f.leftSynced, f.leftCovered, f.leftManifest)))
  }

  /** Which side of a pair is called left does not matter. */
  lemma {:induction false} SidesAreIrrelevant(x: Context, count: nat, c: Clash)
    requires TypedContext(x) && TypedClash(c) && count < 0x1_0000
    ensures ClashRequest(x, count, Turned(c)) == ClashRequest(x, count, c)
  {
    if c.finding.Some? && c.left.revision.Some? && c.right.revision.Some? {
      var f := c.finding.value;
      var left := SummaryOf(c.left, f.leftRoot, f.leftSynced, f.leftCovered, f.leftManifest).value;
      var right := SummaryOf(c.right, f.rightRoot, f.rightSynced, f.rightCovered, f.rightManifest).value;
      SwapIsIrrelevant(Request(x.archive, x.head, f.reason, x.setRevision, x.setDigest, count, left, right));
    }
  }

  predicate AllMake(x: Context, clashes: seq<Clash>) {
    forall i | 0 <= i < |clashes| :: ClashRequest(x, |clashes|, clashes[i]).Some?
  }

  ghost predicate Made(x: Context, clashes: seq<Clash>, rs: seq<Request>) {
    |rs| == |clashes| && forall i | 0 <= i < |rs| :: ClashRequest(x, |clashes|, clashes[i]) == Some(rs[i])
  }

  /** NewConflictLatchRequestFromError: every pair has to make a request, and the
      one with the least canonical bytes is retained. */
  method RequestFromConflict(x: Context, clashes: seq<Clash>) returns (r: Option<Request>, ghost rs: seq<Request>)
    ensures r.Some? <==> clashes != [] && |clashes| <= MAX_PAIRS && AllMake(x, clashes)
    ensures r.Some? ==> Made(x, clashes, rs) && Least(rs, OrderKey, r.value)
  {
    var count := |clashes|;
    if count == 0 || count > MAX_PAIRS { return None, []; }
    var built := MakeEach(c => ClashRequest(x, count, c), clashes);
    if built.None? { return None, []; }
    var least := LeastRequest(built.value, OrderKey);
    return Some(least), built.value;
  }

  /** One request for each pair, unless some pair makes none. */
  method MakeEach(make: Clash -> Option<Request>, clashes: seq<Clash>) returns (r: Option<seq<Request>>)
    ensures r.Some? <==> forall i | 0 <= i < |clashes| :: make(clashes[i]).Some?
    ensures r.Some? ==> |r.value| == |clashes| && forall i | 0 <= i < |clashes| :: make(clashes[i]) == Some(r.value[i])
  {
    var built: seq<Request> := [];
    for i := 0 to |clashes|
      invariant |built| == i && forall j | 0 <= j < i :: make(clashes[j]) == Some(built[j])
    {
      var made := make(clashes[i]);
      if made.None? { return None; }
      built := built + [made.value];
    }
    return Some(built);
  }

  lemma {:induction false} MadeAreRequests(x: Context, clashes: seq<Clash>, rs: seq<Request>)
    requires TypedContext(x) && 1 <= |clashes| <= MAX_PAIRS && (forall i | 0 <= i < |clashes| :: TypedClash(clashes[i]))
    requires Made(x, clashes, rs)
    ensures Requests(rs)
  {
    forall i | 0 <= i < |rs| ensures Typed(rs[i]) && NewRequest(rs[i]) == Some(rs[i]) {
      MadeIsRequest(x, |clashes|, clashes[i], rs[i]);
    }
  }

  lemma {:induction false} MadeIsRequest(x: Context, count: nat, c: Clash, r: Request)
    requires TypedContext(x) && TypedClash(c) && count < 0x1_0000 && ClashRequest(x, count, c) == Some(r)
    ensures Typed(r) && NewRequest(r) == Some(r)
  {
    var f := c.finding.value;
    var left := SummaryOf(c.left, f.leftRoot, f.leftSynced, f.leftCovered, f.leftManifest).value;
    var right := SummaryOf(c.right, f.rightRoot, f.rightSynced, f.rightCovered, f.rightManifest).value;
    RequestIsCanonical(Request(x.archive, x.head, f.reason, x.setRevision, x.setDigest, count, left, right));
  }

  /** The request depends only on which pairs conflict, not on their order. */
  lemma {:induction false} PairOrderIsIrrelevant(x: Context, a: seq<Clash>, b: seq<Clash>, ra: seq<Request>,
                                                 rb: seq<Request>,
                                                 p: Request, q: Request)
    requires TypedContext(x) && 1 <= |a| <= MAX_PAIRS && |b| == |a| && forall i | 0 <= i < |a| :: TypedClash(a[i])
    requires (forall c :: c in a <==> c in b) && Made(x, a, ra) && Made(x, b, rb)
    requires Least(ra, OrderKey, p) && Least(rb, OrderKey, q)
    ensures p == q
  {
    forall i | 0 <= i < |b| ensures TypedClash(b[i]) {
      assert b[i] in a;
    }
    MadeAreRequests(x, a, ra);
    MadeAreRequests(x, b, rb);
    SameRequests(x, a, b, ra, rb);
    SameRequests(x, b, a, rb, ra);
    LeastIsUnique(ra, rb, p, q);
  }

  lemma {:induction false} SameRequests(x: Context, a: seq<Clash>, b: seq<Clash>, ra: seq<Request>, rb: seq<Request>)
    requires |a| == |b| && Made(x, a, ra) && Made(x, b, rb) && forall c | c in a :: c in b
    ensures forall r | r in ra :: r in rb
  {
    var count := |a|;
    SameImages(c => ClashRequest(x, count, c), a, b, ra, rb);
  }

  lemma {:induction false} SameImages(make: Clash -> Option<Request>, a: seq<Clash>, b: seq<Clash>, ra: seq<Request>,
                                      rb: seq<Request>)
    requires |ra| == |a| && (forall i | 0 <= i < |a| :: make(a[i]) == Some(ra[i]))
    requires |rb| == |b| && (forall i | 0 <= i < |b| :: make(b[i]) == Some(rb[i])) && forall c | c in a :: c in b
    ensures forall r | r in ra :: r in rb
  {
    forall r | r in ra ensures r in rb {
      var i :| 0 <= i < |ra| && ra[i] == r;
      assert a[i] in b;
      var j :| 0 <= j < |b| && b[j] == a[i];
      assert rb[j] == r;
    }
  }

  /* ---- Clear history ---- */

  datatype ClearRecord = ClearRecord(sequence: nat, evidence: seq<byte>, at: nat, operator: seq<byte>, note: seq<byte>)

  /** normalizeConflictClearRequest, apart from the identity; times are whole
      non-negative seconds. */
  predicate ValidClear(c: ClearRecord) {
    && |c.evidence| == 32 && !Zero(c.evidence) && c.at <= MAX_INT64
    && 1 <= |c.operator| <= MAX_OPERATOR_BYTES && ValidText(c.operator)
    && |c.note| <= MAX_NOTE_BYTES && ValidText(c.note)
  }

  /** One to sixteen entries with consecutive positive sequence numbers. */
  predicate ValidHistory(h: seq<ClearRecord>) {
    && 1 <= |h| <= MAX_CLEAR_HISTORY
    && (forall i | 0 <= i < |h| :: ValidClear(h[i]) && 1 <= h[i].sequence <= MAX_UINT64)
    && forall i | 0 < i < |h| :: h[i].sequence == h[i - 1].sequence + 1
  }

  function PutClear(c: ClearRecord, rest: seq<byte>): seq<byte> {
    PutInt(c.sequence, 8, Put(c.evidence, PutInt(c.at, 8, PutSized(c.operator, 1, PutSized(c.note, 2, rest)))))
  }

  function TakeClear(s: seq<byte>): Parsed<ClearRecord> {
    var (sequence, s1) :- TakeInt(s, 8);
    var (evidence, s2) :- Take(s1, 32);
    var (at, s3) :- TakeInt(s2, 8);
    if at > MAX_INT64 then Err(Malformed) else
      var (operator, s4) :- TakeSized(s3, 1, MAX_OPERATOR_BYTES);
      var (note, s5) :- TakeSized(s4, 2, MAX_NOTE_BYTES);
      Ok((ClearRecord(sequence, evidence, at, operator, note), s5))
  }

  lemma {:induction false} ClearRoundTrip(c: ClearRecord, rest: seq<byte>)
    requires ValidClear(c) && c.sequence <= MAX_UINT64
    ensures TakeClear(PutClear(c, rest)) == Ok((c, rest))
  {
    Widths();
    var r5 := PutSized(c.note, 2, rest);
    var r4 := PutSized(c.operator, 1, r5);
    var r3 := PutInt(c.at, 8, r4);
    var r2 := Put(c.evidence, r3);
    TakePutInt(c.sequence, 8, r2);
    TakePut(c.evidence, r3, 32);
    TakePutInt(c.at, 8, r4);
    TakePutSized(c.operator, 1, MAX_OPERATOR_BYTES, r5);
    TakePutSized(c.note, 2, MAX_NOTE_BYTES, rest);
  }

  function PutClears(h: seq<ClearRecord>, i: nat): seq<byte>
    requires i <= |h|
    decreases |h| - i
  {
    if i == |h| then [] else PutClear(h[i], PutClears(h, i + 1))
  }

  /** encodeConflictClearHistory. */
  function EncodeHistory(h: seq<ClearRecord>): Option<seq<byte>> {
    if !ValidHistory(h) then None
    else Some(PutInt(ENCODING_V1, 1, PutInt(|h|, 1, PutClears(h, 0))))
  }

  function TakeClears(s: seq<byte>, count: nat): Parsed<seq<ClearRecord>> {
    if count == 0 then Ok(([], s)) else
      var (first, s1) :- TakeClear(s);
      var (others, s2) :- TakeClears(s1, count - 1);
      Ok(([first] + others, s2))
  }

  /** The fields of a history, before they are checked. */
  function ParseHistory(b: seq<byte>): Option<seq<ClearRecord>> {
    match TakeInt(b, 1)
    case Err(_) => None
    case Ok((version, s1)) =>
      if version != ENCODING_V1 then None else
        match TakeInt(s1, 1)
        case Err(_) => None
        case Ok((count, s2)) =>
          if count == 0 || count > MAX_CLEAR_HISTORY then None else
            match TakeClears(s2, count)
            case Err(_) => None
            case Ok((h, s3)) => if s3 == [] then Some(h) else None
  }

  /** decodeConflictClearHistory: parse, then compare with the canonical encoding. */
  function DecodeHistory(b: seq<byte>): Option<seq<ClearRecord>> {
    match ParseHistory(b)
    case None => None
    case Some(h) => if EncodeHistory(h) == Some(b) then Some(h) else None
  }

  lemma {:induction false} TakeClearsStep(c: ClearRecord, s: seq<byte>, more: seq<byte>, others: seq<ClearRecord>,
                                          count: nat)
    requires count >= 1 && TakeClear(s) == Ok((c, more)) && TakeClears(more, count - 1) == Ok((others, []))
    ensures TakeClears(s, count) == Ok(([c] + others, []))
  {
  }

  lemma {:induction false} ClearsRoundTrip(h: seq<ClearRecord>, i: nat, count: nat)
    requires i <= |h| && count == |h| - i && forall k | 0 <= k < |h| :: ValidClear(h[k]) && h[k].sequence <= MAX_UINT64
    ensures TakeClears(PutClears(h, i), count) == Ok((h[i..], []))
    decreases count
  {
    if i < |h| {
      var more := PutClears(h, i + 1);
      ClearRoundTrip(h[i], more);
      ClearsRoundTrip(h, i + 1, count - 1);
      TakeClearsStep(h[i], PutClear(h[i], more), more, h[i + 1..], count);
      Uncons(h, i);
    } else {
      assert h[i..] == [];
    }
  }

  /** Decoding inverts encoding, and accepts nothing but canonical bytes. */
  lemma {:induction false} HistoryRoundTrip(h: seq<ClearRecord>)
    requires ValidHistory(h)
    ensures EncodeHistory(h).Some? && DecodeHistory(EncodeHistory(h).value) == Some(h)
  {
    ParseRoundTrip(h, PutClears(h, 0), |h|);
  }

  lemma {:induction false} ParseRoundTrip(h: seq<ClearRecord>, s2: seq<byte>, count: nat)
    requires ValidHistory(h) && s2 == PutClears(h, 0) && count == |h|
    ensures ParseHistory(PutInt(ENCODING_V1, 1, PutInt(count, 1, s2))) == Some(h)
  {
    Widths();
    TakePutInt(ENCODING_V1, 1, PutInt(count, 1, s2));
    TakePutInt(count, 1, s2);
    ClearsRoundTrip(h, 0, count);
    assert h[0..] == h;
  }

  lemma {:induction false} ClearParsesBack(s: seq<byte>)
    requires TakeClear(s).Ok?
    ensures PutClear(TakeClear(s).value.0, TakeClear(s).value.1) == s
  {
    var s1 := TakeInt(s, 8).value.1;
    var s2 := Take(s1, 32).value.1;
    var s3 := TakeInt(s2, 8).value.1;
    var s4 := TakeSized(s3, 1, MAX_OPERATOR_BYTES).value.1;
    PutTakeInt(s, 8);
    PutTake(s1, 32);
    PutTakeInt(s2, 8);
    PutTakeSized(s3, 1, MAX_OPERATOR_BYTES);
    PutTakeSized(s4, 2, MAX_NOTE_BYTES);
  }

  lemma {:induction false} PutClearsTail(c: ClearRecord, others: seq<ClearRecord>, h: seq<ClearRecord>, i: nat, j: nat)
    requires h == [c] + others && i <= |others| && j == i + 1
    ensures PutClears(h, j) == PutClears(others, i)
    decreases |others| - i
  {
    if i < |others| {
      assert h[j] == others[i];
      PutClearsTail(c, others, h, i + 1, j + 1);
    }
  }

  lemma {:induction false} ClearsParseBack(s: seq<byte>, count: nat, h: seq<ClearRecord>)
    requires TakeClears(s, count) == Ok((h, []))
    ensures |h| == count && PutClears(h, 0) == s
    decreases count
  {
    if count > 0 {
      var fewer := count - 1;
      var first, s1, others := TakeClearsSplit(s, count, fewer, h);
      ClearsParseBack(s1, fewer, others);
      PutClearsCons(s, first, s1, others, h);
    }
  }

  lemma {:induction false} PutClearsCons(s: seq<byte>, c: ClearRecord, s1: seq<byte>, others: seq<ClearRecord>,
                                         h: seq<ClearRecord>)
    requires TakeClear(s) == Ok((c, s1)) && PutClears(others, 0) == s1 && h == [c] + others
    ensures PutClears(h, 0) == s
  {
    ClearParsesBack(s);
    PutClearsTail(c, others, h, 0, 1);
  }

  lemma {:induction false} TakeClearsSplit(s: seq<byte>, count: nat, fewer: nat, h: seq<ClearRecord>)
    returns (first: ClearRecord, s1: seq<byte>, others: seq<ClearRecord>)
    requires count == fewer + 1 && TakeClears(s, count) == Ok((h, []))
    ensures TakeClear(s) == Ok((first, s1)) && TakeClears(s1, fewer) == Ok((others, [])) && h == [first] + others
  {
    first, s1 := TakeClear(s).value.0, TakeClear(s).value.1;
    others := TakeClears(s1, fewer).value.0;
  }

  /** What parses was written by the encoder, entry by entry: the comparison with
      the canonical encoding can only fail where an entry is not valid. */
  lemma {:induction false} HistoryParsesBack(b: seq<byte>)
    requires ParseHistory(b).Some?
    ensures EncodeHistory(ParseHistory(b).value) == Some(b) <==> ValidHistory(ParseHistory(b).value)
  {
    var s1 := TakeInt(b, 1).value.1;
    var (count, s2) := TakeInt(s1, 1).value;
    PutTakeInt(b, 1);
    PutTakeInt(s1, 1);
    ClearsParseBack(s2, count, ParseHistory(b).value);
  }

  /** Decoding is exactly the inverse of encoding, and accepts exactly the bytes
      that parse into a valid history. */
  lemma {:induction false} HistoryDecodesIff(b: seq<byte>, h: seq<ClearRecord>)
    ensures DecodeHistory(b) == Some(h) <==> EncodeHistory(h) == Some(b)
    ensures DecodeHistory(b) == Some(h) <==> ParseHistory(b) == Some(h) && ValidHistory(h)
  {
    if EncodeHistory(h) == Some(b) { HistoryRoundTrip(h); }
    if ParseHistory(b).Some? { HistoryParsesBack(b); }
  }
}
