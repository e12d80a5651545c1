/** The content-addressed blocks of a head (schema/schema.go).

    Hashing is taken to be injective, so a CID is modelled by the block it
    addresses: two links are equal exactly when they carry the same bytes under
    the same CID prefix. A block that another writer signed need not be encoded
    the way this writer encodes it, so every block carries the form of its
    encoding. */
module Dag {

  datatype Option<+T> = None | Some(value: T)

  datatype Fault =
    | Conflict        // the request contradicts the head
    | MissingBlobs    // a versioned hash does not resolve to a held blob
    | Malformed       // a block does not decode as the node it should be
    | Unencodable     // an integer does not fit DAG-CBOR's int64
    | BadParams       // head parameters out of range
    | Internal        // a broken structural invariant

  datatype Result<+T> = Ok(value: T) | Err(fault: Fault) {
    predicate IsFailure() { Err? }
    function PropagateFailure<U>(): Result<U>
      requires Err?
    {
      Err(fault)
    }
    function Extract(): T
      requires Ok?
    {
      value
    }
  }

  type VersionedHash = nat

  /** A blob link; rawSha256 says that its CID has the prefix of a blob. */
  datatype BlobCid = BlobCid(key: nat, rawSha256: bool)

  datatype RefEntry = RefEntry(vh: VersionedHash, blob: BlobCid)
  datatype Row = Row(slot: nat, entries: seq<RefEntry>)

  /** How a block is encoded: as this writer's canonical encoder would, in
      another way its decoder accepts, or under a CID prefix that is not the
      index's own. */
  datatype Form = Canonical | Relaxed(tag: nat) | Foreign(tag: nat)

  datatype Cid = Undef | Link(block: Block)

  datatype Block =
    | Segment(slot0: nat, rows: seq<Row>, form: Form)
    | DirNode(kids: seq<Cid>, form: Form)

  const MAX_BLOBS_PER_SLOT: nat := 128

  /** The loop of Segment.Validate over the first n rows. */
  predicate ValidUpTo(slot0: nat, rows: seq<Row>, n: nat)
    requires n <= |rows|
  {
    n == 0 ||
    (&& (n >= 2 ==> rows[n - 2].slot < rows[n - 1].slot)
     && slot0 <= rows[n - 1].slot && 1 <= |rows[n - 1].entries| <= MAX_BLOBS_PER_SLOT
     && ValidUpTo(slot0, rows, n - 1))
  }

  /** Segment.Validate: what both the encoder and the decoder insist on. */
  predicate ValidRows(slot0: nat, rows: seq<Row>) {
    ValidUpTo(slot0, rows, |rows|)
  }

  const MAX_DAG_CBOR_INT: nat := 0x7FFF_FFFF_FFFF_FFFF

  /** The data model's integers are int64: no larger slot is ever encoded, and
      none is ever decoded. */
  predicate EncodableRows(slot0: nat, rows: seq<Row>) {
    slot0 <= MAX_DAG_CBOR_INT && forall i | 0 <= i < |rows| :: rows[i].slot <= MAX_DAG_CBOR_INT
  }

  function DecodeSegment(c: Cid): (r: Result<Block>)
    ensures r.Ok? ==> c == Link(r.value) && r.value.Segment? && ValidRows(r.value.slot0, r.value.rows)
  {
    if && c.Link? && c.block.Segment?
       && ValidRows(c.block.slot0, c.block.rows) && EncodableRows(c.block.slot0, c.block.rows)
    then Ok(c.block)
    else Err(Malformed)
  }

  /* ---- Directory pages as null-padded vectors ---- */

  /** The kid at position j; a page reads as null past its end. */
  function At(kids: seq<Cid>, j: nat): Cid {
    if j < |kids| then kids[j] else Undef
  }

  /** The loop of trimTrailingNulls: how many of the first n kids are kept. */
  function LiveKids(kids: seq<Cid>, n: nat): (r: nat)
    requires n <= |kids|
    ensures r <= n
  {
    if n > 0 && kids[n - 1].Undef? then LiveKids(kids, n - 1) else n
  }

  function Trim(kids: seq<Cid>): seq<Cid> {
    kids[..LiveKids(kids, |kids|)]
  }

  lemma {:induction false} LiveKidsStops(kids: seq<Cid>, n: nat)
    requires n <= |kids|
    ensures LiveKids(kids, n) > 0 ==> kids[LiveKids(kids, n) - 1].Link?
    ensures forall j | LiveKids(kids, n) <= j < n :: kids[j].Undef?
  {
    if n > 0 && kids[n - 1].Undef? { LiveKidsStops(kids, n - 1); }
  }

  lemma {:induction false} TrimReads(kids: seq<Cid>)
    ensures forall j: nat :: At(Trim(kids), j) == At(kids, j)
    ensures Trim(kids) != [] ==> Trim(kids)[|Trim(kids)| - 1].Link?
  {
    LiveKidsStops(kids, |kids|);
  }

  ghost predicate SameVector(a: seq<Cid>, b: seq<Cid>) {
    forall j: nat :: At(a, j) == At(b, j)
  }

  /** Trimmed pages are canonical: the same null-padded vector is one page. */
  lemma {:induction false} TrimUnique(a: seq<Cid>, b: seq<Cid>)
    requires SameVector(a, b)
    ensures Trim(a) == Trim(b)
  {
    var x, y := Trim(a), Trim(b);
    TrimReads(a);
    TrimReads(b);
    assert forall j: nat :: At(x, j) == At(y, j) by {
      forall j: nat ensures At(x, j) == At(y, j) { assert At(a, j) == At(b, j); }
    }
    if y != [] { assert At(x, |y| - 1) == At(y, |y| - 1); }
    if x != [] { assert At(x, |x| - 1) == At(y, |x| - 1); }
    forall j | 0 <= j < |x| ensures x[j] == y[j] { assert At(x, j) == At(y, j); }
  }

  lemma {:induction false} TrimIdempotent(kids: seq<Cid>)
    ensures Trim(Trim(kids)) == Trim(kids)
  {
    TrimReads(kids);
    TrimUnique(Trim(kids), kids);
  }

  /** Commit of a DirNode: the canonical encoder drops trailing nulls. */
  function Commit(kids: seq<Cid>): Cid {
    Link(DirNode(Trim(kids), Canonical))
  }

  /** DecodeDirNode: trailing nulls permitted on the wire are dropped. */
  function DecodeDir(c: Cid): Result<seq<Cid>> {
    if c.Link? && c.block.DirNode? then Ok(Trim(c.block.kids)) else Err(Malformed)
  }
}
