/** The admission walk itself (archive/enumerate.go): a recursive, memoised,
    budgeted walk over an untrusted directory, which skips subtrees it has
    already seen. It accepts exactly the placed trees. */
module Walker {
  import opened Arith
  import opened Dag
  import opened Directory
  import opened Rows
  import opened HeadState
  import opened Geometry
  import opened Enumerate
  import opened Admission

  datatype Key = Key(node: Cid, depth: nat, entries: nat)
  datatype Summary = Summary(paths: nat, segments: nat)

  /** Where a walked subtree was, and the vector it holds. */
  datatype Place = Place(off: nat, e: seq<Cid>)

  /* ---- What the walker's tables mean ---- */

  /** A memo entry summarises a subtree that was walked before position
      `frontier` of the directory. */
  ghost predicate Recorded(p: Params, k: Key, s: Summary, at: Place, frontier: nat)
    requires UsableParams(p)
  {
    && 1 <= |at.e| == k.entries && at.off + k.entries <= frontier
    && Placed(p, k.node, k.depth, at.off, k.entries) && Holds(FanoutOf(p), k.node, at.e, k.depth)
    && s == Summary(PageCount(FanoutOf(p), k.depth, k.entries), |Listing(p, at.e, at.off, |at.e|)|)
  }

  ghost predicate MemoOk(p: Params, memo: map<Key, Summary>, places: map<Key, Place>, frontier: nat)
    requires UsableParams(p)
  {
    forall k | k in memo :: k in places && Recorded(p, k, memo[k], places[k], frontier)
  }

  /** A page marked as containing segments has a non-empty memo entry. */
  ghost predicate ContainsOk(memo: map<Key, Summary>, contains: map<Cid, bool>) {
    forall c | c in contains && contains[c] :: exists k :: k in memo && k.node == c && memo[k].segments != 0
  }

  /** Every segment seen so far starts the window it was seen at, which is the
      open window or one before `frontier`. */
  ghost predicate SegmentsOk(p: Params, segments: map<Cid, nat>, openW: nat, frontier: nat) {
    forall c | c in segments ::
      && c.Link? && c.block.Segment? && c.block.slot0 == WindowStart(segments[c], p.segBits)
      && (segments[c] == openW || segments[c] < Base(p) + frontier)
  }

  lemma {:induction false} LaterMemo(p: Params, memo: map<Key, Summary>, places: map<Key, Place>, a: nat, b: nat)
    requires UsableParams(p) && a <= b && MemoOk(p, memo, places, a)
    ensures MemoOk(p, memo, places, b)
  {
  }

  lemma {:induction false} LaterSegments(p: Params, segments: map<Cid, nat>, openW: nat, a: nat, b: nat)
    requires a <= b && SegmentsOk(p, segments, openW, a)
    ensures SegmentsOk(p, segments, openW, b)
  {
  }

  /** A subtree with segments that was walked before cannot be placed again. */
  lemma {:induction false} WalkedBefore(p: Params, k: Key, s: Summary, at: Place,
                                        depth: nat, off: nat, n: nat, openW: nat)
    requires UsableParams(p) && Recorded(p, k, s, at, off) && s.segments != 0
    requires 1 <= n && Base(p) + off + n <= openW && Addressable(openW, p.segBits)
    ensures !Placed(p, k.node, depth, off, n)
  {
    ListingNull(p, at.e, at.off, |at.e|);
    var i :| 0 <= i < |at.e| && at.e[i].Link?;
    if Placed(p, k.node, depth, off, n) {
      PlacedOnce(p, k.node, k.depth, at.off, at.e, i, depth, off, n, openW);
    }
  }

  /** A subtree without segments that was walked before is placed again. */
  lemma {:induction false} WalkedEmpty(p: Params, k: Key, s: Summary, at: Place, off: nat)
    requires UsableParams(p) && Recorded(p, k, s, at, off) && s.segments == 0
    ensures Placed(p, k.node, k.depth, off, k.entries) && HoldsOk(p, k.node, k.depth, off, at.e)
    ensures Listing(p, at.e, off, |at.e|) == []
  {
    ListingNull(p, at.e, at.off, |at.e|);
    ListingNull(p, at.e, off, |at.e|);
    NullPlacedAnywhere(p, k.node, k.depth, at.off, off, at.e);
  }

  lemma {:induction false} MemoStep(p: Params, memo: map<Key, Summary>, places: map<Key, Place>,
                                    contains: map<Cid, bool>,
                                    frontier: nat, k: Key, s: Summary, at: Place)
    requires UsableParams(p) && MemoOk(p, memo, places, frontier) && ContainsOk(memo, contains)
    requires Recorded(p, k, s, at, frontier)
    ensures MemoOk(p, memo[k := s], places[k := at], frontier)
    ensures ContainsOk(memo[k := s], contains[k.node := s.segments != 0])
  {
    var memo', contains' := memo[k := s], contains[k.node := s.segments != 0];
    forall c | c in contains' && contains'[c]
      ensures exists k' :: k' in memo' && k'.node == c && memo'[k'].segments != 0
    {
      if c == k.node {
        assert k in memo';
      } else {
        var k' :| k' in memo && k'.node == c && memo[k'].segments != 0;
        assert k' in memo';
      }
    }
  }

  /** The walk cannot see one segment at two windows. */
  lemma {:induction false} SeenBefore(p: Params, segments: map<Cid, nat>, openW: nat, frontier: nat, c: Cid,
                                      w: nat, upper: nat)
    requires UsableParams(p) && SegmentsOk(p, segments, openW, frontier) && Addressable(openW, p.segBits)
    requires c in segments && w == Base(p) + frontier && w < openW
    ensures !SegmentOk(p, c, w, upper, false)
  {
    EarlierWindow(w, openW, p.segBits);
    if segments[c] < w { EarlierWindow(segments[c], openW, p.segBits); }
    if SegmentOk(p, c, w, upper, false) { SameStart(p, segments[c], w); }
  }

  /* ---- Kids of one page ---- */

  /** The first q kids of a page have been walked: they hold e, in these parts. */
  ghost predicate KidsWalked(p: Params, kids: seq<Cid>, d: nat, off: nat, n: nat, c: nat, q: nat,
                             e: seq<Cid>, parts: seq<seq<Cid>>)
    requires UsableParams(p) && d >= 1 && c >= 1
  {
    && q <= |kids| == Pages(n, c) && |parts| == q && Chunks(e, parts, c) && EntriesOk(p, e, off)
    && |e| == (if q < |kids| then Offset(q, c) else n)
    && AllHold(FanoutOf(p), kids, parts, d)
  }

  lemma {:induction false} KidsWalkedStep(p: Params, kids: seq<Cid>, d: nat, off: nat, n: nat, c: nat, q: nat,
                                          next: nat, e: seq<Cid>, parts: seq<seq<Cid>>, mid: nat, more: seq<Cid>,
                                          m: nat)
    requires UsableParams(p) && d >= 2 && c == Span(FanoutOf(p), d - 1) && n >= 1
    requires KidsWalked(p, kids, d - 1, off, n, c, q, e, parts) && q < |kids| && next == q + 1
    requires mid == off + Offset(q, c) && m == ChunkLen(n, q, c)
    requires |more| == m && HoldsOk(p, kids[q], d - 1, mid, more)
    ensures KidsWalked(p, kids, d - 1, off, n, c, next, e + more, parts + [more])
  {
    KidsHoldStep(p, off, n, d, q, c, e, parts, more, next);
    AllHoldStep(FanoutOf(p), kids, parts, d - 1, more);
  }

  /** Pages of the first kids and of the next one. */
  lemma {:induction false} KidPages(f: nat, d: nat, n: nat, c: nat, q: nat, done: nat, m: nat, next: nat)
    requires f >= 2 && d >= 2 && c == Span(f, d - 1) && n >= 1 && q < Pages(n, c)
    requires done == Offset(q, c) && m == ChunkLen(n, q, c) && next == done + m
    ensures next <= n
    ensures PageCount(f, d - 1, next) == PageCount(f, d - 1, done) + PageCount(f, d - 1, m)
    ensures PageCount(f, d - 1, next) <= PageCount(f, d - 1, n)
  {
    ChunkLenFull(n, q, c);
    ChunkLenFits(n, q, c);
    PageCountAdds(f, q, d - 1, d - 1, m);
    PageCountOfMore(f, d - 1, next, n);
  }

  lemma {:induction false} PagesOfRoot(n: nat, c: nat)
    requires 1 <= n <= c
    ensures Pages(n, c) == 1
  {
  }

  /** The number of kids walkDir expects, and where they lie. */
  lemma {:induction false} ExpectedKids(n: nat, fanoutBits: nat, d: nat, cap: nat)
    requires 1 <= fanoutBits <= 32 && n >= 1 && d >= 1 && cap == Capacity(d, fanoutBits)
    requires Span(Fanout(fanoutBits), d) <= MAX_UINT64 && d <= MAX_UINT64
    ensures cap == Span(Fanout(fanoutBits), d) >= 1
    ensures Pages(n, cap) == if cap < n then 1 + (n - 1) / cap else 1
  {
    CapacitySaturates(d, fanoutBits);
    PagesByDivision(n, cap);
  }

  /** The report and the output count after m more entries. */
  ghost predicate Reported(p: Params, e: seq<Cid>, off: nat, m: nat, segs: nat,
                             before: seq<SealedSegment>, after: seq<SealedSegment>, outputs: nat, outputs': nat) {
    && m <= |e| && segs == |Listing(p, e, off, m)|
    && after == before + Listing(p, e, off, m) && outputs' == outputs + segs
  }

  lemma {:induction false} ReportedStep(p: Params, e: seq<Cid>, more: seq<Cid>, off: nat, mid: nat,
                                        done: nat, m: nat, next: nat, segs: nat, segs': nat,
                                        a: seq<SealedSegment>, b: seq<SealedSegment>, c: seq<SealedSegment>,
                                        x: nat, y: nat, z: nat)
    requires Reported(p, e, off, done, segs, a, b, x, y) && mid == off + done && done == |e|
    requires Reported(p, more, mid, m, segs', b, c, y, z) && m == |more| && next == done + m
    ensures Reported(p, e + more, off, next, segs + segs', a, c, x, z)
  {
    ListingAppend(p, e, more, off, mid, m);
  }

  lemma {:induction false} KidsPlacedStep(p: Params, kids: seq<Cid>, d: nat, off: nat, n: nat, c: nat, q: nat,
                                          next: nat, mid: nat, m: nat)
    requires UsableParams(p) && d >= 2 && c == Span(FanoutOf(p), d - 1) && q < |kids| && next == q + 1
    requires KidsPlacedUpTo(p, kids, d, off, n, q) && mid == off + Offset(q, c) && m == ChunkLen(n, q, c)
    requires Placed(p, kids[q], d - 1, mid, m)
    ensures KidsPlacedUpTo(p, kids, d, off, n, next)
  {
  }

  ghost predicate KidsPlacedUpTo(p: Params, kids: seq<Cid>, d: nat, off: nat, n: nat, m: nat)
    requires UsableParams(p) && d >= 2
  {
    var c := Span(FanoutOf(p), d - 1);
    forall q | 0 <= q < m <= |kids| :: Placed(p, kids[q], d - 1, off + Offset(q, c), ChunkLen(n, q, c))
  }

  /** One more kid is walked. */
  lemma {:induction false} KidDone(p: Params, kids: seq<Cid>, d: nat, off: nat, n: nat, c: nat, q: nat, next: nat,
                                   e: seq<Cid>, parts: seq<seq<Cid>>, mid: nat, more: seq<Cid>, m: nat)
    requires UsableParams(p) && d >= 2 && c == Span(FanoutOf(p), d - 1) && n >= 1 && |kids| == Pages(n, c)
    requires KidsPlacedUpTo(p, kids, d, off, n, q) && KidsWalked(p, kids, d - 1, off, n, c, q, e, parts)
    requires q < |kids| && next == q + 1 && mid == off + Offset(q, c) && m == ChunkLen(n, q, c)
    requires Placed(p, kids[q], d - 1, mid, m) && |more| == m && HoldsOk(p, kids[q], d - 1, mid, more)
    ensures KidsPlacedUpTo(p, kids, d, off, n, next)
    ensures KidsWalked(p, kids, d - 1, off, n, c, next, e + more, parts + [more])
  {
    KidsPlacedStep(p, kids, d, off, n, c, q, next, mid, m);
    KidsWalkedStep(p, kids, d, off, n, c, q, next, e, parts, mid, more, m);
  }

  lemma {:induction false} KidMisplaced(p: Params, kids: seq<Cid>, d: nat, off: nat, n: nat, c: nat, q: nat,
                                        mid: nat, m: nat)
    requires UsableParams(p) && d >= 2 && c == Span(FanoutOf(p), d - 1) && q < |kids|
    requires mid == off + Offset(q, c) && m == ChunkLen(n, q, c) && !Placed(p, kids[q], d - 1, mid, m)
    ensures !KidsPlaced(p, kids, d, off, n)
  {
  }

  lemma {:induction false} AllKidsPlaced(p: Params, kids: seq<Cid>, d: nat, off: nat, n: nat, c: nat)
    requires UsableParams(p) && d >= 2 && c == Span(FanoutOf(p), d - 1) && |kids| == Pages(n, c)
    requires KidsPlacedUpTo(p, kids, d, off, n, |kids|)
    ensures KidsPlaced(p, kids, d, off, n)
  {
  }

  lemma {:induction false} PageCountOfNone(f: nat, d: nat)
    requires f >= 2
    ensures PageCount(f, d, 0) == 0
  {
    if d > 0 { PageCountOfNone(f, d - 1); }
  }

  lemma {:induction false} DepthInRange(f: nat, d: nat)
    requires f >= 2 && d >= 1 && Span(f, d - 1) <= MAX_ENUMERATION_OUTPUTS
    ensures d <= MAX_UINT64
  {
    SpanMonotone(f, 0, d - 1);
  }

  lemma {:induction false} LeafIsPadded(p: Params, node: Cid, kids: seq<Cid>, off: nat, n: nat)
    requires UsableParams(p) && node.Link? && node.block.DirNode? && kids == Trim(node.block.kids)
    requires |kids| <= n && 1 <= n <= Span(FanoutOf(p), 1) && LeafOk(p, kids, off)
    ensures HoldsOk(p, node, 1, off, Padded(kids, n))
  {
    TrimIdempotent(node.block.kids);
    assert SameVector(kids, Padded(kids, n));
    TrimUnique(kids, Padded(kids, n));
  }

  ghost predicate LeafOkUpTo(p: Params, kids: seq<Cid>, off: nat, m: nat) {
    forall j | 0 <= j < m <= |kids| && kids[j].Link? ::
      SegmentOk(p, kids[j], Base(p) + off + j, WindowEnd(Base(p) + off + j, p.segBits), false)
  }

  /* ---- Checking one segment ---- */

  method CheckBlobs(rows: seq<Row>) returns (ok: bool)
    ensures ok <==> GoodBlobs(rows)
  {
    for i := 0 to |rows|
      invariant GoodBlobs(rows[..i])
    {
      for j := 0 to |rows[i].entries|
        invariant forall k | 0 <= k < j :: rows[i].entries[k].blob.rawSha256
      {
        if !rows[i].entries[j].blob.rawSha256 { return false; }
      }
    }
    assert rows[..|rows|] == rows;
    return true;
  }

  method CheckSegment(p: Params, c: Cid, w: nat, upper: nat, open: bool) returns (ok: bool)
    ensures ok <==> SegmentOk(p, c, w, upper, open)
  {
    if !IndexCid(c) { return false; }
    var seg := DecodeSegment(c);
    if seg.Err? { return false; }
    var rows := seg.value.rows;
    var blobs := CheckBlobs(rows);
    if !blobs { return false; }
    var start := WindowStart(w, p.segBits);
    if seg.value.slot0 != start { return false; }
    if !open && rows == [] { return false; }
    var lower := if start < p.originSlot then p.originSlot else start;
    if rows != [] && (rows[0].slot < lower || rows[|rows| - 1].slot > upper) { return false; }
    return true;
  }

  /* ---- The walker ---- */

  class Walker {
    const p: Params
    const openW: nat
    var memo: map<Key, Summary>
    var contains: map<Cid, bool>
    var segments: map<Cid, nat>
    var sealed: seq<SealedSegment>
    var pages: set<Cid>
    var paths: nat
    var outputs: nat
    var unique: nat
    ghost var places: map<Key, Place>
    ghost var frontier: nat

    ghost predicate Valid()
      reads this
    {
      && UsableParams(p) && Addressable(openW, p.segBits)
      && MemoOk(p, memo, places, frontier) && ContainsOk(memo, contains)
      && SegmentsOk(p, segments, openW, frontier)
      && paths <= MAX_ENUMERATION_PATHS && outputs <= MAX_ENUMERATION_OUTPUTS
      && unique <= paths + outputs + 2
    }

    /** The walker starts with the Head block counted. */
    constructor (p: Params, openW: nat)
      requires UsableParams(p) && Addressable(openW, p.segBits)
      ensures Valid() && this.p == p && this.openW == openW && frontier == 0
      ensures sealed == [] && paths == 0 && outputs == 0 && unique == 1 && segments == map[]
    {
      this.p, this.openW := p, openW;
      memo, contains, segments, sealed, pages := map[], map[], map[], [], {};
      paths, outputs, unique := 0, 0, 1;
      places, frontier := map[], 0;
    }

    /** One position of a leaf page: a segment is checked and reported. */
    method WalkPosition(kid: Cid, w: nat) returns (ok: bool)
      requires Valid() && w == Base(p) + frontier && w < openW && outputs < MAX_ENUMERATION_OUTPUTS
      modifies this`segments, this`sealed, this`outputs, this`unique, this`frontier
      ensures ok <==> kid.Link? ==> SegmentOk(p, kid, w, WindowEnd(w, p.segBits), false)
      ensures ok ==> Valid() && frontier == old(frontier) + 1
      ensures ok ==> sealed == old(sealed) + (if kid.Link? then [Report(p, kid, w)] else [])
      ensures ok ==> outputs == old(outputs) + (if kid.Link? then 1 else 0)
    {
      if kid.Link? {
        ok := ValidateSegment(kid, w);
        if !ok { return; }
        sealed, outputs := sealed + [Report(p, kid, w)], outputs + 1;
      } else {
        LaterSegments(p, segments, openW, frontier, frontier + 1);
      }
      LaterMemo(p, memo, places, frontier, frontier + 1);
      frontier := frontier + 1;
      return true;
    }

    /** The kids of a leaf page, in order. */
    method WalkPositions(kids: seq<Cid>, off: nat) returns (ok: bool, segs: nat)
      requires Valid() && frontier == off && Base(p) + off + |kids| <= openW
      requires outputs + |kids| <= MAX_ENUMERATION_OUTPUTS
      modifies this`segments, this`sealed, this`outputs, this`unique, this`frontier
      ensures ok <==> LeafOk(p, kids, off)
      ensures ok ==> Valid() && frontier == off + |kids| && segs <= |kids|
      ensures ok ==> Reported(p, kids, off, |kids|, segs, old(sealed), sealed, old(outputs), outputs)
    {
      segs := 0;
      for digit := 0 to |kids|
        invariant Valid() && frontier == off + digit && segs <= digit
        invariant LeafOkUpTo(p, kids, off, digit)
        invariant Reported(p, kids, off, digit, segs, old(sealed), sealed, old(outputs), outputs)
      {
        var w := Base(p) + off + digit;
        ok := WalkPosition(kids[digit], w);
        if !ok { return; }
        if kids[digit].Link? { segs := segs + 1; }
      }
      return true, segs;
    }

    /** A leaf page: its segments are checked and reported in order. */
    method WalkLeaf(kids: seq<Cid>, off: nat, n: nat) returns (ok: bool, segs: nat, ghost e: seq<Cid>)
      requires Valid() && frontier == off && 1 <= n && Base(p) + off + n <= openW
      requires outputs + n <= MAX_ENUMERATION_OUTPUTS
      modifies this`segments, this`sealed, this`outputs, this`unique, this`frontier
      ensures ok <==> |kids| <= n && |kids| <= FanoutOf(p) && LeafOk(p, kids, off)
      ensures ok ==> Valid() && frontier == off + n && |kids| <= n && e == Padded(kids, n) && segs <= n
      ensures ok ==> Reported(p, e, off, n, segs, old(sealed), sealed, old(outputs), outputs)
    {
      segs, e := 0, [];
      var maxKids := if n > FanoutOf(p) then FanoutOf(p) else n;
      if |kids| > maxKids { return false, 0, []; }
      ok, segs := WalkPositions(kids, off);
      if ok {
        e := Padded(kids, n);
        PaddedListing(p, kids, off, n);
        LaterSegments(p, segments, openW, frontier, off + n);
        LaterMemo(p, memo, places, frontier, off + n);
        frontier := off + n;
      }
    }

    /** Kid q of an inner page, a page of its own over m entries. */
    method WalkKid(kid: Cid, depth: nat, off: nat, n: nat, c: nat, q: nat)
      returns (ok: bool, segs: nat, ghost more: seq<Cid>, ghost m: nat)
      requires Valid() && 1 <= n && Base(p) + off + n <= openW && frontier == off + Offset(q, c)
      requires depth >= 2 && c == Span(FanoutOf(p), depth - 1) && c <= MAX_ENUMERATION_OUTPUTS && q < Pages(n, c)
      requires paths + PageCount(FanoutOf(p), depth - 1, ChunkLen(n, q, c)) <= MAX_ENUMERATION_PATHS
      requires outputs + n <= MAX_ENUMERATION_OUTPUTS + Offset(q, c)
      modifies this
      ensures m == ChunkLen(n, q, c)
      ensures ok <==> Placed(p, kid, depth - 1, old(frontier), m)
      ensures ok ==> Valid() && frontier == old(frontier) + m && |more| == m && segs <= m
      ensures ok ==> HoldsOk(p, kid, depth - 1, old(frontier), more)
      ensures ok ==> Reported(p, more, old(frontier), m, segs, old(sealed), sealed, old(outputs), outputs)
      ensures ok ==> paths == old(paths) + PageCount(FanoutOf(p), depth - 1, m)
      decreases depth, 0
    {
      ChunkLenFull(n, q, c);
      ChunkLenFits(n, q, c);
      SpanMonotone(FanoutOf(p), depth - 2, depth - 1);
      var lo := Offset(q, c);
      var entries := if n - lo > c then c else n - lo;
      var r;
      m := entries;
      r, more := WalkDir(kid, depth - 1, off + lo, entries);
      ok, segs := r.Ok?, if r.Ok? then r.value.segments else 0;
    }

    /** The kids of an inner page. */
    method WalkKids(kids: seq<Cid>, depth: nat, off: nat, n: nat, c: nat)
      returns (ok: bool, segs: nat, ghost e: seq<Cid>, ghost parts: seq<seq<Cid>>)
      requires Valid() && frontier == off && 1 <= n && Base(p) + off + n <= openW
      requires depth >= 2 && c == Span(FanoutOf(p), depth - 1) && c <= MAX_ENUMERATION_OUTPUTS && |kids| == Pages(n, c)
      requires paths + PageCount(FanoutOf(p), depth - 1, n) <= MAX_ENUMERATION_PATHS
      requires outputs + n <= MAX_ENUMERATION_OUTPUTS
      modifies this
      ensures ok <==> KidsPlaced(p, kids, depth, off, n)
      ensures ok ==> Valid() && frontier == off + n && |e| == n && segs <= n
      ensures ok ==> KidsWalked(p, kids, depth - 1, off, n, c, |kids|, e, parts)
      ensures ok ==> Reported(p, e, off, n, segs, old(sealed), sealed, old(outputs), outputs)
      ensures ok ==> paths == old(paths) + PageCount(FanoutOf(p), depth - 1, n)
      decreases depth, 1
    {
      segs, e, parts := 0, [], [];
      ghost var done := 0;
      PagesBounds(n, c);
      PageCountOfNone(FanoutOf(p), depth - 1);
      for digit := 0 to |kids|
        invariant Valid() && frontier == off + done && segs <= done == |e| && done <= n
        invariant KidsPlacedUpTo(p, kids, depth, off, n, digit)
        invariant KidsWalked(p, kids, depth - 1, off, n, c, digit, e, parts)
        invariant Reported(p, e, off, done, segs, old(sealed), sealed, old(outputs), outputs)
        invariant paths == old(paths) + PageCount(FanoutOf(p), depth - 1, done)
      {
        var segs';
        ghost var more, m, before, outputsBefore := [], ChunkLen(n, digit, c), sealed, outputs;
        ghost var mid, next, digit' := frontier, done + m, digit + 1;
        KidPages(FanoutOf(p), depth, n, c, digit, done, m, next);
        ok, segs', more, m := WalkKid(kids[digit], depth, off, n, c, digit);
        if !ok {
          KidMisplaced(p, kids, depth, off, n, c, digit, mid, m);
          return;
        }
        KidDone(p, kids, depth, off, n, c, digit, digit', e, parts, mid, more, m);
        ReportedStep(p, e, more, off, mid, done, m, next, segs, segs', old(sealed), before, sealed,
                     old(outputs), outputsBefore, outputs);
        e, parts, segs, done := e + more, parts + [more], segs + segs', next;
      }
      AllKidsPlaced(p, kids, depth, off, n, c);
      return true, segs, e, parts;
    }

    /** walkDir accepts exactly the placed subtrees, although it skips the ones
        it has walked before, and none of its budgets ever refuses one. */
    method WalkDir(node: Cid, depth: nat, off: nat, n: nat) returns (r: Result<Summary>, ghost e: seq<Cid>)
      requires Valid() && frontier == off && Base(p) + off + n <= openW
      requires depth >= 1 && 1 <= n <= Span(FanoutOf(p), depth)
      requires Span(FanoutOf(p), depth - 1) <= MAX_ENUMERATION_OUTPUTS
      requires paths + PageCount(FanoutOf(p), depth, n) <= MAX_ENUMERATION_PATHS
      requires outputs + n <= MAX_ENUMERATION_OUTPUTS
      modifies this
      ensures r.Ok? <==> Placed(p, node, depth, off, n)
      ensures r.Ok? ==> Valid() && frontier == off + n && |e| == n && r.value.segments <= n
      ensures r.Ok? ==> HoldsOk(p, node, depth, off, e)
      ensures r.Ok? ==> Reported(p, e, off, n, r.value.segments, old(sealed), sealed, old(outputs), outputs)
      ensures r.Ok? ==> paths == old(paths) + PageCount(FanoutOf(p), depth, n)
      decreases depth, 4
    {
      e := [];
      if !IndexCid(node) { return Err(Malformed), []; }
      var key := Key(node, depth, n);
      if key in memo {
        r, e := Revisit(key, off);
        return;
      }
      if node in contains && contains[node] {
        ghost var k :| k in memo && k.node == node && memo[k].segments != 0;
        WalkedBefore(p, k, memo[k], places[k], depth, off, n, openW);
        return Err(Malformed), [];
      }
      r, e := WalkPage(node, depth, off, n);
    }

    /** A subtree met again: a non-empty one is refused, an empty one is counted
        without walking it. */
    method Revisit(key: Key, off: nat) returns (r: Result<Summary>, ghost e: seq<Cid>)
      requires Valid() && frontier == off && key in memo && Base(p) + off + key.entries <= openW
      requires paths + PageCount(FanoutOf(p), key.depth, key.entries) <= MAX_ENUMERATION_PATHS
      modifies this`paths, this`frontier
      ensures r.Ok? <==> Placed(p, key.node, key.depth, off, key.entries)
      ensures r.Ok? ==> Valid() && frontier == off + key.entries && |e| == key.entries
      ensures r.Ok? ==> HoldsOk(p, key.node, key.depth, off, e)
      ensures r.Ok? ==> r.value.segments == 0 && Listing(p, e, off, |e|) == []
      ensures r.Ok? ==> paths == old(paths) + PageCount(FanoutOf(p), key.depth, key.entries)
    {
      var summary := memo[key];
      if summary.segments != 0 {
        WalkedBefore(p, key, summary, places[key], key.depth, off, key.entries, openW);
        return Err(Malformed), [];
      }
      WalkedEmpty(p, key, summary, places[key], off);
      e := places[key].e;
      paths := paths + summary.paths;
      LaterSegments(p, segments, openW, frontier, off + key.entries);
      LaterMemo(p, memo, places, frontier, off + key.entries);
      frontier := off + key.entries;
      return Ok(summary), e;
    }

    /** A page met for the first time at this depth and size. */
    method WalkPage(node: Cid, depth: nat, off: nat, n: nat) returns (r: Result<Summary>, ghost e: seq<Cid>)
      requires Valid() && frontier == off && Base(p) + off + n <= openW && IndexCid(node)
      requires depth >= 1 && 1 <= n <= Span(FanoutOf(p), depth)
      requires Span(FanoutOf(p), depth - 1) <= MAX_ENUMERATION_OUTPUTS
      requires paths + PageCount(FanoutOf(p), depth, n) <= MAX_ENUMERATION_PATHS
      requires outputs + n <= MAX_ENUMERATION_OUTPUTS
      modifies this
      ensures r.Ok? <==> Placed(p, node, depth, off, n)
      ensures r.Ok? ==> Valid() && frontier == off + n && |e| == n && r.value.segments <= n
      ensures r.Ok? ==> HoldsOk(p, node, depth, off, e)
      ensures r.Ok? ==> Reported(p, e, off, n, r.value.segments, old(sealed), sealed, old(outputs), outputs)
      ensures r.Ok? ==> paths == old(paths) + PageCount(FanoutOf(p), depth, n)
      decreases depth, 3
    {
      e := [];
      var startPaths := paths;
      PagesOfRoot(n, Span(FanoutOf(p), depth));
      paths := paths + 1;
      var page := ReadDir(node);
      if page.Err? { return Err(Malformed), []; }
      var ok, segs;
      ok, segs, e := WalkBelow(node, page.value, depth, off, n);
      if !ok { return Err(Malformed), []; }
      var summary := Summary(paths - startPaths, segs);
      Remember(Key(node, depth, n), summary, off, e);
      return Ok(summary), e;
    }

    /** What lies below a page: segments or further pages. */
    method WalkBelow(node: Cid, kids: seq<Cid>, depth: nat, off: nat, n: nat)
      returns (ok: bool, segs: nat, ghost e: seq<Cid>)
      requires Valid() && frontier == off && Base(p) + off + n <= openW
      requires IndexCid(node) && node.block.DirNode? && kids == Trim(node.block.kids)
      requires depth >= 1 && 1 <= n <= Span(FanoutOf(p), depth)
      requires Span(FanoutOf(p), depth - 1) <= MAX_ENUMERATION_OUTPUTS
      requires paths + PageCount(FanoutOf(p), depth - 1, n) <= MAX_ENUMERATION_PATHS
      requires outputs + n <= MAX_ENUMERATION_OUTPUTS
      modifies this
      ensures ok <==> Placed(p, node, depth, off, n)
      ensures ok ==> Valid() && frontier == off + n && |e| == n && segs <= n
      ensures ok ==> HoldsOk(p, node, depth, off, e)
      ensures ok ==> Reported(p, e, off, n, segs, old(sealed), sealed, old(outputs), outputs)
      ensures ok ==> paths == old(paths) + PageCount(FanoutOf(p), depth - 1, n)
      decreases depth, 2
    {
      if depth == 1 {
        ok, segs, e := WalkLeaf(kids, off, n);
        if ok { LeafIsPadded(p, node, kids, off, n); }
      } else {
        var cap := Capacity(depth - 1, p.fanoutBits);
        DepthInRange(FanoutOf(p), depth);
        ExpectedKids(n, p.fanoutBits, depth - 1, cap);
        if |kids| != (if cap < n then 1 + (n - 1) / cap else 1) { return false, 0, []; }
        ghost var parts;
        ok, segs, e, parts := WalkKids(kids, depth, off, n, cap);
        if ok { PageHoldsParts(p, node, depth, off, e, parts, cap); }
      }
    }

    /** The memo entry of a subtree that has just been walked. */
    method Remember(key: Key, summary: Summary, ghost off: nat, ghost e: seq<Cid>)
      requires Valid() && Recorded(p, key, summary, Place(off, e), frontier)
      modifies this`memo, this`contains, this`places
      ensures Valid()
    {
      MemoStep(p, memo, places, contains, frontier, key, summary, Place(off, e));
      memo, contains := memo[key := summary], contains[key.node := summary.segments != 0];
      places := places[key := Place(off, e)];
    }

    /** readDir: each page is decoded and counted once. */
    method ReadDir(node: Cid) returns (r: Result<seq<Cid>>)
      requires paths <= MAX_ENUMERATION_PATHS && outputs <= MAX_ENUMERATION_OUTPUTS && unique <= paths + outputs + 1
      modifies this`pages, this`unique
      ensures r == DecodeDir(node) && unique <= paths + outputs + 2
    {
      if node !in pages {
        assert unique < MAX_ENUMERATION_UNIQUE_NODES;
        unique := unique + 1;
        if node.Link? && node.block.DirNode? { pages := pages + {node}; }
      }
      r := DecodeDir(node);
    }

    /** validateSegment, for the open segment. */
    method ValidateOpen(c: Cid, synced: nat) returns (ok: bool)
      requires Valid() && segments == map[] && unique <= 1
      modifies this`segments, this`unique
      ensures ok <==> SegmentOk(p, c, openW, synced, true)
      ensures ok ==> Valid()
    {
      ok := CheckSegment(p, c, openW, synced, true);
      segments, unique := segments[c := openW], unique + 1;
    }

    /** validateSegment, for a sealed window. */
    method ValidateSegment(c: Cid, w: nat) returns (ok: bool)
      requires Valid() && w == Base(p) + frontier && w < openW && outputs < MAX_ENUMERATION_OUTPUTS
      modifies this`segments, this`unique
      ensures ok <==> SegmentOk(p, c, w, WindowEnd(w, p.segBits), false)
      ensures ok ==> SegmentsOk(p, segments, openW, frontier + 1) && unique <= paths + outputs + 3
    {
      if c in segments {
        SeenBefore(p, segments, openW, frontier, c, w, WindowEnd(w, p.segBits));
        return false;
      }
      assert unique < MAX_ENUMERATION_UNIQUE_NODES;
      ok := CheckSegment(p, c, w, WindowEnd(w, p.segBits), false);
      segments, unique := segments[c := w], unique + 1;
    }
  }

  /* ---- Enumerate ---- */

  datatype Enumeration = Enumeration(covered: bool, openOrd: nat, sealed: seq<SealedSegment>)

  /** The walk proper: the open segment, then the directory. */
  method WalkHead(st: State, openW: nat, n: nat) returns (ok: bool, sealed: seq<SealedSegment>, ghost e: seq<Cid>)
    requires UsableParams(st.params) && st.synced.Some? && st.synced.value < MAX_UINT64
    requires openW == OpenWindow(st.params, st.synced.value) && openW == Base(st.params) + n
    requires n <= MAX_ENUMERATION_OUTPUTS && st.depth == CanonicalDepth(n, st.params.fanoutBits)
    requires st.depth == 0 ==> st.dir.Undef?
    ensures ok <==> && SegmentOk(st.params, st.open, openW, st.synced.value, true)
                    && (st.depth > 0 ==> Placed(st.params, st.dir, st.depth, 0, n))
    ensures ok ==> |e| == n && DirOf(FanoutOf(st.params), st.dir, st.depth, e) && EntriesOk(st.params, e, 0)
    ensures ok ==> sealed == Listing(st.params, e, 0, |e|)
  {
    var p := st.params;
    ok, sealed, e := false, [], [];
    var expected := CanonicalDirectoryPages(n, p.fanoutBits);
    WindowOfSlot(st.synced.value + 1, p.segBits);
    var w := new Walker(p, openW);
    var open := w.ValidateOpen(st.open, st.synced.value);
    if !open { return; }
    if st.depth > 0 {
      WalkBounds(FanoutOf(p), p.fanoutBits, st.depth, n);
      var walk;
      walk, e := w.WalkDir(st.dir, st.depth, 0, n);
      if walk.Err? { return; }
    } else {
      NoDepthNoEntries(n, p.fanoutBits);
    }
    assert w.paths == expected;
    return true, w.sealed, e;
  }

  /** Enumerate accepts exactly the admitted states. What it reports is, in
      order, the non-null entries of the one vector the state's directory holds;
      the pages it counts are the pages the geometry requires, so its final
      count never refuses. */
  method EnumerateHead(st: State) returns (r: Result<Enumeration>, ghost e: seq<Cid>)
    requires Loadable(st)
    ensures r.Ok? <==> Admitted(st)
    ensures r.Ok? ==> r.value.covered == st.synced.Some?
    ensures r.Ok? && st.synced.Some? ==>
              && Shaped(st, e) && EntriesOk(st.params, e, 0)
              && r.value.openOrd == OpenWindow(st.params, st.synced.value)
              && r.value.sealed == Listing(st.params, e, 0, |e|)
              && WindowsSound(st)
    ensures r.Ok? && st.synced.None? ==> r.value.sealed == []
  {
    e := [];
    var geometry := ValidateGeometry(st);
    if st.synced.None? { return Ok(Enumeration(false, 0, [])), []; }
    var openW, n := geometry.value.0, geometry.value.1;
    var ok, sealed;
    ok, sealed, e := WalkHead(st, openW, n);
    if !ok { return Err(Malformed), []; }
    ShapedFrom(st, e);
    AdmittedIsSound(st);
    return Ok(Enumeration(true, openW, sealed)), e;
  }

  lemma {:induction false} NoDepthNoEntries(n: nat, fanoutBits: nat)
    requires 1 <= fanoutBits <= 32 && CanonicalDepth(n, fanoutBits) == 0
    ensures n == 0
  {
    if n > 0 { CanonicalDepthIsLeast(n, fanoutBits); }
  }

  lemma {:induction false} WalkBounds(f: nat, fanoutBits: nat, d: nat, n: nat)
    requires 1 <= fanoutBits <= 32 && f == Fanout(fanoutBits) && d == CanonicalDepth(n, fanoutBits) > 0
    requires n <= MAX_ENUMERATION_OUTPUTS
    ensures n >= 1 && IsLeastDepth(f, n, d)
    ensures PageCount(f, d, n) <= MAX_ENUMERATION_PATHS && Span(f, d - 1) <= MAX_ENUMERATION_OUTPUTS
  {
    CanonicalDepthIsLeast(n, fanoutBits);
    BudgetsSuffice(f, d, n);
  }

  lemma {:induction false} PaddedListing(p: Params, kids: seq<Cid>, off: nat, n: nat)
    requires |kids| <= n
    ensures Listing(p, Padded(kids, n), off, n) == Listing(p, kids, off, |kids|)
  {
    var nulls := seq(n - |kids|, _ => Undef);
    ListingAppend(p, kids, nulls, off, off + |kids|, n - |kids|);
    ListingNull(p, nulls, off + |kids|, n - |kids|);
  }
}
