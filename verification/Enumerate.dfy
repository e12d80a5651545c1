/** What the admission walk accepts (archive/enumerate.go), stated on trees and
    without the walk's memo: every page and every segment is where the geometry
    puts it. */
module Enumerate {
  import opened Arith
  import opened Dag
  import opened Directory
  import opened Rows
  import opened HeadState
  import opened Geometry

  /** validateIndexCID: the link has the prefix of the index's own blocks. */
  predicate IndexCid(c: Cid) {
    c.Link? && !c.block.form.Foreign?
  }

  /** segmentShape: every blob link has the prefix of a blob. */
  predicate GoodBlobs(rows: seq<Row>) {
    forall i, j | 0 <= i < |rows| && 0 <= j < |rows[i].entries| :: rows[i].entries[j].blob.rawSha256
  }

  /** validateSegment: the link leads to a segment of window w, whose rows lie
      between the window's start, or the origin, and upper. */
  predicate SegmentOk(p: Params, c: Cid, w: nat, upper: nat, open: bool) {
    && IndexCid(c) && DecodeSegment(c).Ok? && GoodBlobs(c.block.rows)
    && var rows := c.block.rows;
       && c.block.slot0 == WindowStart(w, p.segBits)
       && (!open ==> rows != [])
       && (rows != [] ==>
          c.block.slot0 <= rows[0].slot && p.originSlot <= rows[0].slot && rows[|rows| - 1].slot <= upper)
  }

  ghost predicate LeafOk(p: Params, kids: seq<Cid>, off: nat) {
    forall j | 0 <= j < |kids| && kids[j].Link? ::
      SegmentOk(p, kids[j], Base(p) + off + j, WindowEnd(Base(p) + off + j, p.segBits), false)
  }

  /** How many of n entries lie below kid q. */
  function ChunkLen(n: nat, q: nat, c: nat): nat {
    if Offset(q, c) > n then 0 else if Offset(q, c) + c > n then n - Offset(q, c) else c
  }

  /** The page at node is a legal page of depth d over the n directory positions
      from off on, and so is everything below it. */
  ghost predicate Placed(p: Params, node: Cid, d: nat, off: nat, n: nat)
    requires UsableParams(p)
    decreases d, 1
  {
    && d >= 1 && IndexCid(node) && node.block.DirNode?
    && if d == 1 then
         && |Trim(node.block.kids)| <= n && |Trim(node.block.kids)| <= FanoutOf(p)
         && LeafOk(p, Trim(node.block.kids), off)
       else KidsPlaced(p, Trim(node.block.kids), d, off, n)
  }

  ghost predicate KidsPlaced(p: Params, kids: seq<Cid>, d: nat, off: nat, n: nat)
    requires UsableParams(p) && d >= 2
    decreases d, 0
  {
    var c := Span(FanoutOf(p), d - 1);
    && |kids| == Pages(n, c)
    && forall q | 0 <= q < |kids| :: Placed(p, kids[q], d - 1, off + Offset(q, c), ChunkLen(n, q, c))
  }

  /* ---- A placed tree holds a vector of well-placed segments ---- */

  ghost predicate EntriesOk(p: Params, e: seq<Cid>, off: nat) {
    forall i | 0 <= i < |e| && e[i].Link? ::
      SegmentOk(p, e[i], Base(p) + off + i, WindowEnd(Base(p) + off + i, p.segBits), false)
  }

  /** The tree at node holds e, and e's segments are well placed from off on. */
  ghost predicate HoldsOk(p: Params, node: Cid, d: nat, off: nat, e: seq<Cid>)
    requires UsableParams(p)
  {
    Holds(FanoutOf(p), node, e, d) && EntriesOk(p, e, off)
  }

  lemma {:induction false} ChunkLenIs(e: seq<Cid>, q: nat, c: nat)
    ensures |Chunk(e, q, c)| == ChunkLen(|e|, q, c)
  {
  }

  /** A page written out with all the nulls it omits. */
  function Padded(kids: seq<Cid>, n: nat): seq<Cid>
    requires |kids| <= n
  {
    kids + seq(n - |kids|, _ => Undef)
  }

  lemma {:induction false} LeafHolds(p: Params, node: Cid, off: nat, n: nat) returns (e: seq<Cid>)
    requires UsableParams(p) && Placed(p, node, 1, off, n) && 1 <= n <= Span(FanoutOf(p), 1)
    ensures |e| == n && HoldsOk(p, node, 1, off, e)
  {
    var kids := Trim(node.block.kids);
    e := Padded(kids, n);
    TrimIdempotent(node.block.kids);
    assert SameVector(kids, e);
    TrimUnique(kids, e);
  }

  /** The concatenation of what the kids hold is what the page holds. */
  ghost predicate Chunks(e: seq<Cid>, parts: seq<seq<Cid>>, c: nat) {
    forall q | 0 <= q < |parts| :: Chunk(e, q, c) == parts[q]
  }

  lemma {:induction false} ChunksExtend(e: seq<Cid>, parts: seq<seq<Cid>>, c: nat, more: seq<Cid>)
    requires c >= 1 && Chunks(e, parts, c) && |e| == Offset(|parts|, c) && 1 <= |more| <= c
    ensures Chunks(e + more, parts + [more], c)
  {
    var all, q := e + more, |parts|;
    forall k | 0 <= k < |parts| ensures Chunk(all, k, c) == parts[k] {
      OffsetStep(k, q, c);
      assert Chunk(all, k, c) == Chunk(e, k, c);
    }
    assert Chunk(all, q, c) == more;
  }

  lemma {:induction false} EntriesOkAppend(p: Params, a: seq<Cid>, b: seq<Cid>, off: nat, mid: nat)
    requires EntriesOk(p, a, off) && mid == off + |a| && EntriesOk(p, b, mid)
    ensures EntriesOk(p, a + b, off)
  {
    var e := a + b;
    forall i | 0 <= i < |e| && e[i].Link?
      ensures SegmentOk(p, e[i], Base(p) + off + i, WindowEnd(Base(p) + off + i, p.segBits), false)
    {
      if i >= |a| { assert e[i] == b[i - |a|] && Base(p) + mid + (i - |a|) == Base(p) + off + i; }
    }
  }

  lemma {:induction false} ChunkLenFull(n: nat, q: nat, c: nat)
    requires c >= 1 && n >= 1 && q < Pages(n, c)
    ensures 1 <= ChunkLen(n, q, c) <= c
    ensures q + 1 < Pages(n, c) ==> ChunkLen(n, q, c) == c
    ensures q + 1 == Pages(n, c) ==> Offset(q, c) + ChunkLen(n, q, c) == n
  {
    PagesBounds(n, c);
    if q + 1 < Pages(n, c) { OffsetStep(q, Pages(n, c) - 1, c); }
  }

  ghost predicate AllHold(f: nat, kids: seq<Cid>, parts: seq<seq<Cid>>, d: nat)
    requires f >= 2
  {
    |parts| <= |kids| && forall q | 0 <= q < |parts| :: Holds(f, kids[q], parts[q], d)
  }

  lemma {:induction false} AllHoldStep(f: nat, kids: seq<Cid>, parts: seq<seq<Cid>>, d: nat, more: seq<Cid>)
    requires f >= 2 && AllHold(f, kids, parts, d) && |parts| < |kids| && Holds(f, kids[|parts|], more, d)
    ensures AllHold(f, kids, parts + [more], d)
  {
  }

  /** One more kid: what the first q + 1 kids hold, side by side. */
  lemma {:induction false} KidsHoldStep(p: Params, off: nat, n: nat, d: nat, q: nat, c: nat,
                                        e: seq<Cid>, parts: seq<seq<Cid>>, more: seq<Cid>, m: nat)
    requires UsableParams(p) && d >= 2 && c == Span(FanoutOf(p), d - 1) && n >= 1 && q < Pages(n, c) && m == q + 1
    requires |parts| == q && |e| == Offset(q, c) && Chunks(e, parts, c) && EntriesOk(p, e, off)
    requires |more| == ChunkLen(n, q, c) && EntriesOk(p, more, off + Offset(q, c))
    ensures Chunks(e + more, parts + [more], c) && EntriesOk(p, e + more, off)
    ensures |e + more| == if m < Pages(n, c) then Offset(m, c) else n
  {
    ChunkLenFull(n, q, c);
    ChunksExtend(e, parts, c, more);
    EntriesOkAppend(p, e, more, off, off + Offset(q, c));
  }

  /** When all kids are in, the page holds the concatenation. */
  lemma {:induction false} PageHoldsParts(p: Params, node: Cid, d: nat, off: nat, e: seq<Cid>, parts: seq<seq<Cid>>,
                                          c: nat)
    requires UsableParams(p) && d >= 2 && c == Span(FanoutOf(p), d - 1) && 1 <= |e| <= Span(FanoutOf(p), d)
    requires node.Link? && node.block.DirNode? && |Trim(node.block.kids)| == |parts| == Pages(|e|, c)
    requires Chunks(e, parts, c) && EntriesOk(p, e, off)
    requires AllHold(FanoutOf(p), Trim(node.block.kids), parts, d - 1)
    ensures HoldsOk(p, node, d, off, e)
  {
    var kids := Trim(node.block.kids);
    forall q {:trigger Chunk(e, q, c)} | 0 <= q < |kids| ensures Holds(FanoutOf(p), kids[q], Chunk(e, q, c), d - 1) {
      assert Chunk(e, q, c) == parts[q];
    }
  }

  /** Every placed tree holds a vector of exactly its positions. */
  lemma {:induction false} PlacedHolds(p: Params, node: Cid, d: nat, off: nat, n: nat) returns (e: seq<Cid>)
    requires UsableParams(p) && Placed(p, node, d, off, n) && 1 <= n <= Span(FanoutOf(p), d)
    ensures |e| == n && HoldsOk(p, node, d, off, e)
    decreases d, 1
  {
    if d == 1 {
      e := LeafHolds(p, node, off, n);
    } else {
      var kids, c := Trim(node.block.kids), Span(FanoutOf(p), d - 1);
      PagesBounds(n, c);
      var parts;
      e, parts := KidsHold(p, kids, d, FanoutOf(p), d - 1, off, n, c, |kids|);
      PageHoldsParts(p, node, d, off, e, parts, c);
    }
  }

  lemma {:induction false} KidsHold(p: Params, kids: seq<Cid>, d: nat, f: nat, below: nat, off: nat, n: nat, c: nat,
                                    m: nat)
    returns (e: seq<Cid>, parts: seq<seq<Cid>>)
    requires UsableParams(p) && d >= 2 && n >= 1 && f == FanoutOf(p) && below == d - 1 && c == Span(f, below)
    requires KidsPlaced(p, kids, d, off, n) && m <= |kids|
    ensures |parts| == m && Chunks(e, parts, c) && EntriesOk(p, e, off)
    ensures |e| == if m < |kids| then Offset(m, c) else n
    ensures AllHold(f, kids, parts, below)
    decreases d, 0, m
  {
    if m == 0 {
      e, parts := [], [];
      PagesBounds(n, c);
    } else {
      var q := m - 1;
      var e0, parts0 := KidsHold(p, kids, d, f, below, off, n, c, q);
      ChunkLenFull(n, q, c);
      var more := PlacedHolds(p, kids[q], below, off + Offset(q, c), ChunkLen(n, q, c));
      KidsHoldStep(p, off, n, d, q, c, e0, parts0, more, m);
      AllHoldStep(f, kids, parts0, below, more);
      e, parts := e0 + more, parts0 + [more];
    }
  }

  /* ---- What a writer builds is placed ---- */

  lemma {:induction false} ChunkOk(p: Params, e: seq<Cid>, off: nat, q: nat, c: nat)
    requires EntriesOk(p, e, off)
    ensures EntriesOk(p, Chunk(e, q, c), off + Offset(q, c))
  {
    var part, lo := Chunk(e, q, c), Offset(q, c);
    forall i | 0 <= i < |part| && part[i].Link?
      ensures SegmentOk(p, part[i], Base(p) + (off + lo) + i, WindowEnd(Base(p) + (off + lo) + i, p.segBits), false)
    {
      assert part[i] == e[lo + i] && Base(p) + off + (lo + i) == Base(p) + (off + lo) + i;
    }
  }

  lemma {:induction false} SpanOfLeaf(f: nat)
    requires f >= 2
    ensures Span(f, 1) == f
  {
    OffsetIsProduct(f, 1);
  }

  lemma {:induction false} WriterLeaf(p: Params, kids: seq<Cid>, off: nat, e: seq<Cid>)
    requires UsableParams(p) && kids == Trim(e) && |e| <= Span(FanoutOf(p), 1) && EntriesOk(p, e, off)
    ensures |kids| <= |e| && |kids| <= FanoutOf(p) && LeafOk(p, kids, off)
  {
    SpanOfLeaf(FanoutOf(p));
    TrimReads(e);
    forall j | 0 <= j < |kids| ensures kids[j] == e[j] {
      assert At(kids, j) == At(e, j);
    }
  }

  /** What a kid of a page holds. */
  lemma {:induction false} KidHoldsOk(p: Params, node: Cid, d: nat, off: nat, e: seq<Cid>, q: nat, c: nat)
    returns (part: seq<Cid>)
    requires UsableParams(p) && d >= 2 && HoldsOk(p, node, d, off, e)
    requires c == Span(FanoutOf(p), d - 1) && q < |Trim(node.block.kids)|
    ensures HoldsOk(p, Trim(node.block.kids)[q], d - 1, off + Offset(q, c), part)
    ensures part == Chunk(e, q, c) && |part| == ChunkLen(|e|, q, c)
  {
    part := Chunk(e, q, c);
    KidHolds(FanoutOf(p), Trim(node.block.kids), e, d, q);
    ChunkLenIs(e, q, c);
    ChunkOk(p, e, off, q, c);
  }

  /** Every page down to the leaves is a directory page under an index CID. */
  ghost predicate IndexPages(node: Cid, d: nat)
    decreases d
  {
    d >= 1 ==>
      && IndexCid(node) && node.block.DirNode?
      && forall q | 0 <= q < |Trim(node.block.kids)| && d > 1 :: IndexPages(Trim(node.block.kids)[q], d - 1)
  }

  /** A tree over well-placed segments is placed, whoever encoded its pages. */
  lemma {:induction false} IndexedPlaced(p: Params, node: Cid, d: nat, off: nat, e: seq<Cid>)
    requires UsableParams(p) && HoldsOk(p, node, d, off, e) && IndexPages(node, d)
    ensures Placed(p, node, d, off, |e|)
    decreases d
  {
    var kids := Trim(node.block.kids);
    if d == 1 {
      WriterLeaf(p, kids, off, e);
    } else {
      var c := Span(FanoutOf(p), d - 1);
      forall q | 0 <= q < |kids| ensures Placed(p, kids[q], d - 1, off + Offset(q, c), ChunkLen(|e|, q, c)) {
        var part := KidHoldsOk(p, node, d, off, e, q, c);
        IndexedPlaced(p, kids[q], d - 1, off + Offset(q, c), part);
      }
      assert PageOf(FanoutOf(p), kids, e, d);
    }
  }

  lemma {:induction false} PlacedIndexed(p: Params, node: Cid, d: nat, off: nat, n: nat)
    requires UsableParams(p) && Placed(p, node, d, off, n)
    ensures IndexPages(node, d)
    decreases d
  {
    if d > 1 {
      var kids, c := Trim(node.block.kids), Span(FanoutOf(p), d - 1);
      assert KidsPlaced(p, kids, d, off, n);
      forall q | 0 <= q < |kids| ensures IndexPages(kids[q], d - 1) {
        PlacedIndexed(p, kids[q], d - 1, off + Offset(q, c), ChunkLen(n, q, c));
      }
    }
  }

  lemma {:induction false} WriterIndexed(f: nat, node: Cid, d: nat, e: seq<Cid>)
    requires f >= 2 && Holds(f, node, e, d) && WriterPages(node, d)
    ensures IndexPages(node, d)
    decreases d
  {
    if d > 1 {
      var kids, c := Trim(node.block.kids), Span(f, d - 1);
      assert PageOf(f, kids, e, d);
      forall q | 0 <= q < |kids| ensures IndexPages(kids[q], d - 1) {
        WriterIndexed(f, kids[q], d - 1, Chunk(e, q, c));
      }
    }
  }

  /** A writer's tree over well-placed segments is placed. */
  lemma {:induction false} WriterPlaced(p: Params, node: Cid, d: nat, off: nat, e: seq<Cid>)
    requires UsableParams(p) && HoldsOk(p, node, d, off, e) && WriterPages(node, d)
    ensures Placed(p, node, d, off, |e|)
  {
    WriterIndexed(FanoutOf(p), node, d, e);
    IndexedPlaced(p, node, d, off, e);
  }

  /* ---- A subtree with a segment has one place ---- */

  lemma {:induction false} ChunkHas(e: seq<Cid>, i: nat, q: nat, r: nat, c: nat)
    requires i < |e| && i == Offset(q, c) + r && r < c
    ensures r < |Chunk(e, q, c)| && Chunk(e, q, c)[r] == e[i]
  {
  }

  /** Two windows whose segments may start at the same slot are one window. */
  lemma {:induction false} SameStart(p: Params, a: nat, b: nat)
    requires p.segBits <= 63 && Addressable(a, p.segBits) && Addressable(b, p.segBits)
    requires WindowStart(a, p.segBits) == WindowStart(b, p.segBits)
    ensures a == b
  {
    StartIsInWindow(a, p.segBits);
    StartIsInWindow(b, p.segBits);
  }

  /** What a leaf page links to is a segment of its own window. */
  lemma {:induction false} LeafLink(p: Params, node: Cid, off: nat, n: nat, i: nat, w: nat)
    requires UsableParams(p) && Placed(p, node, 1, off, n) && i < |Trim(node.block.kids)| && w == Base(p) + off + i
    ensures i < n
    ensures Trim(node.block.kids)[i].Link? ==> SegmentOk(p, Trim(node.block.kids)[i], w, WindowEnd(w, p.segBits), false)
  {
    var kids := Trim(node.block.kids);
    if kids[i].Link? {
      assert SegmentOk(p, kids[i], Base(p) + off + i, WindowEnd(Base(p) + off + i, p.segBits), false);
    }
  }

  lemma {:induction false} LeafEntry(f: nat, node: Cid, e: seq<Cid>, i: nat)
    requires f >= 2 && Holds(f, node, e, 1) && i < |e| && e[i].Link?
    ensures i < |Trim(node.block.kids)| && Trim(node.block.kids)[i] == e[i]
  {
    TrimReads(e);
    assert At(Trim(node.block.kids), i) == At(e, i);
  }

  /** A leaf page with a segment at position i. */
  lemma {:induction false} LeafPlacedOnce(p: Params, node: Cid, off1: nat, e: seq<Cid>, i: nat,
                                          d2: nat, off2: nat, n2: nat, w: nat)
    requires UsableParams(p) && Addressable(w, p.segBits)
    requires Placed(p, node, 1, off1, |e|) && Holds(FanoutOf(p), node, e, 1) && i < |e| && e[i].Link?
    requires Placed(p, node, d2, off2, n2) && n2 >= 1
    requires Base(p) + off1 + |e| <= w && Base(p) + off2 + n2 <= w
    ensures d2 == 1 && off1 == off2
  {
    var w1, w2 := Base(p) + off1 + i, Base(p) + off2 + i;
    LeafEntry(FanoutOf(p), node, e, i);
    LeafLink(p, node, off1, |e|, i, w1);
    if d2 == 1 {
      LeafLink(p, node, off2, n2, i, w2);
      EarlierWindow(w1, w, p.segBits);
      EarlierWindow(w2, w, p.segBits);
      SameStart(p, w1, w2);
    } else {
      var lo, m := KidPlaced(p, node, d2, off2, n2, i);
    }
  }

  /** The kid of a placed page that holds entry i. */
  lemma {:induction false} KidWithEntry(p: Params, node: Cid, d: nat, off: nat, e: seq<Cid>, i: nat)
    returns (q: nat, kid: Cid, part: seq<Cid>, r: nat, lo: nat)
    requires UsableParams(p) && d >= 2
    requires Placed(p, node, d, off, |e|) && Holds(FanoutOf(p), node, e, d) && i < |e| && e[i].Link?
    ensures q < |Trim(node.block.kids)| && kid == Trim(node.block.kids)[q] && lo == Offset(q, Span(FanoutOf(p), d - 1))
    ensures Placed(p, kid, d - 1, off + lo, |part|) && Holds(FanoutOf(p), kid, part, d - 1)
    ensures r < |part| && part[r].Link? && lo + |part| <= |e|
  {
    var f, c := FanoutOf(p), Span(FanoutOf(p), d - 1);
    q, r := WhichKid(f, e, i, d);
    kid, part, lo := Trim(node.block.kids)[q], Chunk(e, q, c), Offset(q, c);
    KidHolds(f, Trim(node.block.kids), e, d, q);
    ChunkHas(e, i, q, r, c);
    ChunkLenIs(e, q, c);
  }

  lemma {:induction false} KidPlaced(p: Params, node: Cid, d: nat, off: nat, n: nat, q: nat)
    returns (lo: nat, m: nat)
    requires UsableParams(p) && Placed(p, node, d, off, n) && n >= 1 && q < |Trim(node.block.kids)| && d >= 2
    ensures lo == Offset(q, Span(FanoutOf(p), d - 1)) && m >= 1 && lo + m <= n
    ensures Placed(p, Trim(node.block.kids)[q], d - 1, off + lo, m)
  {
    var c := Span(FanoutOf(p), d - 1);
    lo, m := Offset(q, c), ChunkLen(n, q, c);
    ChunkLenFull(n, q, c);
    ChunkLenFits(n, q, c);
  }

  /** If a tree with a segment in it is placed twice, it is placed at the same
      depth and the same positions. */
  lemma {:induction false} PlacedOnce(p: Params, node: Cid, d1: nat, off1: nat, e: seq<Cid>, i: nat,
                                      d2: nat, off2: nat, n2: nat, w: nat)
    requires UsableParams(p) && Addressable(w, p.segBits)
    requires Placed(p, node, d1, off1, |e|) && Holds(FanoutOf(p), node, e, d1) && i < |e| && e[i].Link?
    requires Placed(p, node, d2, off2, n2) && n2 >= 1
    requires Base(p) + off1 + |e| <= w && Base(p) + off2 + n2 <= w
    ensures d1 == d2 && off1 == off2
    decreases d1
  {
    if d1 == 1 {
      LeafPlacedOnce(p, node, off1, e, i, d2, off2, n2, w);
    } else {
      var q, kid, part, r, lo := KidWithEntry(p, node, d1, off1, e, i);
      if d2 > 1 {
        var lo2, m2 := KidPlaced(p, node, d2, off2, n2, q);
        PlacedOnce(p, kid, d1 - 1, off1 + lo, part, r, d2 - 1, off2 + lo2, m2, w);
      }
    }
  }

  lemma {:induction false} ChunkLenFits(n: nat, q: nat, c: nat)
    requires ChunkLen(n, q, c) >= 1
    ensures Offset(q, c) + ChunkLen(n, q, c) <= n
  {
  }

  /** Entry i of a page's vector lies below one of its kids. */
  lemma {:induction false} WhichKid(f: nat, e: seq<Cid>, i: nat, d: nat) returns (q: nat, r: nat)
    requires f >= 2 && d >= 2 && i < |e| <= Span(f, d)
    ensures r < Span(f, d - 1) && i == Offset(q, Span(f, d - 1)) + r && q < Pages(|e|, Span(f, d - 1))
  {
    q, r := SplitIndex(f, i, d);
    var c := Span(f, d - 1);
    PagesMonotone(i + 1, |e|, c);
    if r + 1 < c {
      SplitPages(i + 1, c, q, r + 1);
    } else {
      OffsetShift(q, c);
      SplitPages(i + 1, c, q + 1, 0);
    }
  }

  ghost predicate AllNull(e: seq<Cid>) {
    forall i | 0 <= i < |e| :: e[i].Undef?
  }

  lemma {:induction false} LiveKidsNull(e: seq<Cid>, n: nat)
    requires AllNull(e) && n <= |e|
    ensures LiveKids(e, n) == 0
  {
    if n > 0 { LiveKidsNull(e, n - 1); }
  }

  lemma {:induction false} TrimNull(e: seq<Cid>)
    requires AllNull(e)
    ensures Trim(e) == []
  {
    LiveKidsNull(e, |e|);
  }

  /** A tree without segments is placed anywhere if it is placed somewhere. */
  lemma {:induction false} NullPlacedAnywhere(p: Params, node: Cid, d: nat, off: nat, to: nat, e: seq<Cid>)
    requires UsableParams(p) && Placed(p, node, d, off, |e|) && Holds(FanoutOf(p), node, e, d) && AllNull(e)
    ensures Placed(p, node, d, to, |e|)
    decreases d, 2
  {
    if d == 1 {
      NullLeafAnywhere(p, node, off, to, e);
    } else {
      NullKidsAnywhere(p, Trim(node.block.kids), d, d - 1, Span(FanoutOf(p), d - 1), off, to, e);
    }
  }

  lemma {:induction false} NullLeafAnywhere(p: Params, node: Cid, off: nat, to: nat, e: seq<Cid>)
    requires UsableParams(p) && Placed(p, node, 1, off, |e|) && Holds(FanoutOf(p), node, e, 1) && AllNull(e)
    ensures Placed(p, node, 1, to, |e|)
  {
    TrimNull(e);
  }

  lemma {:induction false} NullKidsAnywhere(p: Params, kids: seq<Cid>, d: nat, below: nat, c: nat, off: nat, to: nat,
                                            e: seq<Cid>)
    requires UsableParams(p) && d >= 2 && below == d - 1 && c == Span(FanoutOf(p), below) && AllNull(e)
    requires KidsPlaced(p, kids, d, off, |e|) && PageOf(FanoutOf(p), kids, e, d)
    ensures KidsPlaced(p, kids, d, to, |e|)
    decreases d, 1
  {
    forall q | 0 <= q < |kids| ensures Placed(p, kids[q], below, to + Offset(q, c), ChunkLen(|e|, q, c)) {
      NullKidAnywhere(p, kids, d, below, c, off, to, e, q);
    }
  }

  lemma {:induction false} NullKidAnywhere(p: Params, kids: seq<Cid>, d: nat, below: nat, c: nat, off: nat, to: nat,
                                           e: seq<Cid>, q: nat)
    requires UsableParams(p) && d >= 2 && below == d - 1 && c == Span(FanoutOf(p), below) && AllNull(e)
    requires KidsPlaced(p, kids, d, off, |e|) && PageOf(FanoutOf(p), kids, e, d) && q < |kids|
    ensures Placed(p, kids[q], below, to + Offset(q, c), ChunkLen(|e|, q, c))
    decreases d, 0
  {
    KidHolds(FanoutOf(p), kids, e, d, q);
    ChunkLenIs(e, q, c);
    NullPlacedAnywhere(p, kids[q], below, off + Offset(q, c), to + Offset(q, c), Chunk(e, q, c));
  }
}
