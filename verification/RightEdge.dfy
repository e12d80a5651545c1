/** The right-edge search for the latest sealed segment (archive/apply.go):
    it skips null ranges by page links and is bounded by a visit budget. It is
    compared with the arithmetic lookup of single entries, on any tree at all, and
    with a naive scan on trees that hold a vector. */
module RightEdge {
  import opened Arith
  import opened Dag
  import opened Directory
  import opened HeadState
  import opened Geometry

  /* ---- The naive scan ---- */

  /** The greatest non-null index below limit. */
  function LastBelow(e: seq<Cid>, limit: nat): Option<nat>
    requires limit <= |e|
  {
    if limit == 0 then None
    else if e[limit - 1].Link? then Some(limit - 1)
    else LastBelow(e, limit - 1)
  }

  lemma {:induction false} LastBelowMeans(e: seq<Cid>, limit: nat)
    requires limit <= |e|
    ensures LastBelow(e, limit).None? <==> forall i | 0 <= i < limit :: e[i].Undef?
    ensures LastBelow(e, limit).Some? ==>
              var last := LastBelow(e, limit).value;
              last < limit && e[last].Link? && forall i | last < i < limit :: e[i].Undef?
  {
    if limit > 0 { LastBelowMeans(e, limit - 1); }
  }

  /** A search outcome: the entry found, or the naive scan's none. */
  ghost predicate Finds(e: seq<Cid>, limit: nat, found: Option<(Cid, nat)>)
    requires limit <= |e|
  {
    match LastBelow(e, limit)
    case None => found.None?
    case Some(i) => i < |e| && found == Some((e[i], i))
  }

  /* ---- Entries of any tree ---- */

  /** What the arithmetic walk reads at index i: an entry, a null or a fault. */
  function Reads(f: nat, node: Cid, depth: nat, i: nat): Result<Cid>
    requires f >= 2
  {
    if node.Undef? then Ok(Undef) else Walk(node, RouteTo(f, i, depth))
  }

  ghost predicate AllNull(f: nat, node: Cid, depth: nat, lo: nat, hi: nat)
    requires f >= 2
  {
    forall j: nat | lo <= j < hi :: Reads(f, node, depth, j) == Ok(Undef)
  }

  /** Some index below the limit cannot be read. */
  ghost predicate Broken(f: nat, node: Cid, depth: nat, limit: nat)
    requires f >= 2
  {
    exists j: nat :: j < limit && Reads(f, node, depth, j).Err?
  }

  /** The last entry below the limit that is not null, or none. */
  ghost predicate FindsIn(f: nat, node: Cid, depth: nat, limit: nat, found: Option<(Cid, nat)>)
    requires f >= 2
  {
    match found
    case None => AllNull(f, node, depth, 0, limit)
    case Some((c, i)) =>
      i < limit && c.Link? && Reads(f, node, depth, i) == Ok(c) && AllNull(f, node, depth, i + 1, limit)
  }

  /** Entry r of kid q of a page is entry q * c + r of the page. */
  lemma {:induction false} PageReads(f: nat, node: Cid, kids: seq<Cid>, depth: nat, below: nat, c: nat, q: nat, r: nat,
                                     j: nat)
    requires f >= 2 && DecodeDir(node) == Ok(kids) && depth == below + 1 && c == Span(f, below)
    requires r < c && j == Offset(q, c) + r
    ensures Reads(f, node, depth, j) == Reads(f, At(kids, q), below, r)
  {
    OffsetIsProduct(q, c);
    DivModUnique(j, q, r, c);
    assert RouteTo(f, j, depth) == Turn(q, RouteTo(f, r, below));
  }

  /** Which kid an index falls into, and where. */
  lemma {:induction false} SplitAt(j: nat, c: nat) returns (q: nat, r: nat)
    requires c >= 1
    ensures r < c && j == Offset(q, c) + r
  {
    q, r := j / c, j % c;
    OffsetIsProduct(q, c);
  }

  /** A page reads null in the whole range of a kid that does. */
  lemma {:induction false} KidNull(f: nat, node: Cid, kids: seq<Cid>, depth: nat, below: nat, c: nat, q: nat,
                                   base: nat, from: nat, m: nat)
    requires f >= 2 && DecodeDir(node) == Ok(kids) && depth == below + 1 && c == Span(f, below)
    requires base == Offset(q, c) && from <= m <= c && AllNull(f, At(kids, q), below, from, m)
    ensures AllNull(f, node, depth, base + from, base + m)
  {
    forall j: nat | base + from <= j < base + m ensures Reads(f, node, depth, j) == Ok(Undef) {
      PageReads(f, node, kids, depth, below, c, q, j - base, j);
    }
  }

  /** Past its last kid a page reads null. */
  lemma {:induction false} PastKids(f: nat, node: Cid, kids: seq<Cid>, depth: nat, below: nat, c: nat, lo: nat, hi: nat)
    requires f >= 2 && DecodeDir(node) == Ok(kids) && depth == below + 1 && c == Span(f, below)
    requires lo == Offset(|kids|, c)
    ensures AllNull(f, node, depth, lo, hi)
  {
    forall j: nat | lo <= j < hi ensures Reads(f, node, depth, j) == Ok(Undef) {
      var q, r := SplitAt(j, c);
      if q < |kids| { OffsetStep(q, |kids|, c); }
      PageReads(f, node, kids, depth, below, c, q, r, j);
    }
  }

  lemma {:induction false} KidFinds(f: nat, node: Cid, kids: seq<Cid>, depth: nat, below: nat, c: nat, q: nat,
                                    base: nat, m: nat,
                                    limit: nat, found: (Cid, nat))
    requires f >= 2 && DecodeDir(node) == Ok(kids) && depth == below + 1 && c == Span(f, below)
    requires base == Offset(q, c) && m <= c && base + m <= limit && AllNull(f, node, depth, base + m, limit)
    requires FindsIn(f, At(kids, q), below, m, Some(found))
    ensures FindsIn(f, node, depth, limit, Some((found.0, base + found.1)))
  {
    PageReads(f, node, kids, depth, below, c, q, found.1, base + found.1);
    KidNull(f, node, kids, depth, below, c, q, base, found.1 + 1, m);
  }

  lemma {:induction false} KidBroken(f: nat, node: Cid, kids: seq<Cid>, depth: nat, below: nat, c: nat, q: nat,
                                     base: nat, m: nat, limit: nat)
    requires f >= 2 && DecodeDir(node) == Ok(kids) && depth == below + 1 && c == Span(f, below)
    requires base == Offset(q, c) && m <= c && base + m <= limit && Broken(f, At(kids, q), below, m)
    ensures Broken(f, node, depth, limit)
  {
    var r: nat :| r < m && Reads(f, At(kids, q), below, r).Err?;
    PageReads(f, node, kids, depth, below, c, q, r, base + r);
  }

  lemma {:induction false} BadPage(f: nat, node: Cid, depth: nat, limit: nat)
    requires f >= 2 && depth >= 1 && limit >= 1 && node.Link? && DecodeDir(node).Err?
    ensures Broken(f, node, depth, limit)
  {
    assert Reads(f, node, depth, 0).Err?;
  }

  /* ---- The search ---- */

  /** latestSealedInDir, on any tree: an answer is the last entry below the limit
      by the arithmetic walk. It visits at most one page for each page of a full
      directory over those entries, and fails only on a page that cannot be read or
      on a smaller budget than that. */
  method LatestSealed(node: Cid, depth: nat, fanoutBits: nat, limit: nat, budget: nat)
    returns (r: Result<Option<(Cid, nat)>>, left: nat)
    requires 1 <= fanoutBits <= 32 && depth <= MAX_UINT64 && limit <= MAX_UINT64 && (depth == 0 ==> node.Undef?)
    ensures r.Ok? ==> FindsIn(Fanout(fanoutBits), node, depth, limit, r.value)
    ensures left <= budget && budget - left <= PageCount(Fanout(fanoutBits), depth, limit)
    ensures r.Err? ==>
            Broken(Fanout(fanoutBits), node, depth, limit) || budget < PageCount(Fanout(fanoutBits), depth, limit)
    decreases depth, 1
  {
    if node.Undef? || depth == 0 || limit == 0 { return Ok(None), budget; }
    ghost var f := Fanout(fanoutBits);
    PagesBounds(limit, Span(f, depth));
    if budget == 0 { return Err(Internal), 0; }
    left := budget - 1;
    var page := DecodeDir(node);
    if page.Err? {
      BadPage(f, node, depth, limit);
      return Err(page.fault), left;
    }
    if page.value == [] {
      PastKids(f, node, [], depth, depth - 1, Span(f, depth - 1), 0, limit);
      return Ok(None), left;
    }
    r, left := SearchKids(node, page.value, depth, fanoutBits, limit, left);
  }

  /** The entry range of the first kid to search, then of the ones before it. */
  predicate Pending(c: nat, cap: nat, child: nat, highest: nat, limit: nat, upto: nat) {
    if child <= highest then upto == Offset(child, c)
    else
      var base := Offset(highest, c);
      base < limit && upto == base + if limit - base < cap then limit - base else cap
  }

  /** Capacities saturate only where there is nothing but the first kid. */
  predicate Scaled(c: nat, cap: nat, highest: nat) {
    1 <= cap <= c && (highest == 0 || cap == c)
  }

  /** The kids of a page, from the one with entry limit - 1 down. */
  method SearchKids(node: Cid, kids: seq<Cid>, depth: nat, fanoutBits: nat, limit: nat, budget: nat)
    returns (r: Result<Option<(Cid, nat)>>, left: nat)
    requires 1 <= fanoutBits <= 32 && 1 <= depth <= MAX_UINT64 && DecodeDir(node) == Ok(kids) && kids != []
    requires 1 <= limit <= MAX_UINT64
    ensures r.Ok? ==> FindsIn(Fanout(fanoutBits), node, depth, limit, r.value)
    ensures left <= budget && budget - left <= PageCount(Fanout(fanoutBits), depth - 1, limit)
    ensures r.Err? ==>
            Broken(Fanout(fanoutBits), node, depth, limit) || budget < PageCount(Fanout(fanoutBits), depth - 1, limit)
    decreases depth, 0, 1
  {
    ghost var f := Fanout(fanoutBits);
    var below := depth - 1;
    var cap := Capacity(below, fanoutBits);
    ghost var c := Span(f, below);
    var highest: nat;
    ghost var upto: nat;
    highest, upto := FirstKid(node, kids, depth, below, fanoutBits, cap, limit);
    PageCountOfMore(f, below, upto, limit);
    var child: nat := highest + 1;
    left := budget;
    while child > 0
      invariant child <= highest + 1 && left <= budget && upto <= limit
      invariant AllNull(f, node, depth, upto, limit) && Pending(c, cap, child, highest, limit, upto)
      invariant budget - left + PageCount(f, below, upto) <= PageCount(f, below, limit)
    {
      ghost var next := child;
      child := child - 1;
      var base := BaseOf(child, cap);
      KidRange(f, below, child, next, highest, cap, c, limit, upto, base);
      var childLimit := if child == highest && limit - base < cap then limit - base else cap;
      r, left := SearchKid(node, kids, depth, below, fanoutBits, child, base, childLimit, upto, limit, left);
      if r.Err? || r.value.Some? { return; }
      upto := base;
    }
    return Ok(None), left;
  }

  /** One kid, which has the entries from base up to upto. */
  method SearchKid(node: Cid, kids: seq<Cid>, depth: nat, below: nat, fanoutBits: nat, child: nat, base: nat,
                   childLimit: nat,
                   ghost upto: nat, limit: nat, budget: nat)
    returns (r: Result<Option<(Cid, nat)>>, left: nat)
    requires 1 <= fanoutBits <= 32 && depth == below + 1 && depth <= MAX_UINT64 && limit <= MAX_UINT64
    requires DecodeDir(node) == Ok(kids) && child < |kids|
    requires base == Offset(child, Span(Fanout(fanoutBits), below))
    requires 1 <= childLimit <= Span(Fanout(fanoutBits), below)
    requires upto == base + childLimit && upto <= limit && AllNull(Fanout(fanoutBits), node, depth, upto, limit)
    ensures r.Ok? && r.value.Some? ==> FindsIn(Fanout(fanoutBits), node, depth, limit, r.value)
    ensures r.Ok? && r.value.None? ==> AllNull(Fanout(fanoutBits), node, depth, base, limit)
    ensures left <= budget && budget - left <= PageCount(Fanout(fanoutBits), below, childLimit)
    ensures r.Err? ==>
            Broken(Fanout(fanoutBits), node, depth, limit) || budget < PageCount(Fanout(fanoutBits), below, childLimit)
    decreases depth, 0, 0
  {
    ghost var f := Fanout(fanoutBits);
    ghost var c := Span(f, below);
    var kid := kids[child];
    if kid.Undef? {
      KidNull(f, node, kids, depth, below, c, child, base, 0, childLimit);
      return Ok(None), budget;
    }
    if below == 0 {
      KidFinds(f, node, kids, depth, below, c, child, base, childLimit, limit, (kid, 0));
      return Ok(Some((kid, base))), budget;
    }
    r, left := LatestSealed(kid, below, fanoutBits, childLimit, budget);
    if r.Err? {
      if Broken(f, kid, below, childLimit) {
        KidBroken(f, node, kids, depth, below, c, child, base, childLimit, limit);
      }
    } else if r.value.Some? {
      KidFinds(f, node, kids, depth, below, c, child, base, childLimit, limit, r.value.value);
      r := Ok(Some((r.value.value.0, base + r.value.value.1)));
    } else {
      KidNull(f, node, kids, depth, below, c, child, base, 0, childLimit);
    }
  }

  /** The first entry of a kid. */
  method BaseOf(child: nat, cap: nat) returns (base: nat)
    ensures base == Offset(child, cap)
  {
    OffsetIsProduct(child, cap);
    return child * cap;
  }

  lemma {:induction false} KidCapacity(fanoutBits: nat, d: nat, cap: nat)
    requires 1 <= fanoutBits <= 32 && d <= MAX_UINT64 && cap == Capacity(d, fanoutBits)
    ensures 1 <= cap <= Span(Fanout(fanoutBits), d) && (cap == Span(Fanout(fanoutBits), d) || cap == MAX_UINT64)
  {
    SpanMonotone(Fanout(fanoutBits), 0, d);
    CapacitySaturates(d, fanoutBits);
  }

  /** The last kid that has to be searched, and where its entries end. */
  method FirstKid(node: Cid, kids: seq<Cid>, depth: nat, below: nat, fanoutBits: nat, cap: nat, limit: nat)
    returns (highest: nat, ghost upto: nat)
    requires 1 <= fanoutBits <= 32 && depth == below + 1 && depth <= MAX_UINT64 && cap == Capacity(below, fanoutBits)
    requires DecodeDir(node) == Ok(kids) && kids != [] && 1 <= limit <= MAX_UINT64
    ensures highest < |kids| && Scaled(Span(Fanout(fanoutBits), below), cap, highest) && upto <= limit
    ensures Pending(Span(Fanout(fanoutBits), below), cap, highest + 1, highest, limit, upto)
    ensures AllNull(Fanout(fanoutBits), node, depth, upto, limit)
  {
    ghost var f := Fanout(fanoutBits);
    ghost var c := Span(f, below);
    KidCapacity(fanoutBits, below, cap);
    highest := LastKid(limit, cap, c);
    upto := limit;
    if highest >= |kids| {
      upto := Clipped(limit, cap, c, highest, |kids|);
      highest := |kids| - 1;
      PastKids(f, node, kids, depth, below, c, upto, limit);
    }
  }

  lemma {:induction false} Clipped(limit: nat, cap: nat, c: nat, q: nat, n: nat) returns (upto: nat)
    requires Scaled(c, cap, q) && Offset(q, c) < limit && 1 <= n <= q
    ensures upto == Offset(n, c) && upto <= limit && Pending(c, cap, n, n - 1, limit, upto) && Scaled(c, cap, n - 1)
  {
    upto := Offset(n, c);
    OffsetMonotone(n, q, c);
    OffsetMonotone(n - 1, n, c);
  }

  /** The kid that entry limit - 1 falls into. */
  method LastKid(limit: nat, cap: nat, ghost c: nat) returns (q: nat)
    requires 1 <= limit <= MAX_UINT64 && 1 <= cap <= c && (cap == c || cap == MAX_UINT64)
    ensures Scaled(c, cap, q) && Offset(q, c) < limit <= Offset(q, c) + cap
  {
    q := (limit - 1) / cap;
    QuotientBounds(limit - 1, cap);
    OffsetIsProduct(q, c);
    if cap != c && q > 0 { MulMonotone(1, q, cap); }
  }

  /** The range of kid `child`, and its pages. */
  lemma {:induction false} KidRange(f: nat, below: nat, child: nat, next: nat, highest: nat, cap: nat, c: nat,
                                    limit: nat,
                                    upto: nat, base: nat)
    requires f >= 2 && c == Span(f, below) && next == child + 1 && next <= highest + 1 && Scaled(c, cap, highest)
    requires Pending(c, cap, next, highest, limit, upto) && upto <= limit && base == Offset(child, cap)
    ensures base == Offset(child, c) && base <= limit
    ensures var m := if child == highest && limit - base < cap then limit - base else cap;
            && upto == base + m && 1 <= m <= c
            && PageCount(f, below, upto) == PageCount(f, below, base) + PageCount(f, below, m)
  {
    var m := if child == highest && limit - base < cap then limit - base else cap;
    PageCountAdds(f, child, below, below, m);
  }

  /* ---- Trees that hold a vector ---- */

  /** On the tree of a vector nothing is broken, and the search is the naive scan. */
  lemma {:induction false} SearchIsScan(f: nat, node: Cid, e: seq<Cid>, depth: nat, limit: nat,
                                        found: Option<(Cid, nat)>)
    requires f >= 2 && Holds(f, node, e, depth) && limit <= |e|
    ensures !Broken(f, node, depth, limit)
    ensures FindsIn(f, node, depth, limit, found) ==> Finds(e, limit, found)
  {
    forall j: nat | j < limit ensures Reads(f, node, depth, j) == Ok(e[j]) { WalkReads(f, node, e, depth, j); }
    LastBelowMeans(e, limit);
  }
}
