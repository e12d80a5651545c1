/** The directory: a persistent radix vector (archive/dir.go).

    A directory of depth d and fanout f stores a vector of at most f^d entries
    and no keys. `Holds` says which vector a tree stores; every operation is
    proved to be the vector operation of the same name, on every tree of the
    right shape and not only on trees this writer built. */
module Directory {
  import opened Arith
  import opened Dag

  /* ---- Operations ---- */

  /** loadKids: the page's kids, none for an undefined node. */
  function LoadKids(node: Cid): Result<seq<Cid>> {
    if node.Undef? then Ok([]) else DecodeDir(node)
  }

  function ClampTo(kids: seq<Cid>, n: nat): (r: seq<Cid>)
    ensures forall j: nat :: At(r, j) == if j < n then At(kids, j) else Undef
  {
    if |kids| > n then kids[..n] else kids
  }

  /** growTo null-pads the page to reach d; then kid d is overwritten. */
  function Put(kids: seq<Cid>, d: nat, kid: Cid): seq<Cid> {
    if |kids| <= d then kids + seq(d - |kids|, _ => Undef) + [kid]
    else kids[..d] + [kid] + kids[d + 1..]
  }

  lemma {:induction false} PutReads(kids: seq<Cid>, d: nat, kid: Cid)
    ensures forall j: nat :: At(Put(kids, d, kid), j) == if j == d then kid else At(kids, j)
  {
  }

  /** dirSet: a new tree in which the leaf at the end of the route is kid. */
  function DirSet(node: Cid, digits: Route, kid: Cid): Result<Cid>
    decreases digits
  {
    match digits
    case End => Ok(kid)
    case Turn(d, rest) =>
      var kids :- LoadKids(node);
      var newChild :- DirSet(At(kids, d), rest, kid);
      Ok(Commit(Put(kids, d, newChild)))
  }

  /** dirAppend: entry i is written at the current sealed count, wrapping the
      root in a new single-kid page when it is full. */
  function DirAppend(dir: Cid, depth: nat, fanoutBits: nat, i: nat, kid: Cid): Result<(Cid, nat)>
    requires fanoutBits >= 1
  {
    if depth == 0 then
      if i != 0 then Err(Internal) else Ok((Commit([kid]), 1))
    else
      AppendAt(dir, depth, Capacity(depth, fanoutBits), Fanout(fanoutBits), i, kid)
  }

  /** dirAppend below an existing root that can address `full` entries. */
  function AppendAt(dir: Cid, depth: nat, full: nat, fanout: nat, i: nat, kid: Cid): Result<(Cid, nat)>
    requires fanout >= 2
  {
    if i > full then Err(Internal) else
      var (root, level) := if i == full then (Commit([dir]), depth + 1) else (dir, depth);
      if level > 64 || i >= Span(fanout, level) then Err(Internal) else
        var newDir :- DirSet(root, RouteTo(fanout, i, level), kid);
        Ok((newDir, level))
  }

  /** dirTruncate: keeps the entries whose index is below the value of digits. */
  function DirTruncate(node: Cid, digits: Route): Result<Cid>
    requires digits.Turn?
    decreases digits
  {
    var kids :- LoadKids(node);
    var d, rest := digits.digit, digits.rest;
    if AllZero(rest) then
      Ok(Commit(ClampTo(kids, d)))
    else if At(kids, d).Undef? then
      Err(Internal)
    else
      var child :- DirTruncate(At(kids, d), rest);
      Ok(Commit(Put(ClampTo(kids, d), d, child)))
  }

  /** dirShrink: unwraps root levels that hold a single kid. */
  function Shrink(dir: Cid, depth: nat): Result<(Cid, nat)>
    decreases depth
  {
    if depth <= 1 then Ok((dir, depth)) else
      var kids :- DecodeDir(dir);
      if |kids| != 1 || kids[0].Undef? then Ok((dir, depth)) else Shrink(kids[0], depth - 1)
  }

  method DirShrink(dir: Cid, depth: nat) returns (r: Result<(Cid, nat)>)
    ensures r == Shrink(dir, depth)
  {
    var cur, level := dir, depth;
    while level > 1
      invariant Shrink(cur, level) == Shrink(dir, depth)
      decreases level
    {
      var kids :- DecodeDir(cur);
      if |kids| != 1 || kids[0].Undef? { break; }
      cur, level := kids[0], level - 1;
    }
    return Ok((cur, level));
  }

  /* ---- The vector a tree stores ---- */

  /** The number of kids, of c entries each, that n entries occupy. */
  function Pages(n: nat, c: nat): nat
    requires c >= 1
  {
    if n == 0 then 0 else if n <= c then 1 else Pages(n - c, c) + 1
  }

  /** The entries below kid q. */
  function Chunk(e: seq<Cid>, q: nat, c: nat): seq<Cid> {
    var lo := Offset(q, c);
    if lo > |e| then [] else if lo + c > |e| then e[lo..] else e[lo..lo + c]
  }

  /** The tree rooted at node stores exactly the vector e in d levels of pages.
      Leaf pages may omit trailing nulls; every other page has a kid for each
      range of entries that was appended, even one that is all null. */
  ghost predicate Holds(fanout: nat, node: Cid, e: seq<Cid>, d: nat)
    requires fanout >= 2
    decreases d, 1
  {
    && d >= 1 && 1 <= |e| <= Span(fanout, d)
    && node.Link? && node.block.DirNode?
    && if d == 1 then Trim(node.block.kids) == Trim(e) else PageOf(fanout, Trim(node.block.kids), e, d)
  }

  /** The kids of an inner page hold the chunks of e, one each. */
  ghost predicate PageOf(fanout: nat, kids: seq<Cid>, e: seq<Cid>, d: nat)
    requires fanout >= 2 && d >= 2
    decreases d, 0
  {
    var c := Span(fanout, d - 1);
    && |kids| == Pages(|e|, c)
    && forall q {:trigger Chunk(e, q, c)} | 0 <= q < |kids| :: Holds(fanout, kids[q], Chunk(e, q, c), d - 1)
  }

  /** Every page is encoded as this writer encodes it. */
  ghost predicate WriterPages(node: Cid, d: nat)
    decreases d
  {
    d >= 1 ==>
      && node.Link? && node.block.DirNode?
      && node.block.form == Canonical && node.block.kids == Trim(node.block.kids)
      && forall q | 0 <= q < |node.block.kids| && node.block.kids[q].Link? && d > 1 ::
           WriterPages(node.block.kids[q], d - 1)
  }

  /* ---- Canonicity of the tree ---- */

  /** A writer's tree is determined by its vector and depth alone. */
  lemma {:induction false} TreeUnique(fanout: nat, a: Cid, b: Cid, e: seq<Cid>, d: nat)
    requires fanout >= 2
    requires Holds(fanout, a, e, d) && Holds(fanout, b, e, d)
    requires WriterPages(a, d) && WriterPages(b, d)
    ensures a == b
    decreases d
  {
    if d > 1 {
      var x, y := a.block.kids, b.block.kids;
      forall q | 0 <= q < |x| ensures x[q] == y[q] {
        TreeUnique(fanout, x[q], y[q], Chunk(e, q, Span(fanout, d - 1)), d - 1);
      }
      assert x == y;
    }
  }

  /* ---- Chunks of a vector ---- */

  lemma {:induction false} OffsetShift(q: nat, c: nat)
    ensures Offset(q + 1, c) == c + Offset(q, c)
  {
  }

  /** n entries fill all but the last of their pages. */
  lemma {:induction false} PagesBounds(n: nat, c: nat)
    requires n >= 1 && c >= 1
    ensures Pages(n, c) >= 1
    ensures Offset(Pages(n, c) - 1, c) < n <= Offset(Pages(n, c), c)
    decreases n
  {
    if n > c {
      PagesBounds(n - c, c);
      OffsetShift(Pages(n - c, c), c);
      OffsetShift(Pages(n - c, c) - 1, c);
    } else {
      assert Offset(1, c) == Offset(0, c) + c;
    }
  }

  lemma {:induction false} PagesUnique(n: nat, c: nat, p: nat)
    requires n >= 1 && c >= 1 && p >= 1 && Offset(p - 1, c) < n <= Offset(p, c)
    ensures Pages(n, c) == p
  {
    PagesBounds(n, c);
    if p < Pages(n, c) - 1 { OffsetStep(p, Pages(n, c) - 1, c); }
    if Pages(n, c) < p - 1 { OffsetStep(Pages(n, c), p - 1, c); }
  }

  lemma {:induction false} ChunkOfPrefix(e: seq<Cid>, n: nat, q: nat, c: nat)
    requires n <= |e| && Offset(q, c) + c <= n
    ensures Chunk(e[..n], q, c) == Chunk(e, q, c)
  {
  }

  lemma {:induction false} ChunkCut(e: seq<Cid>, n: nat, q: nat, c: nat)
    requires Offset(q, c) < n <= |e| && n < Offset(q, c) + c
    ensures n - Offset(q, c) <= |Chunk(e, q, c)|
    ensures Chunk(e[..n], q, c) == Chunk(e, q, c)[..n - Offset(q, c)]
  {
  }

  /** A page over the chunks of e holds e. */
  lemma {:induction false} PageHolds(fanout: nat, kids: seq<Cid>, e: seq<Cid>, d: nat)
    requires fanout >= 2 && d >= 2 && 1 <= |e| <= Span(fanout, d)
    requires PageOf(fanout, kids, e, d)
    ensures Trim(kids) == kids
    ensures Holds(fanout, Commit(kids), e, d)
  {
    var c := Span(fanout, d - 1);
    PagesBounds(|e|, c);
    assert Holds(fanout, kids[|kids| - 1], Chunk(e, |kids| - 1, c), d - 1);
  }

  lemma {:induction false} KidHolds(fanout: nat, kids: seq<Cid>, e: seq<Cid>, d: nat, q: nat)
    requires fanout >= 2 && d >= 2 && PageOf(fanout, kids, e, d) && q < |kids|
    ensures Holds(fanout, kids[q], Chunk(e, q, Span(fanout, d - 1)), d - 1)
  {
    assert Chunk(e, q, Span(fanout, d - 1)) == Chunk(e, q, Span(fanout, d - 1));
  }

  /** Index n of a depth-d tree is place r below kid q of its root. */
  ghost predicate SplitsAt(fanout: nat, n: nat, d: nat, q: nat, r: nat)
    requires fanout >= 2
  {
    && d >= 1 && q < fanout && r < Span(fanout, d - 1)
    && n == Offset(q, Span(fanout, d - 1)) + r
    && Pages(n, Span(fanout, d - 1)) == if r == 0 then q else q + 1
  }

  lemma {:induction false} SplitIndex(fanout: nat, n: nat, d: nat) returns (q: nat, r: nat)
    requires fanout >= 2 && d >= 1 && n < Span(fanout, d)
    ensures SplitsAt(fanout, n, d, q, r)
    ensures RouteTo(fanout, n, d) == Turn(q, RouteTo(fanout, r, d - 1))
  {
    var c := Span(fanout, d - 1);
    q, r := n / c, n % c;
    TopDigit(fanout, n, d);
    OffsetIsProduct(q, c);
    SplitPages(n, c, q, r);
  }

  lemma {:induction false} SplitPages(n: nat, c: nat, q: nat, r: nat)
    requires c >= 1 && r < c && n == Offset(q, c) + r
    ensures Pages(n, c) == if r == 0 then q else q + 1
  {
    if r > 0 {
      PagesUnique(n, c, q + 1);
    } else if n > 0 {
      PagesUnique(n, c, q);
    }
  }

  /* ---- Append ---- */

  ghost predicate HoldsOrNone(fanout: nat, node: Cid, e: seq<Cid>, d: nat)
    requires fanout >= 2
  {
    if e == [] then node == Undef else Holds(fanout, node, e, d)
  }

  ghost predicate WriterOrNone(node: Cid, d: nat) {
    node.Link? ==> WriterPages(node, d)
  }

  lemma {:induction false} LeafSet(fanout: nat, node: Cid, e: seq<Cid>, x: Cid)
    requires fanout >= 2 && |e| < Span(fanout, 1)
    requires HoldsOrNone(fanout, node, e, 1)
    ensures DirSet(node, RouteTo(fanout, |e|, 1), x) == Ok(Commit(e + [x]))
    ensures Holds(fanout, Commit(e + [x]), e + [x], 1)
  {
    var kids := LoadKids(node).value;
    DivModUnique(|e|, |e|, 0, 1);
    assert RouteTo(fanout, |e|, 1) == Turn(|e|, End);
    var page := Put(kids, |e|, x);
    PutReads(kids, |e|, x);
    TrimReads(e);
    forall j: nat ensures At(page, j) == At(e + [x], j) {
      assert At(kids, j) == At(e, j);
    }
    TrimUnique(page, e + [x]);
    TrimIdempotent(e + [x]);
  }

  /** The page an append writes: the old kids, and the child it descended to. */
  lemma {:induction false} SetPage(fanout: nat, kids: seq<Cid>, e: seq<Cid>, d: nat, q: nat, tail: seq<Cid>, x: Cid,
                                   newChild: Cid)
    requires fanout >= 2 && d >= 2 && |tail| <= |e| && tail == e[|e| - |tail|..]
    requires SplitsAt(fanout, |e|, d, q, |tail|)
    requires PageOf(fanout, kids, e, d)
    requires Holds(fanout, newChild, tail + [x], d - 1)
    ensures PageOf(fanout, kids[..q] + [newChild], e + [x], d)
  {
    var n, c := |e|, Span(fanout, d - 1);
    var e', page := e + [x], kids[..q] + [newChild];
    PagesUnique(n + 1, c, q + 1);
    assert Chunk(e', q, c) == tail + [x];
    forall j | 0 <= j < q ensures Holds(fanout, kids[j], Chunk(e', j, c), d - 1) {
      KidHolds(fanout, kids, e, d, j);
      OffsetStep(j, q, c);
      assert e'[..n] == e;
      ChunkOfPrefix(e', n, j, c);
    }
  }

  lemma {:induction false} SetUnfolds(node: Cid, kids: seq<Cid>, q: nat, rest: Route, x: Cid, newChild: Cid)
    requires LoadKids(node) == Ok(kids) && q <= |kids| <= q + 1
    requires DirSet(At(kids, q), rest, x) == Ok(newChild)
    ensures DirSet(node, Turn(q, rest), x) == Ok(Commit(kids[..q] + [newChild]))
  {
    assert Put(kids, q, newChild) == kids[..q] + [newChild];
  }

  /** Writing at the current count appends exactly one entry and keeps all
      others. */
  lemma {:induction false} SetAppends(fanout: nat, node: Cid, e: seq<Cid>, d: nat, x: Cid)
    requires fanout >= 2 && d >= 1 && |e| < Span(fanout, d)
    requires HoldsOrNone(fanout, node, e, d)
    ensures var r := DirSet(node, RouteTo(fanout, |e|, d), x);
            r.Ok? && Holds(fanout, r.value, e + [x], d)
    decreases d
  {
    if d == 1 {
      LeafSet(fanout, node, e, x);
    } else {
      var n := |e|;
      var q, r := SplitIndex(fanout, n, d);
      var kids := LoadKids(node).value;
      assert PageOf(fanout, kids, e, d);
      var child, tail := At(kids, q), e[n - r..];
      if r > 0 {
        KidHolds(fanout, kids, e, d, q);
        assert Chunk(e, q, Span(fanout, d - 1)) == tail;
      }
      assert |tail| == r;
      SetAppends(fanout, child, tail, d - 1, x);
      SetBelow(fanout, node, kids, e, d, q, tail, x);
    }
  }

  lemma {:induction false} SetBelow(fanout: nat, node: Cid, kids: seq<Cid>, e: seq<Cid>, d: nat, q: nat,
                                    tail: seq<Cid>, x: Cid)
    requires fanout >= 2 && d >= 2 && |tail| <= |e| < Span(fanout, d) && tail == e[|e| - |tail|..]
    requires SplitsAt(fanout, |e|, d, q, |tail|)
    requires RouteTo(fanout, |e|, d) == Turn(q, RouteTo(fanout, |tail|, d - 1))
    requires LoadKids(node) == Ok(kids) && PageOf(fanout, kids, e, d)
    requires DirSet(At(kids, q), RouteTo(fanout, |tail|, d - 1), x).Ok?
    requires Holds(fanout, DirSet(At(kids, q), RouteTo(fanout, |tail|, d - 1), x).value, tail + [x], d - 1)
    ensures DirSet(node, RouteTo(fanout, |e|, d), x).Ok?
    ensures Holds(fanout, DirSet(node, RouteTo(fanout, |e|, d), x).value, e + [x], d)
  {
    var rest := RouteTo(fanout, |tail|, d - 1);
    var newChild := DirSet(At(kids, q), rest, x).value;
    SetPage(fanout, kids, e, d, q, tail, x, newChild);
    PageHolds(fanout, kids[..q] + [newChild], e + [x], d);
    SetUnfolds(node, kids, q, rest, x, newChild);
  }

  /** The pages an append writes are this writer's. */
  lemma {:induction false} SetWritesPages(node: Cid, digits: Route, x: Cid)
    requires digits.Turn? && WriterOrNone(node, Length(digits))
    requires DirSet(node, digits, x).Ok?
    ensures WriterPages(DirSet(node, digits, x).value, Length(digits))
    decreases digits
  {
    var d, kids := digits.digit, LoadKids(node).value;
    var child := DirSet(At(kids, d), digits.rest, x).value;
    if digits.rest.Turn? { SetWritesPages(At(kids, d), digits.rest, x); }
    var page := Put(kids, d, child);
    PutReads(kids, d, child);
    var out := Trim(page);
    TrimIdempotent(page);
    forall j | 0 <= j < |out| && out[j].Link? && Length(digits) > 1
      ensures WriterPages(out[j], Length(digits) - 1)
    {
      if j != d { assert out[j] == At(page, j) == At(kids, j); }
    }
  }

  /* ---- The directory of a head: a tree at its least depth ---- */

  ghost predicate DirOf(fanout: nat, dir: Cid, depth: nat, e: seq<Cid>)
    requires fanout >= 2
  {
    if e == [] then dir == Undef && depth == 0
    else IsLeastDepth(fanout, |e|, depth) && Holds(fanout, dir, e, depth)
  }

  /** Wrapping a root in a single-kid page prefixes a zero digit to every
      path: the vector is the same, one level deeper. */
  lemma {:induction false} WrapHolds(fanout: nat, dir: Cid, e: seq<Cid>, d: nat)
    requires fanout >= 2 && Holds(fanout, dir, e, d)
    ensures Holds(fanout, Commit([dir]), e, d + 1)
    ensures WriterPages(dir, d) ==> WriterPages(Commit([dir]), d + 1)
  {
    var c := Span(fanout, d);
    SpanMonotone(fanout, d, d + 1);
    assert Chunk(e, 0, c) == e;
    assert PageOf(fanout, [dir], e, d + 1);
    PageHolds(fanout, [dir], e, d + 1);
  }

  /** A full root of a directory that a head can have is at depth 63 at most,
      so the guard of pathDigits never stops an append. */
  lemma {:induction false} LeastDepthFits(fanoutBits: nat, n: nat, depth: nat)
    requires 1 <= fanoutBits && 1 <= n <= MAX_INT64
    requires IsLeastDepth(Fanout(fanoutBits), n, depth)
    ensures depth <= 63
  {
    var f := Fanout(fanoutBits);
    if depth > 63 {
      SpanMonotone(f, 63, depth - 1);
      SpanIsPow2(63, fanoutBits);
      Pow2Monotone(63, fanoutBits * 63);
      Pow2At64();
    }
  }

  /** At a head's depth, saturation hides nothing: the capacity is reached
      exactly when the tree is full. */
  lemma {:induction false} CapacityAtLeastDepth(fanoutBits: nat, n: nat, depth: nat)
    requires 1 <= fanoutBits <= 32 && 1 <= n <= MAX_INT64
    requires IsLeastDepth(Fanout(fanoutBits), n, depth)
    ensures depth <= 63
    ensures n <= Capacity(depth, fanoutBits)
    ensures n == Capacity(depth, fanoutBits) <==> n == Span(Fanout(fanoutBits), depth)
  {
    LeastDepthFits(fanoutBits, n, depth);
    CapacitySaturates(depth, fanoutBits);
  }

  lemma {:induction false} AppendAtUnfolds(dir: Cid, depth: nat, full: nat, fanout: nat, n: nat, x: Cid)
    returns (base: Cid, level: nat)
    requires fanout >= 2 && 1 <= depth <= 63 && n <= full && n <= Span(fanout, depth)
    requires n == full <==> n == Span(fanout, depth)
    ensures if n == Span(fanout, depth) then base == Commit([dir]) && level == depth + 1
            else base == dir && level == depth
    ensures n < Span(fanout, level)
    ensures DirSet(base, RouteTo(fanout, n, level), x).Ok? ==>
              AppendAt(dir, depth, full, fanout, n, x) == Ok((DirSet(base, RouteTo(fanout, n, level), x).value, level))
  {
    if n == full { base, level := Commit([dir]), depth + 1; } else { base, level := dir, depth; }
    SpanMonotone(fanout, depth, depth + 1);
  }

  /** What dirAppend comes to, away from its refusals: write in place, or wrap
      the full root and write below the wrapper. */
  lemma {:induction false} AppendUnfolds(dir: Cid, depth: nat, fanoutBits: nat, n: nat, x: Cid)
    returns (base: Cid, level: nat)
    requires 1 <= fanoutBits <= 32 && 1 <= n <= MAX_INT64
    requires IsLeastDepth(Fanout(fanoutBits), n, depth)
    ensures if n == Span(Fanout(fanoutBits), depth) then base == Commit([dir]) && level == depth + 1
            else base == dir && level == depth
    ensures n < Span(Fanout(fanoutBits), level)
    ensures DirSet(base, RouteTo(Fanout(fanoutBits), n, level), x).Ok? ==>
              DirAppend(dir, depth, fanoutBits, n, x) ==
              Ok((DirSet(base, RouteTo(Fanout(fanoutBits), n, level), x).value, level))
  {
    CapacityAtLeastDepth(fanoutBits, n, depth);
    base, level := AppendAtUnfolds(dir, depth, Capacity(depth, fanoutBits), Fanout(fanoutBits), n, x);
  }

  lemma {:induction false} FirstAppend(fanoutBits: nat, x: Cid)
    requires fanoutBits >= 1
    ensures DirAppend(Undef, 0, fanoutBits, 0, x) == Ok((Commit([x]), 1))
    ensures DirOf(Fanout(fanoutBits), Commit([x]), 1, [x])
    ensures WriterPages(Commit([x]), 1)
  {
    var f := Fanout(fanoutBits);
    LeafSet(f, Undef, [], x);
    assert [] + [x] == [x];
    TrimIdempotent([x]);
    SpanMonotone(f, 0, 1);
  }

  lemma {:induction false} LeastDepthStep(fanout: nat, n: nat, depth: nat)
    requires fanout >= 2 && IsLeastDepth(fanout, n, depth)
    ensures IsLeastDepth(fanout, n + 1, if n == Span(fanout, depth) then depth + 1 else depth)
  {
    SpanMonotone(fanout, depth, depth + 1);
  }

  /** dirAppend is vector append: one entry more, all others kept through root
      growth, and the depth again the least that fits. */
  lemma {:induction false} AppendExtends(dir: Cid, depth: nat, fanoutBits: nat, e: seq<Cid>, x: Cid)
    returns (dir': Cid, depth': nat)
    requires 1 <= fanoutBits <= 32 && |e| <= MAX_INT64
    requires DirOf(Fanout(fanoutBits), dir, depth, e)
    ensures DirAppend(dir, depth, fanoutBits, |e|, x) == Ok((dir', depth'))
    ensures DirOf(Fanout(fanoutBits), dir', depth', e + [x])
    ensures WriterOrNone(dir, depth) ==> WriterOrNone(dir', depth')
  {
    var f, n := Fanout(fanoutBits), |e|;
    if e == [] {
      FirstAppend(fanoutBits, x);
      assert e + [x] == [x];
    } else {
      var base, level := AppendUnfolds(dir, depth, fanoutBits, n, x);
      LeastDepthStep(f, n, depth);
      if level > depth { WrapHolds(f, dir, e, depth); }
      WriteAppends(f, base, e, level, x);
    }
    dir', depth' := DirAppend(dir, depth, fanoutBits, n, x).value.0, DirAppend(dir, depth, fanoutBits, n, x).value.1;
  }

  lemma {:induction false} WriteAppends(fanout: nat, dir: Cid, e: seq<Cid>, d: nat, x: Cid)
    requires fanout >= 2 && Holds(fanout, dir, e, d) && |e| < Span(fanout, d)
    ensures var r := DirSet(dir, RouteTo(fanout, |e|, d), x);
            && r.Ok? && Holds(fanout, r.value, e + [x], d)
            && (WriterPages(dir, d) ==> WriterPages(r.value, d))
  {
    SetAppends(fanout, dir, e, d, x);
    if WriterPages(dir, d) {
      RouteValue(fanout, |e|, d);
      SetWritesPages(dir, RouteTo(fanout, |e|, d), x);
    }
  }

  /* ---- Truncate ---- */

  lemma {:induction false} PagesMonotone(n: nat, m: nat, c: nat)
    requires c >= 1 && n <= m
    ensures Pages(n, c) <= Pages(m, c)
    decreases m
  {
    if n > c { PagesMonotone(n - c, m - c, c); }
  }

  /** The kids below a cut hold the same chunks of the prefix. */
  lemma {:induction false} KidsBelowCut(fanout: nat, kids: seq<Cid>, e: seq<Cid>, d: nat, pre: seq<Cid>, q: nat)
    requires fanout >= 2 && d >= 2 && pre <= e
    requires PageOf(fanout, kids, e, d) && q <= |kids| && Offset(q, Span(fanout, d - 1)) <= |pre|
    ensures forall j {:trigger Chunk(pre, j, Span(fanout, d - 1))} | 0 <= j < q ::
              Holds(fanout, kids[j], Chunk(pre, j, Span(fanout, d - 1)), d - 1)
  {
    var c := Span(fanout, d - 1);
    forall j | 0 <= j < q ensures Holds(fanout, kids[j], Chunk(pre, j, c), d - 1) {
      KidHolds(fanout, kids, e, d, j);
      OffsetStep(j, q, c);
      assert e[..|pre|] == pre;
      ChunkOfPrefix(e, |pre|, j, c);
    }
  }

  lemma {:induction false} CutBetweenKids(fanout: nat, kids: seq<Cid>, e: seq<Cid>, d: nat, pre: seq<Cid>, q: nat)
    requires fanout >= 2 && d >= 2 && pre != [] && pre <= e && |pre| <= Span(fanout, d)
    requires SplitsAt(fanout, |pre|, d, q, 0)
    requires PageOf(fanout, kids, e, d) && q <= |kids|
    ensures Holds(fanout, Commit(kids[..q]), pre, d)
  {
    KidsBelowCut(fanout, kids, e, d, pre, q);
    assert PageOf(fanout, kids[..q], pre, d);
    PageHolds(fanout, kids[..q], pre, d);
  }

  lemma {:induction false} CutInsideKid(fanout: nat, kids: seq<Cid>, e: seq<Cid>, d: nat, pre: seq<Cid>, q: nat, r: nat,
                     tail: seq<Cid>, child: Cid)
    requires fanout >= 2 && d >= 2 && pre != [] && pre <= e && |pre| <= Span(fanout, d)
    requires SplitsAt(fanout, |pre|, d, q, r) && r > 0
    requires PageOf(fanout, kids, e, d) && q <= |kids|
    requires tail == Chunk(pre, q, Span(fanout, d - 1)) && Holds(fanout, child, tail, d - 1)
    ensures Holds(fanout, Commit(kids[..q] + [child]), pre, d)
  {
    KidsBelowCut(fanout, kids, e, d, pre, q);
    assert PageOf(fanout, kids[..q] + [child], pre, d);
    PageHolds(fanout, kids[..q] + [child], pre, d);
  }

  lemma {:induction false} LeafTruncate(fanout: nat, node: Cid, e: seq<Cid>, n: nat)
    requires fanout >= 2 && Holds(fanout, node, e, 1) && 0 < n <= |e|
    ensures DirTruncate(node, RouteTo(fanout, n, 1)) == Ok(Commit(e[..n]))
    ensures Holds(fanout, Commit(e[..n]), e[..n], 1)
  {
    TrimIdempotent(e[..n]);
    DivModUnique(n, n, 0, 1);
    assert RouteTo(fanout, n, 1) == Turn(n, End);
    var kids := LoadKids(node).value;
    TrimReads(e);
    assert forall j: nat :: At(ClampTo(kids, n), j) == At(e[..n], j);
    TrimUnique(ClampTo(kids, n), e[..n]);
  }

  lemma {:induction false} UnfoldBetween(node: Cid, kids: seq<Cid>, q: nat, rest: Route)
    requires LoadKids(node) == Ok(kids) && q <= |kids| && AllZero(rest)
    ensures DirTruncate(node, Turn(q, rest)) == Ok(Commit(kids[..q]))
  {
    assert ClampTo(kids, q) == kids[..q];
  }

  lemma {:induction false} UnfoldInside(node: Cid, kids: seq<Cid>, q: nat, rest: Route, child: Cid)
    requires LoadKids(node) == Ok(kids) && q < |kids| && kids[q].Link? && !AllZero(rest)
    requires DirTruncate(kids[q], rest) == Ok(child)
    ensures DirTruncate(node, Turn(q, rest)) == Ok(Commit(kids[..q] + [child]))
  {
    assert ClampTo(kids, q) == kids[..q];
    assert Put(kids[..q], q, child) == kids[..q] + [child];
  }

  /** dirTruncate keeps exactly the first n entries, at the same depth. */
  lemma {:induction false} TruncateKeepsPrefix(fanout: nat, node: Cid, e: seq<Cid>, d: nat, n: nat)
    requires fanout >= 2 && Holds(fanout, node, e, d) && 0 < n <= |e| && n < Span(fanout, d)
    ensures var r := DirTruncate(node, RouteTo(fanout, n, d));
            r.Ok? && Holds(fanout, r.value, e[..n], d)
    decreases d
  {
    var pre := e[..n];
    if d == 1 {
      LeafTruncate(fanout, node, e, n);
    } else {
      var c := Span(fanout, d - 1);
      var q, r := SplitIndex(fanout, n, d);
      var kids, rest := LoadKids(node).value, RouteTo(fanout, r, d - 1);
      PagesMonotone(n, |e|, c);
      RouteAllZero(fanout, r, d - 1);
      if r == 0 {
        UnfoldBetween(node, kids, q, rest);
        CutBetweenKids(fanout, kids, e, d, pre, q);
      } else {
        var chunk := Chunk(e, q, c);
        KidHolds(fanout, kids, e, d, q);
        ChunkCut(e, n, q, c);
        TruncateKeepsPrefix(fanout, kids[q], chunk, d - 1, r);
        var child := DirTruncate(kids[q], rest).value;
        UnfoldInside(node, kids, q, rest, child);
        CutInsideKid(fanout, kids, e, d, pre, q, r, chunk[..r], child);
      }
    }
  }

  /** The pages a truncation writes are this writer's. */
  lemma {:induction false} TruncateWritesPages(node: Cid, digits: Route)
    requires digits.Turn? && WriterOrNone(node, Length(digits))
    requires DirTruncate(node, digits).Ok?
    ensures WriterPages(DirTruncate(node, digits).value, Length(digits))
    decreases digits
  {
    var d, rest, kids := digits.digit, digits.rest, LoadKids(node).value;
    var kept := ClampTo(kids, d);
    if !AllZero(rest) { TruncateWritesPages(At(kids, d), rest); }
    var page := if AllZero(rest) then kept
                else Put(kept, d, DirTruncate(At(kids, d), rest).value);
    if !AllZero(rest) { PutReads(kept, d, DirTruncate(At(kids, d), rest).value); }
    var out := Trim(page);
    TrimIdempotent(page);
    forall j | 0 <= j < |out| && out[j].Link? && Length(digits) > 1
      ensures WriterPages(out[j], Length(digits) - 1)
    {
      if j != d { assert out[j] == At(page, j) == At(kids, j); }
    }
  }

  /* ---- Shrink ---- */

  /** dirShrink stops exactly at the depth a fresh build would reach. */
  lemma {:induction false} ShrinkFindsLeastDepth(fanout: nat, dir: Cid, e: seq<Cid>, d: nat)
    requires fanout >= 2 && Holds(fanout, dir, e, d)
    ensures var r := Shrink(dir, d);
            && r.Ok? && r.value.1 <= d && DirOf(fanout, r.value.0, r.value.1, e)
            && (WriterPages(dir, d) ==> WriterPages(r.value.0, r.value.1))
            && (IsLeastDepth(fanout, |e|, d) ==> r.value == (dir, d))
    decreases d
  {
    if d > 1 {
      var kids, c := Trim(dir.block.kids), Span(fanout, d - 1);
      KidHolds(fanout, kids, e, d, 0);
      if |e| <= c {
        assert Chunk(e, 0, c) == e;
        ShrinkFindsLeastDepth(fanout, kids[0], e, d - 1);
      } else {
        PagesBounds(|e| - c, c);
        assert |kids| >= 2;
      }
    }
  }

  /** Truncation followed by the unwrapping of single-kid roots. */
  function CutDir(fanout: nat, dir: Cid, depth: nat, n: nat): Result<(Cid, nat)>
    requires fanout >= 2 && depth >= 1
  {
    var cut :- DirTruncate(dir, RouteTo(fanout, n, depth));
    Shrink(cut, depth)
  }

  /** Truncating a directory to n entries and shrinking it yields exactly the
      first n entries at exactly the canonical depth. */
  lemma {:induction false} CutDirKeepsPrefix(fanout: nat, dir: Cid, depth: nat, e: seq<Cid>, n: nat)
    requires fanout >= 2 && DirOf(fanout, dir, depth, e) && 0 < n < |e|
    ensures var r := CutDir(fanout, dir, depth, n);
            && r.Ok? && DirOf(fanout, r.value.0, r.value.1, e[..n])
            && (WriterPages(dir, depth) ==> WriterPages(r.value.0, r.value.1))
  {
    TruncateKeepsPrefix(fanout, dir, e, depth, n);
    var digits := RouteTo(fanout, n, depth);
    if WriterPages(dir, depth) {
      RouteValue(fanout, n, depth);
      TruncateWritesPages(dir, digits);
    }
    ShrinkFindsLeastDepth(fanout, DirTruncate(dir, digits).value, e[..n], depth);
  }

  /* ---- Lookup ---- */

  /** sealedSegment's walk: follow the digits, a null anywhere on the route is
      null. */
  function Walk(cur: Cid, digits: Route): Result<Cid>
    decreases digits
  {
    match digits
    case End => Ok(cur)
    case Turn(d, rest) =>
      var kids :- DecodeDir(cur);
      if At(kids, d).Undef? then Ok(Undef) else Walk(At(kids, d), rest)
  }

  /** The arithmetic walk reads the vector: entry i, or null past its end. */
  lemma {:induction false} WalkReads(fanout: nat, node: Cid, e: seq<Cid>, d: nat, i: nat)
    requires fanout >= 2 && Holds(fanout, node, e, d) && i < Span(fanout, d)
    ensures Walk(node, RouteTo(fanout, i, d)) == Ok(At(e, i))
    decreases d
  {
    var kids := Trim(node.block.kids);
    if d == 1 {
      DivModUnique(i, i, 0, 1);
      assert RouteTo(fanout, i, 1) == Turn(i, End);
      TrimReads(e);
      assert At(kids, i) == At(e, i);
    } else {
      var c := Span(fanout, d - 1);
      var q, r := SplitIndex(fanout, i, d);
      var rest := RouteTo(fanout, r, d - 1);
      PagesBounds(|e|, c);
      if q < |kids| {
        KidHolds(fanout, kids, e, d, q);
        WalkReads(fanout, kids[q], Chunk(e, q, c), d - 1, r);
        ChunkReads(e, q, c, r);
      } else if |kids| < q {
        OffsetStep(|kids|, q, c);
      }
    }
  }

  lemma {:induction false} ChunkReads(e: seq<Cid>, q: nat, c: nat, r: nat)
    requires r < c
    ensures At(Chunk(e, q, c), r) == At(e, Offset(q, c) + r)
  {
  }

  /* ---- Truncations compose ---- */

  lemma {:induction false} CommitUnique(a: seq<Cid>, b: seq<Cid>)
    requires SameVector(a, b)
    ensures Commit(a) == Commit(b)
  {
    TrimUnique(a, b);
  }

  /** A page reads back as the vector it was committed from. */
  lemma {:induction false} CommitReads(page: seq<Cid>)
    ensures LoadKids(Commit(page)).Ok? && SameVector(LoadKids(Commit(page)).value, page)
  {
    TrimReads(page);
    TrimIdempotent(page);
  }

  /** Two pages with the same kids below the cut, and at the cut kids that are
      truncated alike, are truncated alike. */
  lemma {:induction false} TruncateAgrees(a: Cid, x: seq<Cid>, b: Cid, y: seq<Cid>, q: nat, rest: Route)
    requires LoadKids(a) == Ok(x) && LoadKids(b) == Ok(y)
    requires forall j: nat | j < q :: At(x, j) == At(y, j)
    requires !AllZero(rest) ==> At(x, q).Link? && At(y, q).Link?
    requires !AllZero(rest) ==> DirTruncate(At(x, q), rest) == DirTruncate(At(y, q), rest)
    ensures DirTruncate(a, Turn(q, rest)) == DirTruncate(b, Turn(q, rest))
  {
    if AllZero(rest) {
      CommitUnique(ClampTo(x, q), ClampTo(y, q));
    } else if DirTruncate(At(x, q), rest).Ok? {
      var child := DirTruncate(At(x, q), rest).value;
      PutReads(ClampTo(x, q), q, child);
      PutReads(ClampTo(y, q), q, child);
      CommitUnique(Put(ClampTo(x, q), q, child), Put(ClampTo(y, q), q, child));
    }
  }

  lemma {:induction false} AllZeroIsLeast(a: Route, b: Route)
    requires RouteLe(a, b) && AllZero(b)
    ensures AllZero(a)
  {
    if a.Turn? { AllZeroIsLeast(a.rest, b.rest); }
  }

  /** The page a truncation writes, as a vector. */
  lemma {:induction false} TruncatedPage(node: Cid, digits: Route) returns (kids: seq<Cid>, after: seq<Cid>)
    requires digits.Turn? && DirTruncate(node, digits).Ok?
    ensures LoadKids(node) == Ok(kids) && LoadKids(DirTruncate(node, digits).value) == Ok(after)
    ensures forall j: nat | j < digits.digit :: At(after, j) == At(kids, j)
    ensures !AllZero(digits.rest) ==>
              At(kids, digits.digit).Link? && At(after, digits.digit).Link? &&
              DirTruncate(At(kids, digits.digit), digits.rest) == Ok(At(after, digits.digit))
  {
    kids := LoadKids(node).value;
    var d, rest := digits.digit, digits.rest;
    var kept := ClampTo(kids, d);
    if AllZero(rest) {
      CommitReads(kept);
      after := LoadKids(Commit(kept)).value;
    } else {
      var child := DirTruncate(At(kids, d), rest).value;
      PutReads(kept, d, child);
      CommitReads(Put(kept, d, child));
      after := LoadKids(Commit(Put(kept, d, child))).value;
    }
  }

  /** Truncating at a and then at or before a is the second truncation alone,
      on every tree. */
  lemma {:induction false} TruncateTwice(node: Cid, a: Route, b: Route)
    requires a.Turn? && b.Turn? && RouteLe(b, a)
    requires DirTruncate(node, a).Ok? && DirTruncate(node, b).Ok?
    ensures DirTruncate(DirTruncate(node, a).value, b) == DirTruncate(node, b)
    decreases a
  {
    var kids, after := TruncatedPage(node, a);
    if !AllZero(b.rest) && b.digit == a.digit {
      if AllZero(a.rest) { AllZeroIsLeast(b.rest, a.rest); }
      TruncateTwice(At(kids, a.digit), a.rest, b.rest);
    }
    TruncateAgrees(DirTruncate(node, a).value, after, node, kids, b.digit, b.rest);
  }

  /** The page an append writes, as a vector. */
  lemma {:induction false} AppendedPage(node: Cid, digits: Route, x: Cid) returns (kids: seq<Cid>, after: seq<Cid>)
    requires digits.Turn? && DirSet(node, digits, x).Ok?
    ensures LoadKids(node) == Ok(kids) && LoadKids(DirSet(node, digits, x).value) == Ok(after)
    ensures forall j: nat | j < digits.digit :: At(after, j) == At(kids, j)
    ensures DirSet(At(kids, digits.digit), digits.rest, x) == Ok(At(after, digits.digit))
  {
    kids := LoadKids(node).value;
    var d := digits.digit;
    var child := DirSet(At(kids, d), digits.rest, x).value;
    PutReads(kids, d, child);
    CommitReads(Put(kids, d, child));
    after := LoadKids(Commit(Put(kids, d, child))).value;
  }

  /** A truncation at or before the place an append wrote undoes it. */
  lemma {:induction false} TruncateAfterSet(node: Cid, a: Route, x: Cid, b: Route)
    requires a.Turn? && b.Turn? && RouteLe(b, a)
    requires DirSet(node, a, x).Ok? && DirTruncate(node, b).Ok?
    ensures DirTruncate(DirSet(node, a, x).value, b) == DirTruncate(node, b)
    decreases a
  {
    var kids, after := AppendedPage(node, a, x);
    if !AllZero(b.rest) && b.digit == a.digit {
      TruncateAfterSet(At(kids, a.digit), a.rest, x, b.rest);
    }
    TruncateAgrees(DirSet(node, a, x).value, after, node, kids, b.digit, b.rest);
  }

  lemma {:induction false} LinkAtEnd(kids: seq<Cid>)
    requires kids != [] && kids[|kids| - 1].Link?
    ensures LoadKids(Commit(kids)) == Ok(kids)
  {
    assert Trim(kids) == kids;
  }

  /** A single-kid root is transparent to a cut that its kid can address. */
  lemma {:induction false} CutThroughWrapper(fanout: nat, dir: Cid, kid: Cid, e: seq<Cid>, d: nat, n: nat)
    requires fanout >= 2 && d >= 2 && Holds(fanout, kid, e, d - 1) && 0 < n <= |e| && n < Span(fanout, d - 1)
    requires LoadKids(dir) == Ok([kid])
    ensures CutDir(fanout, dir, d, n) == CutDir(fanout, kid, d - 1, n)
  {
    var c, rest := Span(fanout, d - 1), RouteTo(fanout, n, d - 1);
    FitsIffNothingLeft(n, c);
    assert RouteTo(fanout, n, d) == Turn(0, rest);
    RouteAllZero(fanout, n, d - 1);
    TruncateKeepsPrefix(fanout, kid, e, d - 1, n);
    var child := DirTruncate(kid, rest).value;
    UnfoldInside(dir, [kid], 0, rest, child);
    assert [kid][..0] + [child] == [child];
    LinkAtEnd([child]);
  }

  lemma {:induction false} SingleKid(fanout: nat, dir: Cid, kid: Cid, e: seq<Cid>, d: nat)
    requires fanout >= 2 && d >= 2 && Holds(fanout, dir, e, d) && DecodeDir(dir) == Ok([kid])
    ensures Holds(fanout, kid, e, d - 1)
  {
    var c := Span(fanout, d - 1);
    KidHolds(fanout, [kid], e, d, 0);
    PagesBounds(|e|, c);
    assert Offset(1, c) == Offset(0, c) + c;
    assert Chunk(e, 0, c) == e;
  }

  /** Unwrapping roots first does not change what a cut yields. */
  lemma {:induction false} CutAfterShrink(fanout: nat, dir: Cid, e: seq<Cid>, d: nat, n: nat, root: Cid, level: nat)
    requires fanout >= 2 && Holds(fanout, dir, e, d) && 0 < n <= |e|
    requires Shrink(dir, d) == Ok((root, level)) && 1 <= level <= d && n < Span(fanout, level)
    ensures CutDir(fanout, root, level, n) == CutDir(fanout, dir, d, n)
    decreases d
  {
    if level < d {
      var kids := DecodeDir(dir).value;
      assert kids == [kids[0]];
      SingleKid(fanout, dir, kids[0], e, d);
      ShrinkFindsLeastDepth(fanout, kids[0], e, d - 1);
      CutAfterShrink(fanout, kids[0], e, d - 1, n, root, level);
      SpanMonotone(fanout, level, d - 1);
      CutThroughWrapper(fanout, dir, kids[0], e, d, n);
    } else {
      ShrinkStays(dir, d);
    }
  }

  lemma {:induction false} ShrinkStays(dir: Cid, d: nat)
    requires d >= 1 && Shrink(dir, d).Ok? && Shrink(dir, d).value.1 == d
    ensures Shrink(dir, d).value.0 == dir
  {
    if d > 1 {
      var kids := DecodeDir(dir).value;
      if |kids| == 1 && kids[0].Link? { ShrinkDescends(kids[0], d - 1); }
    }
  }

  lemma {:induction false} ShrinkDescends(dir: Cid, d: nat)
    requires Shrink(dir, d).Ok?
    ensures Shrink(dir, d).value.1 <= d
  {
    if d > 1 {
      var kids := DecodeDir(dir).value;
      if |kids| == 1 && kids[0].Link? { ShrinkDescends(kids[0], d - 1); }
    }
  }

  /** Cutting a directory to m entries and then to n is cutting it to n. */
  lemma {:induction false} CutTwice(fanout: nat, dir: Cid, depth: nat, e: seq<Cid>, m: nat, n: nat)
    requires fanout >= 2 && DirOf(fanout, dir, depth, e) && 0 < n < m < |e|
    ensures CutDir(fanout, dir, depth, m).Ok? && CutDir(fanout, dir, depth, m).value.1 >= 1
    ensures CutDir(fanout, CutDir(fanout, dir, depth, m).value.0, CutDir(fanout, dir, depth, m).value.1, n) ==
            CutDir(fanout, dir, depth, n)
  {
    TruncateKeepsPrefix(fanout, dir, e, depth, m);
    var t := DirTruncate(dir, RouteTo(fanout, m, depth)).value;
    ShrinkFindsLeastDepth(fanout, t, e[..m], depth);
    var (root, level) := Shrink(t, depth).value;
    CutAfterShrink(fanout, t, e[..m], depth, n, root, level);
    TruncateKeepsPrefix(fanout, dir, e, depth, n);
    RouteOrder(fanout, n, m, depth);
    TruncateTwice(dir, RouteTo(fanout, m, depth), RouteTo(fanout, n, depth));
  }

  lemma {:induction false} CutAfterWrite(fanout: nat, dir: Cid, e: seq<Cid>, d: nat, x: Cid, n: nat)
    requires fanout >= 2 && Holds(fanout, dir, e, d) && |e| < Span(fanout, d) && 0 < n <= |e|
    ensures DirSet(dir, RouteTo(fanout, |e|, d), x).Ok?
    ensures CutDir(fanout, DirSet(dir, RouteTo(fanout, |e|, d), x).value, d, n) == CutDir(fanout, dir, d, n)
  {
    SetAppends(fanout, dir, e, d, x);
    TruncateKeepsPrefix(fanout, dir, e, d, n);
    RouteOrder(fanout, n, |e|, d);
    TruncateAfterSet(dir, RouteTo(fanout, |e|, d), x, RouteTo(fanout, n, d));
  }

  /** A cut below the last entry does not see an append, nor does a cut at it
      once the wrapper of a full root is taken off again. */
  lemma {:induction false} CutAfterAppend(fanoutBits: nat, dir: Cid, depth: nat, e: seq<Cid>, x: Cid, n: nat)
    returns (appended: Cid, level: nat)
    requires 1 <= fanoutBits <= 32 && 0 < |e| <= MAX_INT64 && 0 < n <= |e|
    requires DirOf(Fanout(fanoutBits), dir, depth, e)
    ensures DirAppend(dir, depth, fanoutBits, |e|, x) == Ok((appended, level)) && level >= 1
    ensures n < Span(Fanout(fanoutBits), depth) ==>
              CutDir(Fanout(fanoutBits), appended, level, n) == CutDir(Fanout(fanoutBits), dir, depth, n)
    ensures n == Span(Fanout(fanoutBits), depth) ==>
              CutDir(Fanout(fanoutBits), appended, level, n) == Ok((dir, depth))
  {
    var f, base := Fanout(fanoutBits), Undef;
    base, level := AppendUnfolds(dir, depth, fanoutBits, |e|, x);
    if level > depth { WrapHolds(f, dir, e, depth); }
    CutAfterWrite(f, base, e, level, x, n);
    appended := DirSet(base, RouteTo(f, |e|, level), x).value;
    if level > depth { CutOfWrapper(f, dir, depth, e, n); }
  }

  lemma {:induction false} CutOfWrapper(fanout: nat, dir: Cid, depth: nat, e: seq<Cid>, n: nat)
    requires fanout >= 2 && 0 < n <= |e| && |e| == Span(fanout, depth) && DirOf(fanout, dir, depth, e)
    ensures CutDir(fanout, Commit([dir]), depth + 1, n) ==
            if n < Span(fanout, depth) then CutDir(fanout, dir, depth, n) else Ok((dir, depth))
  {
    LinkAtEnd([dir]);
    if n < Span(fanout, depth) {
      CutThroughWrapper(fanout, Commit([dir]), dir, e, depth + 1, n);
    } else {
      CutToWrapper(fanout, dir, e, depth);
    }
  }

  /** Cutting a wrapped full root back to its span gives the root again. */
  lemma {:induction false} CutToWrapper(fanout: nat, dir: Cid, e: seq<Cid>, depth: nat)
    requires fanout >= 2 && DirOf(fanout, dir, depth, e) && e != [] && |e| == Span(fanout, depth)
    ensures CutDir(fanout, Commit([dir]), depth + 1, |e|) == Ok((dir, depth))
  {
    var c := Span(fanout, depth);
    DivModUnique(c, 1, 0, c);
    var rest := RouteTo(fanout, 0, depth);
    RouteAllZero(fanout, 0, depth);
    assert RouteTo(fanout, c, depth + 1) == Turn(1, rest);
    LinkAtEnd([dir]);
    UnfoldBetween(Commit([dir]), [dir], 1, rest);
    assert [dir][..1] == [dir];
    ShrinkFindsLeastDepth(fanout, dir, e, depth);
  }

  /** Cutting to n, appending, and cutting to n again changes nothing: the root
      is stable, whatever encoding the original pages had. */
  lemma {:induction false} CutAppendCut(fanoutBits: nat, dir: Cid, depth: nat, e: seq<Cid>, n: nat, x: Cid)
    requires 1 <= fanoutBits <= 32 && |e| <= MAX_INT64 && 0 < n < |e|
    requires DirOf(Fanout(fanoutBits), dir, depth, e)
    ensures var f := Fanout(fanoutBits); var cut := CutDir(f, dir, depth, n);
            && cut.Ok?
            && var r := DirAppend(cut.value.0, cut.value.1, fanoutBits, n, x);
               && r.Ok? && r.value.1 >= 1 && CutDir(f, r.value.0, r.value.1, n) == cut
  {
    var f := Fanout(fanoutBits);
    CutDirKeepsPrefix(f, dir, depth, e, n);
    var (dir', depth') := CutDir(f, dir, depth, n).value;
    var appended, level := CutAfterAppend(fanoutBits, dir', depth', e[..n], x, n);
    if n < Span(f, depth') {
      var t := DirTruncate(dir, RouteTo(f, n, depth)).value;
      TruncateKeepsPrefix(f, dir, e, depth, n);
      ShrinkFindsLeastDepth(f, t, e[..n], depth);
      CutAfterShrink(f, t, e[..n], depth, n, dir', depth');
      RouteOrder(f, n, n, depth);
      TruncateTwice(dir, RouteTo(f, n, depth), RouteTo(f, n, depth));
    }
  }
}
