/** The shape coverage requires of a directory (archive/arith.go,
    archive/enumerate.go): its depth, its number of pages, and the budgets that
    bound a walk over it. */
module Geometry {
  import opened Arith
  import opened Dag
  import opened Directory
  import opened HeadState

  const MAX_ENUMERATION_OUTPUTS: nat := 0x10_0000
  const MAX_ENUMERATION_PATHS: nat := 0x20_0000
  const MAX_ENUMERATION_UNIQUE_NODES: nat := 0x40_0000

  /* ---- Counting pages ---- */

  /** Pages on levels 1 to d of a directory of n entries: level l has one page
      for every f^l entries, or part of them. */
  function PageCount(f: nat, d: nat, n: nat): nat
    requires f >= 2
  {
    if d == 0 then 0 else PageCount(f, d - 1, n) + Pages(n, Span(f, d))
  }

  lemma {:induction false} PagesAdd(k: nat, m: nat, s: nat)
    requires s >= 1
    ensures Pages(Offset(k, s) + m, s) == k + Pages(m, s)
  {
    if k > 0 {
      PagesAdd(k - 1, m, s);
      var n := Offset(k, s) + m;
      assert n - s == Offset(k - 1, s) + m;
      if n == s {
        assert Offset(k - 1, s) == 0 && m == 0;
        OffsetAtLeast(k - 1, s);
      }
    }
  }

  lemma {:induction false} OffsetAdds(a: nat, b: nat, s: nat)
    ensures Offset(a + b, s) == Offset(a, s) + Offset(b, s)
  {
    if b > 0 {
      OffsetAdds(a, b - 1, s);
      assert a + b - 1 == a + (b - 1);
    }
  }

  /** Any number of ranges of f^e entries is a number of ranges of f^l, l <= e. */
  lemma {:induction false} RangesNest(f: nat, q: nat, e: nat, l: nat) returns (k: nat)
    requires f >= 2 && l <= e
    ensures Offset(q, Span(f, e)) == Offset(k, Span(f, l))
    decreases e, q
  {
    if e == l {
      k := q;
    } else if q == 0 {
      k := 0;
    } else {
      var a := RangesNest(f, q - 1, e, l);
      var b := RangesNest(f, f, e - 1, l);
      OffsetAdds(a, b, Span(f, l));
      k := a + b;
    }
  }

  /** Pages are counted range by range: full ranges, then the rest. */
  lemma {:induction false} PageCountAdds(f: nat, q: nat, e: nat, l: nat, m: nat)
    requires f >= 2 && l <= e
    ensures PageCount(f, l, Offset(q, Span(f, e)) + m) == PageCount(f, l, Offset(q, Span(f, e))) + PageCount(f, l, m)
  {
    if l > 0 {
      PageCountAdds(f, q, e, l - 1, m);
      var k := RangesNest(f, q, e, l);
      PagesAdd(k, m, Span(f, l));
      PagesAdd(k, 0, Span(f, l));
    }
  }

  lemma {:induction false} PagesHalve(n: nat, s: nat, f: nat)
    requires s >= 1 && f >= 2 && n >= 1
    ensures Offset(f, s) >= 1
    ensures 2 * Pages(n, Offset(f, s)) <= Pages(n, s) + 1
    decreases n
  {
    OffsetAtLeast(f, s);
    var c := Offset(f, s);
    PagesBounds(n, s);
    if n > c {
      PagesHalve(n - c, s, f);
      PagesAdd(f, n - c, s);
      assert Offset(f, s) + (n - c) == n;
    }
  }

  lemma {:induction false} PagesOfOne(n: nat)
    ensures Pages(n, 1) == n
  {
    if n > 1 { PagesOfOne(n - 1); }
  }

  /** A directory has hardly more pages than entries. */
  lemma {:induction false} PageCountBound(f: nat, d: nat, n: nat)
    requires f >= 2 && n >= 1
    ensures PageCount(f, d, n) + Pages(n, Span(f, d)) <= n + d
  {
    if d == 0 {
      PagesOfOne(n);
    } else {
      PageCountBound(f, d - 1, n);
      PagesHalve(n, Span(f, d - 1), f);
    }
  }

  lemma {:induction false} DepthBound(f: nat, n: nat, d: nat)
    requires f >= 2 && IsLeastDepth(f, n, d) && n <= Pow2(20)
    ensures d <= 20
  {
    if d > 20 {
      SpanMonotone(f, 20, d - 1);
      SpanAtLeastPow2(f, 20);
    }
  }

  lemma {:induction false} SpanAtLeastPow2(f: nat, d: nat)
    requires f >= 2
    ensures Pow2(d) <= Span(f, d)
  {
    if d > 0 {
      SpanAtLeastPow2(f, d - 1);
      OffsetMonotone(2, f, Span(f, d - 1));
      assert Offset(2, Span(f, d - 1)) == Offset(1, Span(f, d - 1)) + Span(f, d - 1);
      assert Offset(1, Span(f, d - 1)) == Offset(0, Span(f, d - 1)) + Span(f, d - 1);
    }
  }

  /** Behind the sealed-window check neither the path budget nor the unique-node
      budget can be exceeded. */
  lemma {:induction false} BudgetsSuffice(f: nat, d: nat, n: nat)
    requires f >= 2 && 1 <= n <= MAX_ENUMERATION_OUTPUTS && IsLeastDepth(f, n, d)
    ensures d <= 20 && PageCount(f, d, n) <= n + d
    ensures PageCount(f, d, n) <= MAX_ENUMERATION_PATHS
    ensures n + PageCount(f, d, n) + 2 <= MAX_ENUMERATION_UNIQUE_NODES
  {
    Pow2At64();
    DepthBound(f, n, d);
    PageCountBound(f, d, n);
  }

  /* ---- canonicalDirectoryPages ---- */

  lemma {:induction false} PagesByDivision(n: nat, c: nat)
    requires n >= 1 && c >= 1
    ensures Pages(n, c) == 1 + (n - 1) / c
    decreases n
  {
    QuotientBounds(n - 1, c);
    var q := (n - 1) / c;
    OffsetIsProduct(q, c);
    OffsetIsProduct(q + 1, c);
    assert (q + 1) * c == q * c + c;
    PagesUnique(n, c, q + 1);
  }

  lemma {:induction false} PageCountOfMore(f: nat, d: nat, a: nat, b: nat)
    requires f >= 2 && a <= b
    ensures PageCount(f, d, a) <= PageCount(f, d, b)
    decreases d
  {
    if d > 0 {
      PageCountOfMore(f, d - 1, a, b);
      PagesMonotone(a, b, Span(f, d));
    }
  }

  lemma {:induction false} PageCountMonotone(f: nat, a: nat, b: nat, n: nat)
    requires f >= 2 && a <= b
    ensures PageCount(f, a, n) <= PageCount(f, b, n)
    decreases b
  {
    if a < b { PageCountMonotone(f, a, b - 1, n); }
  }

  /** canonicalDirectoryPages counts every page of the directory of n entries at
      its canonical depth, saturating at the largest uint64. */
  method CanonicalDirectoryPages(n: nat, fanoutBits: nat) returns (pages: nat)
    requires 1 <= fanoutBits <= 32 && n <= MAX_UINT64
    ensures n == 0 ==> pages == 0
    ensures n > 0 ==>
              var exact := PageCount(Fanout(fanoutBits), CanonicalDepth(n, fanoutBits), n);
              pages == if exact <= MAX_UINT64 then exact else MAX_UINT64
  {
    if n == 0 { return 0; }
    ghost var f := Fanout(fanoutBits);
    ghost var d := CanonicalDepth(n, fanoutBits);
    CanonicalDepthIsLeast(n, fanoutBits);
    pages := 0;
    var depth := 1;
    while true
      invariant 1 <= depth <= d && pages == PageCount(f, depth - 1, n) <= MAX_UINT64
      decreases d - depth
    {
      var cap := Capacity(depth, fanoutBits);
      LevelPages(n, fanoutBits, depth, d);
      var atDepth := if cap < n then 1 + (n - 1) / cap else 1;
      assert atDepth == Pages(n, Span(f, depth));
      if pages > MAX_UINT64 - atDepth {
        PageCountMonotone(f, depth, d, n);
        return MAX_UINT64;
      }
      pages := pages + atDepth;
      if cap >= n { return; }
      depth := depth + 1;
    }
  }

  /** One level of canonicalDirectoryPages, saturation included. */
  lemma {:induction false} LevelPages(n: nat, fanoutBits: nat, depth: nat, d: nat)
    requires 1 <= fanoutBits <= 32 && 1 <= n <= MAX_UINT64
    requires 1 <= depth <= d && IsLeastDepth(Fanout(fanoutBits), n, d)
    ensures Capacity(depth, fanoutBits) >= 1
    ensures Capacity(depth, fanoutBits) >= n <==> depth == d
    ensures Pages(n, Span(Fanout(fanoutBits), depth)) ==
            if Capacity(depth, fanoutBits) < n then 1 + (n - 1) / Capacity(depth, fanoutBits) else 1
  {
    var f := Fanout(fanoutBits);
    SpanMonotone(f, 0, d - 1);
    CapacitySaturates(depth, fanoutBits);
    PagesByDivision(n, Span(f, depth));
    if depth < d { SpanMonotone(f, depth, d - 1); }
  }

  /* ---- validateDirectoryGeometry ---- */

  /** The only shape coverage allows: no tree without coverage; otherwise one
      entry for each window below the open one, at the least depth. */
  ghost predicate GoodGeometry(st: State)
    requires UsableParams(st.params)
  {
    match st.synced
    case None => st.depth == 0 && st.dir.Undef? && st.open.Undef?
    case Some(synced) =>
      && synced < MAX_UINT64
      && Base(st.params) <= OpenWindow(st.params, synced)
      && OpenWindow(st.params, synced) - Base(st.params) <= MAX_ENUMERATION_OUTPUTS
      && st.depth == CanonicalDepth(OpenWindow(st.params, synced) - Base(st.params), st.params.fanoutBits)
  }

  /** validateDirectoryGeometry accepts exactly the good geometries, and derives
      the open window and the number of sealed ones. Its last two checks never
      refuse anything. */
  method ValidateGeometry(st: State) returns (r: Result<(nat, nat)>)
    requires UsableParams(st.params) && (st.synced.Some? ==> st.synced.value <= MAX_UINT64)
    ensures r.Ok? <==> GoodGeometry(st)
    ensures r.Ok? && st.synced.Some? ==>
              && r.value.0 == OpenWindow(st.params, st.synced.value)
              && r.value.0 == Base(st.params) + r.value.1
  {
    if st.synced.None? {
      if st.depth != 0 || st.dir.Link? || st.open.Link? { return Err(Malformed); }
      return Ok((0, 0));
    }
    var p, synced := st.params, st.synced.value;
    if synced == MAX_UINT64 { return Err(Malformed); }
    var openW, base := OpenWindow(p, synced), Base(p);
    if openW < base { return Err(Malformed); }
    var sealed := openW - base;
    if sealed > MAX_ENUMERATION_OUTPUTS { return Err(Malformed); }
    if st.depth != CanonicalDepth(sealed, p.fanoutBits) { return Err(Malformed); }
    var paths := CanonicalDirectoryPages(sealed, p.fanoutBits);
    if sealed > 0 {
      CanonicalDepthIsLeast(sealed, p.fanoutBits);
      BudgetsSuffice(FanoutOf(p), st.depth, sealed);
    }
    assert paths <= MAX_ENUMERATION_PATHS;
    assert paths <= MAX_ENUMERATION_UNIQUE_NODES - 2 && sealed <= MAX_ENUMERATION_UNIQUE_NODES - paths - 2;
    return Ok((openW, sealed));
  }
}
