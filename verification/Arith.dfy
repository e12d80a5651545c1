/** The address arithmetic of a head (archive/arith.go).

    The directory stores no keys: a slot's whole route through the tree is
    computed from its number. All quantities of the program are uint64; here
    they are naturals and every wrap-around, saturation and refusal is written
    out. */
module Arith {

  const TWO64: nat := 0x1_0000_0000_0000_0000
  const MAX_UINT64: nat := 0xFFFF_FFFF_FFFF_FFFF
  const MAX_INT64: nat := 0x7FFF_FFFF_FFFF_FFFF

  function Pow2(n: nat): (r: nat)
    ensures r >= 1
  {
    if n == 0 then 1 else 2 * Pow2(n - 1)
  }

  lemma {:induction false} Pow2Adds(a: nat, b: nat)
    ensures Pow2(a + b) == Pow2(a) * Pow2(b)
  {
    if a > 0 {
      Pow2Adds(a - 1, b);
      assert Pow2(a + b) == 2 * (Pow2(a - 1) * Pow2(b));
    }
  }

  lemma {:induction false} Pow2Monotone(a: nat, b: nat)
    requires a <= b
    ensures Pow2(a) <= Pow2(b)
    decreases b
  {
    if a < b { Pow2Monotone(a, b - 1); }
  }

  lemma {:induction false} Pow2At64()
    ensures Pow2(20) == 0x10_0000
    ensures Pow2(63) == 0x8000_0000_0000_0000
    ensures Pow2(64) == TWO64
  {
    assert Pow2(4) == 16;
    Pow2Adds(4, 4);
    Pow2Adds(8, 8);
    Pow2Adds(16, 16);
    Pow2Adds(16, 4);
    Pow2Adds(32, 32);
  }

  /** The product q * c, kept as a repeated sum so that most proofs need no
      products: where window or kid number q begins when each spans c. */
  function Offset(q: nat, c: nat): nat {
    if q == 0 then 0 else Offset(q - 1, c) + c
  }

  lemma {:induction false} OffsetIsProduct(q: nat, c: nat)
    ensures Offset(q, c) == q * c
  {
    if q > 0 {
      OffsetIsProduct(q - 1, c);
      assert (q - 1) * c + c == q * c;
    }
  }

  /** The quotient x / s, kept as a repeated subtraction. */
  function Quot(x: nat, s: nat): nat
    requires s > 0
  {
    if x < s then 0 else 1 + Quot(x - s, s)
  }

  lemma {:induction false} QuotBounds(x: nat, s: nat)
    requires s > 0
    ensures Offset(Quot(x, s), s) <= x < Offset(Quot(x, s), s) + s
  {
    if x >= s { QuotBounds(x - s, s); }
  }

  lemma {:induction false} OffsetMonotone(q: nat, p: nat, c: nat)
    requires q <= p
    ensures Offset(q, c) + (if q < p then c else 0) <= Offset(p, c)
    decreases p
  {
    if q < p { OffsetMonotone(q, p - 1, c); }
  }

  lemma {:induction false} OffsetAtLeast(q: nat, c: nat)
    requires c > 0
    ensures q <= Offset(q, c)
  {
    if q > 0 { OffsetAtLeast(q - 1, c); }
  }

  /** Division is what the two repeated operations compute. */
  lemma {:induction false} QuotIsDivision(x: nat, s: nat)
    requires s > 0
    ensures Quot(x, s) == x / s
  {
    QuotBounds(x, s);
    OffsetIsProduct(Quot(x, s), s);
    DivModUnique(x, Quot(x, s), x - Quot(x, s) * s, s);
  }

  /* ---- Windows ---- */

  /** The window a slot belongs to: `slot >> segBits`. */
  function Ord(slot: nat, segBits: nat): nat {
    Quot(slot, Pow2(segBits))
  }

  /** `w << segBits`, as a uint64. */
  function WindowStart(w: nat, segBits: nat): nat {
    Offset(w, Pow2(segBits)) % TWO64
  }

  /** `((w + 1) << segBits) - 1`, as a uint64. */
  function WindowEnd(w: nat, segBits: nat): nat {
    (Offset((w + 1) % TWO64, Pow2(segBits)) % TWO64 + MAX_UINT64) % TWO64
  }

  /** Some uint64 slot belongs to window w. */
  predicate Addressable(w: nat, segBits: nat) {
    Offset(w, Pow2(segBits)) <= MAX_UINT64
  }

  lemma {:induction false} QuotientBounds(x: nat, s: nat)
    requires s > 0
    ensures x / s * s <= x < x / s * s + s
  {
  }

  lemma {:induction false} MulMonotone(a: int, b: int, s: nat)
    requires a <= b
    ensures a * s <= b * s
  {
  }

  lemma {:induction false} MulStrict(a: int, b: int, s: nat)
    requires a < b
    ensures a * s + s <= b * s
  {
    MulMonotone(a + 1, b, s);
  }

  lemma {:induction false} DivModUnique(x: nat, q: nat, r: nat, s: nat)
    requires s > 0 && x == q * s + r && r < s
    ensures x / s == q && x % s == r
  {
    QuotientBounds(x, s);
    if x / s < q { MulStrict(x / s, q, s); }
    if x / s > q { MulStrict(q, x / s, s); }
  }

  lemma {:induction false} FitsIffNothingLeft(i: nat, span: nat)
    requires span > 0
    ensures i / span == 0 <==> i < span
    ensures i < span ==> i % span == i
  {
    QuotientBounds(i, span);
    if i < span { DivModUnique(i, 0, i, span); }
  }

  /** The next window starts at or before 2^64, so a window never straddles it. */
  lemma {:induction false} NextWindowInRange(w: nat, segBits: nat)
    requires segBits <= 63 && Addressable(w, segBits)
    ensures Offset(w + 1, Pow2(segBits)) <= TWO64
  {
    var s, t := Pow2(segBits), Pow2(64 - segBits);
    Pow2At64();
    Pow2Adds(64 - segBits, segBits);
    OffsetIsProduct(t, s);
    if w >= t { OffsetMonotone(t, w, s); }
    OffsetMonotone(w + 1, t, s);
  }

  /** Neither shift loses bits for a window some uint64 slot belongs to: the
      wrap in WindowEnd lands on MaxUint64, the true end of the last window. */
  lemma {:induction false} WindowShifts(w: nat, segBits: nat)
    requires segBits <= 63 && Addressable(w, segBits)
    ensures WindowStart(w, segBits) == Offset(w, Pow2(segBits))
    ensures WindowEnd(w, segBits) == Offset(w + 1, Pow2(segBits)) - 1 <= MAX_UINT64
    ensures w <= WindowStart(w, segBits)
  {
    NextWindowInRange(w, segBits);
    OffsetAtLeast(w, Pow2(segBits));
    OffsetAtLeast(w + 1, Pow2(segBits));
  }

  /** A slot is in window w exactly when it lies between w's two bounds. */
  lemma {:induction false} WindowBounds(w: nat, slot: nat, segBits: nat)
    requires segBits <= 63 && slot <= MAX_UINT64 && Addressable(w, segBits)
    ensures Ord(slot, segBits) == w <==> WindowStart(w, segBits) <= slot <= WindowEnd(w, segBits)
    ensures Ord(slot, segBits) < w <==> slot < WindowStart(w, segBits)
  {
    WindowShifts(w, segBits);
    var s, q := Pow2(segBits), Ord(slot, segBits);
    QuotBounds(slot, s);
    if q < w { OffsetMonotone(q + 1, w, s); }
    if q > w { OffsetMonotone(w + 1, q, s); }
  }

  /** A slot's window is addressable and holds it. */
  lemma {:induction false} WindowOfSlot(slot: nat, segBits: nat)
    requires slot <= MAX_UINT64 && segBits <= 63
    ensures Addressable(Ord(slot, segBits), segBits)
    ensures WindowStart(Ord(slot, segBits), segBits) <= slot <= WindowEnd(Ord(slot, segBits), segBits) <= MAX_UINT64
  {
    QuotBounds(slot, Pow2(segBits));
    WindowShifts(Ord(slot, segBits), segBits);
  }

  /** Windows below an addressable one are addressable and start earlier. */
  lemma {:induction false} EarlierWindow(w: nat, v: nat, segBits: nat)
    requires segBits <= 63 && w <= v && Addressable(v, segBits)
    ensures Addressable(w, segBits)
    ensures WindowStart(w, segBits) <= WindowStart(v, segBits)
    ensures w < v ==> WindowEnd(w, segBits) < WindowStart(v, segBits)
  {
    OffsetMonotone(w, v, Pow2(segBits));
    WindowShifts(w, segBits);
    WindowShifts(v, segBits);
    if w < v { OffsetMonotone(w + 1, v, Pow2(segBits)); }
  }

  lemma {:induction false} StartIsInWindow(w: nat, segBits: nat)
    requires segBits <= 63 && Addressable(w, segBits)
    ensures Ord(WindowStart(w, segBits), segBits) == w
  {
    WindowShifts(w, segBits);
    OffsetMonotone(w, w + 1, Pow2(segBits));
    WindowBounds(w, WindowStart(w, segBits), segBits);
  }

  lemma {:induction false} OrdMonotone(a: nat, b: nat, segBits: nat)
    requires a <= b
    ensures Ord(a, segBits) <= Ord(b, segBits)
  {
    var s, q, r := Pow2(segBits), Ord(a, segBits), Ord(b, segBits);
    QuotBounds(a, s);
    QuotBounds(b, s);
    if q > r { OffsetMonotone(r + 1, q, s); }
  }

  /* ---- Directory capacity and depth ---- */

  lemma {:induction false} OffsetStep(q: nat, p: nat, c: nat)
    requires q < p
    ensures Offset(q, c) + c <= Offset(p, c)
    decreases p
  {
    if q < p - 1 { OffsetStep(q, p - 1, c); }
  }

  /** The number of entries a depth-d tree of the given fanout can address. */
  function Span(fanout: nat, d: nat): (r: nat)
    requires fanout >= 2
    ensures r >= 1
  {
    if d == 0 then 1 else
      assert Offset(fanout, Span(fanout, d - 1)) >= 1 by { OffsetStep(0, fanout, Span(fanout, d - 1)); }
      Offset(fanout, Span(fanout, d - 1))
  }

  lemma {:induction false} SpanIsProduct(fanout: nat, d: nat)
    requires fanout >= 2
    ensures Span(fanout, d + 1) == fanout * Span(fanout, d)
  {
    OffsetIsProduct(fanout, Span(fanout, d));
  }

  /** capacity(d, fanoutBits): uint64 multiplication, its overflow test, and
      saturation at MaxUint64. */
  function Capacity(d: nat, fanoutBits: nat): nat {
    var bits := fanoutBits * d % TWO64;
    if fanoutBits != 0 && bits / fanoutBits != d then MAX_UINT64
    else if bits >= 64 then MAX_UINT64
    else Pow2(bits)
  }

  function Fanout(fanoutBits: nat): (r: nat)
    requires fanoutBits >= 1
    ensures r >= 2
  {
    Pow2(fanoutBits)
  }

  lemma {:induction false} SpanIsPow2(d: nat, fanoutBits: nat)
    requires fanoutBits >= 1
    ensures Span(Fanout(fanoutBits), d) == Pow2(fanoutBits * d)
  {
    if d > 0 {
      SpanIsPow2(d - 1, fanoutBits);
      SpanIsProduct(Fanout(fanoutBits), d - 1);
      assert fanoutBits * d == fanoutBits + fanoutBits * (d - 1);
      Pow2Adds(fanoutBits, fanoutBits * (d - 1));
    }
  }

  /** The division test catches exactly the products that do not fit. */
  lemma {:induction false} OverflowTest(a: nat, d: nat, product: nat)
    requires 1 <= a <= 32 && d <= MAX_UINT64 && product == d * a
    ensures product < TWO64 ==> product % TWO64 == product && product / a == d
    ensures product >= TWO64 ==> product % TWO64 / a != d
  {
    if product < TWO64 {
      FitsIffNothingLeft(product, TWO64);
      DivModUnique(product, d, 0, a);
    } else {
      var bits := product % TWO64;
      QuotientBounds(product, TWO64);
      assert bits <= product - TWO64;
      QuotientBounds(bits, a);
    }
  }

  lemma {:induction false} CapacityOfProduct(d: nat, fanoutBits: nat, product: nat)
    requires 1 <= fanoutBits <= 32 && d <= MAX_UINT64 && product == fanoutBits * d
    ensures Capacity(d, fanoutBits) == if product >= 64 then MAX_UINT64 else Pow2(product)
  {
    OverflowTest(fanoutBits, d, product);
  }

  /** Capacity is the true span, saturated. */
  lemma {:induction false} CapacitySaturates(d: nat, fanoutBits: nat)
    requires 1 <= fanoutBits <= 32 && d <= MAX_UINT64
    ensures Capacity(d, fanoutBits) ==
            if Span(Fanout(fanoutBits), d) > MAX_UINT64 then MAX_UINT64 else Span(Fanout(fanoutBits), d)
  {
    var product := fanoutBits * d;
    SpanIsPow2(d, fanoutBits);
    CapacityOfProduct(d, fanoutBits, product);
    assert Pow2(63) <= MAX_UINT64 < Pow2(64) by { Pow2At64(); }
    if product >= 64 { Pow2Monotone(64, product); } else { Pow2Monotone(product, 63); }
  }

  /** bits.Len64 */
  function BitLen(n: nat): nat {
    if n == 0 then 0 else 1 + BitLen(n / 2)
  }

  lemma {:induction false} BitLenBounds(n: nat)
    ensures n < Pow2(BitLen(n))
    ensures n > 0 ==> Pow2(BitLen(n) - 1) <= n
  {
    if n > 0 { BitLenBounds(n / 2); }
  }

  function CanonicalDepth(n: nat, fanoutBits: nat): nat
    requires fanoutBits >= 1
  {
    if n == 0 then 0 else
      var needed := BitLen(n - 1);
      if needed == 0 then 1 else (needed + fanoutBits - 1) / fanoutBits
  }

  /** d is the least depth of at least one page that can address n entries. */
  predicate IsLeastDepth(fanout: nat, n: nat, d: nat)
    requires fanout >= 2
  {
    d >= 1 && n <= Span(fanout, d) && (d > 1 ==> Span(fanout, d - 1) < n)
  }

  lemma {:induction false} SpanMonotone(fanout: nat, a: nat, b: nat)
    requires fanout >= 2 && a <= b
    ensures Span(fanout, a) + b - a <= Span(fanout, b)
    decreases b
  {
    if a < b {
      SpanMonotone(fanout, a, b - 1);
      OffsetStep(1, fanout, Span(fanout, b - 1));
    }
  }

  lemma {:induction false} LeastDepthUnique(fanout: nat, n: nat, a: nat, b: nat)
    requires fanout >= 2 && IsLeastDepth(fanout, n, a) && IsLeastDepth(fanout, n, b)
    ensures a == b
  {
    if a < b { SpanMonotone(fanout, a, b - 1); }
    if b < a { SpanMonotone(fanout, b, a - 1); }
  }

  lemma {:induction false} CeilingBounds(needed: nat, b: nat)
    requires needed >= 1 && b >= 1
    ensures var d := (needed + b - 1) / b; d >= 1 && b * d >= needed && b * d - b < needed
  {
    QuotientBounds(needed + b - 1, b);
  }

  /** canonicalDepth(n) is the least depth, of at least one page, that can
      address n entries. */
  lemma {:induction false} CanonicalDepthIsLeast(n: nat, fanoutBits: nat)
    requires n >= 1 && fanoutBits >= 1
    ensures IsLeastDepth(Fanout(fanoutBits), n, CanonicalDepth(n, fanoutBits))
  {
    var needed := BitLen(n - 1);
    BitLenBounds(n - 1);
    if needed == 0 {
      SpanMonotone(Fanout(fanoutBits), 0, 1);
    } else {
      CeilingBounds(needed, fanoutBits);
      LeastDepthOfBits(n, fanoutBits, needed, CanonicalDepth(n, fanoutBits));
    }
  }

  lemma {:induction false} LeastDepthOfBits(n: nat, fanoutBits: nat, needed: nat, d: nat)
    requires fanoutBits >= 1 && d >= 1 && needed >= 1
    requires n <= Pow2(needed) && Pow2(needed - 1) < n
    requires fanoutBits * d >= needed && fanoutBits * d - fanoutBits < needed
    ensures IsLeastDepth(Fanout(fanoutBits), n, d)
  {
    SpanIsPow2(d, fanoutBits);
    Pow2Monotone(needed, fanoutBits * d);
    SpanIsPow2(d - 1, fanoutBits);
    assert fanoutBits * (d - 1) == fanoutBits * d - fanoutBits;
    Pow2Monotone(fanoutBits * (d - 1), needed - 1);
  }

  /** The same in the program's own saturating terms: capacity at the canonical
      depth holds every uint64 count, and one level less does not. */
  lemma {:induction false} CanonicalDepthCapacity(n: nat, fanoutBits: nat)
    requires 1 <= n <= MAX_UINT64 && 1 <= fanoutBits <= 32
    ensures var d := CanonicalDepth(n, fanoutBits);
            && 1 <= d <= 64
            && Capacity(d, fanoutBits) >= n
            && (forall c | 1 <= c < d :: Capacity(c, fanoutBits) < n)
  {
    var f := Fanout(fanoutBits);
    var d := CanonicalDepth(n, fanoutBits);
    CanonicalDepthIsLeast(n, fanoutBits);
    if d > 64 {
      SpanMonotone(f, 64, d - 1);
      SpanIsPow2(64, fanoutBits);
      Pow2Monotone(64, fanoutBits * 64);
      Pow2At64();
      assert false;
    }
    CapacitySaturates(d, fanoutBits);
    forall c | 1 <= c < d ensures Capacity(c, fanoutBits) < n {
      SpanMonotone(f, c, d - 1);
      CapacitySaturates(c, fanoutBits);
    }
  }

  /* ---- Path digits ---- */

  /** A path's digits, most significant first. */
  datatype Route = End | Turn(digit: nat, rest: Route)

  function RouteOf(digits: seq<nat>): Route {
    if digits == [] then End else Turn(digits[0], RouteOf(digits[1..]))
  }

  /** i in base `fanout`, padded to depth digits. */
  function RouteTo(fanout: nat, i: nat, depth: nat): Route
    requires fanout >= 2
    decreases depth
  {
    if depth == 0 then End else
      Turn(i / Span(fanout, depth - 1), RouteTo(fanout, i % Span(fanout, depth - 1), depth - 1))
  }

  function Length(route: Route): nat {
    match route
    case End => 0
    case Turn(_, rest) => 1 + Length(rest)
  }

  /** The index a route addresses. */
  function ValueOf(fanout: nat, route: Route): nat
    requires fanout >= 2
  {
    match route
    case End => 0
    case Turn(digit, rest) => digit * Span(fanout, Length(rest)) + ValueOf(fanout, rest)
  }

  predicate AllZero(route: Route) {
    match route
    case End => true
    case Turn(digit, rest) => digit == 0 && AllZero(rest)
  }

  predicate DigitsBelow(route: Route, fanout: nat) {
    match route
    case End => true
    case Turn(digit, rest) => digit < fanout && DigitsBelow(rest, fanout)
  }

  lemma {:induction false} TopDigit(fanout: nat, i: nat, depth: nat)
    requires fanout >= 2 && depth >= 1 && i < Span(fanout, depth)
    ensures i / Span(fanout, depth - 1) < fanout
    ensures i % Span(fanout, depth - 1) < Span(fanout, depth - 1)
    ensures i == i / Span(fanout, depth - 1) * Span(fanout, depth - 1) + i % Span(fanout, depth - 1)
  {
    var s := Span(fanout, depth - 1);
    SpanIsProduct(fanout, depth - 1);
    QuotientBounds(i, s);
    if i / s >= fanout { MulMonotone(fanout, i / s, s); }
  }

  /** Lexicographic order of routes of one length. */
  predicate RouteLe(a: Route, b: Route) {
    match (a, b)
    case (Turn(x, xs), Turn(y, ys)) => x < y || (x == y && RouteLe(xs, ys))
    case _ => a.End? && b.End?
  }

  /** Routes are ordered as the indices they address. */
  lemma {:induction false} RouteOrder(fanout: nat, i: nat, j: nat, depth: nat)
    requires fanout >= 2 && i <= j
    ensures RouteLe(RouteTo(fanout, i, depth), RouteTo(fanout, j, depth))
    decreases depth
  {
    if depth > 0 {
      var s := Span(fanout, depth - 1);
      QuotientBounds(i, s);
      QuotientBounds(j, s);
      if i / s > j / s { MulStrict(j / s, i / s, s); }
      if i / s == j / s { RouteOrder(fanout, i % s, j % s, depth - 1); }
    }
  }

  /** The digits of an index that fits evaluate back to it. */
  lemma {:induction false} RouteValue(fanout: nat, i: nat, depth: nat)
    requires fanout >= 2 && i < Span(fanout, depth)
    ensures Length(RouteTo(fanout, i, depth)) == depth
    ensures ValueOf(fanout, RouteTo(fanout, i, depth)) == i
    ensures DigitsBelow(RouteTo(fanout, i, depth), fanout)
    decreases depth
  {
    if depth > 0 {
      TopDigit(fanout, i, depth);
      RouteValue(fanout, i % Span(fanout, depth - 1), depth - 1);
    }
  }

  /** The all-zero route is the one of index 0. */
  lemma {:induction false} RouteAllZero(fanout: nat, i: nat, depth: nat)
    requires fanout >= 2 && i < Span(fanout, depth)
    ensures AllZero(RouteTo(fanout, i, depth)) <==> i == 0
    decreases depth
  {
    if depth > 0 {
      var s := Span(fanout, depth - 1);
      TopDigit(fanout, i, depth);
      RouteAllZero(fanout, i % s, depth - 1);
      if i == 0 { DivModUnique(0, 0, 0, s); }
    }
  }

  lemma {:induction false} DivModSplit(i: nat, f: nat, s: nat)
    requires f > 0 && s > 0
    ensures f * s > 0
    ensures i % (f * s) / s == i / s % f
    ensures i % (f * s) % s == i % s
    ensures i / s / f == i / (f * s)
  {
    MulMonotone(1, f, s);
    var q, r := i / s, i % s;
    QuotientBounds(i, s);
    QuotientBounds(q, f);
    var qq, qr := q / f, q % f;
    var low := qr * s + r;
    assert low < f * s by { MulStrict(qr, f, s); }
    assert i == qq * (f * s) + low by { MulRegroup(qq, f, qr, s); }
    DivModUnique(i, qq, low, f * s);
    DivModUnique(low, qr, r, s);
  }

  lemma {:induction false} MulRegroup(a: nat, f: nat, b: nat, s: nat)
    ensures (a * f + b) * s == a * (f * s) + b * s
  {
    assert (a * f + b) * s == a * f * s + b * s;
  }

  /** `rest & mask` and `rest >> fanoutBits`. */
  function LowDigit(rest: nat, fanout: nat): nat
    requires fanout >= 2
  {
    rest % fanout
  }

  function DropDigit(rest: nat, fanout: nat): nat
    requires fanout >= 2
  {
    rest / fanout
  }

  /** One more digit, read off the low end of what is left of i. */
  lemma {:induction false} RouteStep(fanout: nat, i: nat, m: nat)
    requires fanout >= 2
    ensures RouteTo(fanout, i % Span(fanout, m + 1), m + 1) ==
            Turn(LowDigit(i / Span(fanout, m), fanout), RouteTo(fanout, i % Span(fanout, m), m))
    ensures DropDigit(i / Span(fanout, m), fanout) == i / Span(fanout, m + 1)
  {
    SpanIsProduct(fanout, m);
    DivModSplit(i, fanout, Span(fanout, m));
  }

  /** pathDigits: fills the digits from the least significant end. It refuses
      exactly the indices that do not fit (and depths above 64). */
  method PathDigits(i: nat, depth: nat, fanoutBits: nat) returns (digits: seq<nat>, ok: bool)
    requires 1 <= fanoutBits <= 32
    ensures ok <==> depth <= 64 && i < Span(Fanout(fanoutBits), depth)
    ensures ok ==> |digits| == depth && RouteOf(digits) == RouteTo(Fanout(fanoutBits), i, depth)
  {
    if depth == 0 { return [], i == 0; }
    if depth > 64 { return [], false; }
    var f := Fanout(fanoutBits);
    var buffer := new nat[depth];
    var rest, level := i, depth;
    DivModUnique(i, i, 0, 1);
    while level > 0
      invariant 0 <= level <= depth
      invariant rest == i / Span(f, depth - level)
      invariant RouteOf(buffer[level..]) == RouteTo(f, i % Span(f, depth - level), depth - level)
    {
      RouteStep(f, i, depth - level);
      level := level - 1;
      buffer[level], rest := LowDigit(rest, f), DropDigit(rest, f);
      assert buffer[level..][1..] == buffer[level + 1..];
    }
    FitsIffNothingLeft(i, Span(f, depth));
    if rest != 0 { return [], false; }
    assert buffer[..] == buffer[0..];
    return buffer[..], true;
  }
}
