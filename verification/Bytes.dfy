/** Big-endian fields, length prefixes and byte order, as the durable encodings
    use them (encoding/binary, bytes.Compare). */
module Bytes {
  import opened Dag

  type byte = b: nat | b < 256

  /* ---- Fixed-width integers ---- */

  function Pow256(n: nat): nat {
    if n == 0 then 1 else 256 * Pow256(n - 1)
  }

  function BigEndian(x: nat, n: nat): (b: seq<byte>)
    ensures |b| == n
  {
    if n == 0 then [] else BigEndian(x / 256, n - 1) + [x % 256]
  }

  function Value(b: seq<byte>, n: nat): nat
    requires n <= |b|
  {
    if n == 0 then 0 else 256 * Value(b, n - 1) + b[n - 1]
  }

  lemma {:induction false} ValuePrefix(a: seq<byte>, b: seq<byte>, n: nat)
    requires n <= |a| && n <= |b| && a[..n] == b[..n]
    ensures Value(a, n) == Value(b, n)
  {
    if n > 0 {
      assert a[n - 1] == a[..n][n - 1] == b[..n][n - 1] == b[n - 1];
      assert a[..n - 1] == a[..n][..n - 1] == b[..n][..n - 1] == b[..n - 1];
      ValuePrefix(a, b, n - 1);
    }
  }

  lemma {:induction false} BigEndianRounds(x: nat, n: nat)
    requires x < Pow256(n)
    ensures Value(BigEndian(x, n), n) == x
  {
    if n > 0 {
      BigEndianRounds(x / 256, n - 1);
      var hi, all := BigEndian(x / 256, n - 1), BigEndian(x, n);
      assert all[..n - 1] == hi[..n - 1];
      ValuePrefix(all, hi, n - 1);
    }
  }

  lemma {:induction false} ValueBound(b: seq<byte>, n: nat)
    requires n <= |b|
    ensures Value(b, n) < Pow256(n)
  {
    if n > 0 { ValueBound(b, n - 1); }
  }

  /* ---- Writing and reading one field ---- */

  /** A field read off the front, and what follows it. */
  type Parsed<T> = Result<(T, seq<byte>)>

  function Put(field: seq<byte>, rest: seq<byte>): seq<byte> {
    field + rest
  }

  function Take(s: seq<byte>, n: nat): Parsed<seq<byte>> {
    if |s| < n then Err(Malformed) else Ok((s[..n], s[n..]))
  }

  lemma {:induction false} TakePut(field: seq<byte>, rest: seq<byte>, n: nat)
    requires n == |field|
    ensures Take(Put(field, rest), n) == Ok((field, rest))
  {
  }

  function PutInt(x: nat, width: nat, rest: seq<byte>): seq<byte> {
    Put(BigEndian(x, width), rest)
  }

  function TakeInt(s: seq<byte>, width: nat): Parsed<nat> {
    if |s| < width then Err(Malformed) else Ok((Value(s[..width], width), s[width..]))
  }

  lemma {:induction false} TakeIntBound(s: seq<byte>, width: nat)
    ensures TakeInt(s, width).Ok? ==> TakeInt(s, width).value.0 < Pow256(width)
  {
    if |s| >= width { ValueBound(s[..width], width); }
  }

  lemma {:induction false} TakePutInt(x: nat, width: nat, rest: seq<byte>)
    requires x < Pow256(width)
    ensures TakeInt(PutInt(x, width, rest), width) == Ok((x, rest))
  {
    TakePut(BigEndian(x, width), rest, width);
    BigEndianRounds(x, width);
  }

  /** A value behind a length of `width` bytes. */
  function PutSized(value: seq<byte>, width: nat, rest: seq<byte>): seq<byte> {
    PutInt(|value|, width, Put(value, rest))
  }

  function TakeSized(s: seq<byte>, width: nat, max: nat): Parsed<seq<byte>> {
    var (n, s1) :- TakeInt(s, width);
    if n > max then Err(Malformed) else Take(s1, n)
  }

  lemma {:induction false} TakePutSized(value: seq<byte>, width: nat, max: nat, rest: seq<byte>)
    requires |value| <= max && |value| < Pow256(width)
    ensures TakeSized(PutSized(value, width, rest), width, max) == Ok((value, rest))
  {
    TakePutInt(|value|, width, Put(value, rest));
    TakePut(value, rest, |value|);
  }

  /** Writing what was read gives the bytes back: no field has two spellings. */
  lemma {:induction false} ValueRounds(b: seq<byte>, n: nat)
    requires n <= |b|
    ensures BigEndian(Value(b, n), n) == b[..n]
    decreases n
  {
    if n > 0 {
      ValueRounds(b, n - 1);
      var high, low := Value(b, n - 1), b[n - 1];
      assert (256 * high + low) / 256 == high && (256 * high + low) % 256 == low;
      assert b[..n] == b[..n - 1] + [low];
    }
  }

  lemma {:induction false} PutTake(s: seq<byte>, n: nat)
    requires Take(s, n).Ok?
    ensures Put(Take(s, n).value.0, Take(s, n).value.1) == s
  {
  }

  lemma {:induction false} PutTakeInt(s: seq<byte>, width: nat)
    requires TakeInt(s, width).Ok?
    ensures PutInt(TakeInt(s, width).value.0, width, TakeInt(s, width).value.1) == s
  {
    ValueRounds(s[..width], width);
    assert s[..width][..width] == s[..width];
  }

  lemma {:induction false} PutTakeSized(s: seq<byte>, width: nat, max: nat)
    requires TakeSized(s, width, max).Ok?
    ensures PutSized(TakeSized(s, width, max).value.0, width, TakeSized(s, width, max).value.1) == s
  {
    PutTakeInt(s, width);
    var (n, s1) := TakeInt(s, width).value;
    PutTake(s1, n);
  }

  /** Reading back is why equal bytes carry equal fields. */
  lemma {:induction false} PutCancels(a: seq<byte>, b: seq<byte>, x: seq<byte>, y: seq<byte>)
    requires |a| == |b| && Put(a, x) == Put(b, y)
    ensures a == b && x == y
  {
    TakePut(a, x, |a|);
    TakePut(b, y, |b|);
  }

  lemma {:induction false} PutIntCancels(a: nat, b: nat, width: nat, x: seq<byte>, y: seq<byte>)
    requires a < Pow256(width) && b < Pow256(width) && PutInt(a, width, x) == PutInt(b, width, y)
    ensures a == b && x == y
  {
    TakePutInt(a, width, x);
    TakePutInt(b, width, y);
  }

  lemma {:induction false} PutSizedCancels(a: seq<byte>, b: seq<byte>, width: nat, x: seq<byte>, y: seq<byte>)
    requires |a| < Pow256(width) && |b| < Pow256(width) && PutSized(a, width, x) == PutSized(b, width, y)
    ensures a == b && x == y
  {
    PutIntCancels(|a|, |b|, width, Put(a, x), Put(b, y));
    PutCancels(a, b, x, y);
  }

  /** A list is its element i, then the rest. */
  lemma {:induction false} Uncons<T>(s: seq<T>, i: nat)
    requires i < |s|
    ensures [s[i]] + s[i + 1..] == s[i..]
  {
  }

  lemma {:induction false} Widths()
    ensures Pow256(1) == 0x100 && Pow256(2) == 0x1_0000 && Pow256(8) == 0x1_0000_0000_0000_0000
  {
    assert Pow256(1) == 256 * Pow256(0);
    assert Pow256(2) == 256 * Pow256(1);
    assert Pow256(3) == 256 * Pow256(2);
    assert Pow256(4) == 256 * Pow256(3);
    assert Pow256(5) == 256 * Pow256(4);
    assert Pow256(6) == 256 * Pow256(5);
    assert Pow256(7) == 256 * Pow256(6);
  }

  /* ---- Byte order ---- */

  /** bytes.Compare(a, b) < 0, from index i on. */
  predicate Less(a: seq<byte>, b: seq<byte>, i: nat)
    requires i <= |a| && i <= |b|
    decreases |a| - i
  {
    if i == |b| then false
    else if i == |a| then true
    else if a[i] != b[i] then a[i] < b[i]
    else Less(a, b, i + 1)
  }

  /** Byte order: at the first place where they differ a has the lesser byte, or
      ends there. */
  lemma {:induction false} LessMeans(a: seq<byte>, b: seq<byte>, i: nat)
    requires i <= |a| && i <= |b| && a[..i] == b[..i]
    ensures Less(a, b, i) <==>
            exists k | i <= k <= |a| && k < |b| && a[..k] == b[..k] :: k == |a| || a[k] < b[k]
    decreases |a| - i
  {
    if i < |a| && i < |b| && a[i] == b[i] {
      assert a[..i + 1] == a[..i] + [a[i]] && b[..i + 1] == b[..i] + [b[i]];
      LessMeans(a, b, i + 1);
    }
    forall k | i < k <= |a| && k < |b| && a[..k] == b[..k] ensures a[i] == b[i] {
      assert a[i] == a[..k][i] && b[i] == b[..k][i];
    }
  }

  /** Of two different strings exactly one is less. */
  lemma {:induction false} LessTotal(a: seq<byte>, b: seq<byte>, i: nat)
    requires i <= |a| && i <= |b| && a[..i] == b[..i]
    ensures !(Less(a, b, i) && Less(b, a, i))
    ensures Less(a, b, i) || Less(b, a, i) || a == b
    decreases |a| - i
  {
    if i < |a| && i < |b| && a[i] == b[i] {
      assert a[..i + 1] == a[..i] + [a[i]] && b[..i + 1] == b[..i] + [b[i]];
      LessTotal(a, b, i + 1);
    } else if i == |a| && i == |b| {
      assert a == a[..i] && b == b[..i];
    }
  }

  lemma {:induction false} LessTransitive(a: seq<byte>, b: seq<byte>, c: seq<byte>, i: nat)
    requires i <= |a| && i <= |b| && i <= |c| && Less(a, b, i) && Less(b, c, i)
    ensures Less(a, c, i)
    decreases |a| - i
  {
    if i < |a| && a[i] == b[i] && b[i] == c[i] { LessTransitive(a, b, c, i + 1); }
  }
}
