/**
 Byte strings: the lexicographic order of the key-value store and the
 little-endian integers that RockDuck writes into keys and block statistics.
 */
module Bytes {
  import opened Common

  type byte = x: int | 0 <= x < 256

  type Bytes = seq<byte>

  datatype Option<+T> = None | Some(value: T)

  datatype Result<+T> = Ok(value: T) | Err

  // ------------------------------------------------------------------
  // Lexicographic order
  // ------------------------------------------------------------------

  predicate Lt(a: Bytes, b: Bytes)
    decreases |a|
  {
    b != [] && (a == [] || a[0] < b[0] || (a[0] == b[0] && Lt(a[1..], b[1..])))
  }

  lemma {:induction false} LtIrreflexive(a: Bytes)
    ensures !Lt(a, a)
    decreases |a|
  {
    if a != [] { LtIrreflexive(a[1..]); }
  }

  lemma {:induction false} LtTransitive(a: Bytes, b: Bytes, c: Bytes)
    requires Lt(a, b) && Lt(b, c)
    ensures Lt(a, c)
    decreases |a|
  {
    if a != [] && a[0] == b[0] && b[0] == c[0] { LtTransitive(a[1..], b[1..], c[1..]); }
  }

  lemma {:induction false} LtTotal(a: Bytes, b: Bytes)
    ensures Lt(a, b) || a == b || Lt(b, a)
    decreases |a|
  {
    if a != [] && b != [] && a[0] == b[0] {
      LtTotal(a[1..], b[1..]);
      assert a == [a[0]] + a[1..] && b == [b[0]] + b[1..];
    }
  }

  lemma LtAsymmetric(a: Bytes, b: Bytes)
    requires Lt(a, b)
    ensures !Lt(b, a) && a != b
  {
  }

  // `a` not above `b`, `b` not above `c`
  lemma LeTransitive(a: Bytes, b: Bytes, c: Bytes)
    requires !Lt(b, a) && !Lt(c, b)
    ensures !Lt(c, a)
  {
  }

  /** Every non-empty finite set of keys has a first key. */
  lemma FirstKeyExists(s: set<Bytes>)
    requires s != {}
    ensures exists m :: m in s && forall x :: x in s ==> !Lt(x, m)
  {
    var leq := (a: Bytes, b: Bytes) => !Lt(b, a);
    forall a: Bytes, b: Bytes ensures leq(a, b) || leq(b, a) { if Lt(a, b) { LtAsymmetric(a, b); } }
    forall a: Bytes, b: Bytes, c: Bytes | leq(a, b) && leq(b, c) ensures leq(a, c) { LeTransitive(a, b, c); }
    LeastExists(leq, s);
    var m :| m in s && forall x :: x in s ==> leq(m, x);
    assert forall x :: x in s ==> leq(m, x) && !Lt(x, m);
  }

  // ------------------------------------------------------------------
  // Little-endian integers
  // ------------------------------------------------------------------

  function Pow256(w: nat): (p: nat)
    ensures p >= 1
  {
    if w == 0 then 1 else 256 * Pow256(w - 1)
  }

  function LeBytes(v: nat, w: nat): (b: Bytes)
    ensures |b| == w
    decreases w
  {
    if w == 0 then [] else [v % 256] + LeBytes(v / 256, w - 1)
  }

  function LeValue(b: Bytes): (v: nat)
    ensures v < Pow256(|b|)
  {
    if b == [] then 0 else b[0] + 256 * LeValue(b[1..])
  }

  lemma {:induction false} LeRoundTrip(v: nat, w: nat)
    requires v < Pow256(w)
    ensures LeValue(LeBytes(v, w)) == v
    decreases w
  {
    if w > 0 {
      LeRoundTrip(v / 256, w - 1);
      assert LeBytes(v, w)[1..] == LeBytes(v / 256, w - 1);
    }
  }
}
