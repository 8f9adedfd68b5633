/** Machine limits and sequence notions that several modules share. */
module Common {

  const U32: nat := 0x1_0000_0000
  const U64: nat := 0x1_0000_0000_0000_0000

  type u32 = x: int | 0 <= x < U32

  function Min(a: int, b: int): int {
    if a < b then a else b
  }

  function Max(a: int, b: int): int {
    if a < b then b else a
  }

  predicate Ascending(s: seq<nat>) {
    forall i, j :: 0 <= i < j < |s| ==> s[i] < s[j]
  }

  /** The concatenation of a list of batches. */
  function Concat<T>(batches: seq<seq<T>>): seq<T> {
    if batches == [] then [] else Concat(batches[..|batches| - 1]) + batches[|batches| - 1]
  }

  /** `leq` compares any two elements of `s`, and compares them consistently. */
  ghost predicate Ranks<T>(leq: (T, T) -> bool, s: set<T>) {
    && (forall a, b :: a in s && b in s ==> leq(a, b) || leq(b, a))
    && (forall a, b, c :: a in s && b in s && c in s && leq(a, b) && leq(b, c) ==> leq(a, c))
  }

  /** A non-empty finite set has a first element. */
  lemma {:induction false} LeastExists<T>(leq: (T, T) -> bool, s: set<T>)
    requires s != {} && Ranks(leq, s)
    ensures exists m :: m in s && forall x :: x in s ==> leq(m, x)
    decreases |s|
  {
    var a :| a in s;
    var rest := s - {a};
    assert s == rest + {a};
    if rest == {} {
      assert a in s && forall x :: x in s ==> leq(a, x);
    } else {
      LeastExists(leq, rest);
      var m :| m in rest && forall x :: x in rest ==> leq(m, x);
      var first := if leq(a, m) then a else m;
      assert first in s && forall x :: x in s ==> leq(first, x);
    }
  }
}
