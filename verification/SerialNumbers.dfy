/**
 Sequence numbers are 32-bit and wrap. The protocol compares two of them with
 `int32_t (a) - int32_t (b) > 0`, read as two's-complement arithmetic
 (section 6.1 of RFC 3561). Here that comparison is related to the ordinary
 order on the unbounded counters the numbers were truncated from.
 */
module SerialNumbers {
  import opened Types

  /** The 32-bit representation of an unbounded counter. */
  function Truncate(x: int): uint32 {
    x % TWO32
  }

  /** The cast `int32_t (a)`. */
  function ToSigned(a: uint32): int {
    if a < TWO31 then a else a - TWO32
  }

  /** `int32_t (a) - int32_t (b)`, wrapping. */
  function Difference(a: uint32, b: uint32): int {
    ToSigned(Truncate(ToSigned(a) - ToSigned(b)))
  }

  predicate Newer(a: uint32, b: uint32) {
    Difference(a, b) > 0
  }

  predicate AtLeastAsNew(a: uint32, b: uint32) {
    Difference(a, b) >= 0
  }

  /** For counters less than half the range apart the difference is exact. */
  lemma DifferenceIsExact(x: int, y: int)
    requires -TWO31 <= x - y < TWO31
    ensures Difference(Truncate(x), Truncate(y)) == x - y
  {
    DifferenceIsCongruent(x, y);
  }

  lemma DifferenceIsCongruent(x: int, y: int)
    ensures Difference(Truncate(x), Truncate(y)) == ToSigned((x - y) % TWO32)
  {
    var a, b := Truncate(x), Truncate(y);
    var q := x / TWO32 - y / TWO32 + (if a < TWO31 then 0 else 1) - (if b < TWO31 then 0 else 1);
    var d := ToSigned(a) - ToSigned(b);
    assert x - y == d + q * TWO32;
    assert (x - y) % TWO32 == d % TWO32;
  }

  /**
   What the code's comparison means with no assumption on the counters: it is
   the ordinary order exactly when they are less than half the range apart, and
   it answers by the distance around the circle otherwise.
   */
  lemma NewerExactly(x: int, y: int)
    ensures Newer(Truncate(x), Truncate(y)) <==> 0 < (x - y) % TWO32 < TWO31
    ensures -TWO31 <= x - y < TWO31 ==> (Newer(Truncate(x), Truncate(y)) <==> x > y)
    ensures -TWO31 <= x - y < TWO31 ==> (AtLeastAsNew(Truncate(x), Truncate(y)) <==> x >= y)
  {
    DifferenceIsCongruent(x, y);
    if -TWO31 <= x - y < TWO31 {
      DifferenceIsExact(x, y);
    }
  }

  /** The maximum of a non-empty history of counters. */
  function MaxOf(s: seq<int>): (m: int)
    requires s != []
    ensures m in s
    ensures forall x :: x in s ==> x <= m
  {
    var last := s[|s| - 1];
    if |s| == 1 then last
    else
      var m := MaxOf(s[..|s| - 1]);
      assert s == s[..|s| - 1] + [last];
      if last > m then last else m
  }

  lemma MaxOfAppend(s: seq<int>, x: int)
    requires s != []
    ensures MaxOf(s + [x]) == if x > MaxOf(s) then x else MaxOf(s)
  {
    assert (s + [x])[..|s|] == s;
  }
}
