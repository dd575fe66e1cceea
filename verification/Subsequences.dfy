/** Order-preserving selection from a sequence. */
module Subsequences {
  import opened Vectors

  /** `f` picks strictly increasing positions of `b` that read `a`. */
  ghost predicate Embeds<T>(f: seq<nat>, a: seq<T>, b: seq<T>) {
    && |f| == |a|
    && (forall i, j :: 0 <= i < j < |f| ==> f[i] < f[j])
    && (forall i :: 0 <= i < |f| ==> f[i] < |b| && b[f[i]] == a[i])
  }

  /** `a` can be obtained from `b` by leaving elements out. */
  ghost predicate Subsequence<T>(a: seq<T>, b: seq<T>) {
    exists f :: Embeds(f, a, b)
  }

  lemma Reflexive<T>(a: seq<T>)
    ensures Subsequence(a, a)
  {
    assert Embeds(seq(|a|, i => i), a, a);
  }

  lemma EmptyIsSubsequence<T>(b: seq<T>)
    ensures Subsequence([], b)
  {
    assert Embeds([], [], b);
  }

  lemma Transitive<T>(a: seq<T>, b: seq<T>, c: seq<T>)
    requires Subsequence(a, b) && Subsequence(b, c)
    ensures Subsequence(a, c)
  {
    var f :| Embeds(f, a, b);
    var g :| Embeds(g, b, c);
    var h := seq(|a|, i requires 0 <= i < |a| => g[f[i]]);
    assert Embeds(h, a, c);
  }

  lemma Concatenate<T>(a: seq<T>, b: seq<T>, c: seq<T>, d: seq<T>)
    requires Subsequence(a, b) && Subsequence(c, d)
    ensures Subsequence(a + c, b + d)
  {
    var f :| Embeds(f, a, b);
    var g :| Embeds(g, c, d);
    var h := f + seq(|c|, i requires 0 <= i < |c| => g[i] + |b|);
    assert Embeds(h, a + c, b + d);
  }

  lemma {:induction false} KeepIsSubsequence<T>(s: seq<T>, drop: T -> bool)
    ensures Subsequence(Keep(s, drop), s)
  {
    if s == [] {
      EmptyIsSubsequence(s);
    } else {
      var front, last := s[..|s| - 1], [s[|s| - 1]];
      KeepIsSubsequence(front, drop);
      var tail := if drop(last[0]) then [] else last;
      EmptyIsSubsequence(last);
      Reflexive(last);
      Concatenate(Keep(front, drop), front, tail, last);
      assert s == front + last && Keep(s, drop) == Keep(front, drop) + tail;
    }
  }

  lemma {:induction false} KeepMonotone<T>(a: seq<T>, b: seq<T>, drop: T -> bool)
    requires Subsequence(a, b)
    ensures Subsequence(Keep(a, drop), Keep(b, drop))
    decreases |b|
  {
    if |a| == 0 {
      assert a == [];
      EmptyIsSubsequence(Keep(b, drop));
    } else {
      var f :| Embeds(f, a, b);
      assert f[|f| - 1] < |b|;
      var a', b', f' := a[..|a| - 1], b[..|b| - 1], f[..|f| - 1];
      var last := b[|b| - 1];
      var tail := if drop(last) then [] else [last];
      assert Keep(b, drop) == Keep(b', drop) + tail;
      if f[|f| - 1] == |b| - 1 {
        assert Embeds(f', a', b');
        KeepMonotone(a', b', drop);
        Reflexive(tail);
        Concatenate(Keep(a', drop), Keep(b', drop), tail, tail);
        assert Keep(a, drop) == Keep(a', drop) + tail;
      } else {
        assert Embeds(f, a, b');
        KeepMonotone(a, b', drop);
        EmptyIsSubsequence(tail);
        Concatenate(Keep(a, drop), Keep(b', drop), [], tail);
        assert Keep(a, drop) + [] == Keep(a, drop);
      }
    }
  }
}
