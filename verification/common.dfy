/** What several modules need: optional values, lists without repetition, and powers of two. */
module Common {

  datatype Option<+T> = None | Some(value: T)

  predicate NoDup<T(==)>(s: seq<T>) {
    forall i, j :: 0 <= i < j < |s| ==> s[i] != s[j]
  }

  /** The list without the first `x` in it. */
  function Without<T(==)>(s: seq<T>, x: T): (r: seq<T>)
    ensures x in s ==> |r| == |s| - 1
  {
    if s == [] then [] else if s[0] == x then s[1..] else [s[0]] + Without(s[1..], x)
  }

  lemma {:induction false} WithoutOk<T>(s: seq<T>, x: T)
    requires NoDup(s)
    ensures NoDup(Without(s, x)) && forall y :: y in Without(s, x) <==> y in s && y != x
  {
    if s != [] {
      WithoutOk(s[1..], x);
      assert forall y :: y in s <==> y == s[0] || y in s[1..];
      assert s[0] !in s[1..];
      if s[0] != x {
        assert forall y :: y in Without(s, x) <==> y == s[0] || y in Without(s[1..], x);
      }
    }
  }

  lemma {:induction false} WithoutAbsent<T>(s: seq<T>, x: T)
    requires x !in s
    ensures Without(s, x) == s
  {
    if s != [] {
      assert s[0] in s;
      WithoutAbsent(s[1..], x);
    }
  }

  function Pow2(n: nat): (p: nat)
    ensures p > 0
  {
    if n == 0 then 1 else 2 * Pow2(n - 1)
  }
}
