/** Bytes, optional values, and the C library searches the parsers share. */
module Bytes {
  type byte = bv8

  datatype Option<+T> = None | Some(value: T)

  function Min(a: nat, b: nat): nat {
    if a <= b then a else b
  }

  /** Position of the first `x`, as memchr, strchr and index find it. */
  function IndexOf<T(==)>(s: seq<T>, x: T): (r: Option<nat>)
    ensures r.Some? ==> r.value < |s| && s[r.value] == x && x !in s[..r.value]
    ensures r.None? ==> x !in s
  {
    if s == [] then None
    else if s[0] == x then Some(0)
    else
      match IndexOf(s[1..], x)
      case None => None
      case Some(i) =>
        assert s[..i + 1] == [s[0]] + s[1..][..i];
        Some(i + 1)
  }

  /** `s` has `pattern` at position `i`. */
  predicate Occurs<T(==)>(s: seq<T>, pattern: seq<T>, i: nat) {
    i + |pattern| <= |s| && s[i..i + |pattern|] == pattern
  }

  /** Position of the first occurrence of `pattern` at or after `from`, as strstr finds it. */
  function FindFrom<T(==)>(s: seq<T>, pattern: seq<T>, from: nat): (r: Option<nat>)
    ensures r.Some? ==> from <= r.value && Occurs(s, pattern, r.value)
    ensures r.Some? ==> forall i :: from <= i < r.value ==> !Occurs(s, pattern, i)
    ensures r.None? ==> forall i :: from <= i ==> !Occurs(s, pattern, i)
    decreases |s| - from
  {
    if from > |s| then None
    else if Occurs(s, pattern, from) then Some(from)
    else FindFrom(s, pattern, from + 1)
  }

  /** A position that holds `x` with no `x` before it is the one the search returns. */
  lemma {:induction false} IndexOfIs<T>(s: seq<T>, x: T, i: nat)
    requires i < |s| && s[i] == x && x !in s[..i]
    ensures IndexOf(s, x) == Some(i)
  {
    if i > 0 {
      assert s[0] in s[..i];
      assert s[1..][..i - 1] == s[..i][1..];
      IndexOfIs(s[1..], x, i - 1);
    }
  }

  /** The first position with `x` is decided by any prefix that contains one. */
  lemma IndexOfPrefix<T>(s: seq<T>, t: seq<T>, x: T)
    requires x in s
    ensures IndexOf(s, x).Some? && IndexOf(s + t, x) == IndexOf(s, x)
  {
    var i := IndexOf(s, x).value;
    assert (s + t)[..i] == s[..i];
    IndexOfIs(s + t, x, i);
  }

  lemma SliceOfPrefix<T>(s: seq<T>, len: nat, i: nat, j: nat)
    requires i <= j <= len <= |s|
    ensures s[..len][i..j] == s[i..j]
  {
  }
}
