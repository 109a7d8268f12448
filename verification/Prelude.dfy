/** Small general-purpose datatypes and functions shared by the models. */
module Prelude {
  datatype Option<+T> = None | Some(value: T)

  datatype Result<+T, +E> = Ok(value: T) | Err(error: E)

  function Max(a: int, b: int): (m: int)
    ensures a <= m && b <= m && (m == a || m == b)
  {
    if a < b then b else a
  }

  function Min(a: int, b: int): (m: int)
    ensures m <= a && m <= b && (m == a || m == b)
  {
    if a < b then a else b
  }

  /** The first `n` items of `s`, or all of them when there are fewer; none when `n` is negative. */
  function Take<T>(s: seq<T>, n: int): (t: seq<T>)
    ensures t <= s && (0 < n ==> |t| <= n) && (n <= 0 ==> t == []) && (|t| < n ==> t == s)
  {
    if n <= 0 then [] else if n < |s| then s[..n] else s
  }

  /** The last `n` items of `s`, or all of them when there are fewer. */
  function Last<T>(s: seq<T>, n: nat): seq<T> {
    if n < |s| then s[|s| - n..] else s
  }

  /** `p` is a prefix of `s`, as Python's `str.startswith` decides it. */
  predicate StartsWith(s: string, p: string) {
    |p| <= |s| && s[..|p|] == p
  }

  lemma SubsetIsNoLarger<T>(a: set<T>, b: set<T>)
    requires a <= b
    ensures |a| <= |b|
  {
    assert b == a + (b - a);
  }
}
