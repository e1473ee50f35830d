/**
 * Rows of the three sheets (pilot roster, drone fleet, missions) as the
 * store hands them over: a mapping from column name to cell text.
 */
module Records {

  datatype Option<T> = None | Some(value: T)

  datatype Result<T, E> = Success(value: T) | Failure(error: E)

  type Record = map<string, string>

  /** `r.get(key)`: `None` when the column is absent. */
  function Lookup(r: Record, key: string): (v: Option<string>)
    ensures v.Some? <==> key in r
    ensures v.Some? ==> v.value == r[key]
  {
    if key in r then Some(r[key]) else None
  }

  /** `r.get(key, "")` */
  function Get(r: Record, key: string): (v: string)
    ensures key in r ==> v == r[key]
    ensures key !in r ==> v == ""
  {
    if key in r then r[key] else ""
  }

  /**
   * `r` is a subsequence of `s`: what a filter returns, in the input's order.
   */
  predicate IsSubsequence<T(==)>(r: seq<T>, s: seq<T>)
    decreases |s|
  {
    r == [] ||
    (s != [] &&
      (IsSubsequence(r, s[..|s| - 1]) ||
       (r[|r| - 1] == s[|s| - 1] && IsSubsequence(r[..|r| - 1], s[..|s| - 1]))))
  }

  lemma {:induction false} SubsequenceBounds<T>(r: seq<T>, s: seq<T>)
    requires IsSubsequence(r, s)
    ensures |r| <= |s|
    ensures forall x :: x in r ==> x in s
    decreases |s|
  {
    if r != [] {
      var s' := s[..|s| - 1];
      if IsSubsequence(r, s') {
        SubsequenceBounds(r, s');
      } else {
        SubsequenceBounds(r[..|r| - 1], s');
        assert r == r[..|r| - 1] + [s[|s| - 1]];
        assert s == s' + [s[|s| - 1]];
      }
    }
  }

  /** Appending the same element to both sides, or to the larger side only, keeps a subsequence. */
  lemma SubsequenceSnoc<T>(r: seq<T>, s: seq<T>, x: T)
    requires IsSubsequence(r, s)
    ensures IsSubsequence(r, s + [x])
    ensures IsSubsequence(r + [x], s + [x])
  {
    assert (s + [x])[..|s|] == s;
    assert (r + [x])[..|r|] == r;
  }
}
