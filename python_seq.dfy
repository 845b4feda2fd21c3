/** Python's slicing `s[lo:hi]` and `bytes.index`, on byte strings. */
module PySeq {
  import opened Wrappers

  /** A Python slice index: a negative index counts from the end, then it is clamped to the bounds. */
  function ClampIndex(i: int, n: nat): (k: nat)
    ensures k <= n
    ensures 0 <= i <= n ==> k == i
    ensures 0 - n <= i < 0 ==> k == n + i
    ensures i > n ==> k == n
    ensures i < 0 - n ==> k == 0
  {
    if i < 0 then (if n + i < 0 then 0 else n + i) else if i > n then n else i
  }

  /** `s[lo:hi]`: never fails, an empty result when the bounds cross. */
  function Slice(s: string, lo: int, hi: int): (r: string)
    ensures |r| <= |s|
    ensures 0 <= lo <= hi <= |s| ==> r == s[lo..hi]
    ensures 0 <= lo <= |s| <= hi ==> r == s[lo..]
    ensures 0 <= lo <= |s| + hi && hi < 0 ==> r == s[lo..|s| + hi]
    ensures 0 <= hi <= lo ==> r == []
    ensures 0 <= lo && (lo >= |s| || (hi < 0 && lo >= |s| + hi)) ==> r == []
    ensures hi <= 0 - |s| ==> r == []
  {
    var a, b := ClampIndex(lo, |s|), ClampIndex(hi, |s|);
    if a < b then s[a..b] else []
  }

  /** `pat` begins at index `i` of `s`. */
  predicate OccursAt(s: string, pat: string, i: int) {
    0 <= i && i + |pat| <= |s| && s[i..i + |pat|] == pat
  }

  /** The first occurrence of `pat` at or after `from`. */
  function IndexFrom(s: string, pat: string, from: nat): (r: Option<nat>)
    requires from <= |s|
    ensures r.Some? ==> from <= r.value && OccursAt(s, pat, r.value)
    ensures r.Some? ==> forall j :: from <= j < r.value ==> !OccursAt(s, pat, j)
    ensures r.None? ==> forall j :: from <= j ==> !OccursAt(s, pat, j)
    decreases |s| - from
  {
    if OccursAt(s, pat, from) then Some(from)
    else if from == |s| then None
    else IndexFrom(s, pat, from + 1)
  }

  /** `s.index(pat)`: the first occurrence; `None` where Python raises `ValueError`. */
  function Index(s: string, pat: string): (r: Option<nat>) {
    IndexFrom(s, pat, 0)
  }

  /** `Index` returns exactly the first occurrence, and fails exactly when there is none. */
  lemma {:induction false} IndexIsFirst(s: string, pat: string, i: nat)
    ensures Index(s, pat) == Some(i) <==> OccursAt(s, pat, i) && forall j :: 0 <= j < i ==> !OccursAt(s, pat, j)
    ensures Index(s, pat).None? <==> forall j :: !OccursAt(s, pat, j)
  {
    var r := Index(s, pat);
    if OccursAt(s, pat, i) && forall j :: 0 <= j < i ==> !OccursAt(s, pat, j) {
      assert r.Some?;
      assert !(r.value < i) && !(r.value > i);
    }
  }

  /** Text appended after an occurrence cannot move the first occurrence. */
  lemma {:induction false} IndexExtend(p: string, q: string, pat: string)
    requires Index(p, pat).Some?
    ensures Index(p + q, pat) == Index(p, pat)
  {
    var i := Index(p, pat).value;
    assert (p + q)[i..i + |pat|] == p[i..i + |pat|];
    forall j | 0 <= j < i
      ensures !OccursAt(p + q, pat, j)
    {
      assert !OccursAt(p, pat, j);
      assert (p + q)[j..j + |pat|] == p[j..j + |pat|];
    }
    IndexIsFirst(p + q, pat, i);
  }
}
