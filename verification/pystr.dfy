/**
 * The Python `str` operations that clean the similarity oracle's reply:
 * `strip()`, `find`, `rfind`, the `in` test and slicing `s[a:b]`.
 */
module PyStr {

  /** `c.isspace()`: the characters `str.strip()` removes when called without arguments. */
  predicate IsSpace(c: char) {
    var n := c as int;
    n == 0x20 || 0x09 <= n <= 0x0D || 0x1C <= n <= 0x1F || n == 0x85 || n == 0xA0
    || n == 0x1680 || 0x2000 <= n <= 0x200A || n == 0x2028 || n == 0x2029
    || n == 0x202F || n == 0x205F || n == 0x3000
  }

  predicate AllSpace(s: string) {
    forall i :: 0 <= i < |s| ==> IsSpace(s[i])
  }

  /** Neither end of `s` is whitespace. */
  predicate Trimmed(s: string) {
    s == [] || (!IsSpace(s[0]) && !IsSpace(s[|s| - 1]))
  }

  /** The first index from `i` on that does not hold whitespace, or `|s|`. */
  function SkipSpace(s: string, i: nat): (j: nat)
    requires i <= |s|
    ensures i <= j <= |s|
    ensures forall k :: i <= k < j ==> IsSpace(s[k])
    ensures j == |s| || !IsSpace(s[j])
    decreases |s| - i
  {
    if i < |s| && IsSpace(s[i]) then SkipSpace(s, i + 1) else i
  }

  /** The index just past the last non-whitespace character of `s[lo..j]`, or `lo`. */
  function SkipSpaceBack(s: string, lo: nat, j: nat): (e: nat)
    requires lo <= j <= |s|
    ensures lo <= e <= j
    ensures forall k :: e <= k < j ==> IsSpace(s[k])
    ensures e == lo || !IsSpace(s[e - 1])
    decreases j
  {
    if lo < j && IsSpace(s[j - 1]) then SkipSpaceBack(s, lo, j - 1) else j
  }

  /** `r` sits at index `i` of `s` with nothing but whitespace around it. */
  predicate PaddedAt(s: string, r: string, i: int) {
    0 <= i <= |s| - |r| && r == s[i..i + |r|] && AllSpace(s[..i]) && AllSpace(s[i + |r|..])
  }

  /** `s.strip()`: `s` is the result with whitespace-only padding on both sides. */
  function Strip(s: string): (r: string)
    ensures Trimmed(r)
    ensures exists i :: PaddedAt(s, r, i)
  {
    var i := SkipSpace(s, 0);
    var e := SkipSpaceBack(s, i, |s|);
    assert PaddedAt(s, s[i..e], i);
    s[i..e]
  }

  /** Stripping removes exactly the padding: a trimmed text between whitespace runs is recovered. */
  lemma StripUnpads(w1: string, t: string, w2: string)
    requires AllSpace(w1) && AllSpace(w2) && Trimmed(t)
    ensures Strip(w1 + t + w2) == t
  {
    var s := w1 + t + w2;
    if t == [] {
      assert forall k :: 0 <= k < |s| ==> IsSpace(s[k]);
      assert SkipSpace(s, 0) == |s|;
    } else {
      var i := |w1|;
      var e := |w1| + |t|;
      assert s[i] == t[0] && s[e - 1] == t[|t| - 1];
      assert forall k :: 0 <= k < i ==> s[k] == w1[k];
      assert forall k :: e <= k < |s| ==> s[k] == w2[k - e];
      assert SkipSpace(s, 0) == i;
      assert SkipSpaceBack(s, i, |s|) == e;
      assert s[i..e] == t;
    }
  }

  /** `strip()` is idempotent. */
  lemma StripIdempotent(s: string)
    ensures Strip(Strip(s)) == Strip(s)
  {
    var r := Strip(s);
    assert [] + r + [] == r;
    assert AllSpace([]);
    StripUnpads([], r, []);
  }

  /** `pat` occurs in `s` starting at index `i`. */
  predicate OccursAt(s: string, pat: string, i: int) {
    0 <= i && i + |pat| <= |s| && s[i..i + |pat|] == pat
  }

  /** `s.find(pat)`: the lowest index at which `pat` occurs, or -1 when it occurs nowhere. */
  function Find(s: string, pat: string): (i: int)
    ensures i == -1 || OccursAt(s, pat, i)
    ensures forall k :: 0 <= k && (i == -1 || k < i) ==> !OccursAt(s, pat, k)
  {
    FindFrom(s, pat, 0)
  }

  function FindFrom(s: string, pat: string, from: nat): (i: int)
    requires from <= |s|
    ensures i == -1 || (from <= i && OccursAt(s, pat, i))
    ensures forall k :: from <= k && (i == -1 || k < i) ==> !OccursAt(s, pat, k)
    decreases |s| - from
  {
    if OccursAt(s, pat, from) then from
    else if from == |s| then -1
    else FindFrom(s, pat, from + 1)
  }

  /** `s.rfind(pat)`: the highest index at which `pat` occurs, or -1 when it occurs nowhere. */
  function RFind(s: string, pat: string): (i: int)
    ensures i == -1 || OccursAt(s, pat, i)
    ensures forall k :: i < k ==> !OccursAt(s, pat, k)
  {
    RFindAtOrBelow(s, pat, |s|)
  }

  function RFindAtOrBelow(s: string, pat: string, k: int): (i: int)
    requires k <= |s|
    ensures i == -1 || (i <= k && OccursAt(s, pat, i))
    ensures forall j :: i < j <= k ==> !OccursAt(s, pat, j)
    decreases k + 1
  {
    if k < 0 then -1
    else if OccursAt(s, pat, k) then k
    else RFindAtOrBelow(s, pat, k - 1)
  }

  /** `pat in s`. */
  function Contains(s: string, pat: string): (b: bool)
    ensures b <==> exists k :: OccursAt(s, pat, k)
  {
    Find(s, pat) != -1
  }

  /**
   * `s[start:end]` for non-negative bounds: both bounds are cut down to `|s|`, and a start
   * at or past the end gives the empty string.
   */
  function Slice(s: string, start: nat, end: nat): (r: string)
    ensures start <= end <= |s| ==> r == s[start..end]
    ensures end <= start ==> r == []
    ensures |r| == if start < end && start < |s| then (if end < |s| then end else |s|) - start else 0
    ensures forall k :: 0 <= k < |r| ==> r[k] == s[start + k]
  {
    var e := if end < |s| then end else |s|;
    if start < e then s[start..e] else []
  }
}
