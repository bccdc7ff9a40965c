/**
  Column-label cleanup: `str.strip()` on every label and `rename`, which
  relabels every column carrying the old label.
*/
module Text {

  /** The characters Python's `str.isspace` accepts, which `str.strip()` removes. */
  predicate IsSpace(c: char) {
    var n := c as int;
    (0x09 <= n <= 0x0d) || (0x1c <= n <= 0x20) || n == 0x85 || n == 0xa0 || n == 0x1680
    || (0x2000 <= n <= 0x200a) || n == 0x2028 || n == 0x2029 || n == 0x202f || n == 0x205f || n == 0x3000
  }

  /** Neither starts nor ends with whitespace. */
  predicate Trimmed(s: string) {
    s == [] || (!IsSpace(s[0]) && !IsSpace(s[|s| - 1]))
  }

  /** The first position at or after i that is not whitespace, or |s|. */
  function SkipSpaces(s: string, i: nat): (j: nat)
    requires i <= |s|
    ensures i <= j <= |s|
    ensures forall k :: i <= k < j ==> IsSpace(s[k])
    ensures j < |s| ==> !IsSpace(s[j])
    decreases |s| - i
  {
    if i < |s| && IsSpace(s[i]) then SkipSpaces(s, i + 1) else i
  }

  /** The end of s[lo..hi] once its trailing whitespace is dropped. */
  function SkipSpacesBack(s: string, lo: nat, hi: nat): (j: nat)
    requires lo <= hi <= |s|
    ensures lo <= j <= hi
    ensures forall k :: j <= k < hi ==> IsSpace(s[k])
    ensures j > lo ==> !IsSpace(s[j - 1])
    decreases hi
  {
    if hi > lo && IsSpace(s[hi - 1]) then SkipSpacesBack(s, lo, hi - 1) else hi
  }

  /** Where the stripped label starts in s. */
  function StripStart(s: string): nat
    ensures StripStart(s) <= |s|
  {
    SkipSpaces(s, 0)
  }

  /** r is s[i..i + |r|] and everything of s around it is whitespace. */
  predicate CutAt(s: string, r: string, i: int) {
    0 <= i <= |s| - |r| && r == s[i..i + |r|]
    && (forall k :: 0 <= k < i ==> IsSpace(s[k]))
    && (forall k :: i + |r| <= k < |s| ==> IsSpace(s[k]))
  }

  /**
    `str.strip()`: s without its leading and trailing whitespace; the result
    neither starts nor ends with whitespace.
  */
  function Strip(s: string): (r: string)
    ensures Trimmed(r)
  {
    var i := StripStart(s);
    s[i..SkipSpacesBack(s, i, |s|)]
  }

  /** Strip cuts its result out of s by removing whitespace at both ends only. */
  lemma StripCut(s: string)
    ensures CutAt(s, Strip(s), StripStart(s))
  {
  }

  /** A label that neither starts nor ends with whitespace is left alone. */
  lemma StripTrimmed(s: string)
    requires Trimmed(s)
    ensures Strip(s) == s
  {
    if s != [] {
      assert StripStart(s) == 0;
      assert SkipSpacesBack(s, 0, |s|) == |s|;
    }
  }

  /** Stripping twice is stripping once. */
  lemma StripIdempotent(s: string)
    ensures Strip(Strip(s)) == Strip(s)
  {
    StripTrimmed(Strip(s));
  }

  /** `df.columns.str.strip()`. */
  function StripAll(cols: seq<string>): (r: seq<string>)
    ensures |r| == |cols|
    ensures forall k :: 0 <= k < |r| ==> r[k] == Strip(cols[k])
  {
    seq(|cols|, k requires 0 <= k < |cols| => Strip(cols[k]))
  }

  /** `rename(columns={from: to})`: every column labelled from is relabelled to, no other changes. */
  function RenameLabel(cols: seq<string>, from: string, to: string): (r: seq<string>)
    ensures |r| == |cols|
    ensures forall k :: 0 <= k < |r| ==> (cols[k] == from ==> r[k] == to) && (cols[k] != from ==> r[k] == cols[k])
  {
    seq(|cols|, k requires 0 <= k < |cols| => if cols[k] == from then to else cols[k])
  }
}
