/** The two edits the overlay makes to the link list: removing the entry
    behind a delete icon (`newMeta.splice(idx, 1)`) and appending a URL typed
    into `prompt`, which is refused when it is blank after `trim()`. */
module Edits {
  import opened Base
  import Json

  // ---------------------------------------------------------------------------
  // Array.prototype.splice(start, 1)

  /** The start index `splice` uses: a negative one counts from the end, and
      both are clamped into `[0, |s|]`. */
  function SpliceStart(len: nat, start: int): (k: nat)
    ensures k <= len
    ensures 0 <= start <= len ==> k == start
    ensures start < 0 && len + start >= 0 ==> k == len + start
  {
    if start < 0 then (if len + start < 0 then 0 else len + start)
    else if start > len then len
    else start
  }

  /** `s.splice(start, 1)`, returning the array afterwards. */
  function Splice1<T>(s: seq<T>, start: int): (r: seq<T>)
    // an index inside the list removes exactly that entry, keeping the order of the rest
    ensures 0 <= start < |s| ==>
              |r| == |s| - 1
              && (forall j :: 0 <= j < start ==> r[j] == s[j])
              && (forall j :: start <= j < |r| ==> r[j] == s[j + 1])
    // an index at or past the end removes nothing
    ensures start >= |s| ==> r == s
    ensures |r| == if SpliceStart(|s|, start) < |s| then |s| - 1 else |s|
  {
    var k := SpliceStart(|s|, start);
    if k < |s| then s[..k] + s[k + 1..] else s
  }

  /** Putting the removed entry back where it was restores the list. */
  lemma SpliceReinsert<T>(s: seq<T>, idx: nat)
    requires idx < |s|
    ensures Splice1(s, idx)[..idx] + [s[idx]] + Splice1(s, idx)[idx..] == s
  {
    var r := Splice1(s, idx);
    assert r[..idx] == s[..idx];
    assert r[idx..] == s[idx + 1..];
    assert s[..idx] + [s[idx]] + s[idx + 1..] == s;
  }

  /** The removed entry's occurrences drop by one, and every other entry keeps
      its count. */
  lemma SpliceMultiset<T>(s: seq<T>, idx: nat)
    requires idx < |s|
    ensures multiset(Splice1(s, idx)) + multiset{s[idx]} == multiset(s)
  {
    assert s == s[..idx] + [s[idx]] + s[idx + 1..];
    assert Splice1(s, idx) == s[..idx] + s[idx + 1..];
  }

  // ---------------------------------------------------------------------------
  // String.prototype.trim

  /** WhiteSpace and LineTerminator code points of section 12.2 and 12.3 of
      ECMAScript: the Zs category plus tab, vertical tab, form feed, NBSP and
      the BOM, and LF, CR, LS, PS. */
  predicate IsJsSpace(c: char) {
    c == '\t' || c == '\U{B}' || c == '\U{C}' || c == ' ' || c == '\U{A0}' || c == '\U{FEFF}'
    || c == '\U{1680}' || ('\U{2000}' <= c <= '\U{200A}') || c == '\U{202F}' || c == '\U{205F}' || c == '\U{3000}'
    || c == '\n' || c == '\r' || c == '\U{2028}' || c == '\U{2029}'
  }

  /** Every character of `s[a..b]` is white space. */
  predicate SpaceBetween(s: string, a: nat, b: nat)
    requires a <= b <= |s|
  {
    forall t :: a <= t < b ==> IsJsSpace(s[t])
  }

  predicate AllSpace(s: string) {
    SpaceBetween(s, 0, |s|)
  }

  /** The first position from `i` on that is not white space. */
  function SkipSpace(s: string, i: nat): (k: nat)
    requires i <= |s|
    ensures i <= k <= |s| && SpaceBetween(s, i, k)
    ensures k < |s| ==> !IsJsSpace(s[k])
    decreases |s| - i
  {
    if i < |s| && IsJsSpace(s[i]) then SkipSpace(s, i + 1) else i
  }

  /** The end of `s[lo..j]` once trailing white space is dropped. */
  function SkipSpaceBack(s: string, lo: nat, j: nat): (k: nat)
    requires lo <= j <= |s|
    ensures lo <= k <= j && SpaceBetween(s, k, j)
    ensures k > lo ==> !IsJsSpace(s[k - 1])
  {
    if j > lo && IsJsSpace(s[j - 1]) then SkipSpaceBack(s, lo, j - 1) else j
  }

  /** `s.trim()`: a slice of `s` with white space on neither end, and only
      white space cut off. */
  function Trim(s: string): (r: string)
    ensures exists i :: 0 <= i <= |s| - |r| && r == s[i..i + |r|]
                        && SpaceBetween(s, 0, i) && SpaceBetween(s, i + |r|, |s|)
    ensures |r| > 0 ==> !IsJsSpace(r[0]) && !IsJsSpace(r[|r| - 1])
  {
    var i := SkipSpace(s, 0);
    var j := SkipSpaceBack(s, i, |s|);
    var r := s[i..j];
    assert r == s[i..i + |r|];
    r
  }

  /** A string trims to nothing exactly when it is all white space. */
  lemma TrimEmpty(s: string)
    ensures Trim(s) == "" <==> AllSpace(s)
  {
    var r := Trim(s);
    var i :| 0 <= i <= |s| - |r| && r == s[i..i + |r|] && SpaceBetween(s, 0, i) && SpaceBetween(s, i + |r|, |s|);
    if r != "" {
      assert s[i] == r[0];
    }
  }

  // ---------------------------------------------------------------------------
  // The add handler's guard

  /** `prompt` answers `null` when cancelled. The guard
      `!input || input.trim().length < 1` refuses a cancelled, empty or blank
      answer; otherwise the answer is appended as typed, without trimming. */
  function AddEntry(meta: seq<Json.LinkEntry>, input: Option<string>): (r: Option<seq<Json.LinkEntry>>)
    ensures r.Some? <==> input.Some? && !AllSpace(input.value)
    ensures r.Some? ==> |r.value| == |meta| + 1 && r.value[..|meta|] == meta
                        && r.value[|meta|].url == input.value
  {
    match input
    case None => None
    case Some(text) =>
      TrimEmpty(text);
      if text == "" || |Trim(text)| < 1 then None
      else Some(meta + [Json.LinkEntry(text)])
  }
}
