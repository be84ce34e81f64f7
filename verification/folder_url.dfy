/** The folder id `main` takes from the page URL: the second capture group of
    `/https:\/\/drive.google.com\/drive\/u\/(.+)\/folders\/(.+)/` under
    ECMAScript regular-expression semantics (section 22.2 of ECMAScript).
    The pattern is not anchored, its two unescaped dots match any character
    but a line terminator, and both groups are greedy, so the first group
    reaches the last `/folders/` that still leaves a character for the second,
    and the second runs to the end of the line. */
module FolderUrl {
  import opened Base

  const Prefix: string := "https://drive.google.com/drive/u/"
  const Folders: string := "/folders/"

  /** What `.` refuses: the line terminators of section 12.3 of ECMAScript. */
  predicate IsLineTerminator(c: char) {
    c == '\n' || c == '\r' || c == '\U{2028}' || c == '\U{2029}'
  }

  predicate Dot(c: char) {
    !IsLineTerminator(c)
  }

  /** `s[i..j]` consists of characters `.` matches. */
  predicate DotRun(s: string, i: int, j: int) {
    0 <= i <= j <= |s| && forall t :: i <= t < j ==> Dot(s[t])
  }

  /** The pattern's literal head matches at `p`; its dots match any `Dot` character. */
  predicate PrefixAt(s: string, p: int) {
    0 <= p && p + |Prefix| <= |s|
    && forall t :: 0 <= t < |Prefix| ==> if Prefix[t] == '.' then Dot(s[p + t]) else s[p + t] == Prefix[t]
  }

  predicate FoldersAt(s: string, k: int) {
    0 <= k && k + |Folders| <= |s| && forall t :: 0 <= t < |Folders| ==> s[k + t] == Folders[t]
  }

  /** The pattern matches `s[p..e]` with group 1 `s[p+33..k]` and group 2
      `s[k+9..e]`. */
  predicate IsMatch(s: string, p: int, k: int, e: int) {
    PrefixAt(s, p) && p + |Prefix| < k && DotRun(s, p + |Prefix|, k)
    && FoldersAt(s, k) && k + |Folders| < e && DotRun(s, k + |Folders|, e)
  }

  /** Where a match sits: its start, where `/folders/` begins, and its end. */
  datatype Span = Span(start: nat, mid: nat, end: nat)

  /** The end of the run of `Dot` characters starting at `i`. */
  function RunEnd(s: string, i: nat): (j: nat)
    requires i <= |s|
    ensures DotRun(s, i, j)
    ensures j < |s| ==> !Dot(s[j])
    decreases |s| - i
  {
    if i < |s| && Dot(s[i]) then RunEnd(s, i + 1) else i
  }

  /** A run of `Dot` characters from `i` never passes `RunEnd(s, i)`. */
  lemma RunWithin(s: string, i: nat, j: int)
    requires i <= |s| && DotRun(s, i, j)
    ensures j <= RunEnd(s, i)
  {
  }

  /** `/folders/` at `k` followed by a character `.` matches. */
  predicate Candidate(s: string, k: int) {
    FoldersAt(s, k) && k + |Folders| < |s| && Dot(s[k + |Folders|])
  }

  /** The largest candidate position in `(lo, k]`, found by trying `k`,
      `k - 1`, ... as the backtracking of the greedy first group does. */
  function LastCandidate(s: string, lo: int, k: int): (r: Option<int>)
    ensures r.Some? ==> lo < r.value <= k && Candidate(s, r.value)
    ensures r.Some? ==> forall k' :: r.value < k' <= k ==> !Candidate(s, k')
    ensures r.None? ==> forall k' :: lo < k' <= k ==> !Candidate(s, k')
    decreases k - lo
  {
    if k <= lo then None
    else if Candidate(s, k) then Some(k)
    else LastCandidate(s, lo, k - 1)
  }

  /** The match the pattern finds when tried at `p` alone. */
  function MatchAt(s: string, p: nat): (r: Option<Span>)
    ensures r.Some? ==> r.value.start == p && IsMatch(s, p, r.value.mid, r.value.end)
    ensures r.Some? ==> forall k, e :: r.value.mid < k ==> !IsMatch(s, p, k, e)
    ensures r.Some? ==> forall e :: r.value.end < e ==> !IsMatch(s, p, r.value.mid, e)
    ensures r.None? ==> forall k, e :: !IsMatch(s, p, k, e)
  {
    if !PrefixAt(s, p) then None
    else
      var g := p + |Prefix|;
      var run := RunEnd(s, g);
      match LastCandidate(s, g, run)
      case None =>
        assert forall k, e :: IsMatch(s, p, k, e) ==> false by {
          forall k, e | IsMatch(s, p, k, e)
            ensures false
          {
            RunWithin(s, g, k);
            assert Candidate(s, k);
          }
        }
        None
      case Some(k) =>
        var end := RunEnd(s, k + |Folders|);
        assert DotRun(s, g, k);
        forall k', e | k < k' && IsMatch(s, p, k', e)
          ensures false
        {
          RunWithin(s, g, k');
          assert Candidate(s, k');
        }
        forall e | end < e
          ensures !IsMatch(s, p, k, e)
        {
          assert end < |s| ==> !Dot(s[end]);
        }
        Some(Span(p, k, end))
  }

  /** `s.match(URLRE)`: the leftmost position where the pattern matches. */
  function Exec(s: string, from: nat): (r: Option<Span>)
    ensures r.Some? ==> from <= r.value.start && IsMatch(s, r.value.start, r.value.mid, r.value.end)
    ensures r.Some? ==> forall p, k, e :: from <= p < r.value.start ==> !IsMatch(s, p, k, e)
    ensures r.Some? ==> forall k, e :: r.value.mid < k ==> !IsMatch(s, r.value.start, k, e)
    ensures r.Some? ==> forall e :: r.value.end < e ==> !IsMatch(s, r.value.start, r.value.mid, e)
    ensures r.None? ==> forall p, k, e :: from <= p ==> !IsMatch(s, p, k, e)
    decreases |s| - from
  {
    if from + |Prefix| > |s| then None
    else match MatchAt(s, from)
      case Some(m) => Some(m)
      case None => Exec(s, from + 1)
  }

  /** `match[2]`, or no match at all. */
  function FolderId(href: string): (r: Option<string>)
    // a non-empty id, with no line terminator: `if (!id) return` never fires
    ensures r.Some? ==> |r.value| > 0 && forall t :: 0 <= t < |r.value| ==> Dot(r.value[t])
    // no match anywhere exactly when no id
    ensures r.None? <==> forall p, k, e :: !IsMatch(href, p, k, e)
  {
    match Exec(href, 0)
    case None => None
    case Some(m) =>
      Some(href[m.mid + |Folders|..m.end])
  }

  /** The id is everything after a `/folders/` up to the end of the line:
      query string and fragment included. */
  lemma FolderIdIsTail(href: string)
    requires FolderId(href).Some?
    ensures var id := FolderId(href).value;
            exists k :: FoldersAt(href, k) && k + |Folders| + |id| <= |href|
                        && href[k + |Folders|..k + |Folders| + |id|] == id
                        && (k + |Folders| + |id| == |href| || IsLineTerminator(href[k + |Folders| + |id|]))
  {
    var m := Exec(href, 0).value;
    if m.end < |href| && Dot(href[m.end]) {
      assert IsMatch(href, m.start, m.mid, m.end + 1);
    }
  }

  /** A `/folders/` further right inside the second group gives a match too. */
  lemma LaterFolders(s: string, p: int, k: int, e: int, k2: int)
    requires IsMatch(s, p, k, e) && k < k2 && FoldersAt(s, k2) && k2 + |Folders| < e
    ensures IsMatch(s, p, k2, e)
  {
    forall t | p + |Prefix| <= t < k2
      ensures Dot(s[t])
    {
      if k <= t < k + |Folders| {
        assert s[t] == Folders[t - k];
      }
    }
  }

  /** `/folders/` inside a slice is `/folders/` in the whole string. */
  lemma FoldersInSlice(s: string, a: int, b: int, j: int)
    requires 0 <= a <= b <= |s| && FoldersAt(s[a..b], j)
    ensures FoldersAt(s, a + j)
  {
    forall t | 0 <= t < |Folders|
      ensures s[a + j + t] == Folders[t]
    {
      assert s[a..b][j + t] == s[a + j + t];
    }
  }

  /** The `/folders/` used is the last one on the line that leaves a
      character after it: the id never contains `/folders/` followed by more. */
  lemma FolderIdIsLast(href: string, j: nat)
    requires FolderId(href).Some?
    requires j + |Folders| < |FolderId(href).value|
    ensures !FoldersAt(FolderId(href).value, j)
  {
    var m := Exec(href, 0).value;
    var g := m.mid + |Folders|;
    if FoldersAt(href[g..m.end], j) {
      FoldersInSlice(href, g, m.end, j);
      LaterFolders(href, m.start, m.mid, m.end, g + j);
    }
  }

  /** The pattern matches a folder URL with `/folders/` right after the
      account part and the match running to the end. */
  lemma FolderUrlMatches(a: string, b: string)
    requires |a| > 0 && |b| > 0
    requires DotRun(a, 0, |a|) && DotRun(b, 0, |b|)
    ensures IsMatch(Prefix + a + Folders + b, 0, |Prefix| + |a|, |Prefix + a + Folders + b|)
  {
    var s := Prefix + a + Folders + b;
    var n := |Prefix| + |a|;
    assert forall t :: 0 <= t < |Prefix| ==> s[t] == Prefix[t];
    assert forall t :: 0 <= t < |Folders| ==> s[n + t] == Folders[t];
    assert PrefixAt(s, 0);
    assert DotRun(s, |Prefix|, n) by {
      forall t | |Prefix| <= t < n
        ensures Dot(s[t])
      {
        assert s[t] == a[t - |Prefix|];
      }
    }
    assert DotRun(s, n + |Folders|, |s|) by {
      forall t | n + |Folders| <= t < |s|
        ensures Dot(s[t])
      {
        assert s[t] == b[t - n - |Folders|];
      }
    }
  }

  /** Past its `/folders/`, a folder URL whose tail has no slash has none. */
  lemma NoSlashAfter(a: string, b: string)
    requires '/' !in b
    ensures var s := Prefix + a + Folders + b;
            forall t :: |Prefix| + |a| + |Folders| <= t < |s| ==> s[t] != '/'
  {
    var s := Prefix + a + Folders + b;
    var n := |Prefix| + |a| + |Folders|;
    forall t | n <= t < |s|
      ensures s[t] != '/'
    {
      assert s[t] == b[t - n];
    }
  }

  /** A match from the start to the end with no slash past its `/folders/`
      is the one `Exec` finds. */
  lemma WholeMatch(s: string, n: nat)
    requires IsMatch(s, 0, n, |s|)
    requires forall t :: n + |Folders| <= t < |s| ==> s[t] != '/'
    ensures Exec(s, 0) == Some(Span(0, n, |s|))
  {
    var m := Exec(s, 0).value;
    assert m.start == 0;
    assert s[m.mid + 8] == Folders[8];
    assert m.mid == n;
  }

  /** With no slash after `/folders/`, the match is exactly that one. */
  lemma FolderUrlSpan(a: string, b: string)
    requires |a| > 0 && |b| > 0
    requires DotRun(a, 0, |a|) && DotRun(b, 0, |b|) && '/' !in b
    ensures Exec(Prefix + a + Folders + b, 0) == Some(Span(0, |Prefix| + |a|, |Prefix + a + Folders + b|))
  {
    FolderUrlMatches(a, b);
    NoSlashAfter(a, b);
    WholeMatch(Prefix + a + Folders + b, |Prefix| + |a|);
  }

  /** A folder URL `https://drive.google.com/drive/u/<a>/folders/<b>` with
      `b` free of slashes and both parts on one line yields `b` as the id,
      query string and fragment included. */
  lemma FolderUrlId(a: string, b: string)
    requires |a| > 0 && |b| > 0
    requires DotRun(a, 0, |a|) && DotRun(b, 0, |b|) && '/' !in b
    ensures FolderId(Prefix + a + Folders + b) == Some(b)
  {
    var s := Prefix + a + Folders + b;
    var n := |Prefix| + |a|;
    FolderUrlSpan(a, b);
    assert s[n + |Folders|..|s|] == b;
  }
}
