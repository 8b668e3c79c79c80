/** The string operations of the source's standard library that the models rest on,
    with the facts about them that several components share. */
module Text {
  import opened Base

  // ---------------------------------------------------------------------------
  // Lexicographic order (the order of Rust's `String`)
  // ---------------------------------------------------------------------------

  predicate Less(a: string, b: string) {
    if b == [] then false
    else if a == [] then true
    else if a[0] != b[0] then a[0] < b[0]
    else Less(a[1..], b[1..])
  }

  lemma {:induction false} LessIrreflexive(a: string)
    ensures !Less(a, a)
  {
    if a == [] {
    } else {
      LessIrreflexive(a[1..]);
    }
  }

  lemma {:induction false} LessTransitive(a: string, b: string, c: string)
    requires Less(a, b) && Less(b, c)
    ensures Less(a, c)
  {
    if a != [] && a[0] == b[0] == c[0] {
      LessTransitive(a[1..], b[1..], c[1..]);
    }
  }

  lemma {:induction false} LessTotal(a: string, b: string)
    requires a != b
    ensures Less(a, b) || Less(b, a)
  {
    if a != [] && b != [] && a[0] == b[0] {
      assert a == [a[0]] + a[1..] && b == [b[0]] + b[1..];
      LessTotal(a[1..], b[1..]);
    }
  }

  lemma {:induction false} LessUnderPrefix(p: string, a: string, b: string)
    ensures Less(p + a, p + b) == Less(a, b)
  {
    if p == [] {
      assert p + a == a && p + b == b;
    } else {
      assert (p + a)[1..] == p[1..] + a && (p + b)[1..] == p[1..] + b;
      LessUnderPrefix(p[1..], a, b);
    }
  }

  ghost predicate StrictlySorted(v: seq<string>) {
    forall i, j :: 0 <= i < j < |v| ==> Less(v[i], v[j])
  }

  // ---------------------------------------------------------------------------
  // Substring search: `str::find`, `starts_with`, `strip_prefix`
  // ---------------------------------------------------------------------------

  predicate IsAt(s: string, pat: string, i: nat) {
    i + |pat| <= |s| && s[i..i + |pat|] == pat
  }

  /** `s.find(pat)`: the first position at which `pat` occurs. */
  function Find(s: string, pat: string): (r: Option<nat>)
    ensures r.Some? ==> IsAt(s, pat, r.value)
  {
    FindFrom(s, pat, 0)
  }

  function FindFrom(s: string, pat: string, i: nat): (r: Option<nat>)
    requires i <= |s|
    ensures r.Some? ==> i <= r.value && IsAt(s, pat, r.value)
    decreases |s| - i
  {
    if IsAt(s, pat, i) then Some(i)
    else if i == |s| then None
    else FindFrom(s, pat, i + 1)
  }

  ghost predicate NoneBefore(s: string, pat: string, n: nat) {
    forall k: nat :: k < n ==> !IsAt(s, pat, k)
  }

  ghost predicate Absent(s: string, pat: string) {
    forall k: nat :: !IsAt(s, pat, k)
  }

  lemma {:induction false} FindFromIsFirst(s: string, pat: string, i: nat)
    requires i <= |s|
    ensures match FindFrom(s, pat, i)
            case Some(r) => forall k: nat :: i <= k < r ==> !IsAt(s, pat, k)
            case None => forall k: nat :: i <= k ==> !IsAt(s, pat, k)
    decreases |s| - i
  {
    if !IsAt(s, pat, i) && i < |s| {
      FindFromIsFirst(s, pat, i + 1);
    }
  }

  lemma FindIsFirst(s: string, pat: string)
    ensures match Find(s, pat) case Some(r) => NoneBefore(s, pat, r) case None => Absent(s, pat)
  {
    FindFromIsFirst(s, pat, 0);
  }

  /** The first occurrence is unique, which turns `Find` into an equation. */
  lemma FindIs(s: string, pat: string, i: nat)
    requires IsAt(s, pat, i) && NoneBefore(s, pat, i)
    ensures Find(s, pat) == Some(i)
  {
    FindIsFirst(s, pat);
  }

  lemma FindNothing(s: string, pat: string)
    requires Absent(s, pat)
    ensures Find(s, pat) == None
  {
    FindIsFirst(s, pat);
  }

  // ---------------------------------------------------------------------------
  // Cutting a text at the first mark: `split_once`
  // ---------------------------------------------------------------------------

  function Cut(s: string, mark: string): (r: Option<(string, string)>)
    ensures r.Some? ==> |r.value.0| + |mark| + |r.value.1| == |s|
  {
    match Find(s, mark)
    case None => None
    case Some(i) => Some((s[..i], s[i + |mark|..]))
  }

  /** `mark` first occurs in `s + mark` at its end. */
  ghost predicate EndsAtFirst(s: string, mark: string) {
    NoneBefore(s + mark, mark, |s|)
  }

  lemma CutIsFirst(s: string, mark: string)
    ensures match Cut(s, mark)
            case None => Absent(s, mark)
            case Some((head, tail)) => s == head + mark + tail && EndsAtFirst(head, mark)
  {
    hide Find;
    FindIsFirst(s, mark);
    match Find(s, mark)
    case None =>
    case Some(i) => EndsWhereFound(s, mark, i);
  }

  lemma EndsWhereFound(s: string, mark: string, i: nat)
    requires IsAt(s, mark, i) && NoneBefore(s, mark, i)
    ensures s == s[..i] + mark + s[i + |mark|..] && EndsAtFirst(s[..i], mark)
  {
    var head := s[..i] + mark;
    assert head == s[..i + |mark|];
    forall k: nat | k < i ensures !IsAt(head, mark, k) {
      assert !IsAt(s, mark, k);
      assert k + |mark| <= |head| ==> head[k..k + |mark|] == s[k..k + |mark|];
    }
  }

  lemma CutAtFirst(head: string, mark: string, tail: string)
    requires EndsAtFirst(head, mark)
    ensures Cut(head + mark + tail, mark) == Some((head, tail))
  {
    var s := head + mark + tail;
    assert s[|head|..|head| + |mark|] == mark;
    forall k: nat | k < |head| ensures !IsAt(s, mark, k) {
      assert !IsAt(head + mark, mark, k);
      assert k + |mark| <= |head| + |mark| ==> (head + mark)[k..k + |mark|] == s[k..k + |mark|];
    }
    FindIs(s, mark, |head|);
    assert s[..|head|] == head && s[|head| + |mark|..] == tail;
  }

  lemma CutNothing(s: string, mark: string)
    requires Absent(s, mark)
    ensures Cut(s, mark) == None
  {
    FindIsFirst(s, mark);
  }

  lemma CutFrom(s: string, cursor: nat, mark: string, i: nat)
    requires cursor <= |s| && Find(s[cursor..], mark) == Some(i)
    ensures Cut(s[cursor..], mark) == Some((s[cursor..cursor + i], s[cursor + i + |mark|..]))
  {
    assert s[cursor..][..i] == s[cursor..cursor + i];
    assert s[cursor..][i + |mark|..] == s[cursor + i + |mark|..];
  }

  // ---------------------------------------------------------------------------
  // `trim`
  // ---------------------------------------------------------------------------

  /** Unicode `White_Space`, which `str::trim` strips. */
  predicate IsWhitespace(c: char) {
    '\U{0009}' <= c <= '\U{000D}' || c == ' ' || c == '\U{0085}' || c == '\U{00A0}' || c == '\U{1680}'
    || '\U{2000}' <= c <= '\U{200A}' || c == '\U{2028}' || c == '\U{2029}' || c == '\U{202F}' || c == '\U{205F}'
        || c == '\U{3000}'
  }

  function TrimStart(s: string): string {
    if s != [] && IsWhitespace(s[0]) then TrimStart(s[1..]) else s
  }

  function TrimEnd(s: string): string {
    if s != [] && IsWhitespace(s[|s| - 1]) then TrimEnd(s[..|s| - 1]) else s
  }

  function Trim(s: string): string {
    TrimEnd(TrimStart(s))
  }

  ghost predicate AllWhitespace(s: string) {
    forall i :: 0 <= i < |s| ==> IsWhitespace(s[i])
  }

  /** Trimming takes away the white space at both ends and nothing else. */
  lemma {:induction false} TrimIs(before: string, s: string, after: string)
    requires AllWhitespace(before) && AllWhitespace(after)
    requires s == [] || (!IsWhitespace(s[0]) && !IsWhitespace(s[|s| - 1]))
    ensures Trim(before + s + after) == s
    decreases |before| + |after|
  {
    var t := before + s + after;
    if before != [] {
      assert t[1..] == before[1..] + s + after;
      TrimIs(before[1..], s, after);
    } else if s == [] {
      if after != [] {
        assert t[1..] == [] + [] + after[1..];
        TrimIs([], [], after[1..]);
      }
    } else if after != [] {
      var n := |t| - 1;
      assert t[..n] == [] + s + after[..|after| - 1];
      TrimIs([], s, after[..|after| - 1]);
      assert t[n] == after[|after| - 1] && t[..n][0] == s[0] && t[0] == s[0];
      assert TrimStart(t) == t && TrimStart(t[..n]) == t[..n];
    } else {
      assert t == s;
    }
  }

  lemma TrimNothing(s: string)
    requires s != [] && !IsWhitespace(s[0]) && !IsWhitespace(s[|s| - 1])
    ensures Trim(s) == s
  {
  }

  // ---------------------------------------------------------------------------
  // `replace`
  // ---------------------------------------------------------------------------

  /** Occurrences are replaced left to right, and what was inserted is not looked at again. */
  function Replace(s: string, pat: string, value: string): string
    requires pat != []
    decreases |s|
  {
    if pat <= s then value + Replace(s[|pat|..], pat, value)
    else if s == [] then []
    else [s[0]] + Replace(s[1..], pat, value)
  }

  // ---------------------------------------------------------------------------
  // Letter case, of ASCII letters
  // ---------------------------------------------------------------------------

  function LowerChar(c: char): char {
    if 'A' <= c <= 'Z' then c + 32 as char else c
  }

  function UpperChar(c: char): char {
    if 'a' <= c <= 'z' then c - 32 as char else c
  }

  function Lower(s: string): string {
    seq(|s|, i requires 0 <= i < |s| => LowerChar(s[i]))
  }

  function Upper(s: string): string {
    seq(|s|, i requires 0 <= i < |s| => UpperChar(s[i]))
  }
}
