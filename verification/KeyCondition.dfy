/** DynamoDB's key-condition expressions: splitting at the top-level ANDs and reading the parts.
    Expressions are ASCII, so that characters are bytes and changing case keeps positions. */
module KeyCondition {
  import opened Base
  import opened Text

  // ---------------------------------------------------------------------------
  // Splitting
  // ---------------------------------------------------------------------------

  const AND := " AND "

  predicate IsAnd(s: string, i: nat) {
    i + 5 <= |s| && Upper(s[i..i + 5]) == AND
  }

  function Shift(c: char): int {
    if c == '(' then 1 else if c == ')' then -1 else 0
  }

  /** The parenthesis depth before position i. */
  function Depth(s: string, i: nat): int
    requires i <= |s|
  {
    if i == 0 then 0 else Depth(s, i - 1) + Shift(s[i - 1])
  }

  predicate TopLevelAnd(s: string, i: nat) {
    IsAnd(s, i) && Depth(s, i) == 0
  }

  function FirstAnd(s: string, i: nat): Option<nat>
    requires i <= |s|
    decreases |s| - i
  {
    if i == |s| then None else if TopLevelAnd(s, i) then Some(i) else FirstAnd(s, i + 1)
  }

  lemma {:induction false} FirstAndIsFirst(s: string, i: nat)
    requires i <= |s|
    ensures match FirstAnd(s, i)
            case Some(k) => i <= k && TopLevelAnd(s, k) && forall j: nat :: i <= j < k ==> !TopLevelAnd(s, j)
            case None => forall j: nat :: i <= j ==> !TopLevelAnd(s, j)
    decreases |s| - i
  {
    if i < |s| && !TopLevelAnd(s, i) {
      FirstAndIsFirst(s, i + 1);
    }
  }

  lemma {:induction false} FirstAndIs(s: string, i: nat, k: nat)
    requires i <= k <= |s| && forall j: nat :: i <= j < k ==> !TopLevelAnd(s, j)
    ensures FirstAnd(s, i) == FirstAnd(s, k)
    decreases k - i
  {
    if i < k {
      FirstAndIs(s, i + 1, k);
    }
  }

  /** The parts between the separators found from left to right. */
  function Split(s: string): seq<string>
    decreases |s|
  {
    FirstAndIsFirst(s, 0);
    match FirstAnd(s, 0)
    case None => [s]
    case Some(i) => [s[..i]] + Split(s[i + 5..])
  }

  /** Where those separators stand. */
  function Cuts(s: string, offset: nat): seq<nat>
    decreases |s|
  {
    FirstAndIsFirst(s, 0);
    match FirstAnd(s, 0)
    case None => []
    case Some(i) => [offset + i] + Cuts(s[i + 5..], offset + i + 5)
  }

  lemma {:induction false} DepthOfDrop(s: string, k: nat, i: nat)
    requires k + i <= |s|
    ensures Depth(s, k + i) == Depth(s, k) + Depth(s[k..], i)
  {
    if i == 0 {
    } else {
      DepthOfDrop(s, k, i - 1);
    }
  }

  lemma {:induction false} DepthOfPrefix(s: string, t: string, i: nat)
    requires i <= |s|
    ensures Depth(s + t, i) == Depth(s, i)
  {
    if i == 0 {
    } else {
      DepthOfPrefix(s, t, i - 1);
    }
  }

  lemma AndHasNoParentheses(s: string, i: nat)
    requires IsAnd(s, i)
    ensures Depth(s, i + 5) == Depth(s, i)
  {
    var t := s[i..i + 5];
    assert forall k :: 0 <= k < 5 ==> UpperChar(t[k]) == AND[k] by {
      assert forall k :: 0 <= k < 5 ==> Upper(t)[k] == UpperChar(t[k]);
    }
    assert s[i] == t[0] && s[i + 1] == t[1] && s[i + 2] == t[2] && s[i + 3] == t[3] && s[i + 4] == t[4];
    assert Depth(s, i + 1) == Depth(s, i);
    assert Depth(s, i + 2) == Depth(s, i);
    assert Depth(s, i + 3) == Depth(s, i);
    assert Depth(s, i + 4) == Depth(s, i);
  }

  /** The separators put back between the parts. */
  function Weave(s: string, parts: seq<string>, cuts: seq<nat>): string
    requires |parts| == |cuts| + 1 && forall c :: c in cuts ==> c + 5 <= |s|
  {
    if cuts == [] then parts[0]
    else
      assert cuts[0] in cuts && forall c :: c in cuts[1..] ==> c in cuts;
      parts[0] + s[cuts[0]..cuts[0] + 5] + Weave(s, parts[1..], cuts[1..])
  }

  /** Re-joining the parts with the removed separators restores the expression; every removed separator
      was an AND outside all parentheses; and no part still holds one. */
  lemma SplitIsExact(s: string)
    ensures |Split(s)| == |Cuts(s, 0)| + 1
    ensures forall c :: c in Cuts(s, 0) ==> c + 5 <= |s| && TopLevelAnd(s, c)
    ensures Weave(s, Split(s), Cuts(s, 0)) == s
    ensures forall part, i: nat :: part in Split(s) ==> !TopLevelAnd(part, i)
  {
    SplitExactFrom(s, s, 0);
    assert s[0..] == s;
  }

  lemma {:induction false} SplitExactFrom(whole: string, s: string, offset: nat)
    requires offset <= |whole| && s == whole[offset..] && Depth(whole, offset) == 0
    ensures |Split(s)| == |Cuts(s, offset)| + 1
    ensures forall c :: c in Cuts(s, offset) ==> c + 5 <= |whole| && TopLevelAnd(whole, c)
    ensures Weave(whole, Split(s), Cuts(s, offset)) == s
    ensures forall part, i: nat :: part in Split(s) ==> !TopLevelAnd(part, i)
    decreases |s|
  {
    hide TopLevelAnd, IsAnd, Depth, FirstAnd, Weave;
    FirstAndIsFirst(s, 0);
    match FirstAnd(s, 0)
    case None =>
      WeaveOne(whole, s);
    case Some(i) =>
      CutIsTopLevel(whole, s, offset, i);
      var rest := s[i + 5..];
      assert rest == whole[offset + i + 5..];
      SplitExactFrom(whole, rest, offset + i + 5);
      assert s == s[..i] + whole[offset + i..offset + i + 5] + rest;
      WeaveMore(whole, s[..i], offset + i, Split(rest), Cuts(rest, offset + i + 5));
      forall k: nat ensures !TopLevelAnd(s[..i], k) {
        HeadHoldsNone(s, i, k);
      }
      assert Split(s) == [s[..i]] + Split(rest) && Cuts(s, offset) == [offset + i] + Cuts(rest, offset + i + 5);
  }

  lemma WeaveOne(s: string, part: string)
    ensures Weave(s, [part], []) == part
  {
  }

  lemma WeaveMore(s: string, part: string, cut: nat, parts: seq<string>, cuts: seq<nat>)
    requires |parts| == |cuts| + 1 && cut + 5 <= |s| && forall c :: c in cuts ==> c + 5 <= |s|
    ensures Weave(s, [part] + parts, [cut] + cuts) == part + s[cut..cut + 5] + Weave(s, parts, cuts)
  {
    assert ([part] + parts)[1..] == parts && ([cut] + cuts)[1..] == cuts;
  }

  lemma CutIsTopLevel(whole: string, s: string, offset: nat, i: nat)
    requires offset <= |whole| && s == whole[offset..] && Depth(whole, offset) == 0 && TopLevelAnd(s, i)
    ensures offset + i + 5 <= |whole| && TopLevelAnd(whole, offset + i) && Depth(whole, offset + i + 5) == 0
  {
    DepthOfDrop(whole, offset, i);
    assert whole[offset + i..offset + i + 5] == s[i..i + 5];
    AndHasNoParentheses(whole, offset + i);
  }

  lemma HeadHoldsNone(s: string, i: nat, k: nat)
    requires i <= |s| && forall j: nat :: 0 <= j < i ==> !TopLevelAnd(s, j)
    ensures !TopLevelAnd(s[..i], k)
  {
    if k + 5 <= i {
      assert s[..i][k..k + 5] == s[k..k + 5];
      DepthOfPrefix(s[..i], s[i..], k);
      assert s[..i] + s[i..] == s;
      assert !TopLevelAnd(s, k);
    }
  }

  /** `split_top_level_and`. */
  method SplitTopLevelAnd(expr: string) returns (parts: seq<string>)
    ensures parts == Split(expr)
  {
    hide IsAnd, Depth, FirstAnd, Split;
    parts := [];
    var depth, start, i := 0, 0, 0;
    DepthStarts(expr);
    assert expr[0..] == expr;
    while i < |expr|
      invariant 0 <= start <= i <= |expr| && depth == Depth(expr[start..], i - start)
      invariant FirstAnd(expr[start..], 0) == FirstAnd(expr[start..], i - start)
      invariant Split(expr) == parts + Split(expr[start..])
      decreases |expr| - i
    {
      var tail := expr[start..];
      assert tail[i - start] == expr[i];
      DepthStep(tail, i - start);
      if expr[i] == '(' {
        depth := depth + 1;
      } else if expr[i] == ')' {
        depth := depth - 1;
      }
      AndStartsWithBlank(tail, i - start);
      SliceIsAnd(expr, start, i);
      if depth == 0 && IsAnd(expr, i) {
        AndFits(expr, i);
        CutHere(tail, i - start);
        assert tail[..i - start] == expr[start..i] && tail[i - start + 5..] == expr[i + 5..];
        parts := parts + [expr[start..i]];
        start := i + 5;
        i := start;
        DepthStarts(expr[start..]);
        continue;
      }
      NotHere(tail, i - start);
      i := i + 1;
    }
    NoneLeft(expr[start..]);
    parts := parts + [expr[start..]];
  }

  lemma DepthStarts(s: string)
    ensures Depth(s, 0) == 0
  {
  }

  lemma DepthStep(s: string, i: nat)
    requires i < |s|
    ensures Depth(s, i + 1) == Depth(s, i) + Shift(s[i])
  {
  }

  lemma CutHere(s: string, i: nat)
    requires i < |s| && TopLevelAnd(s, i) && FirstAnd(s, 0) == FirstAnd(s, i)
    ensures i + 5 <= |s| && Split(s) == [s[..i]] + Split(s[i + 5..])
  {
  }

  lemma NotHere(s: string, i: nat)
    requires i < |s| && !TopLevelAnd(s, i)
    ensures FirstAnd(s, i) == FirstAnd(s, i + 1)
  {
  }

  lemma NoneLeft(s: string)
    requires FirstAnd(s, 0) == FirstAnd(s, |s|)
    ensures Split(s) == [s]
  {
  }

  lemma AndFits(s: string, i: nat)
    requires IsAnd(s, i)
    ensures i + 5 <= |s|
  {
  }

  lemma AndStartsWithBlank(s: string, i: nat)
    requires i < |s|
    ensures IsAnd(s, i) ==> s[i] == ' '
  {
    if IsAnd(s, i) {
      assert Upper(s[i..i + 5])[0] == UpperChar(s[i]);
    }
  }

  lemma SliceIsAnd(s: string, start: nat, i: nat)
    requires start <= i < |s|
    ensures IsAnd(s[start..], i - start) <==> IsAnd(s, i)
  {
    if i + 5 <= |s| {
      assert s[start..][i - start..i - start + 5] == s[i..i + 5];
    }
  }
}
