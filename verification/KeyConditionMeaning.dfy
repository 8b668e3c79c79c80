/** What well-formed key conditions parse to, and what no ASCII text ever parses to. */
module KeyConditionMeaning {
  import opened Base
  import opened Text
  import opened Store
  import opened KeyCondition
  import opened KeyConditionParser

  /** The shapes of a part. The last two are the halves that the splitter makes of a BETWEEN clause. */
  datatype Clause =
    | Comparison(name: string, gap: string, operator: string, space: string, value: string)
    | Prefix(call: string, name: string, gap: string, value: string)
    | HalfBetween(name: string, keyword: string, value: string)
    | Bare(value: string)

  predicate IsMark(c: char) {
    c == '<' || c == '>' || c == '='
  }

  predicate IsWordChar(c: char) {
    !IsWhitespace(c) && !IsMark(c) && c != '(' && c != ')' && c != ','
  }

  ghost predicate IsWord(w: string) {
    w != [] && Upper(w) != "AND" && forall k :: 0 <= k < |w| ==> IsWordChar(w[k])
  }

  ghost predicate IsGap(g: string) {
    forall k :: 0 <= k < |g| ==> IsWhitespace(g[k])
  }

  ghost predicate WellFormed(c: Clause) {
    IsWord(c.value)
    && match c
       case Comparison(name, gap, operator, space, _) =>
         IsWord(name) && IsGap(gap) && operator in OPERATORS && IsGap(space)
       case Prefix(call, name, gap, _) => IsWord(call) && Lower(call) == "begins_with" && IsWord(name) && IsGap(gap)
       case HalfBetween(name, keyword, _) => IsWord(name) && IsWord(keyword) && Upper(keyword) == "BETWEEN"
       case Bare(_) => true
  }

  function Written(c: Clause): string {
    match c
    case Comparison(name, gap, operator, space, value) => name + gap + operator + space + value
    case Prefix(call, name, gap, value) => call + "(" + name + "," + gap + value + ")"
    case HalfBetween(name, keyword, value) => name + " " + keyword + " " + value
    case Bare(value) => value
  }

  /** What a clause means, told without looking at its text. */
  function Meaning(c: Clause, e: Names, r: Reading): Reading {
    match c
    case Comparison(name, _, operator, _, value) => Compare(NameOf(name, e), operator, ValueOf(value, e), e, r)
    case Prefix(_, name, _, value) =>
      if NameOf(name, e) == e.rangeKey then r.(range := Some(BeginsWith(PrefixText(ValueOf(value, e))))) else r
    case HalfBetween(_, _, _) => r
    case Bare(_) => r
  }

  /** Clauses joined by ANDs in any letter case. */
  function Joined(first: Clause, more: seq<(string, Clause)>): string
    decreases |more|
  {
    if more == [] then Written(first) else Written(first) + more[0].0 + Joined(more[0].1, more[1..])
  }

  function MeaningOfAll(first: Clause, more: seq<(string, Clause)>, e: Names, r: Reading): Reading
    decreases |more|
  {
    if more == [] then Meaning(first, e, r) else MeaningOfAll(more[0].1, more[1..], e, Meaning(first, e, r))
  }

  ghost predicate AllWellFormed(first: Clause, more: seq<(string, Clause)>) {
    WellFormed(first) && forall m :: m in more ==> Upper(m.0) == AND && WellFormed(m.1)
  }

  // ---------------------------------------------------------------------------
  // Trimming
  // ---------------------------------------------------------------------------

  lemma {:induction false} TrimAfter(w: string, g: string)
    requires IsWord(w) && IsGap(g)
    ensures Trim(w + g) == w
  {
    if g == [] {
      assert w + g == w;
      TrimNothing(w);
    } else {
      var shorter := g[..|g| - 1];
      TrimAfter(w, shorter);
      assert (w + g)[..|w + g| - 1] == w + shorter;
      assert TrimStart(w + g) == w + g && TrimStart(w + shorter) == w + shorter;
    }
  }

  lemma {:induction false} TrimBefore(g: string, w: string)
    requires IsWord(w) && IsGap(g)
    ensures Trim(g + w) == w
  {
    if g == [] {
      assert g + w == w;
      TrimNothing(w);
    } else {
      assert (g + w)[1..] == g[1..] + w;
      TrimBefore(g[1..], w);
    }
  }

  // ---------------------------------------------------------------------------
  // No AND inside a clause
  // ---------------------------------------------------------------------------

  lemma AndLetters(s: string, i: nat)
    requires IsAnd(s, i)
    ensures i + 5 <= |s| && s[i] == ' ' && StopsAnd(s[i + 1..]) == false
  {
    var t := s[i..i + 5];
    assert forall k :: 0 <= k < 5 ==> Upper(t)[k] == UpperChar(t[k]) && t[k] == s[i + k];
    assert AND[0] == ' ' && AND[1] == 'A' && AND[2] == 'N' && AND[3] == 'D' && AND[4] == ' ';
  }

  /** The text that follows a blank does not complete an AND. */
  predicate StopsAnd(t: string) {
    !(4 <= |t| && UpperChar(t[0]) == 'A' && UpperChar(t[1]) == 'N' && UpperChar(t[2]) == 'D' && t[3] == ' ')
  }

  lemma WordStopsAnd(w: string, after: string)
    requires IsWord(w) && (after == [] || IsWhitespace(after[0]) || after[0] == ')')
    ensures StopsAnd(w + after)
  {
    var t := w + after;
    if |w| == 3 {
      ThreeLetters(w);
    } else if 3 < |w| {
      assert t[3] == w[3];
    } else if after != [] {
      assert t[|w|] == after[0];
    }
  }

  lemma ThreeLetters(w: string)
    requires |w| == 3
    ensures Upper(w) == "AND" <==> UpperChar(w[0]) == 'A' && UpperChar(w[1]) == 'N' && UpperChar(w[2]) == 'D'
  {
    assert forall k :: 0 <= k < 3 ==> Upper(w)[k] == UpperChar(w[k]);
    assert Upper(w) == [UpperChar(w[0]), UpperChar(w[1]), UpperChar(w[2])];
  }

  /** No AND begins inside t when `after` follows it. */
  ghost predicate Clean(t: string, after: string) {
    forall i: nat :: i < |t| ==> !IsAnd(t + after, i)
  }

  lemma TextIsClean(w: string, after: string)
    requires forall k :: 0 <= k < |w| ==> w[k] != ' '
    ensures Clean(w, after)
  {
    forall i: nat | i < |w| ensures !IsAnd(w + after, i) {
      assert (w + after)[i] == w[i];
      if IsAnd(w + after, i) {
        AndLetters(w + after, i);
      }
    }
  }

  lemma GapIsClean(g: string, after: string)
    requires IsGap(g) && StopsAnd(after)
    ensures Clean(g, after)
  {
    var s := g + after;
    forall i: nat | i < |g| ensures !IsAnd(s, i) {
      if i + 1 < |g| {
        assert s[i + 1..][0] == g[i + 1];
      } else {
        assert s[i + 1..] == after;
      }
      if IsAnd(s, i) {
        AndLetters(s, i);
      }
    }
  }

  lemma CleanAppend(a: string, b: string, after: string)
    requires Clean(a, b + after) && Clean(b, after)
    ensures Clean(a + b, after)
  {
    var s := (a + b) + after;
    assert s == a + (b + after);
    forall i: nat | i < |a + b| ensures !IsAnd(s, i) {
      if |a| <= i {
        assert !IsAnd(b + after, i - |a|);
        assert i + 5 <= |s| ==> s[i..i + 5] == (b + after)[i - |a|..i - |a| + 5];
      }
    }
  }

  lemma ClauseIsClean(c: Clause, after: string)
    requires WellFormed(c) && (after == [] || after[0] == ' ')
    ensures Clean(Written(c), after)
  {
    hide Clean, StopsAnd;
    match c
    case Comparison(_, _, _, _, _) => ComparisonIsClean(c, after);
    case Prefix(_, _, _, _) => PrefixIsClean(c, after);
    case HalfBetween(_, _, _) => HalfBetweenIsClean(c, after);
    case Bare(value) => TextIsClean(value, after);
  }

  lemma ComparisonIsClean(c: Clause, after: string)
    requires c.Comparison? && WellFormed(c) && (after == [] || after[0] == ' ')
    ensures Clean(Written(c), after)
  {
    hide Clean, StopsAnd;
    var right := c.space + c.value;
    var tail := c.operator + right;
    GapThenWordIsClean(c.space, c.value, after);
    OperatorIsClean(c.operator, right + after);
    CleanAppend(c.operator, right, after);
    assert tail + after == c.operator + (right + after);
    GapIsClean(c.gap, tail + after);
    CleanAppend(c.gap, tail, after);
    TextIsClean(c.name, c.gap + tail + after);
    CleanAppend(c.name, c.gap + tail, after);
    assert Written(c) == c.name + (c.gap + tail);
  }

  lemma PrefixIsClean(c: Clause, after: string)
    requires c.Prefix? && WellFormed(c) && (after == [] || after[0] == ' ')
    ensures Clean(Written(c), after)
  {
    hide Clean, StopsAnd;
    var head, close := c.call + "(" + c.name + ",", ")";
    TextIsClean(close, after);
    GapThenWordIsClean(c.gap, c.value, close + after);
    CleanAppend(c.gap + c.value, close, after);
    TextIsClean(head, c.gap + c.value + close + after);
    CleanAppend(head, c.gap + c.value + close, after);
    assert Written(c) == head + (c.gap + c.value + close);
  }

  lemma HalfBetweenIsClean(c: Clause, after: string)
    requires c.HalfBetween? && WellFormed(c) && (after == [] || after[0] == ' ')
    ensures Clean(Written(c), after)
  {
    hide Clean, StopsAnd;
    var right := " " + c.value;
    var tail := " " + c.keyword + right;
    GapThenWordIsClean(" ", c.value, after);
    GapThenWordIsClean(" ", c.keyword, right + after);
    CleanAppend(" " + c.keyword, right, after);
    TextIsClean(c.name, tail + after);
    CleanAppend(c.name, tail, after);
    assert Written(c) == c.name + tail;
  }

  lemma GapThenWordIsClean(g: string, w: string, after: string)
    requires IsGap(g) && IsWord(w) && (after == [] || IsWhitespace(after[0]) || after[0] == ')')
    ensures Clean(g + w, after)
  {
    TextIsClean(w, after);
    WordStopsAnd(w, after);
    GapIsClean(g, w + after);
    CleanAppend(g, w, after);
  }

  lemma OperatorIsClean(operator: string, after: string)
    requires operator in OPERATORS
    ensures StopsAnd(operator + after) && Clean(operator, after)
  {
    OperatorMarks(operator);
    assert (operator + after)[0] == operator[0];
    TextIsClean(operator, after);
  }

  lemma OperatorMarks(operator: string)
    requires operator in OPERATORS
    ensures 1 <= |operator| <= 2 && forall k :: 0 <= k < |operator| ==> IsMark(operator[k])
  {
  }

  // ---------------------------------------------------------------------------
  // Splitting joined clauses
  // ---------------------------------------------------------------------------

  lemma DepthOfAppend(a: string, b: string)
    ensures Depth(a + b, |a + b|) == Depth(a, |a|) + Depth(b, |b|)
  {
    DepthOfDrop(a + b, |a|, |b|);
    DepthOfPrefix(a, b, |a|);
    assert (a + b)[|a|..] == b;
  }

  lemma {:induction false} FlatDepth(s: string, i: nat)
    requires i <= |s| && forall k :: 0 <= k < i ==> s[k] != '(' && s[k] != ')'
    ensures Depth(s, i) == 0
  {
    if i == 0 {
    } else {
      FlatDepth(s, i - 1);
    }
  }

  lemma ClauseIsBalanced(c: Clause)
    requires WellFormed(c)
    ensures Depth(Written(c), |Written(c)|) == 0
  {
    hide Depth;
    var s := Written(c);
    if c.Prefix? {
      var inner := c.name + "," + c.gap + c.value;
      FlatDepth(c.call, |c.call|);
      FlatDepth(inner, |inner|);
      DepthOfAppend(c.call, "(");
      DepthOfAppend(c.call + "(", inner);
      DepthOfAppend(c.call + "(" + inner, ")");
      ParenthesisDepth();
      assert s == c.call + "(" + inner + ")";
    } else {
      FlatDepth(s, |s|);
    }
  }

  lemma ParenthesisDepth()
    ensures Depth("(", 1) == 1 && Depth(")", 1) == -1
  {
    assert Depth("(", 0) == 0 && Depth(")", 0) == 0;
  }

  lemma CutsAfterFirst(c: Clause, separator: string, rest: string)
    requires WellFormed(c) && Upper(separator) == AND
    ensures Split(Written(c) + separator + rest) == [Written(c)] + Split(rest)
  {
    hide Depth, Written;
    var head := Written(c);
    var s := head + separator + rest;
    var after := separator + rest;
    assert |separator| == |Upper(separator)| == 5;
    assert Upper(separator)[0] == UpperChar(separator[0]);
    assert s == head + after;
    ClauseIsClean(c, after);
    ClauseIsBalanced(c);
    DepthOfPrefix(head, after, |head|);
    assert s[|head|..|head| + 5] == separator;
    FirstAndIs(s, 0, |head|);
    assert s[..|head|] == head && s[|head| + 5..] == rest;
  }

  lemma KeepsLast(c: Clause)
    requires WellFormed(c)
    ensures Split(Written(c)) == [Written(c)]
  {
    var s := Written(c);
    ClauseIsClean(c, []);
    assert s + [] == s;
    FirstAndIs(s, 0, |s|);
  }

  // ---------------------------------------------------------------------------
  // Reading one clause
  // ---------------------------------------------------------------------------

  lemma WrittenEnds(c: Clause)
    requires WellFormed(c)
    ensures Written(c) != [] && IsWordChar(Written(c)[0])
    ensures var s := Written(c); if c.Prefix? then s[|s| - 1] == ')' else IsWordChar(s[|s| - 1])
    ensures Trim(Written(c)) == Written(c)
  {
    var s := Written(c);
    match c
    case Comparison(name, _, _, _, value) => assert s[0] == name[0] && s[|s| - 1] == value[|value| - 1];
    case Prefix(call, _, _, _) => assert s[0] == call[0];
    case HalfBetween(name, _, value) => assert s[0] == name[0] && s[|s| - 1] == value[|value| - 1];
    case Bare(value) =>
  }

  /** An operator is found where it stands, since nothing else contains its characters. */
  lemma OperatorFound(left: string, operator: string, right: string)
    requires operator in OPERATORS
    requires forall k :: 0 <= k < |left| ==> !IsMark(left[k])
    requires forall k :: 0 <= k < |right| ==> !IsMark(right[k])
    ensures FirstOperator(left + operator + right, OPERATORS) == Some((operator, |left|))
  {
    hide FirstOperator, IsAt;
    var s := left + operator + right;
    var j :| 0 <= j < |OPERATORS| && OPERATORS[j] == operator;
    forall i, k: nat | 0 <= i <= j ensures IsAt(s, OPERATORS[i], k) ==> i == j && |left| <= k {
      MarksOnlyThere(left, operator, right, i, j, k);
    }
    OperatorStands(left, operator, right);
    FindIs(s, operator, |left|);
    FirstOperatorIs(s, OPERATORS, j, |left|);
  }

  lemma OperatorStands(left: string, operator: string, right: string)
    ensures IsAt(left + operator + right, operator, |left|)
  {
    var s := left + operator + right;
    assert s[|left|..|left| + |operator|] == operator;
  }

  lemma MarksOnlyThere(left: string, operator: string, right: string, i: nat, j: nat, k: nat)
    requires i <= j < |OPERATORS| && operator == OPERATORS[j]
    requires forall k :: 0 <= k < |left| ==> !IsMark(left[k])
    requires forall k :: 0 <= k < |right| ==> !IsMark(right[k])
    ensures IsAt(left + operator + right, OPERATORS[i], k) ==> i == j && |left| <= k
  {
    var s, o := left + operator + right, OPERATORS[i];
    OperatorMarks(o);
    OperatorMarks(operator);
    if IsAt(s, o, k) {
      var last := k + |o| - 1;
      assert s[k..k + |o|][0] == s[k] && s[k..k + |o|][|o| - 1] == s[last];
      MarkStands(left, operator, right, k);
      MarkStands(left, operator, right, last);
    }
  }

  lemma MarkStands(left: string, operator: string, right: string, p: nat)
    requires forall k :: 0 <= k < |left| ==> !IsMark(left[k])
    requires forall k :: 0 <= k < |right| ==> !IsMark(right[k])
    requires p < |left + operator + right| && IsMark((left + operator + right)[p])
    ensures |left| <= p < |left| + |operator| && (left + operator + right)[p] == operator[p - |left|]
  {
  }

  lemma {:induction false} FirstOperatorIs(part: string, operators: seq<string>, j: nat, position: nat)
    requires j < |operators| && Find(part, operators[j]) == Some(position)
    requires forall i, k: nat :: 0 <= i < j ==> !IsAt(part, operators[i], k)
    ensures FirstOperator(part, operators) == Some((operators[j], position))
  {
    if j == 0 {
    } else {
      FindNothing(part, operators[0]);
      FirstOperatorIs(part, operators[1..], j - 1, position);
    }
  }

  lemma {:induction false} NoOperator(part: string, operators: seq<string>)
    requires forall i, k: nat :: 0 <= i < |operators| ==> !IsAt(part, operators[i], k)
    ensures FirstOperator(part, operators) == None
  {
    if operators == [] {
    } else {
      FindNothing(part, operators[0]);
      NoOperator(part, operators[1..]);
    }
  }

  lemma {:induction false} KeywordIs(s: string, keyword: string, i: nat, k: nat)
    requires i <= k <= |s| && forall j: nat :: i <= j < k ==> !IsAt(s, keyword, j)
    ensures FindKeyword(s, keyword, i) == FindKeyword(s, keyword, k)
    decreases k - i
  {
    if i < k {
      KeywordIs(s, keyword, i + 1, k);
    }
  }

  /** A keyword begins and ends with a blank, and so does each of its occurrences. */
  lemma KeywordHasBlanks(s: string, keyword: string, i: nat)
    requires keyword == AND || keyword == BETWEEN
    ensures IsAt(Upper(s), keyword, i) ==>
              i + |keyword| <= |s| && s[i] == ' ' && s[i + |keyword| - 1] == ' '
              && UpperChar(s[i + 1]) == keyword[1]
  {
    var u, n := Upper(s), |keyword|;
    if IsAt(u, keyword, i) {
      assert u[i..i + n][0] == u[i] && u[i..i + n][1] == u[i + 1] && u[i..i + n][n - 1] == u[i + n - 1];
    }
  }

  lemma NotBeginsWith(part: string)
    requires part != [] && part[|part| - 1] != ')'
    ensures !IsBeginsWith(part)
  {
  }

  lemma ReadsComparison(c: Clause, e: Names, r: Reading)
    requires c.Comparison? && WellFormed(c)
    ensures ReadPart(Written(c), e, r) == Meaning(c, e, r)
  {
    hide ReadComparison, Written, Trim, IsBeginsWith, FindKeyword, Meaning;
    var s := Written(c);
    WrittenEnds(c);
    NotBeginsWith(s);
    forall i: nat ensures !IsAt(Upper(s), BETWEEN, i) {
      NoBetween(c, i);
    }
    KeywordIs(Upper(s), BETWEEN, 0, |s|);
    NoKeywordAtEnd(Upper(s), BETWEEN);
    ComparisonIsRead(c, e, r);
  }

  lemma NoKeywordAtEnd(s: string, keyword: string)
    ensures FindKeyword(s, keyword, |s|) == None
  {
  }

  lemma ComparisonIsRead(c: Clause, e: Names, r: Reading)
    requires c.Comparison? && WellFormed(c)
    ensures ReadComparison(Written(c), e, r) == Meaning(c, e, r)
  {
    hide FirstOperator, Compare, NameOf, ValueOf, Trim, OPERATORS, IsWord, IsGap;
    var left, right := c.name + c.gap, c.space + c.value;
    NoMarks(c.name, c.gap);
    NoMarks(c.value, c.space);
    assert Written(c) == left + c.operator + right;
    OperatorFound(left, c.operator, right);
    TrimAfter(c.name, c.gap);
    TrimBefore(c.space, c.value);
    assert Written(c)[..|left|] == left && Written(c)[|left| + |c.operator|..] == right;
  }

  lemma NoMarks(w: string, g: string)
    requires IsWord(w) && IsGap(g)
    ensures forall k :: 0 <= k < |w + g| ==> !IsMark((w + g)[k]) && !IsMark((g + w)[k])
  {
  }

  lemma NoBetween(c: Clause, i: nat)
    requires c.Comparison? && WellFormed(c)
    ensures !IsAt(Upper(Written(c)), BETWEEN, i)
  {
    hide OPERATORS;
    var s := Written(c);
    KeywordHasBlanks(s, BETWEEN, i);
    var a, b := |c.name|, |c.name + c.gap|;
    var d := b + |c.operator|;
    var v := d + |c.space|;
    OperatorMarks(c.operator);
    if i + 9 <= |s| {
      assert i < a ==> s[i] == c.name[i];
      assert a <= i < b ==> s[i + 1] == if i + 1 < b then c.gap[i + 1 - a] else c.operator[0];
      assert b <= i < d ==> s[i] == c.operator[i - b];
      assert d <= i < v - 1 ==> s[i + 1] == c.space[i + 1 - d];
      assert v - 1 <= i ==> s[i + 8] == c.value[i + 8 - v];
    }
  }

  lemma ReadsHalfBetween(c: Clause, e: Names, r: Reading)
    requires c.HalfBetween? && WellFormed(c)
    ensures ReadPart(Written(c), e, r) == r
  {
    hide FirstOperator, Compare, NameOf, ValueOf, Trim, IsBeginsWith;
    var s, n := Written(c), |c.name|;
    WrittenEnds(c);
    NotBeginsWith(s);
    forall i: nat | i < n ensures !IsAt(Upper(s), BETWEEN, i) {
      KeywordHasBlanks(s, BETWEEN, i);
      assert s[i] == c.name[i];
    }
    KeywordIs(Upper(s), BETWEEN, 0, n);
    BetweenStands(c);
    assert s[n + 9..] == c.value;
    forall i: nat ensures !IsAt(Upper(c.value), AND, i) {
      KeywordHasBlanks(c.value, AND, i);
    }
    KeywordIs(Upper(c.value), AND, 0, |c.value|);
  }

  lemma BetweenStands(c: Clause)
    requires c.HalfBetween? && WellFormed(c)
    ensures FindKeyword(Upper(Written(c)), BETWEEN, |c.name|) == Some(|c.name|)
    ensures |Written(c)| == |c.name| + 9 + |c.value|
  {
    hide Upper, IsAt;
    var u, n := Upper(c.name), |c.name|;
    UpperOfAppend(c.name, " " + c.keyword + " " + c.value);
    UpperOfAppend(" ", c.keyword + " " + c.value);
    UpperOfAppend(c.keyword, " " + c.value);
    UpperOfAppend(" ", c.value);
    UpperOfBlank();
    var v := Upper(c.value);
    assert Written(c) == c.name + (" " + c.keyword + " " + c.value);
    assert " " + c.keyword + " " + c.value == " " + (c.keyword + (" " + c.value));
    assert c.keyword + " " + c.value == c.keyword + (" " + c.value);
    assert " " + ("BETWEEN" + (" " + v)) == BETWEEN + v;
    assert Upper(Written(c)) == u + BETWEEN + v;
    OperatorStands(u, BETWEEN, v);
    UpperIsFlat(c.name);
    assert (u + BETWEEN + v)[n] == ' ';
    FlatDepth(u + BETWEEN + v, n + 1);
    UpperLength(c.keyword);
  }

  lemma UpperLength(s: string)
    ensures |Upper(s)| == |s|
  {
  }

  lemma UpperOfBlank()
    ensures Upper(" ") == " "
  {
  }

  lemma UpperOfAppend(a: string, b: string)
    ensures Upper(a + b) == Upper(a) + Upper(b)
  {
  }

  lemma UpperIsFlat(w: string)
    requires IsWord(w)
    ensures |Upper(w)| == |w| && forall k :: 0 <= k < |w| ==> Upper(w)[k] != '(' && Upper(w)[k] != ')'
  {
  }

  lemma ReadsBare(c: Clause, e: Names, r: Reading)
    requires c.Bare? && WellFormed(c)
    ensures ReadPart(Written(c), e, r) == r
  {
    hide Compare, NameOf, ValueOf, Trim, IsBeginsWith;
    var s := c.value;
    NotBeginsWith(s);
    forall i: nat ensures !IsAt(Upper(s), BETWEEN, i) {
      KeywordHasBlanks(s, BETWEEN, i);
    }
    KeywordIs(Upper(s), BETWEEN, 0, |s|);
    forall i, k: nat | 0 <= i < |OPERATORS| ensures !IsAt(s, OPERATORS[i], k) {
      OperatorMarks(OPERATORS[i]);
      assert k + |OPERATORS[i]| <= |s| ==> s[k..k + |OPERATORS[i]|][0] == s[k];
    }
    NoOperator(s, OPERATORS);
  }

  lemma ReadsPrefix(c: Clause, e: Names, r: Reading)
    requires c.Prefix? && WellFormed(c)
    ensures ReadPart(Written(c), e, r) == Meaning(c, e, r)
  {
    hide NameOf, ValueOf, Trim, Cut, IsBeginsWith, Written;
    PrefixParts(c);
    EndsAtComma(c.name);
    CutAtFirst(c.name, ",", c.gap + c.value);
    assert c.name + [] == c.name;
    TrimAfter(c.name, []);
    TrimBefore(c.gap, c.value);
  }

  lemma PrefixParts(c: Clause)
    requires c.Prefix? && WellFormed(c)
    ensures var s := Written(c);
            12 <= |s| - 1 && IsBeginsWith(s) && s[12..|s| - 1] == c.name + "," + (c.gap + c.value)
  {
    var s := Written(c);
    var l := Lower(s);
    assert |c.call| == |Lower(c.call)| == 11;
    assert forall k :: 0 <= k < 11 ==> s[k] == c.call[k] && l[k] == Lower(c.call)[k];
    assert s[11] == '(' && s[|s| - 1] == ')';
    assert l[0..12] == BEGINS_WITH;
  }

  lemma EndsAtComma(w: string)
    requires IsWord(w)
    ensures EndsAtFirst(w, ",")
  {
    var s := w + ",";
    forall k: nat | k < |w| ensures !IsAt(s, ",", k) {
      assert s[k] == w[k] && s[k..k + 1] == [w[k]];
    }
  }

  lemma ReadsClause(c: Clause, e: Names, r: Reading)
    requires WellFormed(c)
    ensures ReadPart(Trim(Written(c)), e, r) == Meaning(c, e, r)
  {
    hide ReadPart, Written;
    WrittenEnds(c);
    match c
    case Comparison(_, _, _, _, _) => ReadsComparison(c, e, r);
    case Prefix(_, _, _, _) => ReadsPrefix(c, e, r);
    case HalfBetween(_, _, _) => ReadsHalfBetween(c, e, r);
    case Bare(_) => ReadsBare(c, e, r);
  }

  // ---------------------------------------------------------------------------
  // The main results
  // ---------------------------------------------------------------------------

  lemma {:induction false} ReadsAll(first: Clause, more: seq<(string, Clause)>, e: Names, r: Reading)
    requires AllWellFormed(first, more)
    ensures ReadParts(Split(Joined(first, more)), e, r) == MeaningOfAll(first, more, e, r)
    decreases |more|
  {
    hide Split, Written, Meaning, Trim, ReadPart, WellFormed;
    ReadsClause(first, e, r);
    if more == [] {
      KeepsLast(first);
    } else {
      var rest := Joined(more[0].1, more[1..]);
      CutsAfterFirst(first, more[0].0, rest);
      ReadsAll(more[0].1, more[1..], e, Meaning(first, e, r));
      assert ([Written(first)] + Split(rest))[1..] == Split(rest);
    }
  }

  lemma {:induction false} JoinedEnds(first: Clause, more: seq<(string, Clause)>)
    requires AllWellFormed(first, more)
    ensures var s := Joined(first, more); s != [] && !IsWhitespace(s[0]) && !IsWhitespace(s[|s| - 1])
    decreases |more|
  {
    hide Written, WellFormed, IsWhitespace;
    FirstAndLast(first);
    if more == [] {
    } else {
      JoinedEnds(more[0].1, more[1..]);
    }
  }

  lemma FirstAndLast(c: Clause)
    requires WellFormed(c)
    ensures var s := Written(c); s != [] && !IsWhitespace(s[0]) && !IsWhitespace(s[|s| - 1])
  {
    WrittenEnds(c);
  }

  /** Parsing any well-formed clauses, joined by ANDs, yields exactly what the clauses mean, in order. */
  lemma ParseIsMeaning(first: Clause, more: seq<(string, Clause)>, e: Names)
    requires AllWellFormed(first, more)
    ensures Parse(Joined(first, more), e) == MeaningOfAll(first, more, e, NOTHING)
  {
    hide Joined, MeaningOfAll, Split;
    JoinedEnds(first, more);
    TrimNothing(Joined(first, more));
    ReadsAll(first, more, e, NOTHING);
  }

  /** A name of the expression and what it is replaced by: what the request says, or itself. */
  predicate StandsFor(text: string, e: Names, name: string) {
    if text in e.names then e.names[text] == name else text == name
  }

  /** The partition is looked up by the text of a string, number or binary value, and by nothing of any other. */
  predicate IsHashOf(hash: Option<string>, v: AttributeValue) {
    match v
    case S(s) => hash == Some(s)
    case N(n) => hash == Some(n)
    case B(b) => hash == Some(b)
    case _ => hash == None
  }

  lemma LookedUp(text: string, e: Names)
    ensures forall name :: NameOf(text, e) == name <==> StandsFor(text, e, name)
    ensures ValueOf(text, e) == if text in e.values then e.values[text] else Null
    ensures IsHashOf(KeyTextRef(ValueOf(text, e)), ValueOf(text, e))
  {
  }

  /** A hash condition and a comparison of the range key give exactly that hash value and that condition, under the
      names and with the values of the request; `<>` gives no condition. */
  lemma HashAndRange(h: string, a: string, r: string, operator: string, b: string, e: Names)
    requires IsWord(h) && IsWord(a) && IsWord(r) && IsWord(b)
    requires !StandsFor(h, e, e.rangeKey) && StandsFor(r, e, e.rangeKey)
    requires operator in OPERATORS
    ensures var parsed := Parse(h + " = " + a + " AND " + r + " " + operator + " " + b, e);
            var v := if b in e.values then e.values[b] else Null;
            IsHashOf(parsed.hash, if a in e.values then e.values[a] else Null)
            && (operator == "=" ==> parsed.range == Some(Eq(v)))
            && (operator == "<" ==> parsed.range == Some(Lt(v)))
            && (operator == "<=" ==> parsed.range == Some(Lte(v)))
            && (operator == ">" ==> parsed.range == Some(Gt(v)))
            && (operator == ">=" ==> parsed.range == Some(Gte(v)))
            && (operator == "<>" ==> parsed.range == None)
  {
    hide Parse, IsWord, NameOf, ValueOf, KeyTextRef, StandsFor, IsHashOf;
    LookedUp(h, e);
    LookedUp(r, e);
    LookedUp(a, e);
    LookedUp(b, e);
    var first, second := Comparison(h, " ", "=", " ", a), Comparison(r, " ", operator, " ", b);
    var text := h + " = " + a + " AND " + r + " " + operator + " " + b;
    EqualsIsOperator();
    TwoClauses(first, " AND ", second, e);
    assert text == Written(first) + " AND " + Written(second);
  }

  /** The same with a prefix condition, whose value counts only when it is a string. */
  lemma HashAndPrefix(h: string, a: string, r: string, b: string, e: Names)
    requires IsWord(h) && IsWord(a) && IsWord(r) && IsWord(b)
    requires !StandsFor(h, e, e.rangeKey) && StandsFor(r, e, e.rangeKey)
    ensures var parsed := Parse(h + " = " + a + " AND " + "begins_with(" + r + ", " + b + ")", e);
            IsHashOf(parsed.hash, if a in e.values then e.values[a] else Null)
            && parsed.range.Some? && parsed.range.value.BeginsWith?
            && var prefix := parsed.range.value.prefix;
               (if b in e.values && e.values[b].S? then e.values[b] == S(prefix) else prefix == "")
  {
    hide Parse, IsWord, NameOf, ValueOf, KeyTextRef, StandsFor, IsHashOf;
    LookedUp(h, e);
    LookedUp(r, e);
    LookedUp(a, e);
    LookedUp(b, e);
    var first, second := Comparison(h, " ", "=", " ", a), Prefix("begins_with", r, " ", b);
    EqualsIsOperator();
    CallIsWord();
    TwoClauses(first, " AND ", second, e);
    PrefixSpelled(h, a, r, b);
  }

  /** Of two conditions on hash attributes the later counts, and so of two on the range key; a hash attribute is only
      ever compared by `=`. */
  lemma LaterCounts(x: string, first: string, a: string, y: string, second: string, b: string, e: Names)
    requires IsWord(x) && IsWord(a) && IsWord(y) && IsWord(b) && first in OPERATORS && second in OPERATORS
    ensures var parsed := Parse(x + " " + first + " " + a + " AND " + y + " " + second + " " + b, e);
            var u, v := if a in e.values then e.values[a] else Null, if b in e.values then e.values[b] else Null;
            && (!StandsFor(x, e, e.rangeKey) && !StandsFor(y, e, e.rangeKey) ==>
                  parsed.range == None
                  && if second == "=" then IsHashOf(parsed.hash, v)
                     else if first == "=" then IsHashOf(parsed.hash, u) else parsed.hash == None)
            && (StandsFor(x, e, e.rangeKey) && StandsFor(y, e, e.rangeKey) ==>
                  parsed.hash == None
                  && (second == "=" ==> parsed.range == Some(Eq(v)))
                  && (second == "<" ==> parsed.range == Some(Lt(v)))
                  && (second == "<=" ==> parsed.range == Some(Lte(v)))
                  && (second == ">" ==> parsed.range == Some(Gt(v)))
                  && (second == ">=" ==> parsed.range == Some(Gte(v))))
  {
    hide Parse, IsWord, NameOf, ValueOf, KeyTextRef, StandsFor, IsHashOf;
    LookedUp(x, e);
    LookedUp(y, e);
    LookedUp(a, e);
    LookedUp(b, e);
    var one, two := Comparison(x, " ", first, " ", a), Comparison(y, " ", second, " ", b);
    EqualsIsOperator();
    TwoClauses(one, " AND ", two, e);
    assert x + " " + first + " " + a + " AND " + y + " " + second + " " + b == Written(one) + " AND " + Written(two);
  }

  /** The keyword between two conditions may be in any letter case. */
  lemma AndInAnyCase(s: string)
    ensures Upper(s) == AND <==>
            |s| == 5 && s[0] == ' ' && s[1] in "aA" && s[2] in "nN" && s[3] in "dD" && s[4] == ' '
  {
    assert |s| == 5 ==>
        Upper(s) == [UpperChar(s[0]), UpperChar(s[1]), UpperChar(s[2]), UpperChar(s[3]), UpperChar(s[4])];
    assert AND == [' ', 'A', 'N', 'D', ' '];
  }

  lemma PrefixSpelled(h: string, a: string, r: string, b: string)
    ensures Written(Comparison(h, " ", "=", " ", a)) + " AND " + Written(Prefix("begins_with", r, " ", b))
         == h + " = " + a + " AND " + "begins_with(" + r + ", " + b + ")"
  {
    var first, second := h + " = " + a, "begins_with(" + r + ", " + b + ")";
    EqualsSpelled(h, a);
    CallSpelled(r, b);
    assert h + " = " + a + " AND " + "begins_with(" + r + ", " + b + ")" == first + " AND " + second;
  }

  lemma EqualsSpelled(h: string, a: string)
    ensures Written(Comparison(h, " ", "=", " ", a)) == h + " = " + a
  {
  }

  lemma CallSpelled(r: string, b: string)
    ensures Written(Prefix("begins_with", r, " ", b)) == "begins_with(" + r + ", " + b + ")"
  {
  }

  lemma CallIsWord()
    ensures IsWord("begins_with") && Lower("begins_with") == "begins_with"
  {
  }

  lemma EqualsIsOperator()
    ensures OPERATORS[5] == "=" && "=" in OPERATORS && Upper(" AND ") == AND
  {
  }

  lemma TwoClauses(first: Clause, separator: string, second: Clause, e: Names)
    requires WellFormed(first) && WellFormed(second) && Upper(separator) == AND
    ensures Parse(Written(first) + separator + Written(second), e) == Meaning(second, e, Meaning(first, e, NOTHING))
  {
    hide Written, WellFormed, Meaning, Parse;
    var more := [(separator, second)];
    ParseIsMeaning(first, more, e);
    assert more[1..] == [];
    assert Joined(second, []) == Written(second);
    assert MeaningOfAll(second, [], e, Meaning(first, e, NOTHING)) == Meaning(second, e, Meaning(first, e, NOTHING));
  }

  /** The documented BETWEEN form: the hash condition is read and the range condition is lost. */
  lemma BetweenIsLost(h: string, a: string, r: string, low: string, high: string, e: Names)
    requires IsWord(h) && IsWord(a) && IsWord(r) && IsWord(low) && IsWord(high)
    requires !StandsFor(h, e, e.rangeKey)
    ensures var parsed := Parse(h + " = " + a + " AND " + r + " BETWEEN " + low + " AND " + high, e);
            IsHashOf(parsed.hash, if a in e.values then e.values[a] else Null) && parsed.range == None
  {
    hide Parse, NameOf, ValueOf, IsWord, KeyTextRef, StandsFor, IsHashOf;
    LookedUp(h, e);
    LookedUp(a, e);
    var first, half, rest := Comparison(h, " ", "=", " ", a), HalfBetween(r, "BETWEEN", low), Bare(high);
    EqualsIsOperator();
    BetweenIsWord();
    ThreeClauses(first, half, rest, e);
    HashMeaning(h, a, e);
    BetweenText(first, half, rest);
  }

  lemma BetweenText(first: Clause, half: Clause, rest: Clause)
    requires first.Comparison? && half.HalfBetween? && rest.Bare?
    requires first.gap == " " && first.operator == "=" && first.space == " " && half.keyword == "BETWEEN"
    ensures Written(first) + " AND " + Written(half) + " AND " + Written(rest)
         == first.name + " = " + first.value + " AND " + half.name + " BETWEEN " + half.value + " AND " + rest.value
  {
    assert Written(first) == first.name + " = " + first.value;
    assert Written(half) == half.name + " BETWEEN " + half.value;
  }

  lemma HashMeaning(h: string, a: string, e: Names)
    requires NameOf(h, e) != e.rangeKey
    ensures Meaning(Comparison(h, " ", "=", " ", a), e, NOTHING) == Reading(KeyTextRef(ValueOf(a, e)), None)
  {
  }

  lemma ThreeClauses(first: Clause, second: Clause, third: Clause, e: Names)
    requires WellFormed(first) && WellFormed(second) && WellFormed(third)
    ensures Parse(Written(first) + " AND " + Written(second) + " AND " + Written(third), e)
         == Meaning(third, e, Meaning(second, e, Meaning(first, e, NOTHING)))
  {
    hide Written, WellFormed, Meaning, Parse;
    EqualsIsOperator();
    var last := [(" AND ", third)];
    var more := [(" AND ", second)] + last;
    ParseIsMeaning(first, more, e);
    assert more[1..] == last && last[1..] == [];
    assert Joined(third, []) == Written(third);
    assert Joined(second, last) == Written(second) + " AND " + Written(third);
    assert Written(first) + " AND " + Written(second) + " AND " + Written(third) == Joined(first, more);
    var r := Meaning(second, e, Meaning(first, e, NOTHING));
    assert MeaningOfAll(third, [], e, r) == Meaning(third, e, r);
    assert MeaningOfAll(second, last, e, Meaning(first, e, NOTHING)) == MeaningOfAll(third, [], e, r);
  }

  lemma BetweenIsWord()
    ensures IsWord("BETWEEN") && Upper("BETWEEN") == "BETWEEN"
  {
  }

  // ---------------------------------------------------------------------------
  // No ASCII text yields a BETWEEN condition
  // ---------------------------------------------------------------------------

  ghost predicate HoldsNoAnd(s: string) {
    forall i: nat :: !TopLevelAnd(s, i)
  }

  lemma {:induction false} TrimStartHoldsNone(s: string)
    requires HoldsNoAnd(s)
    ensures HoldsNoAnd(TrimStart(s))
  {
    if s != [] && IsWhitespace(s[0]) {
      forall i: nat ensures !TopLevelAnd(s[1..], i) {
        DropHoldsNone(s, i);
      }
      TrimStartHoldsNone(s[1..]);
    }
  }

  lemma DropHoldsNone(s: string, i: nat)
    requires HoldsNoAnd(s) && s != [] && Shift(s[0]) == 0
    ensures !TopLevelAnd(s[1..], i)
  {
    hide Upper;
    var rest := s[1..];
    assert !TopLevelAnd(s, 1 + i);
    if i + 5 <= |rest| {
      OneCharDepth(s);
      DepthOfDrop(s, 1, i);
      assert rest[i..i + 5] == s[1 + i..1 + i + 5];
    }
  }

  lemma OneCharDepth(s: string)
    requires s != []
    ensures Depth(s, 1) == Shift(s[0])
  {
    assert Depth(s, 0) == 0;
  }

  lemma {:induction false} TrimEndHoldsNone(s: string)
    requires HoldsNoAnd(s)
    ensures HoldsNoAnd(TrimEnd(s))
  {
    if s != [] && IsWhitespace(s[|s| - 1]) {
      var head := s[..|s| - 1];
      forall i: nat ensures !TopLevelAnd(head, i) {
        HeadHoldsNone(s, |s| - 1, i);
      }
      TrimEndHoldsNone(head);
    }
  }

  lemma {:induction false} UpperKeepsDepth(s: string, i: nat)
    requires i <= |s|
    ensures Depth(Upper(s), i) == Depth(s, i)
  {
    if i == 0 {
    } else {
      UpperKeepsDepth(s, i - 1);
    }
  }

  lemma BlankKeepsDepth(s: string, i: nat)
    requires i < |s| && s[i] == ' '
    ensures Depth(s, i + 1) == Depth(s, i)
  {
  }

  /** Behind a BETWEEN at depth zero, a second AND would have been a separator. */
  lemma NoUpperBound(part: string, i: nat)
    requires HoldsNoAnd(part) && FindKeyword(Upper(part), BETWEEN, 0) == Some(i)
    ensures i + 9 <= |part| && FindKeyword(Upper(part[i + 9..]), AND, 0) == None
  {
    hide FindKeyword, TopLevelAnd;
    KeywordHasBlanks(part, BETWEEN, i);
    var rest := part[i + 9..];
    BetweenKeepsDepth(part, i);
    match FindKeyword(Upper(rest), AND, 0)
    case None =>
    case Some(a) => SecondAnd(part, i + 9, a);
  }

  lemma BetweenKeepsDepth(part: string, i: nat)
    requires IsAt(Upper(part), BETWEEN, i) && Depth(Upper(part), i + 1) == 0
    ensures i + 9 <= |part| && Depth(part, i + 9) == 0
  {
    var u := Upper(part);
    UpperKeepsDepth(part, i + 9);
    assert forall k :: 0 <= k < 9 ==> u[i + k] == BETWEEN[k];
    DepthOfDrop(u, i + 1, 8);
    var tail := u[i + 1..];
    assert tail[..8] == BETWEEN[1..];
    assert forall k :: 0 <= k < 8 ==> tail[k] == tail[..8][k];
    FlatDepth(tail, 8);
  }

  lemma SecondAnd(part: string, k: nat, a: nat)
    requires k <= |part| && Depth(part, k) == 0
    requires IsAt(Upper(part[k..]), AND, a) && Depth(Upper(part[k..]), a + 1) == 0
    ensures TopLevelAnd(part, k + a)
  {
    var rest := part[k..];
    KeywordHasBlanks(rest, AND, a);
    UpperKeepsDepth(rest, a + 1);
    BlankKeepsDepth(rest, a);
    DepthOfDrop(part, k, a);
    assert Upper(part[k + a..k + a + 5]) == Upper(rest)[a..a + 5];
  }

  ghost predicate IsBetween(r: Reading) {
    r.range.Some? && r.range.value.Between?
  }

  lemma PartIsNotBetween(part: string, e: Names, r: Reading)
    requires HoldsNoAnd(part) && !IsBetween(r)
    ensures !IsBetween(ReadPart(part, e, r))
  {
    hide FindKeyword, HoldsNoAnd, FirstOperator, NameOf, ValueOf, Trim, Cut;
    if !IsBeginsWith(part) {
      match FindKeyword(Upper(part), BETWEEN, 0)
      case None =>
      case Some(i) => NoUpperBound(part, i);
    }
  }

  lemma {:induction false} PartsAreNotBetween(parts: seq<string>, e: Names, r: Reading)
    requires (forall part :: part in parts ==> HoldsNoAnd(part)) && !IsBetween(r)
    ensures !IsBetween(ReadParts(parts, e, r))
  {
    hide ReadPart, HoldsNoAnd, IsBetween;
    if parts == [] {
    } else {
      TrimStartHoldsNone(parts[0]);
      TrimEndHoldsNone(TrimStart(parts[0]));
      PartIsNotBetween(Trim(parts[0]), e, r);
      PartsAreNotBetween(parts[1..], e, ReadPart(Trim(parts[0]), e, r));
    }
  }

  /** Whatever the ASCII text, the parsed range condition is never a BETWEEN. */
  lemma NeverBetween(expr: string, e: Names)
    ensures !IsBetween(Parse(expr, e))
  {
    var s := Trim(expr);
    SplitIsExact(s);
    forall part | part in Split(s) ensures HoldsNoAnd(part) {
      assert forall i: nat :: !TopLevelAnd(part, i);
    }
    PartsAreNotBetween(Split(s), e, NOTHING);
  }
}
