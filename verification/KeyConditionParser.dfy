/** Reading a DynamoDB key-condition expression part by part, and what well-formed
    conditions mean. */
module KeyConditionParser {
  import opened Base
  import opened Text
  import opened Store
  import opened KeyCondition

  datatype RangeCondition =
    | Eq(value: AttributeValue)
    | Lt(value: AttributeValue)
    | Lte(value: AttributeValue)
    | Gt(value: AttributeValue)
    | Gte(value: AttributeValue)
    | Between(low: AttributeValue, high: AttributeValue)
    | BeginsWith(prefix: string)

  /** The range key's name and the two substitution tables of the request. */
  datatype Names = Names(rangeKey: string, names: map<string, string>, values: map<string, AttributeValue>)

  /** What has been read so far; later parts overwrite earlier ones. */
  datatype Reading = Reading(hash: Option<string>, range: Option<RangeCondition>)

  const NOTHING := Reading(None, None)
  const BEGINS_WITH := "begins_with("
  const BETWEEN := " BETWEEN "
  const OPERATORS := ["<=", ">=", "<>", "<", ">", "="]

  function NameOf(text: string, e: Names): string {
    if text in e.names then e.names[text] else text
  }

  function ValueOf(text: string, e: Names): AttributeValue {
    if text in e.values then e.values[text] else Null
  }

  function PrefixText(v: AttributeValue): string {
    if v.S? then v.s else ""
  }

  /** `find_keyword_pos`. */
  function FindKeyword(s: string, keyword: string, i: nat): (r: Option<nat>)
    requires i <= |s|
    ensures r.Some? ==> i <= r.value < |s| && IsAt(s, keyword, r.value) && Depth(s, r.value + 1) == 0
    decreases |s| - i
  {
    if i == |s| then None
    else if Depth(s, i + 1) == 0 && IsAt(s, keyword, i) then Some(i)
    else FindKeyword(s, keyword, i + 1)
  }

  /** The first operator, in this order, that occurs anywhere in the part. */
  function FirstOperator(part: string, operators: seq<string>): (r: Option<(string, nat)>)
    ensures r.Some? ==> IsAt(part, r.value.0, r.value.1)
  {
    if operators == [] then None
    else
      match Find(part, operators[0])
      case Some(i) => Some((operators[0], i))
      case None => FirstOperator(part, operators[1..])
  }

  predicate IsBeginsWith(part: string) {
    IsAt(Lower(part), BEGINS_WITH, 0) && part[|part| - 1] == ')'
  }

  lemma BeginsWithFits(part: string)
    requires IsBeginsWith(part)
    ensures 12 <= |part| - 1
  {
    assert Lower(part)[..12] == BEGINS_WITH;
    assert BEGINS_WITH[11] == '(';
    assert Lower(part)[11] == LowerChar(part[11]);
  }

  function ReadBeginsWith(part: string, e: Names, r: Reading): Reading
    requires IsBeginsWith(part)
  {
    BeginsWithFits(part);
    match Cut(part[12..|part| - 1], ",")
    case None => r
    case Some((name, value)) =>
      if NameOf(Trim(name), e) == e.rangeKey then
        r.(range := Some(BeginsWith(PrefixText(ValueOf(Trim(value), e)))))
      else r
  }

  function ReadBetween(part: string, i: nat, e: Names, r: Reading): Reading
    requires i + 9 <= |part|
  {
    var rest := part[i + 9..];
    match FindKeyword(Upper(rest), AND, 0)
    case None => r
    case Some(a) =>
      if NameOf(Trim(part[..i]), e) == e.rangeKey then
        r.(range := Some(Between(ValueOf(Trim(rest[..a]), e), ValueOf(Trim(rest[a + 5..]), e))))
      else r
  }

  function Compare(name: string, operator: string, value: AttributeValue, e: Names, r: Reading): Reading {
    if operator == "=" then
      if name == e.rangeKey then r.(range := Some(Eq(value))) else r.(hash := KeyTextRef(value))
    else if name != e.rangeKey then r
    else if operator == "<" then r.(range := Some(Lt(value)))
    else if operator == "<=" then r.(range := Some(Lte(value)))
    else if operator == ">" then r.(range := Some(Gt(value)))
    else if operator == ">=" then r.(range := Some(Gte(value)))
    else r
  }

  function ReadComparison(part: string, e: Names, r: Reading): Reading {
    match FirstOperator(part, OPERATORS)
    case None => r
    case Some((operator, i)) =>
      Compare(NameOf(Trim(part[..i]), e), operator, ValueOf(Trim(part[i + |operator|..]), e), e, r)
  }

  function ReadPart(part: string, e: Names, r: Reading): Reading {
    if IsBeginsWith(part) then ReadBeginsWith(part, e, r)
    else
      match FindKeyword(Upper(part), BETWEEN, 0)
      case Some(i) => ReadBetween(part, i, e, r)
      case None => ReadComparison(part, e, r)
  }

  function ReadParts(parts: seq<string>, e: Names, r: Reading): Reading {
    if parts == [] then r else ReadParts(parts[1..], e, ReadPart(Trim(parts[0]), e, r))
  }

  function Parse(expr: string, e: Names): Reading {
    ReadParts(Split(Trim(expr)), e, NOTHING)
  }

  // ---------------------------------------------------------------------------
  // The procedures
  // ---------------------------------------------------------------------------

  method FindKeywordPos(haystack: string, keyword: string) returns (r: Option<nat>)
    ensures r == FindKeyword(haystack, keyword, 0)
  {
    var depth := 0;
    for i := 0 to |haystack|
      invariant depth == Depth(haystack, i)
      invariant FindKeyword(haystack, keyword, 0) == FindKeyword(haystack, keyword, i)
    {
      if haystack[i] == '(' {
        depth := depth + 1;
      } else if haystack[i] == ')' {
        depth := depth - 1;
      }
      if depth == 0 && i + |keyword| <= |haystack| && haystack[i..i + |keyword|] == keyword {
        return Some(i);
      }
    }
    return None;
  }

  method ReadOperators(part: string, e: Names, r: Reading) returns (after: Reading)
    ensures after == ReadComparison(part, e, r)
  {
    hide Find, FindKeyword, Trim, NameOf, ValueOf, Compare;
    assert OPERATORS[0..] == OPERATORS;
    for k := 0 to |OPERATORS|
      invariant FirstOperator(part, OPERATORS) == FirstOperator(part, OPERATORS[k..])
    {
      assert OPERATORS[k..][1..] == OPERATORS[k + 1..];
      var pos := Find(part, OPERATORS[k]);
      if pos.Some? {
        var name := NameOf(Trim(part[..pos.value]), e);
        var value := ValueOf(Trim(part[pos.value + |OPERATORS[k]|..]), e);
        return Compare(name, OPERATORS[k], value, e, r);
      }
    }
    return r;
  }

  /** `parse_key_condition`. */
  method ParseKeyCondition(expr: string, e: Names) returns (hash: Option<string>, range: Option<RangeCondition>)
    ensures Reading(hash, range) == Parse(expr, e)
  {
    hide Split, Trim, IsBeginsWith, ReadBeginsWith, ReadComparison, FindKeyword, NameOf, ValueOf;
    var parts := SplitTopLevelAnd(Trim(expr));
    hash, range := None, None;
    assert parts[0..] == parts;
    for k := 0 to |parts|
      invariant Parse(expr, e) == ReadParts(parts[k..], e, Reading(hash, range))
    {
      assert parts[k..][1..] == parts[k + 1..];
      var part := Trim(parts[k]);
      var r := Reading(hash, range);
      if IsBeginsWith(part) {
        r := ReadBeginsWith(part, e, r);
        hash, range := r.hash, r.range;
        continue;
      }
      var between := FindKeywordPos(Upper(part), BETWEEN);
      if between.Some? {
        var i := between.value;
        var rest := part[i + 9..];
        var a := FindKeywordPos(Upper(rest), AND);
        if a.Some? && NameOf(Trim(part[..i]), e) == e.rangeKey {
          range := Some(Between(ValueOf(Trim(rest[..a.value]), e), ValueOf(Trim(rest[a.value + 5..]), e)));
        }
        continue;
      }
      r := ReadOperators(part, e, r);
      hash, range := r.hash, r.range;
    }
  }
}
