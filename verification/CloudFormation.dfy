/** CloudFormation's intrinsic functions. */
module CloudFormation {
  import opened Base
  import opened Strings = Text

  function Placeholder(name: string): (p: string)
    ensures p != []
  {
    "${" + name + "}"
  }

  // ---------------------------------------------------------------------------
  // Values
  // ---------------------------------------------------------------------------

  datatype Json =
    | Null
    | Bool(flag: bool)
    | Int(n: int)
    | Float(r: real)
    | String(text: string)
    | Array(items: seq<Json>)
    | Object(fields: map<string, Json>)

  datatype Resource = Resource(resourceType: string, physicalId: string)

  type Listing = seq<(string, string)>

  /** Parameters and resources of a stack, and the order in which its hash maps iterate. */
  datatype Scope = Scope(
    params: map<string, string>, resources: map<string, Resource>, region: string, account: string,
    paramOrder: Listing, resourceOrder: Listing)
  {
    ghost predicate Valid() {
      Lists(paramOrder, params) && Lists(resourceOrder, PhysicalIds(resources))
    }
  }

  function PhysicalIds(resources: map<string, Resource>): map<string, string> {
    map k | k in resources :: resources[k].physicalId
  }

  /** Each entry of the map once, in some order. */
  ghost predicate Lists(list: Listing, m: map<string, string>) {
    && (forall i, j :: 0 <= i < j < |list| ==> list[i].0 != list[j].0)
    && (forall e :: e in list <==> e.0 in m && m[e.0] == e.1)
  }

  const AWS_REGION := "AWS::Region"
  const AWS_ACCOUNT := "AWS::AccountId"

  function Text(v: Json, default: string): string {
    if v.String? then v.text else default
  }

  function IsString(fields: map<string, Json>, key: string): bool {
    key in fields && fields[key].String?
  }

  function IsArrayOf(fields: map<string, Json>, key: string, n: nat): bool {
    key in fields && fields[key].Array? && |fields[key].items| == n
  }

  function Ref(name: string, c: Scope): string {
    if name in c.params then c.params[name]
    else if name in c.resources then c.resources[name].physicalId
    else if name == AWS_REGION then c.region
    else if name == AWS_ACCOUNT then c.account
    else if name == "AWS::NoValue" then ""
    else name
  }

  function GetAtt(resource: Resource, attribute: string, c: Scope): string {
    if attribute == "Arn" then
      "arn:aws:" + Lower(resource.resourceType) + ":" + c.region + ":" + c.account + ":" + resource.physicalId
    else resource.physicalId
  }

  function JoinTexts(parts: seq<string>, sep: string): string {
    if parts == [] then "" else if |parts| == 1 then parts[0] else parts[0] + sep + JoinTexts(parts[1..], sep)
  }

  /** `str::split`: with an empty separator, every character stands alone between two empty texts. */
  function SplitBy(s: string, sep: string): seq<string>
    decreases |s|
  {
    if sep == "" then [""] + Characters(s) + [""] else SplitNonEmpty("", s, sep)
  }

  function Characters(s: string): seq<string> {
    if s == [] then [] else [[s[0]]] + Characters(s[1..])
  }

  function SplitNonEmpty(head: string, s: string, sep: string): seq<string>
    requires sep != ""
    decreases |s|
  {
    if sep <= s then [head] + SplitNonEmpty("", s[|sep|..], sep)
    else if s == [] then [head]
    else SplitNonEmpty(head + [s[0]], s[1..], sep)
  }

  // ---------------------------------------------------------------------------
  // Fn::Sub
  // ---------------------------------------------------------------------------

  /** One replacement after the other over the whole text. */
  function ReplaceAll(s: string, list: Listing): string
    decreases |list|
  {
    if list == [] then s else ReplaceAll(Replace(s, Placeholder(list[0].0), list[0].1), list[1..])
  }

  function Replacements(c: Scope): Listing {
    c.paramOrder + c.resourceOrder + [(AWS_REGION, c.region), (AWS_ACCOUNT, c.account)]
  }

  lemma ReplaceAllStep(s: string, e: (string, string), rest: Listing)
    ensures ReplaceAll(s, [e] + rest) == ReplaceAll(Replace(s, Placeholder(e.0), e.1), rest)
  {
    assert ([e] + rest)[1..] == rest;
  }

  method Sub(template: string, c: Scope) returns (result: string)
    ensures result == ReplaceAll(template, Replacements(c))
  {
    hide Replace;
    result := template;
    var list := Replacements(c);
    var n, m := |c.paramOrder|, |c.resourceOrder|;
    assert list[0..] == list;
    for i := 0 to n
      invariant ReplaceAll(template, list) == ReplaceAll(result, list[i..])
    {
      assert list[i..][1..] == list[i + 1..] && list[i] == c.paramOrder[i];
      result := Replace(result, Placeholder(c.paramOrder[i].0), c.paramOrder[i].1);
    }
    for i := 0 to m
      invariant ReplaceAll(template, list) == ReplaceAll(result, list[n + i..])
    {
      assert list[n + i..][1..] == list[n + i + 1..] && list[n + i] == c.resourceOrder[i];
      result := Replace(result, Placeholder(c.resourceOrder[i].0), c.resourceOrder[i].1);
    }
    assert list[n + m..] == [(AWS_REGION, c.region), (AWS_ACCOUNT, c.account)];
    ReplaceAllStep(result, (AWS_REGION, c.region), [(AWS_ACCOUNT, c.account)]);
    assert [(AWS_REGION, c.region)] + [(AWS_ACCOUNT, c.account)] == list[n + m..];
    result := Replace(result, Placeholder(AWS_REGION), c.region);
    ReplaceAllStep(result, (AWS_ACCOUNT, c.account), []);
    assert [(AWS_ACCOUNT, c.account)] + [] == [(AWS_ACCOUNT, c.account)];
    result := Replace(result, Placeholder(AWS_ACCOUNT), c.account);
  }

  // ---------------------------------------------------------------------------
  // resolve_value
  // ---------------------------------------------------------------------------

  function Index(v: Json): nat {
    if v.Int? && v.n >= 0 then v.n else 0
  }

  function Resolve(v: Json, c: Scope): Json
    decreases v
  {
    match v
    case Array(items) => Array(seq(|items|, i requires 0 <= i < |items| => Resolve(items[i], c)))
    case Object(f) =>
      if IsString(f, "Ref") then String(Ref(f["Ref"].text, c))
      else if IsArrayOf(f, "Fn::GetAtt", 2) && Text(f["Fn::GetAtt"].items[0], "") in c.resources then
        String(GetAtt(c.resources[Text(f["Fn::GetAtt"].items[0], "")], Text(f["Fn::GetAtt"].items[1], ""), c))
      else if IsArrayOf(f, "Fn::Join", 2) && f["Fn::Join"].items[1].Array? then
        var items := f["Fn::Join"].items[1].items;
        String(JoinTexts(seq(|items|, i requires 0 <= i < |items| => Text(Resolve(items[i], c), "")),
            Text(f["Fn::Join"].items[0], "")))
      else if IsString(f, "Fn::Sub") then String(ReplaceAll(f["Fn::Sub"].text, Replacements(c)))
      else if IsArrayOf(f, "Fn::Select", 2) && f["Fn::Select"].items[1].Array?
              && Index(f["Fn::Select"].items[0]) < |f["Fn::Select"].items[1].items| then
        Resolve(f["Fn::Select"].items[1].items[Index(f["Fn::Select"].items[0])], c)
      else if IsArrayOf(f, "Fn::If", 3) then Resolve(f["Fn::If"].items[1], c)
      else if IsArrayOf(f, "Fn::Split", 2) then
        var parts := SplitBy(Text(f["Fn::Split"].items[1], ""), Text(f["Fn::Split"].items[0], ","));
        Array(seq(|parts|, i requires 0 <= i < |parts| => String(parts[i])))
      else Object(map k | k in f :: Resolve(f[k], c))
    case _ => v
  }

  const INTRINSICS := {"Ref", "Fn::GetAtt", "Fn::Join", "Fn::Sub", "Fn::Select", "Fn::If", "Fn::Split"}

  ghost predicate Plain(v: Json)
    decreases v
  {
    match v
    case Array(items) => forall i :: 0 <= i < |items| ==> Plain(items[i])
    case Object(f) => (forall k :: k in f ==> k !in INTRINSICS && Plain(f[k]))
    case _ => true
  }

  /** A template without intrinsic functions resolves to itself. */
  lemma {:induction false} PlainIsUnchanged(v: Json, c: Scope)
    requires Plain(v)
    ensures Resolve(v, c) == v
    decreases v
  {
    match v
    case Array(items) =>
      forall i | 0 <= i < |items| ensures Resolve(items[i], c) == items[i] {
        PlainIsUnchanged(items[i], c);
      }
    case Object(f) =>
      forall k | k in f ensures Resolve(f[k], c) == f[k] {
        PlainIsUnchanged(f[k], c);
      }
      assert forall k :: k in INTRINSICS ==> k !in f;
    case _ =>
  }

  // ---------------------------------------------------------------------------
  // Templates as tokens
  // ---------------------------------------------------------------------------

  datatype Token = Literal(text: string) | Variable(name: string)

  function Flatten(tokens: seq<Token>): string {
    if tokens == [] then []
    else (match tokens[0] case Literal(text) => text case Variable(name) => Placeholder(name)) + Flatten(tokens[1..])
  }

  /** The value of the first entry for a name. */
  function Lookup(list: Listing, name: string): Option<string> {
    if list == [] then None else if list[0].0 == name then Some(list[0].1) else Lookup(list[1..], name)
  }

  /** All variables at once: a bound one becomes its value, an unbound one stays as it was. */
  function Substitute(tokens: seq<Token>, list: Listing): string {
    if tokens == [] then []
    else
      (match tokens[0]
       case Literal(text) => text
       case Variable(name) => match Lookup(list, name) case Some(value) => value case None => Placeholder(name))
      + Substitute(tokens[1..], list)
  }

  function SubstituteOne(tokens: seq<Token>, name: string, value: string): seq<Token> {
    if tokens == [] then []
    else [if tokens[0] == Variable(name) then Literal(value) else tokens[0]] + SubstituteOne(tokens[1..], name, value)
  }

  predicate Comparable(a: string, b: string) {
    a <= b || b <= a
  }

  /** No `$` of the text can be the start of `${name}`, whatever text comes after it. */
  ghost predicate Inert(text: string, name: string) {
    forall i :: 0 <= i < |text| && text[i] == '$' ==> !Comparable(text[i..], Placeholder(name))
  }

  ghost predicate TokensInert(tokens: seq<Token>, name: string) {
    forall t :: t in tokens ==>
      match t case Literal(text) => Inert(text, name) case Variable(n) => '$' !in n && '}' !in n
  }

  lemma PrefixOfSum(p: string, text: string, rest: string)
    requires p <= text + rest
    ensures Comparable(text, p)
    ensures p != [] && text != [] ==> p[0] == text[0]
  {
    if |p| <= |text| {
      assert p == (text + rest)[..|p|] == text[..|p|];
    } else {
      assert text == (text + rest)[..|text|] == p[..|text|];
    }
  }

  lemma Mismatch(text: string, rest: string, name: string)
    requires text != [] && Inert(text, name)
    ensures !(Placeholder(name) <= text + rest)
  {
    assert text[0..] == text;
    if Placeholder(name) <= text + rest {
      PrefixOfSum(Placeholder(name), text, rest);
    }
  }

  lemma InertTail(text: string, name: string)
    requires text != [] && Inert(text, name)
    ensures Inert(text[1..], name)
  {
    forall i | 0 <= i < |text[1..]| ensures text[1..][i..] == text[i + 1..] {
    }
  }

  lemma {:induction false} ReplaceAfterInert(text: string, rest: string, name: string, value: string)
    requires Inert(text, name)
    ensures Replace(text + rest, Placeholder(name), value) == text + Replace(rest, Placeholder(name), value)
  {
    hide Inert, Placeholder;
    if text == [] {
      assert text + rest == rest;
    } else {
      Mismatch(text, rest, name);
      InertTail(text, name);
      assert (text + rest)[1..] == text[1..] + rest;
      ReplaceAfterInert(text[1..], rest, name, value);
      assert [text[0]] + (text[1..] + Replace(rest, Placeholder(name), value))
          == text + Replace(rest, Placeholder(name), value);
    }
  }

  lemma PlaceholderMatches(name: string, other: string, rest: string)
    requires '}' !in name && '}' !in other
    ensures Placeholder(name) <= Placeholder(other) + rest <==> name == other
  {
    var p, s := Placeholder(name), Placeholder(other) + rest;
    if p <= s {
      assert forall i :: 0 <= i < |p| ==> p[i] == s[i];
      assert p[2 + |name|] == '}' && s[2 + |other|] == '}';
      assert forall i :: 0 <= i < |name| ==> p[2 + i] == name[i] && name[i] in name;
      assert forall i :: 0 <= i < |other| ==> s[2 + i] == other[i] && other[i] in other;
      assert |name| == |other|;
      assert name == other;
    }
  }

  lemma ReplaceAtVariable(n: string, rest: string, name: string, value: string)
    requires '$' !in n && '}' !in n && '}' !in name
    ensures Replace(Placeholder(n) + rest, Placeholder(name), value) ==
            (if n == name then value else Placeholder(n)) + Replace(rest, Placeholder(name), value)
  {
    PlaceholderMatches(name, n, rest);
    var s := Placeholder(n) + rest;
    if n == name {
      assert s[|Placeholder(name)|..] == rest;
    } else {
      var body := "{" + n + "}";
      assert s[1..] == body + rest && s[0] == '$';
      assert forall i :: 0 <= i < |body| ==> body[i] != '$' by {
        forall i | 0 <= i < |body| ensures body[i] != '$' {
          if 1 <= i <= |n| { assert n[i - 1] in n; }
        }
      }
      ReplaceAfterInert(body, rest, name, value);
      assert [s[0]] + (body + Replace(rest, Placeholder(name), value))
          == Placeholder(n) + Replace(rest, Placeholder(name), value);
    }
  }

  /** One replacement changes exactly the variables of that name. */
  lemma {:induction false} ReplaceIsSubstitution(tokens: seq<Token>, name: string, value: string)
    requires TokensInert(tokens, name) && '}' !in name
    ensures Replace(Flatten(tokens), Placeholder(name), value) == Flatten(SubstituteOne(tokens, name, value))
  {
    if tokens != [] {
      hide Replace, Placeholder, Inert;
      assert tokens[0] in tokens && forall t :: t in tokens[1..] ==> t in tokens;
      ReplaceIsSubstitution(tokens[1..], name, value);
      match tokens[0]
      case Literal(text) => ReplaceAfterInert(text, Flatten(tokens[1..]), name, value);
      case Variable(n) => ReplaceAtVariable(n, Flatten(tokens[1..]), name, value);
    } else {
      assert !(Placeholder(name) <= []);
    }
  }

  // ---------------------------------------------------------------------------
  // Sequential replacement is simultaneous substitution
  // ---------------------------------------------------------------------------

  /** No value can complete, or be completed to, a placeholder that is replaced after it. */
  ghost predicate NoRescan(list: Listing) {
    forall i, j :: 0 <= i < j < |list| ==> Inert(list[i].1, list[j].0)
  }

  ghost predicate KeysClosed(list: Listing) {
    forall e :: e in list ==> '}' !in e.0
  }

  ghost predicate AllInert(tokens: seq<Token>, list: Listing) {
    forall e :: e in list ==> TokensInert(tokens, e.0)
  }

  lemma {:induction false} SubstituteOneInert(tokens: seq<Token>, name: string, value: string, other: string)
    requires TokensInert(tokens, other) && Inert(value, other)
    ensures TokensInert(SubstituteOne(tokens, name, value), other)
  {
    if tokens == [] {
    } else {
      hide Inert;
      assert tokens[0] in tokens && forall t :: t in tokens[1..] ==> t in tokens;
      SubstituteOneInert(tokens[1..], name, value, other);
    }
  }

  lemma {:induction false} SubstituteFirst(tokens: seq<Token>, list: Listing)
    requires list != []
    ensures Substitute(SubstituteOne(tokens, list[0].0, list[0].1), list[1..]) == Substitute(tokens, list)
  {
    if tokens == [] {
    } else {
      SubstituteFirst(tokens[1..], list);
      var one := SubstituteOne(tokens, list[0].0, list[0].1);
      assert one[1..] == SubstituteOne(tokens[1..], list[0].0, list[0].1);
    }
  }

  lemma {:induction false} SubstituteNothing(tokens: seq<Token>)
    ensures Substitute(tokens, []) == Flatten(tokens)
  {
    if tokens == [] {
    } else {
      SubstituteNothing(tokens[1..]);
    }
  }

  lemma {:induction false} SequentialIsSimultaneous(tokens: seq<Token>, list: Listing)
    requires AllInert(tokens, list) && KeysClosed(list) && NoRescan(list)
    ensures ReplaceAll(Flatten(tokens), list) == Substitute(tokens, list)
    decreases |list|
  {
    if list == [] {
      SubstituteNothing(tokens);
    } else {
      hide Replace, Inert, Placeholder, TokensInert;
      var (name, value) := list[0];
      assert list[0] in list;
      ReplaceIsSubstitution(tokens, name, value);
      var tokens' := SubstituteOne(tokens, name, value);
      forall e | e in list[1..] ensures TokensInert(tokens', e.0) {
        var j :| 0 <= j < |list[1..]| && list[1..][j] == e;
        assert list[j + 1] == e && list[j + 1] in list;
        assert Inert(list[0].1, list[j + 1].0);
        SubstituteOneInert(tokens, name, value, e.0);
      }
      assert forall e :: e in list[1..] ==> e in list;
      SequentialIsSimultaneous(tokens', list[1..]);
      SubstituteFirst(tokens, list);
    }
  }

  // ---------------------------------------------------------------------------
  // Whole templates in a whole scope, in every iteration order
  // ---------------------------------------------------------------------------

  /** What a variable means in a scope: parameters over resources over the two pseudo parameters. */
  function Meaning(name: string, c: Scope): Option<string> {
    if name in c.params then Some(c.params[name])
    else if name in c.resources then Some(c.resources[name].physicalId)
    else if name == AWS_REGION then Some(c.region)
    else if name == AWS_ACCOUNT then Some(c.account)
    else None
  }

  function Meant(tokens: seq<Token>, c: Scope): string {
    if tokens == [] then []
    else
      (match tokens[0]
       case Literal(text) => text
       case Variable(name) => match Meaning(name, c) case Some(value) => value case None => Placeholder(name))
      + Meant(tokens[1..], c)
  }

  lemma {:induction false} LookupInListing(list: Listing, m: map<string, string>, rest: Listing, name: string)
    requires (forall i, j :: 0 <= i < j < |list| ==> list[i].0 != list[j].0)
    requires forall e :: e in list ==> e.0 in m && m[e.0] == e.1
    ensures Lookup(list + rest, name) ==
            if exists e :: e in list && e.0 == name then Some(m[name]) else Lookup(rest, name)
  {
    if list == [] {
      assert list + rest == rest;
    } else {
      assert list == [list[0]] + list[1..] && (list + rest)[1..] == list[1..] + rest;
      LookupInListing(list[1..], m, rest, name);
    }
  }

  lemma ListedIff(list: Listing, m: map<string, string>, name: string)
    requires Lists(list, m)
    ensures (exists e :: e in list && e.0 == name) <==> name in m
  {
    if name in m {
      assert (name, m[name]) in list;
    }
  }

  lemma LookupIsMeaning(c: Scope, name: string)
    requires c.Valid()
    ensures Lookup(Replacements(c), name) == Meaning(name, c)
  {
    var pseudo := [(AWS_REGION, c.region), (AWS_ACCOUNT, c.account)];
    assert Replacements(c) == c.paramOrder + (c.resourceOrder + pseudo);
    LookupInListing(c.paramOrder, c.params, c.resourceOrder + pseudo, name);
    LookupInListing(c.resourceOrder, PhysicalIds(c.resources), pseudo, name);
    ListedIff(c.paramOrder, c.params, name);
    ListedIff(c.resourceOrder, PhysicalIds(c.resources), name);
    assert pseudo[1..] == [(AWS_ACCOUNT, c.account)] && pseudo[1..][1..] == [];
    assert Lookup(pseudo[1..], name) == if name == AWS_ACCOUNT then Some(c.account) else None;
  }

  lemma {:induction false} SubstituteIsMeant(tokens: seq<Token>, c: Scope)
    requires c.Valid()
    ensures Substitute(tokens, Replacements(c)) == Meant(tokens, c)
  {
    if tokens == [] {
    } else {
      hide Replacements, Lookup, Meaning;
      SubstituteIsMeant(tokens[1..], c);
      if tokens[0].Variable? {
        LookupIsMeaning(c, tokens[0].name);
      }
    }
  }

  /** `$` only ever starts a `${name}`. */
  ghost predicate WellFormed(tokens: seq<Token>) {
    forall t :: t in tokens ==> match t case Literal(text) => '$' !in text case Variable(n) => '$' !in n && '}' !in n
  }

  lemma DollarFreeIsInert(text: string, name: string)
    requires '$' !in text
    ensures Inert(text, name)
  {
    forall i | 0 <= i < |text| ensures text[i] != '$' {
      assert text[i] in text;
    }
  }

  /** `Fn::Sub` is one simultaneous substitution, whatever the iteration order of the maps: for every
      template whose `$` only start placeholders, provided no value can form a placeholder that is
      still to be replaced and no key contains `}`. */
  lemma SubIsSimultaneous(tokens: seq<Token>, c: Scope)
    requires c.Valid() && WellFormed(tokens)
    requires NoRescan(Replacements(c)) && KeysClosed(Replacements(c))
    ensures Resolve(Object(map["Fn::Sub" := String(Flatten(tokens))]), c) == String(Meant(tokens, c))
  {
    hide Replace, Inert, Replacements, Placeholder;
    var list := Replacements(c);
    forall e, t | e in list && t in tokens && t.Literal? ensures Inert(t.text, e.0) {
      DollarFreeIsInert(t.text, e.0);
    }
    SequentialIsSimultaneous(tokens, list);
    SubstituteIsMeant(tokens, c);
  }

  /** Values without `$` never need the proviso. */
  lemma DollarFreeValues(c: Scope)
    requires c.Valid() && '$' !in c.region && '$' !in c.account
    requires forall k :: k in c.params ==> '$' !in c.params[k]
    requires forall k :: k in c.resources ==> '$' !in c.resources[k].physicalId
    ensures NoRescan(Replacements(c))
  {
    var list := Replacements(c);
    var pseudo := [(AWS_REGION, c.region), (AWS_ACCOUNT, c.account)];
    forall e | e in list ensures '$' !in e.1 {
      if e !in c.paramOrder && e !in c.resourceOrder {
        assert e in pseudo;
      }
    }
    forall i, j | 0 <= i < j < |list| ensures Inert(list[i].1, list[j].0) {
      DollarFreeIsInert(list[i].1, list[j].0);
    }
  }

  /** `Ref` and `Fn::Sub` agree on a name exactly when it is bound: `Ref` turns an unknown name into
      itself (and `AWS::NoValue` into nothing), `Fn::Sub` leaves the placeholder. */
  lemma SubAgreesWithRef(name: string, c: Scope)
    requires c.Valid() && NoRescan(Replacements(c)) && KeysClosed(Replacements(c)) && '$' !in name && '}' !in name
    ensures Resolve(Object(map["Fn::Sub" := String(Placeholder(name))]), c)
            == Resolve(Object(map["Ref" := String(name)]), c)
            <==> Meaning(name, c).Some?
  {
    hide Replacements, NoRescan, KeysClosed, Lists, ReplaceAll;
    var tokens := [Variable(name)];
    assert tokens[1..] == [];
    assert Flatten(tokens) == Placeholder(name) + [] && Placeholder(name) + [] == Placeholder(name);
    SubIsSimultaneous(tokens, c);
    if Meaning(name, c).Some? {
      assert Meant(tokens, c) == Meaning(name, c).value + [];
    } else {
      assert Meant(tokens, c) == Placeholder(name) + [];
      assert |Placeholder(name)| > |Ref(name, c)|;
    }
  }

  /** Without the proviso the result depends on the iteration order: a value that spells a placeholder
      is itself replaced if its turn comes before, and kept if it comes after. */
  lemma RescanDependsOnOrder()
    ensures var params := map["a" := "${b}", "b" := "x"];
            var one, two: Listing := [("a", "${b}"), ("b", "x")], [("b", "x"), ("a", "${b}")];
            && Lists(one, params) && Lists(two, params)
            && ReplaceAll("${a}", one) == "x" && ReplaceAll("${a}", two) == "${b}"
  {
    hide Replace, Placeholder;
    var a, b: (string, string) := ("a", "${b}"), ("b", "x");
    assert [a] + [b] == [a, b] && [b] + [a] == [b, a] && [b] + [] == [b] && [a] + [] == [a];
    ReplaceAllStep("${a}", a, [b]);
    ReplaceAllStep("${b}", b, []);
    ReplaceAllStep("${a}", b, [a]);
    ReplaceAllStep("${a}", a, []);
    Single("a", "a", "${b}");
    Single("b", "b", "x");
    Single("a", "b", "x");
    Spelled();
  }

  /** The proviso is not necessary: here a value spells a placeholder that is still to be replaced, in one of the
      orders, and both orders give the one simultaneous substitution. */
  lemma RescanCanBeHarmless()
    ensures var params := map["a" := "${b}", "b" := "${b}"];
            var one, two: Listing := [("a", "${b}"), ("b", "${b}")], [("b", "${b}"), ("a", "${b}")];
            && Lists(one, params) && Lists(two, params) && !NoRescan(one)
            && Flatten([Variable("a")]) == "${a}"
            && ReplaceAll("${a}", one) == ReplaceAll("${a}", two) == Substitute([Variable("a")], one) == "${b}"
  {
    hide Replace, Placeholder, Inert, NoRescan, ReplaceAll, Flatten, Substitute;
    Rescans();
    BothOrders();
    OneVariable();
  }

  lemma Rescans()
    ensures var one: Listing := [("a", "${b}"), ("b", "${b}")]; !NoRescan(one)
  {
    hide Inert;
    var one: Listing := [("a", "${b}"), ("b", "${b}")];
    NotInert();
    assert one[0].1 == "${b}" && one[1].0 == "b";
  }

  lemma BothOrders()
    ensures var one, two: Listing := [("a", "${b}"), ("b", "${b}")], [("b", "${b}"), ("a", "${b}")];
            ReplaceAll("${a}", one) == ReplaceAll("${a}", two) == "${b}"
  {
    var a, b: (string, string) := ("a", "${b}"), ("b", "${b}");
    Spelled();
    hide Replace, Placeholder;
    assert [a] + [b] == [a, b] && [b] + [a] == [b, a] && [b] + [] == [b] && [a] + [] == [a];
    ReplaceAllStep("${a}", a, [b]);
    ReplaceAllStep("${b}", b, []);
    ReplaceAllStep("${a}", b, [a]);
    ReplaceAllStep("${a}", a, []);
    Single("a", "a", "${b}");
    Single("b", "b", "${b}");
    Single("a", "b", "${b}");
  }

  lemma OneVariable()
    ensures var one: Listing := [("a", "${b}"), ("b", "${b}")];
            Flatten([Variable("a")]) == "${a}" && Substitute([Variable("a")], one) == "${b}"
  {
    Spelled();
    assert [Variable("a")][1..] == [];
    assert "${a}" + [] == "${a}" && "${b}" + [] == "${b}";
  }

  lemma NotInert()
    ensures !Inert("${b}", "b")
  {
    var text := "${b}";
    assert text[0] == '$' && text[0..] == text && text == Placeholder("b");
    assert Comparable(text[0..], Placeholder("b"));
  }

  lemma Spelled()
    ensures Placeholder("a") == "${a}" && Placeholder("b") == "${b}"
  {
  }

  lemma Single(n: string, name: string, value: string)
    requires '$' !in n && '}' !in n && '}' !in name
    ensures Replace(Placeholder(n), Placeholder(name), value) == if n == name then value else Placeholder(n)
  {
    ReplaceAtVariable(n, [], name, value);
    assert Placeholder(n) + [] == Placeholder(n) && value + [] == value;
    assert !(Placeholder(name) <= []);
  }

  // ---------------------------------------------------------------------------
  // What each intrinsic function gives
  // ---------------------------------------------------------------------------

  /** None of these keys is there. */
  predicate Lacks(f: map<string, Json>, keys: set<string>) {
    f.Keys !! keys
  }

  /** `Ref` comes before all others. An unknown name stands for itself, and `AWS::NoValue` for nothing. */
  lemma RefGives(f: map<string, Json>, name: string, c: Scope)
    requires "Ref" in f && f["Ref"] == String(name)
    ensures Resolve(Object(f), c) ==
            match Meaning(name, c)
            case Some(value) => String(value)
            case None => String(if name == "AWS::NoValue" then "" else name)
  {
  }

  /** Everything else is resolved item by item and field by field. */
  lemma OthersGive(items: seq<Json>, f: map<string, Json>, c: Scope)
    ensures var r := Resolve(Array(items), c);
            r.Array? && |r.items| == |items| && forall i :: 0 <= i < |items| ==> r.items[i] == Resolve(items[i], c)
    ensures Lacks(f, INTRINSICS) ==>
              var r := Resolve(Object(f), c);
              r.Object? && r.fields.Keys == f.Keys && forall k :: k in f ==> r.fields[k] == Resolve(f[k], c)
  {
    assert forall k :: k in INTRINSICS && Lacks(f, INTRINSICS) ==> k !in f;
  }

  /** `Fn::GetAtt` of a resource is its ARN or, for any other attribute, its physical id. */
  lemma GetAttGives(f: map<string, Json>, logical: string, attribute: string, c: Scope)
    requires Lacks(f, {"Ref"}) && "Fn::GetAtt" in f && f["Fn::GetAtt"] == Array([String(logical), String(attribute)])
    ensures logical in c.resources ==>
              var r := c.resources[logical];
              Resolve(Object(f), c) == String(
                if attribute != "Arn" then r.physicalId
                else "arn:aws:" + Lower(r.resourceType) + ":" + c.region + ":" + c.account + ":" + r.physicalId)
    ensures f.Keys == {"Fn::GetAtt"} && logical !in c.resources ==> Resolve(Object(f), c) == Object(f)
  {
    var args := [String(logical), String(attribute)];
    assert f["Fn::GetAtt"].items == args;
    if f.Keys == {"Fn::GetAtt"} && logical !in c.resources {
      PlainList(args, c);
      assert Resolve(Object(f), c) == Object(map k | k in f :: Resolve(f[k], c));
    }
  }

  lemma PlainList(items: seq<Json>, c: Scope)
    requires forall i :: 0 <= i < |items| ==> items[i].String?
    ensures Resolve(Array(items), c) == Array(items)
  {
    PlainIsUnchanged(Array(items), c);
  }

  /** The texts one after the other, with the separator between any two of them. */
  ghost predicate IsJoined(joined: string, parts: seq<string>, sep: string)
    decreases |parts|
  {
    if |parts| <= 1 then joined == if parts == [] then "" else parts[0]
    else exists head :: IsJoined(head, parts[..|parts| - 1], sep) && joined == head + sep + parts[|parts| - 1]
  }

  lemma {:induction false} JoinTextsIs(parts: seq<string>, sep: string)
    ensures IsJoined(JoinTexts(parts, sep), parts, sep)
    decreases |parts|
  {
    if |parts| > 1 {
      var n := |parts| - 1;
      JoinTextsIs(parts[..n], sep);
      JoinAtEnd(parts[..n], parts[n], sep);
      assert parts == parts[..n] + [parts[n]];
    }
  }

  lemma {:induction false} JoinAtEnd(parts: seq<string>, last: string, sep: string)
    requires parts != []
    ensures JoinTexts(parts + [last], sep) == JoinTexts(parts, sep) + sep + last
  {
    var all := parts + [last];
    assert all[1..] == parts[1..] + [last];
    if |parts| > 1 {
      JoinAtEnd(parts[1..], last, sep);
      assert parts[0] + sep + (JoinTexts(parts[1..], sep) + sep + last) == JoinTexts(parts, sep) + sep + last;
    } else {
      assert all[1..] == [last];
      assert JoinTexts([last], sep) == last;
    }
  }

  /** `Fn::Join` joins what its items resolve to; an item that resolves to no string counts as an empty one. */
  lemma JoinGives(f: map<string, Json>, sep: string, items: seq<Json>, c: Scope)
    requires Lacks(f, {"Ref", "Fn::GetAtt"}) && "Fn::Join" in f && f["Fn::Join"] == Array([String(sep), Array(items)])
    ensures var r := Resolve(Object(f), c);
            r.String? && exists texts: seq<string> ::
              && |texts| == |items| && IsJoined(r.text, texts, sep)
              && forall i :: 0 <= i < |items| ==>
                   var item := Resolve(items[i], c); texts[i] == if item.String? then item.text else ""
  {
    var args := [String(sep), Array(items)];
    assert f["Fn::Join"].items == args && args[1].items == items;
    var texts := seq(|items|, i requires 0 <= i < |items| => Text(Resolve(items[i], c), ""));
    JoinTextsIs(texts, sep);
    assert Resolve(Object(f), c) == String(JoinTexts(texts, sep));
  }

  /** `Fn::Select` gives the item with this index, counted from 0; what is no index selects the first. */
  lemma SelectGives(f: map<string, Json>, index: Json, items: seq<Json>, c: Scope)
    requires Lacks(f, {"Ref", "Fn::GetAtt", "Fn::Join", "Fn::Sub"})
    requires "Fn::Select" in f && f["Fn::Select"] == Array([index, Array(items)])
    ensures index.Int? && 0 <= index.n < |items| ==> Resolve(Object(f), c) == Resolve(items[index.n], c)
    ensures (!index.Int? || index.n < 0) && items != [] ==> Resolve(Object(f), c) == Resolve(items[0], c)
  {
    var args := [index, Array(items)];
    assert f["Fn::Select"].items == args && args[1].items == items;
  }

  /** `Fn::If` always takes its first branch. */
  lemma IfGives(f: map<string, Json>, condition: Json, yes: Json, no: Json, c: Scope)
    requires Lacks(f, {"Ref", "Fn::GetAtt", "Fn::Join", "Fn::Sub", "Fn::Select"})
    requires "Fn::If" in f && f["Fn::If"] == Array([condition, yes, no])
    ensures Resolve(Object(f), c) == Resolve(yes, c)
  {
    var args := [condition, yes, no];
    assert f["Fn::If"].items == args && args[1] == yes;
  }

  lemma {:induction false} JoinOfCharacters(s: string)
    ensures JoinTexts([""] + Characters(s) + [""], "") == s
  {
    var chars := Characters(s);
    JoinChars(chars, s);
    assert ([""] + chars + [""])[1..] == chars + [""];
    assert JoinTexts([""] + chars + [""], "") == "" + "" + JoinTexts(chars + [""], "");
    if chars == [] {
      assert chars + [""] == [""];
    } else {
      JoinAtEnd(chars, "", "");
    }
  }

  lemma {:induction false} JoinChars(chars: seq<string>, s: string)
    requires chars == Characters(s)
    ensures JoinTexts(chars, "") == s && |chars| == |s|
  {
    if s != [] {
      JoinChars(chars[1..], s[1..]);
      assert [s[0]] + "" + s[1..] == s;
    }
  }

  lemma {:induction false} JoinOfSplits(head: string, s: string, sep: string)
    requires sep != ""
    ensures JoinTexts(SplitNonEmpty(head, s, sep), sep) == head + s && SplitNonEmpty(head, s, sep) != []
    decreases |s|
  {
    if sep <= s {
      var rest := SplitNonEmpty("", s[|sep|..], sep);
      JoinOfSplits("", s[|sep|..], sep);
      assert ([head] + rest)[1..] == rest;
      assert "" + s[|sep|..] == s[|sep|..] && head + sep + s[|sep|..] == head + s;
    } else if s != [] {
      JoinOfSplits(head + [s[0]], s[1..], sep);
      assert head + [s[0]] + s[1..] == head + s;
    } else {
      assert head + s == head;
    }
  }

  /** The separator does not begin inside a part, where it stands before whatever comes next. */
  lemma {:induction false} SplitsAtEach(head: string, s: string, sep: string)
    requires sep != "" && NoneBefore(head + s, sep, |head|)
    ensures var parts := SplitNonEmpty(head, s, sep);
            parts != [] && forall i :: 0 <= i < |parts| ==> Absent(parts[i], sep)
    decreases |s|
  {
    var t := head + s;
    if sep <= s {
      assert t[|head|..|head| + |sep|] == sep;
      assert s == sep + s[|sep|..];
      HeadHasNone(head, s, sep);
      assert [] + s[|sep|..] == s[|sep|..];
      SplitsAtEach([], s[|sep|..], sep);
    } else if s != [] {
      assert head + [s[0]] + s[1..] == t;
      NotNext(head, s, sep);
      SplitsAtEach(head + [s[0]], s[1..], sep);
    } else {
      assert t == head;
    }
  }

  lemma NotNext(head: string, s: string, sep: string)
    requires !(sep <= s)
    ensures !IsAt(head + s, sep, |head|)
  {
    if |sep| <= |s| {
      assert (head + s)[|head|..|head| + |sep|] == s[..|sep|];
    }
  }

  lemma HeadHasNone(head: string, s: string, sep: string)
    requires sep != "" && NoneBefore(head + s, sep, |head|)
    ensures Absent(head, sep)
  {
    forall k: nat ensures !IsAt(head, sep, k) {
      if k + |sep| <= |head| {
        assert !IsAt(head + s, sep, k);
        assert (head + s)[k..k + |sep|] == head[k..k + |sep|];
      }
    }
  }

  ghost predicate AreSplit(parts: seq<string>, s: string, sep: string) {
    && IsJoined(s, parts, sep)
    && if sep != "" then forall part :: part in parts ==> Absent(part, sep)
       else
         && |parts| == |s| + 2 && parts[0] == parts[|s| + 1] == ""
         && forall i :: 0 < i <= |s| ==> parts[i] == [s[i - 1]]
  }

  lemma SplitByIs(s: string, sep: string)
    ensures AreSplit(SplitBy(s, sep), s, sep)
  {
    hide IsJoined, Absent, JoinTexts, SplitNonEmpty;
    JoinTextsIs(SplitBy(s, sep), sep);
    if sep == "" {
      JoinOfCharacters(s);
      CharactersAt(s);
    } else {
      JoinOfSplits("", s, sep);
      assert "" + s == s;
      SplitsAtEach("", s, sep);
    }
  }

  /** `Fn::Split` gives back parts that join to the text and that the separator does not occur in; the empty separator
      gives the characters, between two empty texts. */
  lemma SplitGives(f: map<string, Json>, sep: string, s: string, c: Scope) returns (parts: seq<string>)
    requires Lacks(f, {"Ref", "Fn::GetAtt", "Fn::Join", "Fn::Sub", "Fn::Select", "Fn::If"})
    requires "Fn::Split" in f && f["Fn::Split"] == Array([String(sep), String(s)])
    ensures Resolve(Object(f), c) == Array(seq(|parts|, i requires 0 <= i < |parts| => String(parts[i])))
    ensures AreSplit(parts, s, sep)
  {
    hide AreSplit, SplitBy;
    var args := [String(sep), String(s)];
    assert f["Fn::Split"].items == args;
    parts := SplitBy(s, sep);
    SplitByIs(s, sep);
  }

  lemma {:induction false} CharactersAt(s: string)
    ensures |Characters(s)| == |s| && forall i :: 0 <= i < |s| ==> Characters(s)[i] == [s[i]]
  {
    if s != [] {
      CharactersAt(s[1..]);
    }
  }
}
