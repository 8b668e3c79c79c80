/** The `{{…}}` language of guided manifests, and the three scanners that read it on their own:
    the manifest lint, the collector of required inputs and the run-time interpolator. */
module GuidedTemplates {
  import opened Base
  import opened Text

  const OPEN := "{{"
  const CLOSE := "}}"

  // ---------------------------------------------------------------------------
  // One reading of a text
  // ---------------------------------------------------------------------------

  /** A text read left to right: literal, expression (untrimmed), literal, expression, … */
  datatype Template =
    | End(literal: string)
    | Unclosed(literal: string, remainder: string)
    | Hole(literal: string, raw: string, rest: Template)

  function Scan(s: string): Template
    decreases |s|
  {
    match Cut(s, OPEN)
    case None => End(s)
    case Some((literal, tail)) =>
      match Cut(tail, CLOSE)
      case None => Unclosed(literal, tail)
      case Some((raw, after)) => Hole(literal, raw, Scan(after))
  }

  function Unparse(t: Template): string {
    match t
    case End(text) => text
    case Unclosed(text, remainder) => text + OPEN + remainder
    case Hole(text, raw, rest) => text + OPEN + raw + CLOSE + Unparse(rest)
  }

  /** Literals end at their first `{{` and expressions at their first `}}`. */
  ghost predicate Canonical(t: Template) {
    match t
    case End(text) => Absent(text, OPEN)
    case Unclosed(text, remainder) => EndsAtFirst(text, OPEN) && Absent(remainder, CLOSE)
    case Hole(text, raw, rest) => EndsAtFirst(text, OPEN) && EndsAtFirst(raw, CLOSE) && Canonical(rest)
  }

  /** Reading a text loses nothing. */
  lemma {:induction false} ScanReads(s: string)
    ensures Unparse(Scan(s)) == s
    ensures Canonical(Scan(s))
    decreases |s|
  {
    hide Find;
    CutIsFirst(s, OPEN);
    if Cut(s, OPEN).Some? {
      var (literal, tail) := Cut(s, OPEN).value;
      CutIsFirst(tail, CLOSE);
      if Cut(tail, CLOSE).Some? {
        var (raw, after) := Cut(tail, CLOSE).value;
        ScanReads(after);
        assert literal + OPEN + (raw + CLOSE + after) == literal + OPEN + raw + CLOSE + after;
      }
    }
  }

  /** A canonical template is the only reading of its text. */
  lemma {:induction false} ScanOfUnparse(t: Template)
    requires Canonical(t)
    ensures Scan(Unparse(t)) == t
  {
    match t
    case End(text) =>
      CutNothing(text, OPEN);
    case Unclosed(text, remainder) =>
      CutAtFirst(text, OPEN, remainder);
      CutNothing(remainder, CLOSE);
    case Hole(text, raw, rest) =>
      var after := Unparse(rest);
      assert text + OPEN + (raw + CLOSE + after) == text + OPEN + raw + CLOSE + after;
      CutAtFirst(text, OPEN, raw + CLOSE + after);
      CutAtFirst(raw, CLOSE, after);
      ScanOfUnparse(rest);
  }

  // ---------------------------------------------------------------------------
  // Expressions
  // ---------------------------------------------------------------------------

  datatype Source = Inputs | ContextValues | Captures

  function Prefix(source: Source): string {
    match source
    case Inputs => "inputs."
    case ContextValues => "context."
    case Captures => "captures."
  }

  predicate IsBuiltin(expr: string) {
    expr == "rand8()" || expr == "timestamp()"
  }

  /** The source and name an expression refers to, by the prefix it starts with. */
  function Reference(expr: string): Option<(Source, string)> {
    if Prefix(Inputs) <= expr then Some((Inputs, expr[7..]))
    else if Prefix(ContextValues) <= expr then Some((ContextValues, expr[8..]))
    else if Prefix(Captures) <= expr then Some((Captures, expr[9..]))
    else None
  }

  lemma ReferenceText(expr: string)
    ensures Reference(expr).Some? ==> expr == Prefix(Reference(expr).value.0) + Reference(expr).value.1
  {
  }

  lemma ReferenceOf(source: Source, name: string)
    ensures Reference(Prefix(source) + name) == Some((source, name))
  {
    var expr := Prefix(source) + name;
    assert expr[0] == Prefix(source)[0] && expr[1] == Prefix(source)[1] && expr[|Prefix(source)|..] == name;
    assert Prefix(Inputs)[0] == 'i' && Prefix(ContextValues)[..2] == "co" && Prefix(Captures)[..2] == "ca";
  }

  function SplitOn(s: string, c: char): (parts: seq<string>)
    ensures parts != []
  {
    if s == [] then [[]]
    else
      var tail := SplitOn(s[1..], c);
      if s[0] == c then [[]] + tail else [[s[0]] + tail[0]] + tail[1..]
  }

  function Join(parts: seq<string>, c: char): string
    requires parts != []
  {
    if |parts| == 1 then parts[0] else parts[0] + [c] + Join(parts[1..], c)
  }

  predicate IsIdentifierStart(c: char) {
    'a' <= c <= 'z' || 'A' <= c <= 'Z' || c == '_'
  }

  predicate IsIdentifierChar(c: char) {
    IsIdentifierStart(c) || '0' <= c <= '9' || c == '-'
  }

  predicate IsIdentifier(s: string) {
    s != [] && IsIdentifierStart(s[0]) && forall i :: 1 <= i < |s| ==> IsIdentifierChar(s[i])
  }

  datatype Complaint =
    | UnclosedExpression
    | EmptyExpression
    | UnsafeExpression(expr: string)
    | InvalidPath(expr: string)
    | UnsupportedSource(expr: string)

  /** `validate_interpolation_expression`. */
  function Validate(expr: string): Option<Complaint> {
    if expr == "" then Some(EmptyExpression)
    else if ';' in expr || '`' in expr || Find(expr, "${").Some? then Some(UnsafeExpression(expr))
    else if IsBuiltin(expr) then None
    else if Reference(expr).Some? then
      (if forall part :: part in SplitOn(expr, '.')[1..] ==> IsIdentifier(part) then None else Some(InvalidPath(expr)))
    else Some(UnsupportedSource(expr))
  }

  lemma {:induction false} SplitPrefix(head: string, tail: string, c: char)
    requires c !in head
    ensures SplitOn(head + [c] + tail, c) == [head] + SplitOn(tail, c)
  {
    var s := head + [c] + tail;
    if head == [] {
      assert s[1..] == tail;
    } else {
      assert s[1..] == head[1..] + [c] + tail;
      SplitPrefix(head[1..], tail, c);
      assert ([head[1..]] + SplitOn(tail, c))[1..] == SplitOn(tail, c);
      assert [s[0]] + head[1..] == head;
    }
  }

  lemma {:induction false} SplitWhole(s: string, c: char)
    requires c !in s
    ensures SplitOn(s, c) == [s]
  {
    if s == [] {
    } else {
      SplitWhole(s[1..], c);
      assert [s[0]] + s[1..] == s;
    }
  }

  lemma {:induction false} SplitOfJoin(parts: seq<string>, c: char)
    requires parts != [] && forall p :: p in parts ==> c !in p
    ensures SplitOn(Join(parts, c), c) == parts
  {
    if |parts| == 1 {
      SplitWhole(parts[0], c);
    } else {
      SplitOfJoin(parts[1..], c);
      SplitPrefix(parts[0], Join(parts[1..], c), c);
    }
  }

  lemma {:induction false} JoinOfSplit(s: string, c: char)
    ensures Join(SplitOn(s, c), c) == s
  {
    if s == [] {
    } else {
      JoinOfSplit(s[1..], c);
      var tail, whole := SplitOn(s[1..], c), SplitOn(s, c);
      assert whole[1..] == if s[0] == c then tail else tail[1..];
    }
  }

  ghost predicate AllIdentifiers(parts: seq<string>) {
    parts != [] && forall p :: p in parts ==> IsIdentifier(p)
  }

  ghost predicate IsDottedPath(expr: string, source: Source, parts: seq<string>) {
    AllIdentifiers(parts) && expr == Prefix(source) + Join(parts, '.')
  }

  /** The accepted language: a built-in, or a source followed by a dotted path of identifiers. */
  lemma AcceptedExpressions(expr: string)
    ensures Validate(expr).None? <==> IsBuiltin(expr) || exists source, parts :: IsDottedPath(expr, source, parts)
  {
    if IsBuiltin(expr) {
      SafeText(expr);
    } else if Validate(expr).None? {
      var source, parts := AcceptedIsDotted(expr);
    } else if source, parts :| IsDottedPath(expr, source, parts) {
      DottedIsAccepted(expr, source, parts);
    }
  }

  lemma AcceptedIsDotted(expr: string) returns (source: Source, parts: seq<string>)
    requires Validate(expr).None? && !IsBuiltin(expr)
    ensures IsDottedPath(expr, source, parts)
  {
    source := Reference(expr).value.0;
    var name := Reference(expr).value.1;
    assert expr == Prefix(source) + name;
    parts := SplitOn(name, '.');
    SplitReference(source, name);
    assert parts == SplitOn(expr, '.')[1..];
    JoinOfSplit(name, '.');
  }

  lemma DottedIsAccepted(expr: string, source: Source, parts: seq<string>)
    requires IsDottedPath(expr, source, parts)
    ensures Validate(expr).None?
  {
    hide Join, Find;
    var name := Join(parts, '.');
    DottedParts(source, parts);
    JoinIsSafe(parts);
    ReferenceIsSafe(source, name);
    ReferenceOf(source, name);
    SafeText(expr);
  }

  lemma DottedParts(source: Source, parts: seq<string>)
    requires AllIdentifiers(parts)
    ensures SplitOn(Prefix(source) + Join(parts, '.'), '.')[1..] == parts
  {
    SplitReference(source, Join(parts, '.'));
    forall p | p in parts ensures '.' !in p {
      IdentifierIsSafe(p);
    }
    SplitOfJoin(parts, '.');
  }

  lemma ReferenceIsSafe(source: Source, name: string)
    requires OnlySafe(name)
    ensures OnlySafe(Prefix(source) + name)
  {
  }

  lemma SplitReference(source: Source, name: string)
    ensures SplitOn(Prefix(source) + name, '.') == SplitOn(Prefix(source) + name, '.')[..1] + SplitOn(name, '.')
  {
    var head := Prefix(source)[..|Prefix(source)| - 1];
    assert Prefix(source) + name == head + ['.'] + name;
    SplitPrefix(head, name, '.');
  }

  ghost predicate OnlySafe(s: string) {
    forall c :: c in s ==> c != ';' && c != '`' && c != '$'
  }

  lemma IdentifierIsSafe(p: string)
    requires IsIdentifier(p)
    ensures OnlySafe(p) && '.' !in p
  {
    forall i | 0 <= i < |p| ensures IsIdentifierChar(p[i]) {
    }
  }

  lemma {:induction false} JoinIsSafe(parts: seq<string>)
    requires AllIdentifiers(parts)
    ensures OnlySafe(Join(parts, '.'))
  {
    IdentifierIsSafe(parts[0]);
    if |parts| > 1 {
      JoinIsSafe(parts[1..]);
    }
  }

  lemma SafeText(s: string)
    requires OnlySafe(s)
    ensures Find(s, "${").None?
  {
    forall k: nat ensures !IsAt(s, "${", k) {
      if k + 2 <= |s| {
        assert s[k] in s && s[k..k + 2][0] == s[k];
      }
    }
    FindNothing(s, "${");
  }

  // ---------------------------------------------------------------------------
  // The meaning of a template for each of its three readers
  // ---------------------------------------------------------------------------

  function Complaints(t: Template): seq<Complaint> {
    match t
    case End(_) => []
    case Unclosed(_, _) => [UnclosedExpression]
    case Hole(_, raw, rest) =>
      (match Validate(Trim(raw)) case None => [] case Some(c) => [c]) + Complaints(rest)
  }

  /** The names a template refers to in one of its sources. */
  function Names(t: Template, source: Source): set<string> {
    match t
    case End(_) => {}
    case Unclosed(_, _) => {}
    case Hole(_, raw, rest) =>
      (match Reference(Trim(raw)) case None => {} case Some((s, name)) => if s == source then {name} else {})
          + Names(rest, source)
  }

  /** The names the input collector reports: it skips an empty one. */
  function Required(t: Template): set<string> {
    Names(t, Inputs) - {""}
  }

  datatype Bindings = Bindings(inputs: map<string, string>, context: map<string, string>, captures: map<string, string>)
  {
    function From(source: Source): map<string, string> {
      match source
      case Inputs => inputs
      case ContextValues => context
      case Captures => captures
    }
  }

  datatype ResolveError = Malformed | Missing(source: Source, name: string) | Unsupported(expr: string)

  /** Random strings and timestamps come from a stream of arbitrary texts. */
  type Generated = nat -> string

  function Resolve(expr: string, b: Bindings, gen: string): Result<string, ResolveError> {
    if IsBuiltin(expr) then Ok(gen)
    else match Reference(expr)
      case None => Err(Unsupported(expr))
      case Some((source, name)) =>
        if name in b.From(source) then Ok(b.From(source)[name]) else Err(Missing(source, name))
  }

  function Uses(expr: string): nat {
    if IsBuiltin(expr) then 1 else 0
  }

  function Prepend(s: string, r: (Result<string, ResolveError>, nat)): (Result<string, ResolveError>, nat) {
    match r.0
    case Ok(text) => (Ok(s + text), r.1)
    case Err(e) => r
  }

  lemma PrependNothing(r: (Result<string, ResolveError>, nat))
    ensures Prepend("", r) == r
  {
    if r.0.Ok? {
      assert "" + r.0.value == r.0.value;
    }
  }

  lemma PrependTwice(a: string, b: string, r: (Result<string, ResolveError>, nat))
    ensures Prepend(a, Prepend(b, r)) == Prepend(a + b, r)
  {
    if r.0.Ok? {
      assert a + (b + r.0.value) == a + b + r.0.value;
    }
  }

  /** Literals and values in turn; a value is inserted as it is and never read again. */
  function Render(t: Template, b: Bindings, gen: Generated, n: nat): (Result<string, ResolveError>, nat) {
    match t
    case End(text) => (Ok(text), n)
    case Unclosed(_, _) => (Err(Malformed), n)
    case Hole(text, raw, rest) =>
      var expr := Trim(raw);
      match Resolve(expr, b, gen(n))
      case Err(e) => (Err(e), n)
      case Ok(value) => Prepend(text + value, Render(rest, b, gen, n + Uses(expr)))
  }

  // ---------------------------------------------------------------------------
  // The three scanners
  // ---------------------------------------------------------------------------

  lemma EndAt(s: string, cursor: nat)
    requires cursor <= |s| && Find(s[cursor..], OPEN).None?
    ensures Scan(s[cursor..]) == End(s[cursor..])
  {
  }

  lemma UnclosedAt(s: string, cursor: nat, i: nat)
    requires cursor <= |s| && Find(s[cursor..], OPEN) == Some(i) && Find(s[cursor + i + 2..], CLOSE).None?
    ensures Scan(s[cursor..]).Unclosed?
  {
    CutFrom(s, cursor, OPEN, i);
  }

  lemma HoleAt(s: string, cursor: nat, i: nat, j: nat)
    requires cursor <= |s| && Find(s[cursor..], OPEN) == Some(i) && Find(s[cursor + i + 2..], CLOSE) == Some(j)
    ensures var token := cursor + i + 2;
            Scan(s[cursor..]) == Hole(s[cursor..cursor + i], s[token..token + j], Scan(s[token + j + 2..]))
  {
    hide Find, FindFrom;
    CutFrom(s, cursor, OPEN, i);
    CutFrom(s, cursor + i + 2, CLOSE, j);
  }

  /** `check_interpolation_value`. */
  method CheckInterpolationValue(value: string, issues: seq<Complaint>) returns (all: seq<Complaint>)
    ensures all == issues + Complaints(Scan(value))
  {
    hide Find, FindFrom, Cut, Validate, Trim;
    all := issues;
    var cursor := 0;
    assert value[0..] == value;
    var start := Find(value[cursor..], OPEN);
    while start.Some?
      invariant 0 <= cursor <= |value| && start == Find(value[cursor..], OPEN)
      invariant issues + Complaints(Scan(value)) == all + Complaints(Scan(value[cursor..]))
      decreases |value| - cursor
    {
      var tokenStart := cursor + start.value + 2;
      var end := Find(value[tokenStart..], CLOSE);
      if end.None? {
        UnclosedAt(value, cursor, start.value);
        return all + [UnclosedExpression];
      }
      HoleAt(value, cursor, start.value, end.value);
      var tokenEnd := tokenStart + end.value;
      var complaint := Validate(Trim(value[tokenStart..tokenEnd]));
      if complaint.Some? {
        all := all + [complaint.value];
      }
      cursor := tokenEnd + 2;
      start := Find(value[cursor..], OPEN);
    }
    EndAt(value, cursor);
  }

  /** `collect_from_text`. */
  method CollectFromText(value: string, fields: set<string>) returns (all: set<string>)
    ensures all == fields + Required(Scan(value))
  {
    hide Find, FindFrom, Cut, Trim;
    all := fields;
    var cursor := 0;
    assert value[0..] == value;
    var start := Find(value[cursor..], OPEN);
    while start.Some?
      invariant 0 <= cursor <= |value| && start == Find(value[cursor..], OPEN)
      invariant fields + Required(Scan(value)) == all + Required(Scan(value[cursor..]))
      decreases |value| - cursor
    {
      var tokenStart := cursor + start.value + 2;
      var end := Find(value[tokenStart..], CLOSE);
      if end.None? {
        UnclosedAt(value, cursor, start.value);
        return;
      }
      HoleAt(value, cursor, start.value, end.value);
      var tokenEnd := tokenStart + end.value;
      var token := Trim(value[tokenStart..tokenEnd]);
      if Prefix(Inputs) <= token && token[7..] != "" {
        all := all + {token[7..]};
      }
      cursor := tokenEnd + 2;
      start := Find(value[cursor..], OPEN);
    }
    EndAt(value, cursor);
  }

  /** `interpolate_value`. */
  method InterpolateValue(input: string, b: Bindings, gen: Generated, n: nat)
    returns (r: Result<string, ResolveError>, n': nat)
    ensures (r, n') == Render(Scan(input), b, gen, n)
  {
    hide Find, FindFrom, Cut, Trim;
    var output, cursor := "", 0;
    n' := n;
    assert input[0..] == input;
    PrependNothing(Render(Scan(input), b, gen, n));
    var start := Find(input[cursor..], OPEN);
    while start.Some?
      invariant 0 <= cursor <= |input| && start == Find(input[cursor..], OPEN)
      invariant Render(Scan(input), b, gen, n) == Prepend(output, Render(Scan(input[cursor..]), b, gen, n'))
      decreases |input| - cursor
    {
      ghost var before, literal := output, input[cursor..cursor + start.value];
      output := output + input[cursor..cursor + start.value];
      var exprStart := cursor + start.value + 2;
      var end := Find(input[exprStart..], CLOSE);
      if end.None? {
        UnclosedAt(input, cursor, start.value);
        return Err(Malformed), n';
      }
      HoleAt(input, cursor, start.value, end.value);
      var exprEnd := exprStart + end.value;
      var expr := Trim(input[exprStart..exprEnd]);
      var value := Resolve(expr, b, gen(n'));
      if value.Err? {
        return Err(value.error), n';
      }
      output := output + value.value;
      PrependTwice(before, literal + value.value, Render(Scan(input[exprEnd + 2..]), b, gen, n' + Uses(expr)));
      assert before + (literal + value.value) == output;
      n' := n' + Uses(expr);
      cursor := exprEnd + 2;
      start := Find(input[cursor..], OPEN);
    }
    EndAt(input, cursor);
    r := Ok(output + input[cursor..]);
  }

  // ---------------------------------------------------------------------------
  // Agreement
  // ---------------------------------------------------------------------------

  lemma AcceptedReference(expr: string)
    requires Validate(expr).None? && !IsBuiltin(expr)
    ensures Reference(expr).Some? && Reference(expr).value.1 != ""
  {
    hide Validate, Reference, Join, Find;
    var source, parts := AcceptedIsDotted(expr);
    ReferenceOf(source, Join(parts, '.'));
    JoinIsNotEmpty(parts);
  }

  lemma JoinIsNotEmpty(parts: seq<string>)
    requires AllIdentifiers(parts)
    ensures Join(parts, '.') != ""
  {
    assert IsIdentifier(parts[0]);
  }

  ghost predicate Bound(t: Template, b: Bindings) {
    Names(t, ContextValues) <= b.context.Keys && Names(t, Captures) <= b.captures.Keys
  }

  ghost predicate MissesRunTimeName(t: Template, b: Bindings, e: ResolveError) {
    e.Missing? && e.source != Inputs && e.name in Names(t, e.source) && e.name !in b.From(e.source)
  }

  lemma CleanHole(raw: string, rest: Template, literal: string)
    requires Complaints(Hole(literal, raw, rest)) == []
    ensures Complaints(rest) == []
    ensures IsBuiltin(Trim(raw)) || (Reference(Trim(raw)).Some? && Reference(Trim(raw)).value.1 != "")
  {
    if !IsBuiltin(Trim(raw)) {
      AcceptedReference(Trim(raw));
    }
  }

  lemma BoundHole(text: string, raw: string, rest: Template, b: Bindings)
    requires IsBuiltin(Trim(raw)) || Reference(Trim(raw)).Some?
    ensures forall s :: Names(rest, s) <= Names(Hole(text, raw, rest), s)
    ensures IsBuiltin(Trim(raw)) ==> (Bound(Hole(text, raw, rest), b) <==> Bound(rest, b))
    ensures !IsBuiltin(Trim(raw)) ==>
              var (source, name) := Reference(Trim(raw)).value;
              && name in Names(Hole(text, raw, rest), source)
              && (Bound(Hole(text, raw, rest), b) <==> Bound(rest, b) && (source != Inputs ==> name in b.From(source)))
  {
    hide Trim;
  }

  /** On a text without complaints whose required inputs are bound, rendering succeeds exactly when
      its context and capture names are bound too, and otherwise reports such a name as missing. */
  lemma {:induction false} CleanTemplate(t: Template, b: Bindings, gen: Generated, n: nat)
    requires Complaints(t) == [] && Required(t) <= b.inputs.Keys
    ensures var r := Render(t, b, gen, n).0;
            (r.Ok? <==> Bound(t, b)) && (r.Err? ==> MissesRunTimeName(t, b, r.error))
  {
    hide Trim, Validate, IsBuiltin, Reference;
    match t
    case End(_) =>
    case Unclosed(_, _) =>
    case Hole(text, raw, rest) =>
      var expr := Trim(raw);
      CleanHole(raw, rest, text);
      BoundHole(text, raw, rest, b);
      if Resolve(expr, b, gen(n)).Ok? {
        CleanTemplate(rest, b, gen, n + Uses(expr));
      }
  }

  /** A hole that reads the input with the empty name, which the collector does not report,
      reached after holes that can all be resolved. */
  predicate ReadsEmptyInput(t: Template) {
    match t
    case End(_) => false
    case Unclosed(_, _) => false
    case Hole(_, raw, rest) =>
      Trim(raw) == Prefix(Inputs) ||
      ((IsBuiltin(Trim(raw)) || Reference(Trim(raw)).Some?) && ReadsEmptyInput(rest))
  }

  ghost predicate SameFor(t: Template, a: Bindings, b: Bindings) {
    a.context == b.context && a.captures == b.captures
    && forall x :: x in Required(t) ==>
         (x in a.inputs <==> x in b.inputs) && (x in a.inputs ==> a.inputs[x] == b.inputs[x])
  }

  ghost predicate ReadsOnlyRequired(t: Template) {
    forall a, b, gen: Generated, n: nat :: SameFor(t, a, b) ==> Render(t, a, gen, n) == Render(t, b, gen, n)
  }

  /** Interpolation reads the inputs only through the names the collector reports, exactly when
      it does not get to a bare `inputs.`; a linted text never does. */
  lemma ReadsOnlyWhatIsCollected(t: Template)
    ensures ReadsOnlyRequired(t) <==> !ReadsEmptyInput(t)
    ensures Complaints(t) == [] ==> !ReadsEmptyInput(t)
  {
    hide Render, Trim, Reference, IsBuiltin, Validate;
    if !ReadsEmptyInput(t) {
      forall a, b, gen: Generated, n: nat | SameFor(t, a, b) ensures Render(t, a, gen, n) == Render(t, b, gen, n) {
        SameRender(t, t, a, b, gen, n);
      }
    } else {
      var names := map x | x in Names(t, Inputs) + Names(t, ContextValues) + Names(t, Captures) + {""} :: "";
      var a := Bindings(names, names, names);
      var b := Bindings(names - {""}, names, names);
      var gen: Generated := _ => "";
      NeverMissing(t, a, gen, 0);
      EmptyInputShows(t, a, b, gen, 0);
      assert Render(t, a, gen, 0) != Render(t, b, gen, 0);
      assert SameFor(t, a, b);
    }
    if Complaints(t) == [] {
      CleanReadsNoEmptyInput(t);
    }
  }

  lemma {:induction false} SameRender(whole: Template, t: Template, a: Bindings, b: Bindings, gen: Generated, n: nat)
    requires SameFor(whole, a, b) && Required(t) <= Required(whole) && !ReadsEmptyInput(t)
    ensures Render(t, a, gen, n) == Render(t, b, gen, n)
  {
    hide Trim, Reference, IsBuiltin;
    if t.Hole? {
      var expr := Trim(t.raw);
      assert expr != Prefix(Inputs);
      ReferenceText(expr);
      if Reference(expr).Some? && Reference(expr).value.0 == Inputs {
        assert Prefix(Inputs) + "" == Prefix(Inputs);
        assert Reference(expr).value.1 in Required(t);
      }
      if Resolve(expr, a, gen(n)).Ok? {
        SameRender(whole, t.rest, a, b, gen, n + Uses(expr));
      }
    }
  }

  lemma {:induction false} EmptyInputShows(t: Template, a: Bindings, b: Bindings, gen: Generated, n: nat)
    requires ReadsEmptyInput(t)
    requires "" in a.inputs && "" !in b.inputs && b.inputs.Keys == a.inputs.Keys - {""}
    requires a.context.Keys == b.context.Keys && a.captures.Keys == b.captures.Keys
    requires forall s :: Names(t, s) <= a.From(s).Keys
    ensures Render(t, b, gen, n).0 == Err(Missing(Inputs, ""))
  {
    hide Trim, Reference;
    var expr := Trim(t.raw);
    assert Prefix(Inputs) + "" == Prefix(Inputs);
    if expr == Prefix(Inputs) {
      ReferenceOf(Inputs, "");
      assert !IsBuiltin(expr);
    } else {
      forall s ensures Names(t.rest, s) <= a.From(s).Keys {
        assert Names(t.rest, s) <= Names(t, s);
      }
      if Reference(expr).Some? {
        var (source, name) := Reference(expr).value;
        ReferenceText(expr);
        assert name in Names(t, source) && name in a.From(source) && name in b.From(source);
      }
      EmptyInputShows(t.rest, a, b, gen, n + Uses(expr));
    }
  }

  lemma {:induction false} NeverMissing(t: Template, a: Bindings, gen: Generated, n: nat)
    requires forall s :: Names(t, s) <= a.From(s).Keys
    ensures Render(t, a, gen, n).0.Err? ==> !Render(t, a, gen, n).0.error.Missing?
  {
    hide Trim, Reference, IsBuiltin;
    match t
    case End(_) =>
    case Unclosed(_, _) =>
    case Hole(_, raw, rest) =>
      var expr := Trim(raw);
      forall s ensures Names(rest, s) <= a.From(s).Keys {
        assert Names(rest, s) <= Names(t, s);
      }
      if Reference(expr).Some? {
        var (source, name) := Reference(expr).value;
        assert name in Names(t, source) && name in a.From(source);
      }
      NeverMissing(rest, a, gen, n + Uses(expr));
  }

  lemma {:induction false} CleanReadsNoEmptyInput(t: Template)
    requires Complaints(t) == []
    ensures !ReadsEmptyInput(t)
  {
    if t.Hole? {
      CleanHole(t.raw, t.rest, t.literal);
      CleanReadsNoEmptyInput(t.rest);
    }
  }

  // ---------------------------------------------------------------------------
  // What interpolation yields, hole by hole
  // ---------------------------------------------------------------------------

  function Literals(t: Template): seq<string> {
    match t
    case End(text) => [text]
    case Unclosed(text, _) => [text]
    case Hole(text, _, rest) => [text] + Literals(rest)
  }

  function Expressions(t: Template): seq<string> {
    match t
    case End(_) => []
    case Unclosed(_, _) => []
    case Hole(_, raw, rest) => [Trim(raw)] + Expressions(rest)
  }

  predicate IsClosed(t: Template) {
    match t
    case End(_) => true
    case Unclosed(_, _) => false
    case Hole(_, _, rest) => IsClosed(rest)
  }

  /** How many generated texts these expressions take. */
  function Builtins(exprs: seq<string>): nat {
    if exprs == [] then 0 else Uses(exprs[0]) + Builtins(exprs[1..])
  }

  /** The value of hole i: its binding, or the next generated text. */
  function ValueAt(exprs: seq<string>, i: nat, b: Bindings, gen: Generated, n: nat): Result<string, ResolveError>
    requires i < |exprs|
  {
    Resolve(exprs[i], b, gen(n + Builtins(exprs[..i])))
  }

  function Interleave(literals: seq<string>, values: seq<string>): string
    requires |literals| == |values| + 1
  {
    if values == [] then literals[0] else literals[0] + values[0] + Interleave(literals[1..], values[1..])
  }

  ghost predicate AreValues(exprs: seq<string>, values: seq<string>, b: Bindings, gen: Generated, n: nat) {
    |values| == |exprs| && forall i :: 0 <= i < |exprs| ==> ValueAt(exprs, i, b, gen, n) == Ok(values[i])
  }

  /** Hole k is the first that does not resolve; past the last hole, the text ends inside an expression. */
  ghost predicate FailsFirstAt(t: Template, k: nat, e: ResolveError, b: Bindings, gen: Generated, n: nat) {
    var exprs := Expressions(t);
    && k <= |exprs|
    && (forall i :: 0 <= i < k ==> ValueAt(exprs, i, b, gen, n).Ok?)
    && if k < |exprs| then ValueAt(exprs, k, b, gen, n) == Err(e) else !IsClosed(t) && e == Malformed
  }

  lemma {:induction false} LiteralCount(t: Template)
    ensures |Literals(t)| == |Expressions(t)| + 1
  {
    if t.Hole? {
      LiteralCount(t.rest);
    }
  }

  lemma LaterValue(first: string, rest: seq<string>, i: nat, b: Bindings, gen: Generated, n: nat)
    requires i < |rest|
    ensures ValueAt([first] + rest, i + 1, b, gen, n) == ValueAt(rest, i, b, gen, n + Uses(first))
  {
    hide Resolve, Uses;
    var exprs := [first] + rest;
    assert exprs[..i + 1][1..] == rest[..i];
    assert Builtins(exprs[..i + 1]) == Uses(first) + Builtins(rest[..i]);
  }

  lemma FirstValue(first: string, rest: seq<string>, b: Bindings, gen: Generated, n: nat)
    ensures ValueAt([first] + rest, 0, b, gen, n) == Resolve(first, b, gen(n))
  {
    hide Resolve;
    assert ([first] + rest)[..0] == [];
  }

  /** A rendered text is the literals interleaved with the values of the holes, and an error is that of the first hole
      that does not resolve, or of an expression left open when all do. */
  ghost predicate Explains(t: Template, r: Result<string, ResolveError>, b: Bindings, gen: Generated, n: nat) {
    |Literals(t)| == |Expressions(t)| + 1
    && match r
       case Ok(text) =>
         IsClosed(t) && exists values: seq<string> ::
           AreValues(Expressions(t), values, b, gen, n) && text == Interleave(Literals(t), values)
       case Err(e) => exists k: nat :: FailsFirstAt(t, k, e, b, gen, n)
  }

  lemma {:induction false} SinglePassAt(t: Template, b: Bindings, gen: Generated, n: nat)
    ensures Explains(t, Render(t, b, gen, n).0, b, gen, n)
  {
    hide Trim, Resolve, Uses, Explains;
    match t
    case End(text) => EndExplained(text, b, gen, n);
    case Unclosed(text, remainder) => UnclosedExplained(t, b, gen, n);
    case Hole(text, raw, rest) =>
      match Resolve(Trim(raw), b, gen(n))
      case Err(e) => FirstHoleFails(t, e, b, gen, n);
      case Ok(value) =>
        var n' := n + Uses(Trim(raw));
        SinglePassAt(rest, b, gen, n');
        match Render(rest, b, gen, n').0
        case Ok(tail) => FirstHoleYields(t, value, tail, b, gen, n);
        case Err(e) => LaterHoleFails(t, e, b, gen, n);
  }

  lemma EndExplained(text: string, b: Bindings, gen: Generated, n: nat)
    ensures Explains(End(text), Ok(text), b, gen, n)
  {
    assert AreValues([], [], b, gen, n) && Interleave([text], []) == text;
  }

  lemma UnclosedExplained(t: Template, b: Bindings, gen: Generated, n: nat)
    requires t.Unclosed?
    ensures Explains(t, Err(Malformed), b, gen, n)
  {
    assert FailsFirstAt(t, 0, Malformed, b, gen, n);
  }

  lemma FirstHoleFails(t: Template, e: ResolveError, b: Bindings, gen: Generated, n: nat)
    requires t.Hole? && Resolve(Trim(t.raw), b, gen(n)) == Err(e)
    ensures Explains(t, Err(e), b, gen, n)
  {
    hide Trim, Resolve;
    LiteralCount(t);
    FirstValue(Trim(t.raw), Expressions(t.rest), b, gen, n);
    assert FailsFirstAt(t, 0, e, b, gen, n);
  }

  lemma FirstHoleYields(t: Template, value: string, tail: string, b: Bindings, gen: Generated, n: nat)
    requires t.Hole? && Resolve(Trim(t.raw), b, gen(n)) == Ok(value)
    requires Explains(t.rest, Ok(tail), b, gen, n + Uses(Trim(t.raw)))
    ensures Explains(t, Ok(t.literal + value + tail), b, gen, n)
  {
    hide Trim, Resolve, Uses, Interleave, ValueAt;
    var first, later := Trim(t.raw), Expressions(t.rest);
    LiteralCount(t);
    var values: seq<string> :|
      AreValues(later, values, b, gen, n + Uses(first)) && tail == Interleave(Literals(t.rest), values);
    MoreValues(first, later, value, values, b, gen, n);
    InterleaveMore(t.literal, Literals(t.rest), value, values);
  }

  lemma LaterHoleFails(t: Template, e: ResolveError, b: Bindings, gen: Generated, n: nat)
    requires t.Hole? && Resolve(Trim(t.raw), b, gen(n)).Ok?
    requires Explains(t.rest, Err(e), b, gen, n + Uses(Trim(t.raw)))
    ensures Explains(t, Err(e), b, gen, n)
  {
    hide Trim, Resolve, Uses, FailsFirstAt;
    LiteralCount(t);
    var k: nat :| FailsFirstAt(t.rest, k, e, b, gen, n + Uses(Trim(t.raw)));
    LaterFailure(t, k, e, b, gen, n);
  }

  lemma MoreValues(first: string, rest: seq<string>, value: string, values: seq<string>, b: Bindings, gen: Generated,
                   n: nat)
    requires AreValues(rest, values, b, gen, n + Uses(first)) && Resolve(first, b, gen(n)) == Ok(value)
    ensures AreValues([first] + rest, [value] + values, b, gen, n)
  {
    hide Resolve, Uses, ValueAt;
    var exprs, all := [first] + rest, [value] + values;
    FirstValue(first, rest, b, gen, n);
    forall i | 0 <= i < |exprs| ensures ValueAt(exprs, i, b, gen, n) == Ok(all[i]) {
      if i > 0 {
        LaterValue(first, rest, i - 1, b, gen, n);
      }
    }
  }

  lemma InterleaveMore(text: string, literals: seq<string>, value: string, values: seq<string>)
    requires |literals| == |values| + 1
    ensures Interleave([text] + literals, [value] + values) == text + value + Interleave(literals, values)
  {
    assert ([text] + literals)[1..] == literals && ([value] + values)[1..] == values;
  }

  lemma LaterFailure(t: Template, k: nat, e: ResolveError, b: Bindings, gen: Generated, n: nat)
    requires t.Hole? && Resolve(Trim(t.raw), b, gen(n)).Ok?
    requires FailsFirstAt(t.rest, k, e, b, gen, n + Uses(Trim(t.raw)))
    ensures FailsFirstAt(t, k + 1, e, b, gen, n)
  {
    hide Resolve, Uses, ValueAt, Trim;
    var first, later := Trim(t.raw), Expressions(t.rest);
    FirstValue(first, later, b, gen, n);
    forall i | 0 <= i < k + 1 ensures ValueAt(Expressions(t), i, b, gen, n).Ok? {
      if i > 0 {
        LaterValue(first, later, i - 1, b, gen, n);
        assert ValueAt(later, i - 1, b, gen, n + Uses(first)).Ok?;
      }
    }
    if k < |later| {
      LaterValue(first, later, k, b, gen, n);
    }
  }

  predicate IsForeign(expr: string) {
    expr != "rand8()" && expr != "timestamp()"
    && !("inputs." <= expr) && !("context." <= expr) && !("captures." <= expr)
  }

  /** What an expression stands for: the binding of its name in the map that its prefix names, or the next generated
      text; an unbound name and any other expression are errors. */
  ghost predicate Denotes(expr: string, b: Bindings, next: string, r: Result<string, ResolveError>) {
    && (forall x :: expr == "inputs." + x ==> r == if x in b.inputs then Ok(b.inputs[x]) else Err(Missing(Inputs, x)))
    && (forall x :: expr == "context." + x ==>
          r == if x in b.context then Ok(b.context[x]) else Err(Missing(ContextValues, x)))
    && (forall x :: expr == "captures." + x ==>
          r == if x in b.captures then Ok(b.captures[x]) else Err(Missing(Captures, x)))
    && (expr == "rand8()" || expr == "timestamp()" ==> r == Ok(next))
    && (IsForeign(expr) ==> r == Err(Unsupported(expr)))
  }

  lemma ResolveDenotes(expr: string, b: Bindings, next: string)
    ensures Denotes(expr, b, next, Resolve(expr, b, next))
  {
    hide Reference;
    ReferencePrefix(expr);
    forall x | expr == "inputs." + x
      ensures Resolve(expr, b, next) == if x in b.inputs then Ok(b.inputs[x]) else Err(Missing(Inputs, x))
    {
      ReferenceOf(Inputs, x);
      NotBuiltin(Inputs, x);
    }
    forall x | expr == "context." + x
      ensures Resolve(expr, b, next) == if x in b.context then Ok(b.context[x]) else Err(Missing(ContextValues, x))
    {
      ReferenceOf(ContextValues, x);
      NotBuiltin(ContextValues, x);
    }
    forall x | expr == "captures." + x
      ensures Resolve(expr, b, next) == if x in b.captures then Ok(b.captures[x]) else Err(Missing(Captures, x))
    {
      ReferenceOf(Captures, x);
      NotBuiltin(Captures, x);
    }
  }

  lemma ReferencePrefix(expr: string)
    ensures !("inputs." <= expr) && !("context." <= expr) && !("captures." <= expr) ==> Reference(expr).None?
  {
  }

  lemma NotBuiltin(source: Source, name: string)
    ensures !IsBuiltin(Prefix(source) + name)
  {
    var expr := Prefix(source) + name;
    assert expr[0] == Prefix(source)[0];
  }

  ghost predicate AllDenote(exprs: seq<string>, values: seq<string>, b: Bindings, gen: Generated, n: nat) {
    |values| == |exprs|
    && forall i :: 0 <= i < |exprs| ==> Denotes(exprs[i], b, gen(n + Builtins(exprs[..i])), Ok(values[i]))
  }

  /** A rendered text is the literals interleaved with what the expressions stand for. An error is that of the first
      expression that stands for one, or of an expression left open when none does. */
  ghost predicate IsReading(t: Template, r: Result<string, ResolveError>, b: Bindings, gen: Generated, n: nat) {
    var exprs := Expressions(t);
    |Literals(t)| == |exprs| + 1
    && match r
       case Ok(text) =>
         IsClosed(t) && exists values: seq<string> ::
           AllDenote(exprs, values, b, gen, n) && text == Interleave(Literals(t), values)
       case Err(e) =>
         exists k: nat, values: seq<string> ::
           && k <= |exprs| && AllDenote(exprs[..k], values, b, gen, n)
           && if k < |exprs| then Denotes(exprs[k], b, gen(n + Builtins(exprs[..k])), Err(e))
              else !IsClosed(t) && e == Malformed
  }

  lemma ValuesDenote(exprs: seq<string>, values: seq<string>, b: Bindings, gen: Generated, n: nat)
    requires AreValues(exprs, values, b, gen, n)
    ensures AllDenote(exprs, values, b, gen, n)
  {
    hide Resolve, Denotes;
    forall i | 0 <= i < |exprs| ensures Denotes(exprs[i], b, gen(n + Builtins(exprs[..i])), Ok(values[i])) {
      assert ValueAt(exprs, i, b, gen, n) == Ok(values[i]);
      ResolveDenotes(exprs[i], b, gen(n + Builtins(exprs[..i])));
    }
  }

  lemma FailureDenotes(t: Template, k: nat, e: ResolveError, b: Bindings, gen: Generated, n: nat)
    returns (values: seq<string>)
    requires FailsFirstAt(t, k, e, b, gen, n)
    ensures var exprs := Expressions(t);
            && k <= |exprs| && AllDenote(exprs[..k], values, b, gen, n)
            && if k < |exprs| then Denotes(exprs[k], b, gen(n + Builtins(exprs[..k])), Err(e))
               else !IsClosed(t) && e == Malformed
  {
    hide Resolve, Denotes, ValueAt;
    var exprs := Expressions(t);
    values := seq(k, i requires 0 <= i < k => ValueAt(exprs, i, b, gen, n).value);
    forall i | 0 <= i < k ensures ValueAt(exprs[..k], i, b, gen, n) == Ok(values[i]) {
      ValueOfPart(exprs, k, i, b, gen, n);
    }
    ValuesDenote(exprs[..k], values, b, gen, n);
    if k < |exprs| {
      ResolveDenotes(exprs[k], b, gen(n + Builtins(exprs[..k])));
      ValueIsResolved(exprs, k, b, gen, n);
    }
  }

  lemma ValueIsResolved(exprs: seq<string>, k: nat, b: Bindings, gen: Generated, n: nat)
    requires k < |exprs|
    ensures ValueAt(exprs, k, b, gen, n) == Resolve(exprs[k], b, gen(n + Builtins(exprs[..k])))
  {
  }

  lemma ValueOfPart(exprs: seq<string>, k: nat, i: nat, b: Bindings, gen: Generated, n: nat)
    requires i < k <= |exprs|
    ensures ValueAt(exprs[..k], i, b, gen, n) == ValueAt(exprs, i, b, gen, n)
  {
    assert exprs[..k][..i] == exprs[..i];
  }

  /** Interpolation inserts for each expression what it stands for, in one pass that never looks at inserted text
      again, whatever it looks like. */
  lemma SinglePass(t: Template, b: Bindings, gen: Generated, n: nat)
    ensures IsReading(t, Render(t, b, gen, n).0, b, gen, n)
  {
    hide Render, FailsFirstAt, AllDenote, Denotes, ValueAt;
    SinglePassAt(t, b, gen, n);
    match Render(t, b, gen, n).0
    case Ok(text) =>
      var values: seq<string> :|
        AreValues(Expressions(t), values, b, gen, n) && text == Interleave(Literals(t), values);
      ValuesDenote(Expressions(t), values, b, gen, n);
    case Err(e) =>
      var k: nat :| FailsFirstAt(t, k, e, b, gen, n);
      var values := FailureDenotes(t, k, e, b, gen, n);
  }

  /** A text that is rendered has taken one generated text for each of its built-ins. */
  lemma {:induction false} RenderTakes(t: Template, b: Bindings, gen: Generated, n: nat)
    requires Render(t, b, gen, n).0.Ok?
    ensures Render(t, b, gen, n).1 == n + Builtins(Expressions(t))
  {
    hide Trim, Resolve;
    if t.Hole? {
      var expr := Trim(t.raw);
      RenderTakes(t.rest, b, gen, n + Uses(expr));
      assert ([expr] + Expressions(t.rest))[1..] == Expressions(t.rest);
    }
  }

  // ---------------------------------------------------------------------------
  // What the other two readers report
  // ---------------------------------------------------------------------------

  /** The collector's names are exactly those of the expressions that name one. */
  lemma {:induction false} NamesAreExpressions(t: Template, source: Source, x: string)
    ensures x in Names(t, source) <==> Prefix(source) + x in Expressions(t)
  {
    hide Trim, Reference;
    if t.Hole? {
      var expr := Trim(t.raw);
      NamesAreExpressions(t.rest, source, x);
      ReferenceOf(source, x);
      ReferenceText(expr);
    }
  }

  /** The lint complains of a text left open, and of every expression that the validator rejects. */
  lemma {:induction false} ComplaintsAreExact(t: Template, c: Complaint)
    ensures c in Complaints(t) <==>
            (c == UnclosedExpression && !IsClosed(t))
            || exists expr :: expr in Expressions(t) && Validate(expr) == Some(c)
  {
    hide Trim, Validate;
    if t.Hole? {
      var expr, later := Trim(t.raw), Expressions(t.rest);
      ComplaintsAreExact(t.rest, c);
      assert forall e :: e in Expressions(t) <==> e == expr || e in later;
      ValidateSees(expr);
    }
  }

  lemma ValidateSees(expr: string)
    ensures Validate(expr) != Some(UnclosedExpression)
  {
  }

  ghost predicate IsUnsafe(expr: string) {
    ';' in expr || '`' in expr || !Absent(expr, "${")
  }

  /** Why an expression is rejected. */
  lemma RejectedExpressions(expr: string)
    ensures Validate(expr) == Some(EmptyExpression) <==> expr == ""
    ensures Validate(expr) == Some(UnsafeExpression(expr)) <==> IsUnsafe(expr)
    ensures Validate(expr) == Some(UnsupportedSource(expr)) <==> expr != "" && !IsUnsafe(expr) && IsForeign(expr)
    ensures !IsUnsafe(expr) && ("inputs." <= expr || "context." <= expr || "captures." <= expr) ==>
              Validate(expr).None? || Validate(expr) == Some(InvalidPath(expr))
  {
    hide Find;
    FindIsFirst(expr, "${");
    if Find(expr, "${").Some? {
      assert IsAt(expr, "${", Find(expr, "${").value);
    }
    if expr == "" {
      assert !IsUnsafe("");
    }
  }
}
