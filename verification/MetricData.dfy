/** CloudWatch's rebuilding of nested metric data from flat query parameters visited in hash-map order. */
module MetricData {
  import opened Base
  import opened Text
  import opened Decimal

  const MEMBER := "MetricData.member."
  const DIMENSION := "Dimensions.member."
  const DIMENSIONS := "Dimensions"

  datatype Scalar = Number(n: int) | Decimal(r: real) | Word(text: string)

  /** `coerce_value`: any function from texts to numbers or texts. */
  type Coerce = string -> Scalar

  datatype Field = One(scalar: Scalar) | Dims(items: seq<map<string, string>>)

  type Member = map<string, Field>

  type Members = map<nat, Member>

  // ---------------------------------------------------------------------------
  // What a key means
  // ---------------------------------------------------------------------------

  datatype Target =
    | Ignored
    | Touch(index: nat)
    | ScalarAt(index: nat, field: string)
    | DimAt(index: nat, dim: nat, name: string)

  /** The text before and after the first dot; no dot, no second part. */
  function TargetOf(key: string): Target {
    if !(MEMBER <= key) then Ignored
    else match Cut(key[|MEMBER|..], ".")
      case None => Ignored
      case Some((indexText, field)) => match Parse(indexText, U64_MAX)
        case None => Ignored
        case Some(index) =>
          if !(DIMENSION <= field) then ScalarAt(index, field)
          else match Cut(field[|DIMENSION|..], ".")
            case None => Touch(index)
            case Some((dimText, name)) => match Parse(dimText, U64_MAX)
              case None => Touch(index)
              case Some(dim) => DimAt(index, dim, name)
  }

  // ---------------------------------------------------------------------------
  // One parameter
  // ---------------------------------------------------------------------------

  function EntryOf(m: Members, i: nat): Member {
    if i in m then m[i] else map[]
  }

  function PadTo(items: seq<map<string, string>>, n: nat): seq<map<string, string>>
    decreases n - |items|
  {
    if |items| < n then PadTo(items + [map[]], n) else items
  }

  /** Index 0 pads nothing and sets nothing: `dim_index - 1` is out of range in a release build. */
  function SetDim(items: seq<map<string, string>>, dim: nat, name: string, value: string): seq<map<string, string>> {
    if dim == 0 then items
    else
      PadLength(items, dim);
      var padded := PadTo(items, dim);
      padded[dim - 1 := padded[dim - 1][name := value]]
  }

  lemma {:induction false} PadLength(items: seq<map<string, string>>, n: nat)
    ensures |PadTo(items, n)| == Max(|items|, n)
    ensures forall k :: 0 <= k < |items| ==> PadTo(items, n)[k] == items[k]
    ensures forall k :: |items| <= k < n ==> PadTo(items, n)[k] == map[]
    decreases n - |items|
  {
    if |items| < n {
      PadLength(items + [map[]], n);
    }
  }

  function AddDim(e: Member, dim: nat, name: string, value: string): Member {
    if DIMENSIONS !in e then e[DIMENSIONS := Dims(SetDim([], dim, name, value))]
    else match e[DIMENSIONS]
      case One(_) => e
      case Dims(items) => e[DIMENSIONS := Dims(SetDim(items, dim, name, value))]
  }

  datatype Parameter = Parameter(target: Target, value: string)

  function Apply(m: Members, p: Parameter, coerce: Coerce): Members {
    match p.target
    case Ignored => m
    case Touch(i) => m[i := EntryOf(m, i)]
    case ScalarAt(i, field) => m[i := EntryOf(m, i)[field := One(coerce(p.value))]]
    case DimAt(i, dim, name) => m[i := AddDim(EntryOf(m, i), dim, name, p.value)]
  }

  function Fold(m: Members, ps: seq<Parameter>, coerce: Coerce): Members
    decreases |ps|
  {
    if ps == [] then m else Fold(Apply(m, ps[0], coerce), ps[1..], coerce)
  }

  // ---------------------------------------------------------------------------
  // The members in index order: `BTreeMap::into_values`
  // ---------------------------------------------------------------------------

  lemma {:induction false} LeastExists(keys: set<nat>)
    requires keys != {}
    ensures exists k :: k in keys && forall j :: j in keys ==> k <= j
    decreases |keys|
  {
    var k :| k in keys;
    var rest := keys - {k};
    assert forall j :: j in keys ==> j == k || j in rest;
    if rest != {} {
      LeastExists(rest);
      var least :| least in rest && forall j :: j in rest ==> least <= j;
      assert (Min(k, least) in keys) && forall j :: j in keys ==> Min(k, least) <= j;
    }
  }

  function Least(keys: set<nat>): (k: nat)
    requires keys != {}
    ensures k in keys && forall j :: j in keys ==> k <= j
  {
    LeastExists(keys);
    var k :| k in keys && forall j :: j in keys ==> k <= j;
    k
  }

  function IntoValues(m: Members): seq<Member>
    decreases |m.Keys|
  {
    if m.Keys == {} then []
    else
      var k := Least(m.Keys);
      assert (m - {k}).Keys == m.Keys - {k};
      [m[k]] + IntoValues(m - {k})
  }

  /** A member under a greater index than all others comes last. */
  lemma {:induction false} GreatestComesLast(m: Members, i: nat, e: Member)
    requires forall k :: k in m ==> k < i
    ensures IntoValues(m[i := e]) == IntoValues(m) + [e]
    decreases |m.Keys|
  {
    var n := m[i := e];
    assert i in n;
    if m.Keys == {} {
      assert n.Keys == {i} && (n - {i}).Keys == {};
      assert Least(n.Keys) == i;
    } else {
      var k := Least(m.Keys);
      LeastStays(m.Keys, i);
      assert n.Keys == m.Keys + {i};
      assert n - {k} == (m - {k})[i := e];
      assert (m - {k}).Keys == m.Keys - {k};
      GreatestComesLast(m - {k}, i, e);
      assert IntoValues(n) == [n[k]] + IntoValues(n - {k});
      assert [m[k]] + (IntoValues(m - {k}) + [e]) == IntoValues(m) + [e];
    }
  }

  lemma LeastStays(keys: set<nat>, i: nat)
    requires keys != {} && forall k :: k in keys ==> k < i
    ensures Least(keys + {i}) == Least(keys)
  {
  }

  function Parsed(pairs: seq<(string, string)>): seq<Parameter> {
    seq(|pairs|, i requires 0 <= i < |pairs| => Parameter(TargetOf(pairs[i].0), pairs[i].1))
  }

  /** The loop of `query_metric_data` over the parameters in the order the map yields them, and the list it answers. */
  method Collect(pairs: seq<(string, string)>, coerce: Coerce) returns (data: seq<Member>)
    ensures data == IntoValues(Fold(map[], Parsed(pairs), coerce))
  {
    hide Apply, TargetOf, Cut, Parse, IntoValues;
    var members: Members := map[];
    assert Parsed(pairs)[0..] == Parsed(pairs);
    for i := 0 to |pairs|
      invariant Fold(map[], Parsed(pairs), coerce) == Fold(members, Parsed(pairs)[i..], coerce)
    {
      var p := Parameter(TargetOf(pairs[i].0), pairs[i].1);
      assert Parsed(pairs)[i..][0] == p && Parsed(pairs)[i..][1..] == Parsed(pairs)[i + 1..];
      members := Apply(members, p, coerce);
    }
    data := IntoValues(members);
  }

  // ---------------------------------------------------------------------------
  // The order does not matter unless two parameters fight over one place
  // ---------------------------------------------------------------------------

  /** Two keys spelled differently, as `1` and `01` are, can name the same place. */
  predicate Clash(a: Parameter, b: Parameter, coerce: Coerce) {
    a.target == b.target &&
    ((a.target.ScalarAt? && coerce(a.value) != coerce(b.value))
     || (a.target.DimAt? && a.target.dim > 0 && a.value != b.value))
  }

  lemma SetDimCommutes(items: seq<map<string, string>>, d: nat, f: string, v: string, d': nat, f': string, v': string)
    requires d == d' && f == f' && d > 0 ==> v == v'
    ensures SetDim(SetDim(items, d, f, v), d', f', v') == SetDim(SetDim(items, d', f', v'), d, f, v)
  {
    if d > 0 && d' > 0 {
      var a, b := SetDim(items, d, f, v), SetDim(items, d', f', v');
      PadLength(items, d);
      PadLength(items, d');
      PadLength(a, d');
      PadLength(b, d);
      var ab, ba := SetDim(a, d', f', v'), SetDim(b, d, f, v);
      assert |ab| == |ba|;
      forall k | 0 <= k < |ab| ensures ab[k] == ba[k] {
        if k == d - 1 && k == d' - 1 {
          var base := if k < |items| then items[k] else map[];
          assert base[f := v][f' := v'] == base[f' := v'][f := v];
        }
      }
    }
  }

  lemma AddDimCommutes(e: Member, d: nat, f: string, v: string, d': nat, f': string, v': string)
    requires d == d' && f == f' && d > 0 ==> v == v'
    ensures AddDim(AddDim(e, d, f, v), d', f', v') == AddDim(AddDim(e, d', f', v'), d, f, v)
  {
    hide SetDim;
    if DIMENSIONS !in e {
      SetDimCommutes([], d, f, v, d', f', v');
    } else if e[DIMENSIONS].Dims? {
      SetDimCommutes(e[DIMENSIONS].items, d, f, v, d', f', v');
    }
  }

  lemma ScalarCommutesWithDim(e: Member, field: string, s: Scalar, d: nat, f: string, v: string)
    ensures AddDim(e[field := One(s)], d, f, v) == AddDim(e, d, f, v)[field := One(s)]
  {
    hide SetDim;
  }

  function MemberAfter(e: Member, p: Parameter, coerce: Coerce): Member {
    match p.target
    case ScalarAt(_, field) => e[field := One(coerce(p.value))]
    case DimAt(_, dim, name) => AddDim(e, dim, name, p.value)
    case _ => e
  }

  lemma ApplyIsLocal(m: Members, p: Parameter, coerce: Coerce)
    ensures Apply(m, p, coerce) ==
            if p.target.Ignored? then m else m[p.target.index := MemberAfter(EntryOf(m, p.target.index), p, coerce)]
  {
  }

  lemma MemberCommutes(e: Member, a: Parameter, b: Parameter, coerce: Coerce)
    requires !Clash(a, b, coerce) && !a.target.Ignored? && !b.target.Ignored? && a.target.index == b.target.index
    ensures MemberAfter(MemberAfter(e, a, coerce), b, coerce) == MemberAfter(MemberAfter(e, b, coerce), a, coerce)
  {
    hide AddDim;
    match (a.target, b.target)
    case (ScalarAt(_, f), ScalarAt(_, g)) =>
    case (ScalarAt(_, f), DimAt(_, d, g)) => ScalarCommutesWithDim(e, f, coerce(a.value), d, g, b.value);
    case (DimAt(_, d, g), ScalarAt(_, f)) => ScalarCommutesWithDim(e, f, coerce(b.value), d, g, a.value);
    case (DimAt(_, d, f), DimAt(_, d', f')) => AddDimCommutes(e, d, f, a.value, d', f', b.value);
    case (Touch(_), _) =>
    case (_, Touch(_)) =>
  }

  lemma Commutes(m: Members, a: Parameter, b: Parameter, coerce: Coerce)
    requires !Clash(a, b, coerce)
    ensures Apply(Apply(m, a, coerce), b, coerce) == Apply(Apply(m, b, coerce), a, coerce)
  {
    if !a.target.Ignored? && !b.target.Ignored? {
      hide Apply, MemberAfter;
      var i, j := a.target.index, b.target.index;
      ApplyIsLocal(m, a, coerce);
      ApplyIsLocal(m, b, coerce);
      ApplyIsLocal(Apply(m, a, coerce), b, coerce);
      ApplyIsLocal(Apply(m, b, coerce), a, coerce);
      if i == j {
        MemberCommutes(EntryOf(m, i), a, b, coerce);
        var e := EntryOf(m, i);
        assert m[i := MemberAfter(e, a, coerce)][i := MemberAfter(MemberAfter(e, a, coerce), b, coerce)]
            == m[i := MemberAfter(e, b, coerce)][i := MemberAfter(MemberAfter(e, b, coerce), a, coerce)];
      } else {
        UpdatesCommute(m, i, MemberAfter(EntryOf(m, i), a, coerce), j, MemberAfter(EntryOf(m, j), b, coerce));
      }
    }
  }

  lemma UpdatesCommute(m: Members, i: nat, e: Member, j: nat, f: Member)
    requires i != j
    ensures m[i := e][j := f] == m[j := f][i := e]
  {
  }

  ghost predicate NoClash(ps: seq<Parameter>, coerce: Coerce) {
    forall i, j :: 0 <= i < j < |ps| ==> !Clash(ps[i], ps[j], coerce)
  }

  lemma {:induction false} MoveToFront(m: Members, ps: seq<Parameter>, k: nat, coerce: Coerce)
    requires k < |ps| && forall i :: 0 <= i < k ==> !Clash(ps[i], ps[k], coerce)
    ensures Fold(m, ps, coerce) == Fold(Apply(m, ps[k], coerce), ps[..k] + ps[k + 1..], coerce)
    decreases k
  {
    hide Apply, Clash;
    if k == 0 {
      assert ps[..0] + ps[1..] == ps[1..];
    } else {
      MoveToFront(Apply(m, ps[0], coerce), ps[1..], k - 1, coerce);
      Commutes(m, ps[0], ps[k], coerce);
      var rest := ps[..k] + ps[k + 1..];
      assert rest[1..] == ps[1..][..k - 1] + ps[1..][k..];
    }
  }

  lemma ClashIsSymmetric(a: Parameter, b: Parameter, coerce: Coerce)
    ensures Clash(a, b, coerce) == Clash(b, a, coerce)
  {
  }

  /** Any two orders of parameters that do not clash give the same members. */
  lemma {:induction false} OrderIndependent(m: Members, ps: seq<Parameter>, qs: seq<Parameter>, coerce: Coerce)
    requires NoClash(ps, coerce) && multiset(ps) == multiset(qs)
    ensures Fold(m, ps, coerce) == Fold(m, qs, coerce)
    decreases |ps|
  {
    if ps == [] {
      assert |multiset(qs)| == 0;
      assert qs == [];
    } else {
      hide Apply, Clash, NoClash;
      var k := FindFirstOf(ps, qs);
      RemoveOne(ps, qs, k);
      var rest := qs[..k] + qs[k + 1..];
      forall i | 0 <= i < k ensures !Clash(qs[i], qs[k], coerce) {
        FrontClashesWithNone(ps, qs, k, i, coerce);
      }
      MoveToFront(m, qs, k, coerce);
      NoClashTail(ps, coerce);
      OrderIndependent(Apply(m, ps[0], coerce), ps[1..], rest, coerce);
    }
  }

  lemma NoClashTail(ps: seq<Parameter>, coerce: Coerce)
    requires ps != [] && NoClash(ps, coerce)
    ensures NoClash(ps[1..], coerce)
  {
  }

  lemma FrontClashesWithNone(ps: seq<Parameter>, qs: seq<Parameter>, k: nat, i: nat, coerce: Coerce)
    requires NoClash(ps, coerce) && multiset(ps) == multiset(qs) && ps != []
    requires i < k < |qs| && qs[k] == ps[0]
    ensures !Clash(qs[i], qs[k], coerce)
  {
    assert qs[i] in multiset(qs);
    assert qs[i] in multiset(ps);
    var j :| 0 <= j < |ps| && ps[j] == qs[i];
    if j > 0 {
      ClashIsSymmetric(ps[0], ps[j], coerce);
    }
  }

  /** And two parameters that clash, read last, give different members in their two orders, unless a
      scalar called Dimensions hides the member's dimensions. */
  lemma ClashShows(m: Members, a: Parameter, b: Parameter, coerce: Coerce)
    requires Clash(a, b, coerce)
    requires a.target.DimAt? ==> var e := EntryOf(m, a.target.index); DIMENSIONS in e ==> e[DIMENSIONS].Dims?
    ensures Fold(m, [a, b], coerce) != Fold(m, [b, a], coerce)
  {
    hide SetDim;
    FoldTwo(m, a, b, coerce);
    FoldTwo(m, b, a, coerce);
    var i := a.target.index;
    var ab, ba := Apply(Apply(m, a, coerce), b, coerce), Apply(Apply(m, b, coerce), a, coerce);
    if a.target.ScalarAt? {
      assert ab[i][a.target.field] != ba[i][a.target.field];
    } else {
      var e := EntryOf(m, i);
      var items := if DIMENSIONS in e then e[DIMENSIONS].items else [];
      SetDimShows(items, a.target.dim, a.target.name, a.value, b.value);
      assert ab[i][DIMENSIONS] != ba[i][DIMENSIONS];
    }
  }

  lemma FoldTwo(m: Members, a: Parameter, b: Parameter, coerce: Coerce)
    ensures Fold(m, [a, b], coerce) == Apply(Apply(m, a, coerce), b, coerce)
  {
    hide Apply;
    assert [a, b][1..] == [b] && [b][1..] == [];
    assert Fold(Apply(m, a, coerce), [b], coerce) == Apply(Apply(m, a, coerce), b, coerce);
  }

  lemma SetDimShows(items: seq<map<string, string>>, d: nat, f: string, v: string, v': string)
    requires d > 0 && v != v'
    ensures SetDim(SetDim(items, d, f, v), d, f, v') != SetDim(SetDim(items, d, f, v'), d, f, v)
  {
    var one, two := SetDim(SetDim(items, d, f, v), d, f, v'), SetDim(SetDim(items, d, f, v'), d, f, v);
    PadLength(items, d);
    PadLength(SetDim(items, d, f, v), d);
    PadLength(SetDim(items, d, f, v'), d);
    assert one[d - 1][f] == v' && two[d - 1][f] == v;
  }

  // ---------------------------------------------------------------------------
  // The exact condition
  // ---------------------------------------------------------------------------

  /** The members that some parameter gives a scalar called Dimensions, which hides their dimensions. */
  function Hiding(ps: seq<Parameter>): set<nat> {
    set p | p in ps && p.target.ScalarAt? && p.target.field == DIMENSIONS :: p.target.index
  }

  /** No two parameters fight over a place that shows in the end. */
  ghost predicate NoVisibleClash(ps: seq<Parameter>, coerce: Coerce) {
    forall i, j :: 0 <= i < j < |ps| && Clash(ps[i], ps[j], coerce) ==>
      ps[i].target.DimAt? && ps[i].target.index in Hiding(ps)
  }

  /** A dimension that will be hidden might as well only touch its member. */
  function Quiet(p: Parameter, hiding: set<nat>): Parameter {
    if p.target.DimAt? && p.target.index in hiding then p.(target := Touch(p.target.index)) else p
  }

  function QuietAll(ps: seq<Parameter>, hiding: set<nat>): seq<Parameter> {
    seq(|ps|, i requires 0 <= i < |ps| => Quiet(ps[i], hiding))
  }

  /** Equal but for dimensions that are still to be hidden. */
  ghost predicate SameBut(e: Member, f: Member, hidden: bool) {
    if !hidden then e == f
    else
      e - {DIMENSIONS} == f - {DIMENSIONS}
      && if DIMENSIONS in f then DIMENSIONS in e && e[DIMENSIONS] == f[DIMENSIONS] && f[DIMENSIONS].One?
         else DIMENSIONS in e ==> e[DIMENSIONS].Dims?
  }

  ghost predicate Related(m: Members, n: Members, hiding: set<nat>) {
    m.Keys == n.Keys && forall i :: i in m ==> SameBut(m[i], n[i], i in hiding)
  }

  predicate Hides(p: Parameter, hiding: set<nat>) {
    p.target.ScalarAt? && p.target.field == DIMENSIONS ==> p.target.index in hiding
  }

  lemma MemberStaysRelated(e: Member, f: Member, p: Parameter, hiding: set<nat>, coerce: Coerce)
    requires !p.target.Ignored? && Hides(p, hiding) && SameBut(e, f, p.target.index in hiding)
    ensures SameBut(MemberAfter(e, p, coerce), MemberAfter(f, Quiet(p, hiding), coerce), p.target.index in hiding)
  {
    hide SetDim;
    if p.target.ScalarAt? && p.target.field != DIMENSIONS && p.target.index in hiding {
      var x := One(coerce(p.value));
      assert e[p.target.field := x] - {DIMENSIONS} == (e - {DIMENSIONS})[p.target.field := x];
      assert f[p.target.field := x] - {DIMENSIONS} == (f - {DIMENSIONS})[p.target.field := x];
    } else if p.target.index in hiding {
      assert MemberAfter(e, p, coerce) - {DIMENSIONS} == e - {DIMENSIONS};
      assert MemberAfter(f, Quiet(p, hiding), coerce) - {DIMENSIONS} == f - {DIMENSIONS};
    }
  }

  lemma StepStaysRelated(m: Members, n: Members, p: Parameter, hiding: set<nat>, coerce: Coerce)
    requires Related(m, n, hiding) && Hides(p, hiding)
    ensures Related(Apply(m, p, coerce), Apply(n, Quiet(p, hiding), coerce), hiding)
  {
    if !p.target.Ignored? {
      var i := p.target.index;
      ApplyIsLocal(m, p, coerce);
      ApplyIsLocal(n, Quiet(p, hiding), coerce);
      hide Apply, MemberAfter, SameBut;
      NothingIsSame(i in hiding);
      MemberStaysRelated(EntryOf(m, i), EntryOf(n, i), p, hiding, coerce);
    }
  }

  lemma NothingIsSame(hidden: bool)
    ensures SameBut(map[], map[], hidden)
  {
  }

  lemma {:induction false} FoldStaysRelated(m: Members, n: Members, ps: seq<Parameter>, hiding: set<nat>,
                                            coerce: Coerce)
    requires Related(m, n, hiding) && forall p :: p in ps ==> Hides(p, hiding)
    ensures Related(Fold(m, ps, coerce), Fold(n, QuietAll(ps, hiding), coerce), hiding)
    decreases |ps|
  {
    if ps == [] {
    } else {
      hide Related, Hides, Apply, Quiet;
      StepStaysRelated(m, n, ps[0], hiding, coerce);
      assert QuietAll(ps, hiding)[1..] == QuietAll(ps[1..], hiding);
      FoldStaysRelated(Apply(m, ps[0], coerce), Apply(n, Quiet(ps[0], hiding), coerce), ps[1..], hiding, coerce);
    }
  }

  predicate IsHidden(m: Members, i: nat) {
    i in m && DIMENSIONS in m[i] && m[i][DIMENSIONS].One?
  }

  lemma StepHides(m: Members, p: Parameter, i: nat, coerce: Coerce)
    requires IsHidden(m, i) || p.target == ScalarAt(i, DIMENSIONS)
    ensures IsHidden(Apply(m, p, coerce), i)
  {
    hide SetDim;
  }

  lemma {:induction false} FoldHides(m: Members, ps: seq<Parameter>, i: nat, coerce: Coerce)
    requires IsHidden(m, i) || i in Hiding(ps)
    ensures IsHidden(Fold(m, ps, coerce), i)
    decreases |ps|
  {
    if ps == [] {
    } else {
      hide IsHidden, Apply;
      assert forall p :: p in ps ==> p == ps[0] || p in ps[1..];
      if IsHidden(m, i) || ps[0].target == ScalarAt(i, DIMENSIONS) {
        StepHides(m, ps[0], i, coerce);
      }
      FoldHides(Apply(m, ps[0], coerce), ps[1..], i, coerce);
    }
  }

  /** Hidden dimensions never show, so the quiet parameters give the same members. */
  lemma QuietFoldsAlike(ps: seq<Parameter>, coerce: Coerce)
    ensures Fold(map[], ps, coerce) == Fold(map[], QuietAll(ps, Hiding(ps)), coerce)
  {
    hide Fold, Apply, QuietAll;
    var hiding := Hiding(ps);
    var m, n := Fold(map[], ps, coerce), Fold(map[], QuietAll(ps, hiding), coerce);
    assert forall p :: p in ps ==> Hides(p, hiding);
    FoldStaysRelated(map[], map[], ps, hiding, coerce);
    forall i | i in m ensures m[i] == n[i] {
      if i in hiding {
        FoldHides(map[], ps, i, coerce);
        SameWhenHidden(m[i], n[i]);
      }
    }
  }

  lemma SameWhenHidden(e: Member, f: Member)
    requires SameBut(e, f, true) && DIMENSIONS in e && e[DIMENSIONS].One?
    ensures e == f
  {
    assert DIMENSIONS in f;
    forall k ensures (k in e <==> k in f) && (k in e ==> e[k] == f[k]) {
      if k != DIMENSIONS {
        assert k in e <==> k in e - {DIMENSIONS};
        assert k in f <==> k in f - {DIMENSIONS};
      }
    }
  }

  lemma QuietHasNoClash(ps: seq<Parameter>, coerce: Coerce)
    requires NoVisibleClash(ps, coerce)
    ensures NoClash(QuietAll(ps, Hiding(ps)), coerce)
  {
    var quiet := QuietAll(ps, Hiding(ps));
    forall i, j | 0 <= i < j < |quiet| ensures !Clash(quiet[i], quiet[j], coerce) {
      ClashOfQuiet(ps[i], ps[j], Hiding(ps), coerce);
    }
  }

  lemma ClashOfQuiet(a: Parameter, b: Parameter, hiding: set<nat>, coerce: Coerce)
    ensures Clash(Quiet(a, hiding), Quiet(b, hiding), coerce) <==>
            Clash(a, b, coerce) && !(a.target.DimAt? && a.target.index in hiding)
  {
  }

  lemma {:induction false} QuietKeepsMultiset(ps: seq<Parameter>, qs: seq<Parameter>, hiding: set<nat>)
    requires multiset(ps) == multiset(qs)
    ensures multiset(QuietAll(ps, hiding)) == multiset(QuietAll(qs, hiding))
    decreases |ps|
  {
    hide QuietAll;
    if ps == [] {
      assert |multiset(qs)| == 0;
      assert qs == [];
    } else {
      var k := FindFirstOf(ps, qs);
      RemoveOne(ps, qs, k);
      QuietKeepsMultiset(ps[1..], qs[..k] + qs[k + 1..], hiding);
      QuietSplit(ps, 0, hiding);
      assert ps[..0] + ps[1..] == ps[1..];
      QuietSplit(qs, k, hiding);
    }
  }

  lemma QuietSplit(ps: seq<Parameter>, k: nat, hiding: set<nat>)
    requires k < |ps|
    ensures multiset(QuietAll(ps, hiding))
         == multiset(QuietAll(ps[..k] + ps[k + 1..], hiding)) + multiset{Quiet(ps[k], hiding)}
  {
    var before, after := QuietAll(ps[..k], hiding), QuietAll(ps[k + 1..], hiding);
    assert QuietAll(ps, hiding) == before + ([Quiet(ps[k], hiding)] + after);
    assert QuietAll(ps[..k] + ps[k + 1..], hiding) == before + after;
  }

  ghost predicate OrderDoesNotMatter(ps: seq<Parameter>, coerce: Coerce) {
    forall qs :: multiset(qs) == multiset(ps) ==> Fold(map[], qs, coerce) == Fold(map[], ps, coerce)
  }

  lemma VisibleClashShows(ps: seq<Parameter>, i: nat, j: nat, coerce: Coerce)
    requires i < j < |ps| && Clash(ps[i], ps[j], coerce)
    requires ps[i].target.DimAt? ==> ps[i].target.index !in Hiding(ps)
    ensures !OrderDoesNotMatter(ps, coerce)
  {
    hide Fold, Clash, Hiding;
    var rest := ps[..i] + ps[i + 1..j] + ps[j + 1..];
    TwoLast(ps, i, j);
    HidingOfPart(rest, ps);
    ReadLast(rest, ps[i], ps[j], coerce);
  }

  lemma HidingOfPart(part: seq<Parameter>, ps: seq<Parameter>)
    requires forall p :: p in part ==> p in ps
    ensures Hiding(part) <= Hiding(ps)
  {
  }

  lemma ReadLast(rest: seq<Parameter>, a: Parameter, b: Parameter, coerce: Coerce)
    requires Clash(a, b, coerce) && (a.target.DimAt? ==> a.target.index !in Hiding(rest))
    ensures Fold(map[], rest + [a, b], coerce) != Fold(map[], rest + [b, a], coerce)
  {
    hide Fold, Hiding;
    var m := Fold(map[], rest, coerce);
    if a.target.DimAt? {
      NeverHidden(map[], rest, a.target.index, coerce);
    }
    ClashShows(m, a, b, coerce);
    FoldAppend(map[], rest, [a, b], coerce);
    FoldAppend(map[], rest, [b, a], coerce);
  }

  lemma TwoLast(ps: seq<Parameter>, i: nat, j: nat)
    requires i < j < |ps|
    ensures var rest := ps[..i] + ps[i + 1..j] + ps[j + 1..];
            && multiset(rest + [ps[i], ps[j]]) == multiset(ps) && multiset(rest + [ps[j], ps[i]]) == multiset(ps)
            && forall p :: p in rest ==> p in ps
  {
    var before, between, after := ps[..i], ps[i + 1..j], ps[j + 1..];
    assert ps == before + [ps[i]] + between + [ps[j]] + after;
    MovedToEnd(before, ps[i], between, ps[j], after);
    assert forall p :: p in before + between + after ==> p in before || p in between || p in after;
  }

  lemma MovedToEnd<T>(before: seq<T>, x: T, between: seq<T>, y: T, after: seq<T>)
    ensures var all := multiset(before + [x] + between + [y] + after);
            && multiset(before + between + after + [x, y]) == all && multiset(before + between + after + [y, x]) == all
  {
    assert [x, y] == [x] + [y] && [y, x] == [y] + [x];
  }

  lemma {:induction false} NeverHidden(m: Members, ps: seq<Parameter>, i: nat, coerce: Coerce)
    requires !IsHidden(m, i) && i !in Hiding(ps)
    ensures !IsHidden(Fold(m, ps, coerce), i)
    decreases |ps|
  {
    if ps == [] {
    } else {
      hide IsHidden, Apply;
      assert ps[0] in ps && forall p :: p in ps[1..] ==> p in ps;
      StepDoesNotHide(m, ps[0], i, coerce);
      NeverHidden(Apply(m, ps[0], coerce), ps[1..], i, coerce);
    }
  }

  lemma StepDoesNotHide(m: Members, p: Parameter, i: nat, coerce: Coerce)
    requires !IsHidden(m, i) && p.target != ScalarAt(i, DIMENSIONS)
    ensures !IsHidden(Apply(m, p, coerce), i)
  {
    hide SetDim;
  }

  /** Every order of the parameters rebuilds the same members exactly if no two of them fight over a place that
      shows. */
  lemma OrderIndependentIff(ps: seq<Parameter>, coerce: Coerce)
    ensures OrderDoesNotMatter(ps, coerce) <==> NoVisibleClash(ps, coerce)
  {
    hide Fold, Clash, QuietAll, NoClash;
    if NoVisibleClash(ps, coerce) {
      QuietHasNoClash(ps, coerce);
      QuietFoldsAlike(ps, coerce);
      forall qs | multiset(qs) == multiset(ps) ensures Fold(map[], qs, coerce) == Fold(map[], ps, coerce) {
        SameHiding(ps, qs);
        QuietFoldsAlike(qs, coerce);
        QuietKeepsMultiset(ps, qs, Hiding(ps));
        OrderIndependent(map[], QuietAll(ps, Hiding(ps)), QuietAll(qs, Hiding(ps)), coerce);
      }
    } else {
      var i, j :| 0 <= i < j < |ps| && Clash(ps[i], ps[j], coerce)
                  && !(ps[i].target.DimAt? && ps[i].target.index in Hiding(ps));
      VisibleClashShows(ps, i, j, coerce);
    }
  }

  lemma SameHiding(ps: seq<Parameter>, qs: seq<Parameter>)
    requires multiset(qs) == multiset(ps)
    ensures Hiding(qs) == Hiding(ps)
  {
    assert forall p :: p in ps <==> p in multiset(ps);
    assert forall p :: p in qs <==> p in multiset(qs);
  }

  // ---------------------------------------------------------------------------
  // Flattening a list of metric data and reading it back
  // ---------------------------------------------------------------------------

  type Pairs = seq<(string, string)>

  datatype Datum = Datum(fields: Pairs, dims: seq<Pairs>)

  ghost predicate Distinct(pairs: Pairs) {
    forall i, j :: 0 <= i < j < |pairs| ==> pairs[i].0 != pairs[j].0
  }

  /** Field names that are not themselves read as dimensions. */
  ghost predicate Writable(d: Datum) {
    && Distinct(d.fields)
    && (forall p :: p in d.fields ==> p.0 != DIMENSIONS && !(DIMENSION <= p.0))
    && forall dim :: dim in d.dims ==> Distinct(dim)
  }

  /** `MetricData.member.<i>.<field>`. */
  function ScalarKey(i: nat, field: string): string {
    MEMBER + Print(i) + "." + field
  }

  /** `MetricData.member.<i>.Dimensions.member.<j>.<name>`. */
  function DimKey(i: nat, j: nat, name: string): string {
    ScalarKey(i, DIMENSION + Print(j) + "." + name)
  }

  function FlatFields(i: nat, fields: Pairs, n: nat): Pairs
    requires n <= |fields|
  {
    if n == 0 then [] else FlatFields(i, fields, n - 1) + [(ScalarKey(i, fields[n - 1].0), fields[n - 1].1)]
  }

  function FlatDim(i: nat, j: nat, dim: Pairs, n: nat): Pairs
    requires n <= |dim|
  {
    if n == 0 then [] else FlatDim(i, j, dim, n - 1) + [(DimKey(i, j, dim[n - 1].0), dim[n - 1].1)]
  }

  /** The first n dimensions, numbered from 1. */
  function FlatDims(i: nat, dims: seq<Pairs>, n: nat): Pairs
    requires n <= |dims|
  {
    if n == 0 then [] else FlatDims(i, dims, n - 1) + FlatDim(i, n, dims[n - 1], |dims[n - 1]|)
  }

  /** The first n data, numbered from 1. */
  function Flat(data: seq<Datum>, n: nat): Pairs
    requires n <= |data|
  {
    if n == 0 then []
    else Flat(data, n - 1) + FlatDatum(n, data[n - 1])
  }

  function FlatDatum(i: nat, d: Datum): Pairs {
    FlatFields(i, d.fields, |d.fields|) + FlatDims(i, d.dims, |d.dims|)
  }

  function Mapped(pairs: Pairs, n: nat): map<string, string>
    requires n <= |pairs|
  {
    if n == 0 then map[] else Mapped(pairs, n - 1)[pairs[n - 1].0 := pairs[n - 1].1]
  }

  function Scalars(fields: Pairs, n: nat, coerce: Coerce): Member
    requires n <= |fields|
  {
    if n == 0 then map[] else Scalars(fields, n - 1, coerce)[fields[n - 1].0 := One(coerce(fields[n - 1].1))]
  }

  /** The first n dimensions up to the last one that has a parameter: the others leave no trace. */
  function SeenDims(dims: seq<Pairs>, n: nat): seq<map<string, string>>
    requires n <= |dims|
  {
    if n == 0 then [] else if dims[n - 1] == [] then SeenDims(dims, n - 1) else AllDims(dims, n)
  }

  function AllDims(dims: seq<Pairs>, n: nat): (all: seq<map<string, string>>)
    requires n <= |dims|
    ensures |all| == n
  {
    if n == 0 then [] else AllDims(dims, n - 1) + [Mapped(dims[n - 1], |dims[n - 1]|)]
  }

  function MemberOf(d: Datum, coerce: Coerce): Member {
    var dims := SeenDims(d.dims, |d.dims|);
    var scalars := Scalars(d.fields, |d.fields|, coerce);
    if dims == [] then scalars else scalars[DIMENSIONS := Dims(dims)]
  }

  /** What the first n data come back as: a datum without any parameter leaves no trace either. */
  function Rebuilt(data: seq<Datum>, n: nat, coerce: Coerce): Members
    requires n <= |data|
  {
    if n == 0 then map[]
    else
      var before, e := Rebuilt(data, n - 1, coerce), MemberOf(data[n - 1], coerce);
      if e == map[] then before else before[n := e]
  }

  // Keys are read back as what they were written for.

  lemma CutNumber(n: nat, rest: string)
    ensures Cut(Print(n) + "." + rest, ".") == Some((Print(n), rest))
  {
    var digits := Print(n);
    forall k: nat | k < |digits| ensures !IsAt(digits + ".", ".", k) {
      assert (digits + ".")[k..k + 1][0] == digits[k];
    }
    CutAtFirst(digits, ".", rest);
  }

  lemma ScalarTarget(i: nat, field: string)
    requires i <= U64_MAX && !(DIMENSION <= field)
    ensures TargetOf(ScalarKey(i, field)) == ScalarAt(i, field)
  {
    hide Cut, Parse, Print;
    assert ScalarKey(i, field) == MEMBER + (Print(i) + "." + field);
    assert ScalarKey(i, field)[|MEMBER|..] == Print(i) + "." + field;
    CutNumber(i, field);
    ParseOfPrint(i, U64_MAX);
  }

  lemma DimTarget(i: nat, j: nat, name: string)
    requires i <= U64_MAX && j <= U64_MAX
    ensures TargetOf(DimKey(i, j, name)) == DimAt(i, j, name)
  {
    hide Cut, Parse, Print;
    var tail := Print(j) + "." + name;
    var field := DIMENSION + tail;
    assert DIMENSION + Print(j) + "." + name == field;
    assert DimKey(i, j, name) == MEMBER + (Print(i) + "." + field);
    assert DimKey(i, j, name)[|MEMBER|..] == Print(i) + "." + field && field[|DIMENSION|..] == tail;
    CutNumber(i, field);
    CutNumber(j, name);
    ParseOfPrint(i, U64_MAX);
    ParseOfPrint(j, U64_MAX);
  }

  ghost predicate InRange(data: seq<Datum>) {
    |data| <= U64_MAX && forall d :: d in data ==> Writable(d) && |d.dims| <= U64_MAX
  }

  lemma ParsedAppend(a: Pairs, b: Pairs)
    ensures Parsed(a + b) == Parsed(a) + Parsed(b)
  {
    hide TargetOf;
  }

  lemma {:induction false} FoldAppend(m: Members, a: seq<Parameter>, b: seq<Parameter>, coerce: Coerce)
    ensures Fold(m, a + b, coerce) == Fold(Fold(m, a, coerce), b, coerce)
    decreases |a|
  {
    hide Apply;
    if a == [] {
      assert a + b == b;
    } else {
      assert (a + b)[1..] == a[1..] + b;
      FoldAppend(Apply(m, a[0], coerce), a[1..], b, coerce);
    }
  }

  lemma FoldMore(m: Members, a: Pairs, b: Pairs, coerce: Coerce)
    ensures Fold(m, Parsed(a + b), coerce) == Fold(Fold(m, Parsed(a), coerce), Parsed(b), coerce)
  {
    ParsedAppend(a, b);
    FoldAppend(m, Parsed(a), Parsed(b), coerce);
  }

  lemma FoldOne(m: Members, p: (string, string), coerce: Coerce)
    ensures Fold(m, Parsed([p]), coerce) == Apply(m, Parameter(TargetOf(p.0), p.1), coerce)
  {
    hide Apply, TargetOf;
    assert Parsed([p])[1..] == [];
  }

  lemma {:induction false} FieldTargets(i: nat, fields: Pairs, n: nat)
    requires i <= U64_MAX && n <= |fields| && forall p :: p in fields ==> !(DIMENSION <= p.0)
    ensures var ps := Parsed(FlatFields(i, fields, n));
            |ps| == n && forall k :: 0 <= k < n ==> ps[k] == Parameter(ScalarAt(i, fields[k].0), fields[k].1)
  {
    hide TargetOf, ScalarKey;
    if n == 0 {
    } else {
      FieldTargets(i, fields, n - 1);
      ScalarTarget(i, fields[n - 1].0);
      ParsedAppend(FlatFields(i, fields, n - 1), [(ScalarKey(i, fields[n - 1].0), fields[n - 1].1)]);
    }
  }

  lemma {:induction false} DimTargets(i: nat, j: nat, dim: Pairs, n: nat)
    requires i <= U64_MAX && j <= U64_MAX && n <= |dim|
    ensures var ps := Parsed(FlatDim(i, j, dim, n));
            |ps| == n && forall k :: 0 <= k < n ==> ps[k] == Parameter(DimAt(i, j, dim[k].0), dim[k].1)
  {
    hide TargetOf, DimKey;
    if n == 0 {
    } else {
      DimTargets(i, j, dim, n - 1);
      DimTarget(i, j, dim[n - 1].0);
      ParsedAppend(FlatDim(i, j, dim, n - 1), [(DimKey(i, j, dim[n - 1].0), dim[n - 1].1)]);
    }
  }

  // No two parameters of a flattened list clash.

  ghost predicate Apart(a: seq<Parameter>, b: seq<Parameter>, coerce: Coerce) {
    forall x, y :: x in a && y in b ==> !Clash(x, y, coerce)
  }

  lemma NoClashAppend(a: seq<Parameter>, b: seq<Parameter>, coerce: Coerce)
    requires NoClash(a, coerce) && NoClash(b, coerce) && Apart(a, b, coerce)
    ensures NoClash(a + b, coerce)
  {
    hide Clash;
    var ps := a + b;
    forall i, j | 0 <= i < j < |ps| ensures !Clash(ps[i], ps[j], coerce) {
      if i < |a| <= j {
        assert ps[i] in a && ps[j] in b;
      }
    }
  }

  ghost predicate DimsOf(ps: seq<Parameter>, i: nat, n: nat) {
    forall p :: p in ps ==> p.target.DimAt? && p.target.index == i && 1 <= p.target.dim <= n
  }

  lemma {:induction false} DimsNoClash(i: nat, dims: seq<Pairs>, n: nat, coerce: Coerce)
    requires i <= U64_MAX && n <= |dims| <= U64_MAX && forall dim :: dim in dims ==> Distinct(dim)
    ensures var ps := Parsed(FlatDims(i, dims, n)); NoClash(ps, coerce) && DimsOf(ps, i, n)
  {
    hide TargetOf, FlatDim;
    if n == 0 {
    } else {
      var a, b := FlatDims(i, dims, n - 1), FlatDim(i, n, dims[n - 1], |dims[n - 1]|);
      DimsNoClash(i, dims, n - 1, coerce);
      DimTargets(i, n, dims[n - 1], |dims[n - 1]|);
      assert dims[n - 1] in dims;
      NoClashAppend(Parsed(a), Parsed(b), coerce);
      ParsedAppend(a, b);
    }
  }

  lemma DatumNoClash(i: nat, d: Datum, coerce: Coerce)
    requires i <= U64_MAX && Writable(d) && |d.dims| <= U64_MAX
    ensures var ps := Parsed(FlatDatum(i, d));
            NoClash(ps, coerce) && forall p :: p in ps ==> !p.target.Ignored? && p.target.index == i
  {
    hide TargetOf, FlatFields, FlatDims;
    var a, b := FlatFields(i, d.fields, |d.fields|), FlatDims(i, d.dims, |d.dims|);
    FieldTargets(i, d.fields, |d.fields|);
    DimsNoClash(i, d.dims, |d.dims|, coerce);
    NoClashAppend(Parsed(a), Parsed(b), coerce);
    ParsedAppend(a, b);
  }

  lemma {:induction false} FlatNoClash(data: seq<Datum>, n: nat, coerce: Coerce)
    requires InRange(data) && n <= |data|
    ensures var ps := Parsed(Flat(data, n));
            NoClash(ps, coerce) && forall p :: p in ps ==> !p.target.Ignored? && p.target.index <= n
  {
    hide TargetOf, FlatDatum;
    if n == 0 {
    } else {
      FlatNoClash(data, n - 1, coerce);
      DatumNoClash(n, data[n - 1], coerce);
      NoClashAppend(Parsed(Flat(data, n - 1)), Parsed(FlatDatum(n, data[n - 1])), coerce);
      ParsedAppend(Flat(data, n - 1), FlatDatum(n, data[n - 1]));
    }
  }

  // Read in order, a flattened list comes back.

  lemma {:induction false} FoldFields(m: Members, i: nat, fields: Pairs, n: nat, coerce: Coerce)
    requires i !in m && i <= U64_MAX && n <= |fields| && forall p :: p in fields ==> !(DIMENSION <= p.0)
    ensures Fold(m, Parsed(FlatFields(i, fields, n)), coerce) ==
            if n == 0 then m else m[i := Scalars(fields, n, coerce)]
  {
    hide TargetOf, ScalarKey;
    if n > 0 {
      var last := (ScalarKey(i, fields[n - 1].0), fields[n - 1].1);
      FoldFields(m, i, fields, n - 1, coerce);
      FoldMore(m, FlatFields(i, fields, n - 1), [last], coerce);
      FoldOne(Fold(m, Parsed(FlatFields(i, fields, n - 1)), coerce), last, coerce);
      ScalarTarget(i, fields[n - 1].0);
    } else {
      assert Parsed([]) == [];
    }
  }

  function ItemsOf(e: Member): seq<map<string, string>> {
    if DIMENSIONS in e && e[DIMENSIONS].Dims? then e[DIMENSIONS].items else []
  }

  function PutDims(m: Members, i: nat, items: seq<map<string, string>>): Members {
    m[i := EntryOf(m, i)[DIMENSIONS := Dims(items)]]
  }

  ghost predicate NoScalarDims(m: Members, i: nat) {
    DIMENSIONS in EntryOf(m, i) ==> EntryOf(m, i)[DIMENSIONS].Dims?
  }

  lemma PutDimsTwice(m: Members, i: nat, a: seq<map<string, string>>, b: seq<map<string, string>>)
    ensures PutDims(PutDims(m, i, a), i, b) == PutDims(m, i, b)
    ensures ItemsOf(EntryOf(PutDims(m, i, a), i)) == a && NoScalarDims(PutDims(m, i, a), i)
  {
    var e := EntryOf(m, i);
    assert e[DIMENSIONS := Dims(a)][DIMENSIONS := Dims(b)] == e[DIMENSIONS := Dims(b)];
  }

  lemma ApplyDim(m: Members, i: nat, j: nat, p: Parameter, coerce: Coerce)
    requires p.target.DimAt? && p.target.index == i && p.target.dim == j && NoScalarDims(m, i)
    ensures Apply(m, p, coerce) == PutDims(m, i, SetDim(ItemsOf(EntryOf(m, i)), j, p.target.name, p.value))
  {
    hide SetDim;
  }

  lemma {:induction false} FoldDim(m: Members, i: nat, j: nat, dim: Pairs, n: nat, coerce: Coerce)
    requires i <= U64_MAX && 1 <= j <= U64_MAX && n <= |dim|
    requires NoScalarDims(m, i) && |ItemsOf(EntryOf(m, i))| < j
    ensures Fold(m, Parsed(FlatDim(i, j, dim, n)), coerce) ==
            if n == 0 then m else PutDims(m, i, PadTo(ItemsOf(EntryOf(m, i)), j - 1) + [Mapped(dim, n)])
  {
    hide TargetOf, DimKey, SetDim, PadTo, PutDims, Apply, NoScalarDims, ItemsOf;
    if n > 0 {
      var last := (DimKey(i, j, dim[n - 1].0), dim[n - 1].1);
      var items := ItemsOf(EntryOf(m, i));
      var before := Fold(m, Parsed(FlatDim(i, j, dim, n - 1)), coerce);
      FoldDim(m, i, j, dim, n - 1, coerce);
      FoldMore(m, FlatDim(i, j, dim, n - 1), [last], coerce);
      FoldOne(before, last, coerce);
      DimTarget(i, j, dim[n - 1].0);
      FillDim(items, j, dim, n);
      if n > 1 {
        PutDimsTwice(m, i, PadTo(items, j - 1) + [Mapped(dim, n - 1)], PadTo(items, j - 1) + [Mapped(dim, n)]);
      }
      ApplyDim(before, i, j, Parameter(DimAt(i, j, dim[n - 1].0), dim[n - 1].1), coerce);
    } else {
      assert Parsed([]) == [];
    }
  }

  lemma FillDim(items: seq<map<string, string>>, j: nat, dim: Pairs, n: nat)
    requires |items| < j && 1 <= n <= |dim|
    ensures var before := if n == 1 then items else PadTo(items, j - 1) + [Mapped(dim, n - 1)];
            SetDim(before, j, dim[n - 1].0, dim[n - 1].1) == PadTo(items, j - 1) + [Mapped(dim, n)]
  {
    PadLength(items, j - 1);
    PadLength(items, j);
    PadLength(PadTo(items, j - 1) + [Mapped(dim, n - 1)], j);
  }

  lemma {:induction false} SeenIsShort(dims: seq<Pairs>, n: nat)
    requires n <= |dims|
    ensures |SeenDims(dims, n)| <= n
    ensures PadTo(SeenDims(dims, n), n) == AllDims(dims, n)
  {
    PadLength(SeenDims(dims, n), n);
    if n > 0 && dims[n - 1] == [] {
      SeenIsShort(dims, n - 1);
      PadLength(SeenDims(dims, n), n - 1);
      var all := AllDims(dims, n);
      assert all[n - 1] == map[] && all[..n - 1] == AllDims(dims, n - 1);
      assert forall k :: 0 <= k < n - 1 ==> all[k] == all[..n - 1][k];
    }
  }

  lemma {:induction false} FoldDims(m: Members, i: nat, dims: seq<Pairs>, n: nat, coerce: Coerce)
    requires i <= U64_MAX && n <= |dims| <= U64_MAX && DIMENSIONS !in EntryOf(m, i)
    ensures Fold(m, Parsed(FlatDims(i, dims, n)), coerce) ==
            if SeenDims(dims, n) == [] then m else PutDims(m, i, SeenDims(dims, n))
  {
    hide TargetOf, FlatDim, PadTo, PutDims, Parsed, Mapped;
    if n > 0 {
      var seen := SeenDims(dims, n - 1);
      var dim := dims[n - 1];
      FoldDims(m, i, dims, n - 1, coerce);
      var before := Fold(m, Parsed(FlatDims(i, dims, n - 1)), coerce);
      FoldMore(m, FlatDims(i, dims, n - 1), FlatDim(i, n, dim, |dim|), coerce);
      SeenIsShort(dims, n - 1);
      if seen != [] {
        PutDimsTwice(m, i, seen, SeenDims(dims, n));
      }
      assert ItemsOf(EntryOf(before, i)) == seen;
      FoldDim(before, i, n, dim, |dim|, coerce);
    } else {
      NoneParsed();
    }
  }

  lemma NoneParsed()
    ensures Parsed([]) == []
  {
  }

  lemma {:induction false} ScalarsAreNotDimensions(fields: Pairs, n: nat, coerce: Coerce)
    requires n <= |fields| && forall p :: p in fields ==> p.0 != DIMENSIONS
    ensures DIMENSIONS !in Scalars(fields, n, coerce) && (Scalars(fields, n, coerce) == map[] <==> n == 0)
  {
    if n == 0 {
    } else {
      ScalarsAreNotDimensions(fields, n - 1, coerce);
      assert fields[n - 1].0 in Scalars(fields, n, coerce);
    }
  }

  lemma FoldDatum(m: Members, i: nat, d: Datum, coerce: Coerce)
    requires i !in m && i <= U64_MAX && Writable(d) && |d.dims| <= U64_MAX
    ensures Fold(m, Parsed(FlatDatum(i, d)), coerce) ==
            if MemberOf(d, coerce) == map[] then m else m[i := MemberOf(d, coerce)]
  {
    hide TargetOf, FlatFields, FlatDims, SeenDims, Scalars;
    var n := |d.fields|;
    FoldMore(m, FlatFields(i, d.fields, n), FlatDims(i, d.dims, |d.dims|), coerce);
    FoldFields(m, i, d.fields, n, coerce);
    ScalarsAreNotDimensions(d.fields, n, coerce);
    var before := Fold(m, Parsed(FlatFields(i, d.fields, n)), coerce);
    FoldDims(before, i, d.dims, |d.dims|, coerce);
    if SeenDims(d.dims, |d.dims|) != [] {
      assert DIMENSIONS in MemberOf(d, coerce);
    }
  }

  lemma {:induction false} RebuiltKeys(data: seq<Datum>, n: nat, coerce: Coerce)
    requires n <= |data|
    ensures forall i :: i in Rebuilt(data, n, coerce) <==> 1 <= i <= n && MemberOf(data[i - 1], coerce) != map[]
    ensures forall i :: i in Rebuilt(data, n, coerce) ==> Rebuilt(data, n, coerce)[i] == MemberOf(data[i - 1], coerce)
  {
    hide MemberOf;
    if n == 0 {
    } else {
      RebuiltKeys(data, n - 1, coerce);
    }
  }

  lemma {:induction false} FoldFlat(data: seq<Datum>, n: nat, coerce: Coerce)
    requires InRange(data) && n <= |data|
    ensures Fold(map[], Parsed(Flat(data, n)), coerce) == Rebuilt(data, n, coerce)
  {
    hide TargetOf, FlatDatum, MemberOf;
    if n > 0 {
      FoldFlat(data, n - 1, coerce);
      RebuiltKeys(data, n - 1, coerce);
      FoldMore(map[], Flat(data, n - 1), FlatDatum(n, data[n - 1]), coerce);
      FoldDatum(Rebuilt(data, n - 1, coerce), n, data[n - 1], coerce);
    } else {
      assert Parsed([]) == [];
    }
  }

  lemma {:induction false} ParsedKeepsMultiset(a: Pairs, b: Pairs)
    requires multiset(a) == multiset(b)
    ensures multiset(Parsed(a)) == multiset(Parsed(b))
    decreases |a|
  {
    hide TargetOf, Parsed;
    if a == [] {
      assert |multiset(b)| == 0;
      assert b == [];
    } else {
      var k := FindFirstOf(a, b);
      RemoveOne(a, b, k);
      var before, after := b[..k], b[k + 1..];
      ParsedKeepsMultiset(a[1..], before + after);
      ParsedSplit(a, 0);
      assert a[..0] + a[1..] == a[1..];
      ParsedSplit(b, k);
    }
  }

  lemma ParsedSplit(a: Pairs, k: nat)
    requires k < |a|
    ensures multiset(Parsed(a)) ==
            multiset(Parsed(a[..k] + a[k + 1..])) + multiset{Parameter(TargetOf(a[k].0), a[k].1)}
  {
    hide TargetOf;
    var before, after := a[..k], a[k + 1..];
    ParsedAppend(before, after);
    assert Parsed(a) == Parsed(before) + ([Parameter(TargetOf(a[k].0), a[k].1)] + Parsed(after));
  }

  /** The members made from the first n data, those without any parameter left out. */
  function Rebuildable(data: seq<Datum>, n: nat, coerce: Coerce): seq<Member>
    requires n <= |data|
  {
    if n == 0 then []
    else
      var e := MemberOf(data[n - 1], coerce);
      Rebuildable(data, n - 1, coerce) + if e == map[] then [] else [e]
  }

  lemma {:induction false} ListOfRebuilt(data: seq<Datum>, n: nat, coerce: Coerce)
    requires n <= |data|
    ensures IntoValues(Rebuilt(data, n, coerce)) == Rebuildable(data, n, coerce)
  {
    hide MemberOf, IntoValues;
    if n == 0 {
      NothingToList();
    } else {
      ListOfRebuilt(data, n - 1, coerce);
      RebuiltKeys(data, n - 1, coerce);
      GreatestComesLast(Rebuilt(data, n - 1, coerce), n, MemberOf(data[n - 1], coerce));
    }
  }

  lemma NothingToList()
    ensures IntoValues(map[]) == []
  {
  }

  /** Whatever order the flattened parameters are visited in, they come back as the data they were made from: datum
      i under index i, with its coerced fields and its dimensions in order, and listed in that order. */
  lemma Reassembly(data: seq<Datum>, visited: Pairs, coerce: Coerce)
    requires InRange(data) && multiset(visited) == multiset(Flat(data, |data|))
    ensures Fold(map[], Parsed(visited), coerce) == Rebuilt(data, |data|, coerce)
    ensures var m := Fold(map[], Parsed(visited), coerce);
            forall i :: 1 <= i <= |data| && MemberOf(data[i - 1], coerce) != map[] ==>
              i in m && m[i] == MemberOf(data[i - 1], coerce)
    ensures var m := Fold(map[], Parsed(visited), coerce); forall i :: i in m ==> 1 <= i <= |data|
    ensures IntoValues(Fold(map[], Parsed(visited), coerce)) == Rebuildable(data, |data|, coerce)
  {
    hide TargetOf, Flat, MemberOf, Fold, Rebuilt, Parsed, NoClash, InRange, IntoValues, Rebuildable;
    FlatNoClash(data, |data|, coerce);
    ParsedKeepsMultiset(Flat(data, |data|), visited);
    OrderIndependent(map[], Parsed(Flat(data, |data|)), Parsed(visited), coerce);
    FoldFlat(data, |data|, coerce);
    RebuiltKeys(data, |data|, coerce);
    ListOfRebuilt(data, |data|, coerce);
  }

  // ---------------------------------------------------------------------------
  // What a rebuilt member holds
  // ---------------------------------------------------------------------------

  ghost predicate HoldsFields(e: Member, fields: Pairs, coerce: Coerce) {
    && (forall p :: p in fields ==> p.0 in e && e[p.0] == One(coerce(p.1)))
    && (forall k :: k in e && k != DIMENSIONS ==> exists p :: p in fields && p.0 == k)
  }

  /** A map of exactly these pairs. */
  ghost predicate IsMapOf(m: map<string, string>, pairs: Pairs) {
    && (forall p :: p in pairs ==> p.0 in m && m[p.0] == p.1)
    && (forall k :: k in m ==> exists p :: p in pairs && p.0 == k)
  }

  /** The dimensions in order, up to the last that has a parameter. */
  ghost predicate HoldsDims(e: Member, dims: seq<Pairs>) {
    if DIMENSIONS !in e then forall j :: 0 <= j < |dims| ==> dims[j] == []
    else
      && e[DIMENSIONS].Dims?
      && var items := e[DIMENSIONS].items;
      && 0 < |items| <= |dims| && dims[|items| - 1] != []
      && (forall j :: 0 <= j < |items| ==> IsMapOf(items[j], dims[j]))
      && (forall j :: |items| <= j < |dims| ==> dims[j] == [])
  }

  lemma {:induction false} MappedIs(pairs: Pairs, n: nat)
    requires n <= |pairs| && Distinct(pairs)
    ensures IsMapOf(Mapped(pairs, n), pairs[..n])
  {
    if n > 0 {
      MappedIs(pairs, n - 1);
      assert pairs[..n] == pairs[..n - 1] + [pairs[n - 1]];
    }
  }

  lemma {:induction false} AllDimsAt(dims: seq<Pairs>, n: nat)
    requires n <= |dims| && forall dim :: dim in dims ==> Distinct(dim)
    ensures forall j :: 0 <= j < n ==> IsMapOf(AllDims(dims, n)[j], dims[j])
  {
    hide Distinct, IsMapOf;
    if n > 0 {
      AllDimsAt(dims, n - 1);
      assert dims[n - 1] in dims;
      MappedIs(dims[n - 1], |dims[n - 1]|);
      assert dims[n - 1][..|dims[n - 1]|] == dims[n - 1];
    }
  }

  lemma {:induction false} SeenDimsAt(dims: seq<Pairs>, n: nat)
    requires n <= |dims| && forall dim :: dim in dims ==> Distinct(dim)
    ensures var items := SeenDims(dims, n);
            && |items| <= n && (items != [] ==> dims[|items| - 1] != [])
            && (forall j :: 0 <= j < |items| ==> IsMapOf(items[j], dims[j]))
            && (forall j :: |items| <= j < n ==> dims[j] == [])
  {
    hide Distinct, IsMapOf;
    if n > 0 {
      if dims[n - 1] == [] {
        SeenDimsAt(dims, n - 1);
      } else {
        AllDimsAt(dims, n);
      }
    }
  }

  lemma {:induction false} ScalarsHold(fields: Pairs, n: nat, coerce: Coerce)
    requires n <= |fields| && Distinct(fields)
    ensures HoldsFields(Scalars(fields, n, coerce), fields[..n], coerce)
  {
    if n > 0 {
      ScalarsHold(fields, n - 1, coerce);
      assert fields[..n] == fields[..n - 1] + [fields[n - 1]];
    }
  }

  lemma MemberHolds(d: Datum, coerce: Coerce)
    requires Writable(d)
    ensures HoldsFields(MemberOf(d, coerce), d.fields, coerce) && HoldsDims(MemberOf(d, coerce), d.dims)
  {
    hide Scalars, SeenDims, Distinct, IsMapOf;
    var n := |d.fields|;
    ScalarsHold(d.fields, n, coerce);
    assert d.fields[..n] == d.fields;
    SeenDimsAt(d.dims, |d.dims|);
    ScalarsAreNotDimensions(d.fields, n, coerce);
  }

  ghost predicate IsBare(d: Datum) {
    d.fields == [] && forall dim :: dim in d.dims ==> dim == []
  }

  lemma MemberShows(d: Datum, coerce: Coerce)
    requires Writable(d) && !IsBare(d)
    ensures MemberOf(d, coerce) != map[]
  {
    hide MemberOf;
    MemberHolds(d, coerce);
    var e := MemberOf(d, coerce);
    if d.fields != [] {
      assert d.fields[0] in d.fields && d.fields[0].0 in e;
    } else {
      var dim :| dim in d.dims && dim != [];
      var j :| 0 <= j < |d.dims| && d.dims[j] == dim;
      assert DIMENSIONS in e;
    }
  }

  lemma {:induction false} NoneLeftOut(data: seq<Datum>, n: nat, coerce: Coerce)
    requires n <= |data| && forall i :: 0 <= i < n ==> MemberOf(data[i], coerce) != map[]
    ensures var list := Rebuildable(data, n, coerce);
            |list| == n && forall i :: 0 <= i < n ==> list[i] == MemberOf(data[i], coerce)
  {
    hide MemberOf;
    if n > 0 {
      NoneLeftOut(data, n - 1, coerce);
    }
  }

  /** Data none of which is bare come back, whatever the order of the parameters, as a list of as many members, member i
      holding exactly the coerced fields and the dimensions of datum i. */
  lemma EachComesBack(data: seq<Datum>, visited: Pairs, coerce: Coerce)
    requires InRange(data) && multiset(visited) == multiset(Flat(data, |data|))
    requires forall d :: d in data ==> !IsBare(d)
    ensures var list := IntoValues(Fold(map[], Parsed(visited), coerce));
            |list| == |data| && forall i :: 0 <= i < |data| ==>
              HoldsFields(list[i], data[i].fields, coerce) && HoldsDims(list[i], data[i].dims)
  {
    hide Flat, MemberOf, Fold, Parsed, IntoValues, Rebuildable, Writable, HoldsFields, HoldsDims, IsBare, Rebuilt;
    Reassembly(data, visited, coerce);
    forall i | 0 <= i < |data|
      ensures MemberOf(data[i], coerce) != map[]
      ensures HoldsFields(MemberOf(data[i], coerce), data[i].fields, coerce)
      ensures HoldsDims(MemberOf(data[i], coerce), data[i].dims)
    {
      assert data[i] in data;
      MemberHolds(data[i], coerce);
      MemberShows(data[i], coerce);
    }
    NoneLeftOut(data, |data|, coerce);
  }

  // ---------------------------------------------------------------------------
  // Keys that say less
  // ---------------------------------------------------------------------------

  /** A parameter that is not metric data, has no field, or whose index is no number, is passed over. */
  lemma PassedOver(m: Members, key: string, value: string, coerce: Coerce)
    requires !(MEMBER <= key) ||
             var rest := key[|MEMBER|..];
             Absent(rest, ".") ||
             exists index, field :: rest == index + "." + field && Absent(index, ".") && Parse(index, U64_MAX) == None
    ensures Apply(m, Parameter(TargetOf(key), value), coerce) == m
  {
    hide Parse, Cut;
    if MEMBER <= key {
      var rest := key[|MEMBER|..];
      if Absent(rest, ".") {
        CutNothing(rest, ".");
      } else {
        var index, field :|
          rest == index + "." + field && Absent(index, ".") && Parse(index, U64_MAX) == None;
        CutAtDot(index, field);
      }
    }
  }

  lemma CutAtDot(head: string, tail: string)
    requires Absent(head, ".")
    ensures Cut(head + "." + tail, ".") == Some((head, tail))
  {
    forall k: nat | k < |head| ensures !IsAt(head + ".", ".", k) {
      assert (head + ".")[k..k + 1] == head[k..k + 1];
      assert !IsAt(head, ".", k);
    }
    CutAtFirst(head, ".", tail);
  }

  /** A dimension without a name, or whose number is none, only makes sure that its member is there. */
  lemma OnlyTouches(m: Members, i: nat, rest: string, value: string, coerce: Coerce)
    requires i <= U64_MAX
    requires Absent(rest, ".") ||
             exists dim, name :: rest == dim + "." + name && Absent(dim, ".") && Parse(dim, U64_MAX) == None
    ensures Apply(m, Parameter(TargetOf(ScalarKey(i, DIMENSION + rest)), value), coerce)
         == m[i := if i in m then m[i] else map[]]
  {
    hide Parse, Cut, Print;
    var field := DIMENSION + rest;
    assert ScalarKey(i, field) == MEMBER + (Print(i) + "." + field);
    assert ScalarKey(i, field)[|MEMBER|..] == Print(i) + "." + field && field[|DIMENSION|..] == rest;
    CutNumber(i, field);
    ParseOfPrint(i, U64_MAX);
    if Absent(rest, ".") {
      CutNothing(rest, ".");
    } else {
      var dim, name :| rest == dim + "." + name && Absent(dim, ".") && Parse(dim, U64_MAX) == None;
      CutAtDot(dim, name);
    }
  }
}
