/** Result shapes, bounds and small facts that several components share. */
module Base {
  datatype Option<+T> = None | Some(value: T)

  datatype Result<+T, +E> = Ok(value: T) | Err(error: E)

  /** The greatest value of a 64-bit counter or index. */
  const U64_MAX: nat := 0xFFFF_FFFF_FFFF_FFFF

  function Min(a: nat, b: nat): nat {
    if a < b then a else b
  }

  function Max(a: nat, b: nat): nat {
    if a < b then b else a
  }

  /** Taking one occurrence of the first element out of a permutation. */
  lemma RemoveOne<T>(s: seq<T>, t: seq<T>, k: nat)
    requires s != [] && multiset(s) == multiset(t) && k < |t| && t[k] == s[0]
    ensures multiset(t[..k] + t[k + 1..]) == multiset(s[1..])
  {
    var before, after, x := t[..k], t[k + 1..], s[0];
    assert s == [x] + s[1..];
    assert t == before + ([x] + after);
    assert multiset(t) == multiset(before) + (multiset{x} + multiset(after));
    assert multiset(s) == multiset{x} + multiset(s[1..]);
    forall y ensures multiset(before + after)[y] == multiset(s[1..])[y] {
      assert multiset(t)[y] == multiset(s)[y];
    }
  }

  lemma FindFirstOf<T>(s: seq<T>, t: seq<T>) returns (k: nat)
    requires s != [] && multiset(s) == multiset(t)
    ensures k < |t| && t[k] == s[0]
  {
    assert s[0] in multiset(s);
    assert s[0] in multiset(t);
    k :| 0 <= k < |t| && t[k] == s[0];
  }
}
