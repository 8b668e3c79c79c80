/** The two escapers of XML text: five replacements one after the other, and one pass. */
module XmlEscape {
  import opened Text

  predicate IsSpecial(c: char) {
    c == '&' || c == '<' || c == '>' || c == '"' || c == '\''
  }

  /** The predefined entities, section 4.6 of XML 1.0. */
  function Entity(c: char): string
    requires IsSpecial(c)
  {
    if c == '&' then "&amp;"
    else if c == '<' then "&lt;"
    else if c == '>' then "&gt;"
    else if c == '"' then "&quot;"
    else "&apos;"
  }

  function EscapeChar(c: char): string {
    if IsSpecial(c) then Entity(c) else [c]
  }

  function Escape(s: string): string {
    if s == [] then [] else EscapeChar(s[0]) + Escape(s[1..])
  }

  function EscapeXml(s: string): string {
    var s1 := Replace(s, "&", "&amp;");
    var s2 := Replace(s1, "<", "&lt;");
    var s3 := Replace(s2, ">", "&gt;");
    var s4 := Replace(s3, "\"", "&quot;");
    Replace(s4, "'", "&apos;")
  }

  /** What a reader does: each predefined entity stands for its character. */
  function Unescape(s: string): string
    decreases |s|
  {
    if s == [] then []
    else if "&amp;" <= s then "&" + Unescape(s[5..])
    else if "&lt;" <= s then "<" + Unescape(s[4..])
    else if "&gt;" <= s then ">" + Unescape(s[4..])
    else if "&quot;" <= s then "\"" + Unescape(s[6..])
    else if "&apos;" <= s then "'" + Unescape(s[6..])
    else [s[0]] + Unescape(s[1..])
  }

  datatype Cow = Borrowed(text: string) | Owned(text: string)

  /** `xml_escape`: a text with nothing to escape is handed back as it is. */
  method XmlEscape(s: string) returns (r: Cow)
    ensures r.text == Escape(s)
    ensures r.Borrowed? <==> forall c :: c in s ==> !IsSpecial(c)
  {
    hide EscapeChar;
    if !exists c :: c in s && IsSpecial(c) {
      NothingToEscape(s);
      return Borrowed(s);
    }
    var out := [];
    assert s[0..] == s;
    for i := 0 to |s|
      invariant out + Escape(s[i..]) == Escape(s)
    {
      assert s[i..][1..] == s[i + 1..];
      out := out + EscapeChar(s[i]);
    }
    assert Escape(s[|s|..]) == [];
    return Owned(out);
  }

  lemma {:induction false} NothingToEscape(s: string)
    requires forall k :: 0 <= k < |s| ==> !IsSpecial(s[k])
    ensures Escape(s) == s
  {
    if s == [] {
    } else {
      NothingToEscape(s[1..]);
    }
  }

  // ---------------------------------------------------------------------------
  // Sequential replacement is the one pass
  // ---------------------------------------------------------------------------

  lemma {:induction false} ReplaceOfAppend(c: char, value: string, s: string, t: string)
    ensures Replace(s + t, [c], value) == Replace(s, [c], value) + Replace(t, [c], value)
  {
    if s == [] {
      assert s + t == t;
    } else {
      assert (s + t)[1..] == s[1..] + t;
      ReplaceOfAppend(c, value, s[1..], t);
    }
  }

  lemma {:induction false} ReplaceAbsent(c: char, value: string, s: string)
    requires c !in s
    ensures Replace(s, [c], value) == s
  {
    if s == [] {
    } else {
      assert s[0] in s && (forall x :: x in s[1..] ==> x in s);
      ReplaceAbsent(c, value, s[1..]);
    }
  }

  lemma ReplaceOfOne(c: char, value: string)
    ensures Replace([c], [c], value) == value
  {
    assert [c][1..] == [];
  }

  lemma EscapeXmlOfAppend(s: string, t: string)
    ensures EscapeXml(s + t) == EscapeXml(s) + EscapeXml(t)
  {
    hide Replace;
    var s1, t1 := Replace(s, "&", "&amp;"), Replace(t, "&", "&amp;");
    var s2, t2 := Replace(s1, "<", "&lt;"), Replace(t1, "<", "&lt;");
    var s3, t3 := Replace(s2, ">", "&gt;"), Replace(t2, ">", "&gt;");
    var s4, t4 := Replace(s3, "\"", "&quot;"), Replace(t3, "\"", "&quot;");
    ReplaceOfAppend('&', "&amp;", s, t);
    ReplaceOfAppend('<', "&lt;", s1, t1);
    ReplaceOfAppend('>', "&gt;", s2, t2);
    ReplaceOfAppend('"', "&quot;", s3, t3);
    ReplaceOfAppend('\'', "&apos;", s4, t4);
  }

  /** One of the five replacements, on a text with a single character. */
  lemma ReplaceAround(c: char, value: string, s: string)
    requires s == [c] || c !in s
    ensures Replace(s, [c], value) == if s == [c] then value else s
  {
    if s == [c] {
      ReplaceOfOne(c, value);
    } else {
      ReplaceAbsent(c, value, s);
    }
  }

  lemma EscapeXmlOfOne(c: char)
    ensures EscapeXml([c]) == EscapeChar(c)
  {
    hide Replace;
    var s1 := Replace([c], "&", "&amp;");
    ReplaceAround('&', "&amp;", [c]);
    var s2 := Replace(s1, "<", "&lt;");
    ReplaceAround('<', "&lt;", s1);
    var s3 := Replace(s2, ">", "&gt;");
    ReplaceAround('>', "&gt;", s2);
    var s4 := Replace(s3, "\"", "&quot;");
    ReplaceAround('"', "&quot;", s3);
    ReplaceAround('\'', "&apos;", s4);
  }

  /** The five sequential replacements equal the one pass, on every text. */
  lemma {:induction false} SequentialIsOnePass(s: string)
    ensures EscapeXml(s) == Escape(s)
  {
    hide EscapeXml, EscapeChar;
    if s == [] {
      EmptyStays();
    } else {
      assert s == [s[0]] + s[1..];
      EscapeXmlOfAppend([s[0]], s[1..]);
      EscapeXmlOfOne(s[0]);
      SequentialIsOnePass(s[1..]);
    }
  }

  lemma EmptyStays()
    ensures EscapeXml([]) == []
  {
  }

  // ---------------------------------------------------------------------------
  // Decoding
  // ---------------------------------------------------------------------------

  lemma UnescapeEntity(c: char, t: string)
    ensures Unescape(EscapeChar(c) + t) == [c] + Unescape(t)
  {
    if IsSpecial(c) {
      UnescapeSpecial(c, t);
    } else {
      var s := [c] + t;
      assert s[0] == c && s[1..] == t && EscapeChar(c) == [c];
    }
  }

  lemma UnescapeSpecial(c: char, t: string)
    requires IsSpecial(c)
    ensures Unescape(Entity(c) + t) == [c] + Unescape(t)
  {
    var e := Entity(c);
    var s := e + t;
    assert e <= s && s[|e|..] == t;
    forall d | IsSpecial(d) && d != c ensures !(Entity(d) <= s) {
      EntitiesDiffer(c, d, s);
    }
    assert !("&amp;" <= s) || c == '&' by { assert Entity('&') == "&amp;"; }
    assert !("&lt;" <= s) || c == '<' by { assert Entity('<') == "&lt;"; }
    assert !("&gt;" <= s) || c == '>' by { assert Entity('>') == "&gt;"; }
    assert !("&quot;" <= s) || c == '"' by { assert Entity('"') == "&quot;"; }
    assert !("&apos;" <= s) || c == '\'' by { assert Entity('\'') == "&apos;"; }
  }

  lemma EntitiesDiffer(c: char, d: char, s: string)
    requires IsSpecial(c) && IsSpecial(d) && c != d && Entity(c) <= s
    ensures !(Entity(d) <= s)
  {
    assert s[1] == Entity(c)[1] && s[2] == Entity(c)[2];
    assert Entity(c)[1] != Entity(d)[1] || Entity(c)[2] != Entity(d)[2];
  }

  /** Decoding the predefined entities gives the text back, so no two texts are escaped alike. */
  lemma {:induction false} UnescapeInverts(s: string)
    ensures Unescape(Escape(s)) == s && Unescape(EscapeXml(s)) == s
  {
    hide Unescape, EscapeXml, EscapeChar;
    SequentialIsOnePass(s);
    if s == [] {
      EmptyDecodes();
    } else {
      UnescapeInverts(s[1..]);
      UnescapeEntity(s[0], Escape(s[1..]));
    }
  }

  lemma EmptyDecodes()
    ensures Unescape([]) == []
  {
  }

  /** No markup survives, and every ampersand begins a predefined entity. */
  lemma {:induction false} NoMarkupSurvives(s: string, i: nat)
    requires i < |Escape(s)|
    ensures var e := Escape(s);
            e[i] != '<' && e[i] != '>' && e[i] != '"' && e[i] != '\''
            && (e[i] == '&' ==> exists c :: IsSpecial(c) && Entity(c) <= e[i..])
  {
    var e, first := Escape(s), EscapeChar(s[0]);
    if i < |first| {
      assert e[i] == first[i];
      if i == 0 {
        assert e[0..] == e && first <= e;
      }
    } else {
      NoMarkupSurvives(s[1..], i - |first|);
      assert e[i..] == Escape(s[1..])[i - |first|..];
    }
  }

  /** Each special character becomes its own entity. */
  lemma EntityTable()
    ensures Escape("&") == "&amp;" && Escape("<") == "&lt;" && Escape(">") == "&gt;"
    ensures Escape("\"") == "&quot;" && Escape("'") == "&apos;"
  {
    assert Escape([]) == [];
  }
}
