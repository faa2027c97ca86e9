/** escapeHtml and escapeAttribute from the front end: chains of global
    single-character String.replace calls. */
module Escape {
  import opened Text

  /** s.replace(/c/g, rep): every c in s becomes rep, every other character stays. */
  function ReplaceAll(s: string, c: char, rep: string): string
  {
    if s == [] then []
    else (if s[0] == c then rep else [s[0]]) + ReplaceAll(s[1..], c, rep)
  }

  /** Replacing in a concatenation is replacing in each part. */
  lemma {:induction false} ReplaceAllAppend(a: string, b: string, c: char, rep: string)
    ensures ReplaceAll(a + b, c, rep) == ReplaceAll(a, c, rep) + ReplaceAll(b, c, rep)
    decreases |a|
  {
    if a == [] {
      assert a + b == b;
    } else {
      var h := if a[0] == c then rep else [a[0]];
      assert (a + b)[0] == a[0];
      assert (a + b)[1..] == a[1..] + b;
      ReplaceAllAppend(a[1..], b, c, rep);
      assert ReplaceAll(a + b, c, rep) == h + ReplaceAll(a[1..] + b, c, rep);
    }
  }

  /** A character that does not occur is not replaced. */
  lemma {:induction false} ReplaceAllAbsent(s: string, c: char, rep: string)
    requires c !in s
    ensures ReplaceAll(s, c, rep) == s
    decreases |s|
  {
    if s != [] {
      ReplaceAllAbsent(s[1..], c, rep);
      assert s == [s[0]] + s[1..];
    }
  }

  /** A replacement that does not hold c leaves no c behind. */
  lemma {:induction false} ReplaceAllRemoves(s: string, c: char, rep: string)
    requires c !in rep
    ensures c !in ReplaceAll(s, c, rep)
    decreases |s|
  {
    if s != [] {
      ReplaceAllRemoves(s[1..], c, rep);
    }
  }

  /** Replacing in a one-character string. */
  lemma ReplaceAllOne(d: char, c: char, rep: string)
    ensures ReplaceAll([d], c, rep) == if d == c then rep else [d]
  {
    assert [d][1..] == [];
  }

  /** escapeHtml: `&` first, so that no entity produced by a later step is escaped again. */
  function EscapeHtml(s: string): string
  {
    ReplaceAll(ReplaceAll(ReplaceAll(ReplaceAll(ReplaceAll(
      s, '&', "&amp;"), '<', "&lt;"), '>', "&gt;"), '"', "&quot;"), '\'', "&#039;")
  }

  /** The entity escapeHtml writes for one character. */
  function EscapeChar(c: char): (r: string)
    ensures r != []
  {
    if c == '&' then "&amp;"
    else if c == '<' then "&lt;"
    else if c == '>' then "&gt;"
    else if c == '"' then "&quot;"
    else if c == '\'' then "&#039;"
    else [c]
  }

  /** The reference definition: each character replaced by its own entity, in order. */
  function EscapeEach(s: string): string
  {
    if s == [] then [] else EscapeChar(s[0]) + EscapeEach(s[1..])
  }

  /** The five characters escapeHtml removes from the text. */
  predicate IsSpecial(c: char)
  {
    c == '&' || c == '<' || c == '>' || c == '"' || c == '\''
  }

  /** The chain on `&`: the first step writes `&amp;`, which no later step touches. */
  lemma EscapeHtmlAmp(c: char)
    requires c == '&'
    ensures EscapeHtml([c]) == "&amp;"
  {
    var s1 := ReplaceAll([c], '&', "&amp;");
    var s2 := ReplaceAll(s1, '<', "&lt;");
    var s3 := ReplaceAll(s2, '>', "&gt;");
    var s4 := ReplaceAll(s3, '"', "&quot;");
    ReplaceAllOne(c, '&', "&amp;");
    assert '<' !in "&amp;" && '>' !in "&amp;" && '"' !in "&amp;" && '\'' !in "&amp;";
    ReplaceAllAbsent(s1, '<', "&lt;");
    ReplaceAllAbsent(s2, '>', "&gt;");
    ReplaceAllAbsent(s3, '"', "&quot;");
    ReplaceAllAbsent(s4, '\'', "&#039;");
  }

  /** The chain on `<`. */
  lemma EscapeHtmlLt(c: char)
    requires c == '<'
    ensures EscapeHtml([c]) == "&lt;"
  {
    var s1 := ReplaceAll([c], '&', "&amp;");
    var s2 := ReplaceAll(s1, '<', "&lt;");
    var s3 := ReplaceAll(s2, '>', "&gt;");
    var s4 := ReplaceAll(s3, '"', "&quot;");
    ReplaceAllOne(c, '&', "&amp;");
    ReplaceAllOne(c, '<', "&lt;");
    assert '>' !in "&lt;" && '"' !in "&lt;" && '\'' !in "&lt;";
    ReplaceAllAbsent(s2, '>', "&gt;");
    ReplaceAllAbsent(s3, '"', "&quot;");
    ReplaceAllAbsent(s4, '\'', "&#039;");
  }

  /** The chain on `>`. */
  lemma EscapeHtmlGt(c: char)
    requires c == '>'
    ensures EscapeHtml([c]) == "&gt;"
  {
    var s1 := ReplaceAll([c], '&', "&amp;");
    var s2 := ReplaceAll(s1, '<', "&lt;");
    var s3 := ReplaceAll(s2, '>', "&gt;");
    var s4 := ReplaceAll(s3, '"', "&quot;");
    ReplaceAllOne(c, '&', "&amp;");
    ReplaceAllOne(c, '<', "&lt;");
    ReplaceAllOne(c, '>', "&gt;");
    assert '"' !in "&gt;" && '\'' !in "&gt;";
    ReplaceAllAbsent(s3, '"', "&quot;");
    ReplaceAllAbsent(s4, '\'', "&#039;");
  }

  /** The chain on any other character: only the step for that character, if
      any, changes it, and it is the last step to look at it. */
  lemma EscapeHtmlOther(c: char)
    requires c != '&' && c != '<' && c != '>'
    ensures EscapeHtml([c]) == EscapeChar(c)
  {
    var s3 := ReplaceAll(ReplaceAll(ReplaceAll([c], '&', "&amp;"), '<', "&lt;"), '>', "&gt;");
    var s4 := ReplaceAll(s3, '"', "&quot;");
    ReplaceAllOne(c, '&', "&amp;");
    ReplaceAllOne(c, '<', "&lt;");
    ReplaceAllOne(c, '>', "&gt;");
    ReplaceAllOne(c, '"', "&quot;");
    if c == '"' {
      assert '\'' !in "&quot;";
      ReplaceAllAbsent(s4, '\'', "&#039;");
    } else {
      ReplaceAllOne(c, '\'', "&#039;");
    }
  }

  /** The five replacements, applied in the chain's order to one character. */
  lemma EscapeHtmlChar(c: char)
    ensures EscapeHtml([c]) == EscapeChar(c)
  {
    if c == '&' {
      EscapeHtmlAmp(c);
    } else if c == '<' {
      EscapeHtmlLt(c);
    } else if c == '>' {
      EscapeHtmlGt(c);
    } else {
      EscapeHtmlOther(c);
    }
  }

  /** The chain escapes a concatenation part by part. */
  lemma EscapeHtmlAppend(a: string, b: string)
    ensures EscapeHtml(a + b) == EscapeHtml(a) + EscapeHtml(b)
  {
    ReplaceAllAppend(a, b, '&', "&amp;");
    var a1, b1 := ReplaceAll(a, '&', "&amp;"), ReplaceAll(b, '&', "&amp;");
    ReplaceAllAppend(a1, b1, '<', "&lt;");
    var a2, b2 := ReplaceAll(a1, '<', "&lt;"), ReplaceAll(b1, '<', "&lt;");
    ReplaceAllAppend(a2, b2, '>', "&gt;");
    var a3, b3 := ReplaceAll(a2, '>', "&gt;"), ReplaceAll(b2, '>', "&gt;");
    ReplaceAllAppend(a3, b3, '"', "&quot;");
    var a4, b4 := ReplaceAll(a3, '"', "&quot;"), ReplaceAll(b3, '"', "&quot;");
    ReplaceAllAppend(a4, b4, '\'', "&#039;");
  }

  /** The chain of replacements is the character-by-character escape. */
  lemma {:induction false} EscapeHtmlIsEscapeEach(s: string)
    ensures EscapeHtml(s) == EscapeEach(s)
    decreases |s|
  {
    if s != [] {
      assert s == [s[0]] + s[1..];
      EscapeHtmlAppend([s[0]], s[1..]);
      EscapeHtmlChar(s[0]);
      EscapeHtmlIsEscapeEach(s[1..]);
    }
  }

  /** The entity of one character holds none of `<`, `>`, `"` and `'`. */
  lemma EscapeCharClean(c: char)
    ensures var e := EscapeChar(c); '<' !in e && '>' !in e && '"' !in e && '\'' !in e
  {
  }

  /** No `<`, `>`, `"` or `'` is left in the escaped text. */
  lemma {:induction false} EscapeEachHasNoSpecials(s: string)
    ensures var r := EscapeEach(s);
      '<' !in r && '>' !in r && '"' !in r && '\'' !in r
    decreases |s|
  {
    if s != [] {
      EscapeEachHasNoSpecials(s[1..]);
      EscapeCharClean(s[0]);
      var e, rest := EscapeChar(s[0]), EscapeEach(s[1..]);
      assert EscapeEach(s) == e + rest;
    }
  }

  lemma EscapeHtmlHasNoSpecials(s: string)
    ensures var r := EscapeHtml(s);
      '<' !in r && '>' !in r && '"' !in r && '\'' !in r
  {
    EscapeHtmlIsEscapeEach(s);
    EscapeEachHasNoSpecials(s);
  }

  /** Does one of the five entities start at offset k of r? */
  predicate EntityAt(r: string, k: nat)
  {
    exists c | IsSpecial(c) :: k + |EscapeChar(c)| <= |r| && r[k..k + |EscapeChar(c)|] == EscapeChar(c)
  }

  /** An entity found at the front of a string is still found when text is put before it. */
  lemma EntityAtShift(e: string, rest: string, k: nat)
    requires EntityAt(rest, k)
    ensures EntityAt(e + rest, |e| + k)
  {
    var c :| IsSpecial(c) && k + |EscapeChar(c)| <= |rest| && rest[k..k + |EscapeChar(c)|] == EscapeChar(c);
    var n := |EscapeChar(c)|;
    assert (e + rest)[|e| + k..|e| + k + n] == rest[k..k + n];
  }

  /** Every `&` of the escaped text begins `&amp;`, `&lt;`, `&gt;`, `&quot;` or `&#039;`. */
  lemma {:induction false} EscapeEachAmpersands(s: string)
    ensures forall k | 0 <= k < |EscapeEach(s)| && EscapeEach(s)[k] == '&' :: EntityAt(EscapeEach(s), k)
    decreases |s|
  {
    if s != [] {
      var e, rest := EscapeChar(s[0]), EscapeEach(s[1..]);
      var r := EscapeEach(s);
      assert r == e + rest;
      EscapeEachAmpersands(s[1..]);
      forall k | 0 <= k < |r| && r[k] == '&' ensures EntityAt(r, k) {
        if k < |e| {
          assert e[k] == '&';
          assert k == 0 && IsSpecial(s[0]);
          assert r[0..|e|] == e;
        } else {
          assert rest[k - |e|] == '&';
          EntityAtShift(e, rest, k - |e|);
        }
      }
    }
  }

  lemma EscapeHtmlAmpersands(s: string)
    ensures var r := EscapeHtml(s);
      forall k | 0 <= k < |r| && r[k] == '&' :: EntityAt(r, k)
  {
    EscapeHtmlIsEscapeEach(s);
    EscapeEachAmpersands(s);
  }

  /** The character whose entity begins r, if one does. The entities differ in
      their second character, which picks the one to compare. */
  function LeadingEntity(r: string): (e: Option<char>)
    ensures e.Some? ==> IsSpecial(e.value) && |EscapeChar(e.value)| <= |r|
  {
    if |r| < 4 || r[0] != '&' then None
    else if r[1] == 'a' then (if |r| >= 5 && r[..5] == "&amp;" then Some('&') else None)
    else if r[1] == 'l' then (if r[..4] == "&lt;" then Some('<') else None)
    else if r[1] == 'g' then (if r[..4] == "&gt;" then Some('>') else None)
    else if r[1] == 'q' then (if |r| >= 6 && r[..6] == "&quot;" then Some('"') else None)
    else if r[1] == '#' then (if |r| >= 6 && r[..6] == "&#039;" then Some('\'') else None)
    else None
  }

  /** Replaces each of the five entities by its character, left to right, and keeps
      every other character. */
  function Unescape(r: string): string
    decreases |r|
  {
    if r == [] then []
    else match LeadingEntity(r)
      case Some(c) => [c] + Unescape(r[|EscapeChar(c)|..])
      case None => [r[0]] + Unescape(r[1..])
  }

  /** Unescaping after one escaped character gives that character back. */
  lemma UnescapeChar(c: char, rest: string)
    ensures Unescape(EscapeChar(c) + rest) == [c] + Unescape(rest)
  {
    var e := EscapeChar(c);
    var r := e + rest;
    assert r[..|e|] == e && r[|e|..] == rest;
    if IsSpecial(c) {
      assert r[0] == '&' && r[1] == e[1];
      assert LeadingEntity(r) == Some(c);
    } else {
      assert r[0] == c;
      assert r[1..] == rest;
    }
  }

  /** Unescaping inverts escapeHtml. */
  lemma {:induction false} UnescapeEscapeEach(s: string)
    ensures Unescape(EscapeEach(s)) == s
    decreases |s|
  {
    if s != [] {
      UnescapeChar(s[0], EscapeEach(s[1..]));
      UnescapeEscapeEach(s[1..]);
      assert s == [s[0]] + s[1..];
    }
  }

  lemma UnescapeEscapeHtml(s: string)
    ensures Unescape(EscapeHtml(s)) == s
  {
    EscapeHtmlIsEscapeEach(s);
    UnescapeEscapeEach(s);
  }

  /** escapeAttribute: every `"` becomes `%22`. */
  function EscapeAttribute(url: string): string
  {
    ReplaceAll(url, '"', "%22")
  }

  /** How many times c occurs in s. */
  function Count(s: string, c: char): nat
  {
    if s == [] then 0 else (if s[0] == c then 1 else 0) + Count(s[1..], c)
  }

  /** The result has no `"`, is two characters longer per `"`, and is the input
      itself when there was none. */
  lemma {:induction false} EscapeAttributeQuotes(url: string)
    ensures var r := EscapeAttribute(url);
      '"' !in r && |r| == |url| + 2 * Count(url, '"') && ('"' !in url ==> r == url)
    decreases |url|
  {
    ReplaceAllRemoves(url, '"', "%22");
    if '"' !in url {
      ReplaceAllAbsent(url, '"', "%22");
    }
    if url != [] {
      EscapeAttributeQuotes(url[1..]);
    }
  }

  /** Replaces each `%22` by `"`, left to right, and keeps every other character. */
  function UnescapeAttribute(r: string): string
  {
    if r == [] then []
    else if |r| >= 3 && r[..3] == "%22" then "\"" + UnescapeAttribute(r[3..])
    else [r[0]] + UnescapeAttribute(r[1..])
  }

  /** On text without `%`, escapeAttribute is undone by turning `%22` back into `"`. */
  lemma {:induction false} UnescapeEscapeAttribute(url: string)
    requires '%' !in url
    ensures UnescapeAttribute(EscapeAttribute(url)) == url
    decreases |url|
  {
    if url != [] {
      var rest := EscapeAttribute(url[1..]);
      UnescapeEscapeAttribute(url[1..]);
      var r := EscapeAttribute(url);
      if url[0] == '"' {
        assert r == "%22" + rest;
        assert r[..3] == "%22" && r[3..] == rest;
      } else {
        assert r == [url[0]] + rest;
        assert r[..1] == [url[0]];
        assert r[1..] == rest;
      }
      assert url == [url[0]] + url[1..];
    }
  }
}
