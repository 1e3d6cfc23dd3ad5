/**
 * `escapeHtml`: the text a quote list row is built from is passed through
 * four global replacements, `&` first, then `<`, `>` and `"`.
 */
module Html {

  /**
   * `str.replace(/c/g, rep)` for a pattern that is one literal character and a
   * replacement text without `$` (JavaScript expands `$` patterns such as `$&`).
   */
  function ReplaceAll(s: string, c: char, rep: string): (r: string)
    requires '$' !in rep
    ensures c !in rep ==> c !in r
    ensures c !in s ==> r == s
  {
    if s == [] then []
    else (if s[0] == c then rep else [s[0]]) + ReplaceAll(s[1..], c, rep)
  }

  lemma {:induction false} ReplaceAllAppend(a: string, b: string, c: char, rep: string)
    requires '$' !in rep
    ensures ReplaceAll(a + b, c, rep) == ReplaceAll(a, c, rep) + ReplaceAll(b, c, rep)
  {
    if a != [] {
      assert (a + b)[0] == a[0];
      assert (a + b)[1..] == a[1..] + b;
      ReplaceAllAppend(a[1..], b, c, rep);
      var h := if a[0] == c then rep else [a[0]];
      assert ReplaceAll(a + b, c, rep) == h + ReplaceAll(a[1..] + b, c, rep);
      assert ReplaceAll(a, c, rep) == h + ReplaceAll(a[1..], c, rep);
    } else {
      assert a + b == b;
    }
  }

  /** A replace introduces no character other than those of the replacement. */
  lemma {:induction false} ReplaceAllOnlyAdds(s: string, c: char, rep: string, d: char)
    requires d != c && d !in rep && '$' !in rep
    ensures d in ReplaceAll(s, c, rep) ==> d in s
  {
    if s != [] {
      ReplaceAllOnlyAdds(s[1..], c, rep, d);
      if d in ReplaceAll(s, c, rep) && d != s[0] {
        assert d in ReplaceAll(s[1..], c, rep);
      }
    }
  }

  /** The four characters `escapeHtml` rewrites. */
  predicate IsSpecial(c: char) {
    c == '&' || c == '<' || c == '>' || c == '"'
  }

  /** The escaping pipeline exactly as chained in the source. */
  function EscapeHtml(s: string): (r: string)
    ensures '<' !in r && '>' !in r && '"' !in r
    ensures (forall i :: 0 <= i < |s| ==> !IsSpecial(s[i])) ==> r == s
  {
    var amp := ReplaceAll(s, '&', "&amp;");
    var lt := ReplaceAll(amp, '<', "&lt;");
    var gt := ReplaceAll(lt, '>', "&gt;");
    ReplaceAllOnlyAdds(lt, '>', "&gt;", '<');
    ReplaceAllOnlyAdds(gt, '"', "&quot;", '<');
    ReplaceAllOnlyAdds(gt, '"', "&quot;", '>');
    ReplaceAll(gt, '"', "&quot;")
  }

  /** The entity one character is written as. */
  function EscapeChar(c: char): string {
    match c
    case '&' => "&amp;"
    case '<' => "&lt;"
    case '>' => "&gt;"
    case '"' => "&quot;"
    case _ => [c]
  }

  /** Reference definition: every character replaced by its entity in a single pass. */
  function EscapeEach(s: string): string {
    if s == [] then [] else EscapeChar(s[0]) + EscapeEach(s[1..])
  }

  lemma EscapeHtmlAppend(a: string, b: string)
    ensures EscapeHtml(a + b) == EscapeHtml(a) + EscapeHtml(b)
  {
    var a1, b1 := ReplaceAll(a, '&', "&amp;"), ReplaceAll(b, '&', "&amp;");
    ReplaceAllAppend(a, b, '&', "&amp;");
    var a2, b2 := ReplaceAll(a1, '<', "&lt;"), ReplaceAll(b1, '<', "&lt;");
    ReplaceAllAppend(a1, b1, '<', "&lt;");
    var a3, b3 := ReplaceAll(a2, '>', "&gt;"), ReplaceAll(b2, '>', "&gt;");
    ReplaceAllAppend(a2, b2, '>', "&gt;");
    ReplaceAllAppend(a3, b3, '"', "&quot;");
  }

  lemma EscapeHtmlChar(c: char)
    ensures EscapeHtml([c]) == EscapeChar(c)
  {
    assert ReplaceAll([c], '&', "&amp;") == (if c == '&' then "&amp;" else [c]);
    if c == '&' {
      assert '<' !in "&amp;" && '>' !in "&amp;" && '"' !in "&amp;";
    } else if c == '<' {
      assert ReplaceAll([c], '<', "&lt;") == "&lt;";
      assert '>' !in "&lt;" && '"' !in "&lt;";
    } else if c == '>' {
      assert ReplaceAll([c], '>', "&gt;") == "&gt;";
      assert '"' !in "&gt;";
    } else if c == '"' {
      assert ReplaceAll([c], '"', "&quot;") == "&quot;";
    }
  }

  /**
   * Because `&` is replaced first, the four chained passes never re-escape an
   * entity an earlier pass produced: they agree with the single pass.
   */
  lemma {:induction false} EscapeHtmlIsEscapeEach(s: string)
    ensures EscapeHtml(s) == EscapeEach(s)
  {
    if s != [] {
      assert s == [s[0]] + s[1..];
      EscapeHtmlAppend([s[0]], s[1..]);
      EscapeHtmlChar(s[0]);
      EscapeHtmlIsEscapeEach(s[1..]);
    }
  }

  predicate StartsWith(t: string, p: string) {
    |p| <= |t| && forall i :: 0 <= i < |p| ==> t[i] == p[i]
  }

  /** Reads the entities back; any other character stands for itself. */
  function Unescape(t: string): string {
    if t == [] then []
    else if t[0] == '&' && StartsWith(t, "&amp;") then "&" + Unescape(t[5..])
    else if t[0] == '&' && StartsWith(t, "&lt;") then "<" + Unescape(t[4..])
    else if t[0] == '&' && StartsWith(t, "&gt;") then ">" + Unescape(t[4..])
    else if t[0] == '&' && StartsWith(t, "&quot;") then "\"" + Unescape(t[6..])
    else [t[0]] + Unescape(t[1..])
  }

  lemma UnescapeEntity(c: char, t: string)
    ensures Unescape(EscapeChar(c) + t) == [c] + Unescape(t)
  {
    var u := EscapeChar(c) + t;
    if c == '&' {
      assert u[5..] == t;
      assert StartsWith(u, "&amp;");
    } else if c == '<' {
      assert u[1] == 'l' && u[4..] == t;
      assert StartsWith(u, "&lt;");
    } else if c == '>' {
      assert u[1] == 'g' && u[4..] == t;
      assert StartsWith(u, "&gt;");
    } else if c == '"' {
      assert u[1] == 'q' && u[6..] == t;
      assert StartsWith(u, "&quot;");
    } else {
      assert u[0] == c && u[1..] == t;
    }
  }

  /** Escaping loses nothing: the original text can be read back. */
  lemma {:induction false} UnescapeEscapeHtml(s: string)
    ensures Unescape(EscapeHtml(s)) == s
  {
    EscapeHtmlIsEscapeEach(s);
    UnescapeEscapeEach(s);
  }

  lemma {:induction false} UnescapeEscapeEach(s: string)
    ensures Unescape(EscapeEach(s)) == s
  {
    if s != [] {
      UnescapeEntity(s[0], EscapeEach(s[1..]));
      UnescapeEscapeEach(s[1..]);
      assert s == [s[0]] + s[1..];
    }
  }

  /** Position `i` of `t` begins one of the four entities. */
  predicate EntityAt(t: string, i: nat)
    requires i <= |t|
  {
    var u := t[i..];
    StartsWith(u, "&amp;") || StartsWith(u, "&lt;") || StartsWith(u, "&gt;") || StartsWith(u, "&quot;")
  }

  /** Every `&` in `t` begins an entity. */
  predicate NoBareAmpersand(t: string) {
    forall i :: 0 <= i < |t| && t[i] == '&' ==> EntityAt(t, i)
  }

  /** Every `&` in escaped text begins an entity: no bare ampersand survives. */
  lemma AmpersandsBeginEntities(s: string)
    ensures NoBareAmpersand(EscapeHtml(s))
  {
    EscapeHtmlIsEscapeEach(s);
    EachAmpersandBeginsEntity(s);
  }

  lemma {:induction false} EachAmpersandBeginsEntity(s: string)
    ensures NoBareAmpersand(EscapeEach(s))
  {
    if s != [] {
      EachAmpersandBeginsEntity(s[1..]);
      var e, rest := EscapeChar(s[0]), EscapeEach(s[1..]);
      var r := e + rest;
      forall i | 0 <= i < |r| && r[i] == '&' ensures EntityAt(r, i) {
        if i < |e| {
          assert i == 0 && IsSpecial(s[0]);
          assert r[i..] == r;
          assert forall k :: 0 <= k < |e| ==> r[k] == e[k];
          assert StartsWith(r, e);
          assert e == "&amp;" || e == "&lt;" || e == "&gt;" || e == "&quot;";
        } else {
          var j := i - |e|;
          assert r[i..] == rest[j..];
          assert rest[j] == '&';
          assert NoBareAmpersand(rest);
          assert EntityAt(rest, j);
        }
      }
    }
  }

  /** The apostrophe is not among the escaped characters: it survives as itself. */
  lemma ApostropheKept(s: string)
    ensures '\'' in EscapeHtml(s) <==> '\'' in s
  {
    EscapeHtmlIsEscapeEach(s);
    EachKeepsApostrophe(s);
  }

  lemma {:induction false} EachKeepsApostrophe(s: string)
    ensures '\'' in EscapeEach(s) <==> '\'' in s
  {
    if s != [] {
      EachKeepsApostrophe(s[1..]);
      assert s == [s[0]] + s[1..];
      var e := EscapeChar(s[0]);
      assert '\'' in e <==> s[0] == '\'';
    }
  }
}
