/** `escapeHtml` of src/index.js: five global replacements, `&` first, and
    the properties that make its output safe to interpolate into markup. */
module HtmlEscape {
  import opened JsText

  /** `s.replace(/c/g, rep)` for a single character `c`. */
  function ReplaceAll(s: string, c: char, rep: string): (r: string)
    ensures c !in s ==> r == s
    ensures c !in rep ==> c !in r
    ensures rep != "" ==> |r| >= |s|
    decreases |s|
  {
    if s == [] then []
    else (if s[0] == c then rep else [s[0]]) + ReplaceAll(s[1..], c, rep)
  }

  /** Replacement works piece by piece. */
  lemma {:induction false} ReplaceAllConcat(a: string, b: string, c: char, rep: string)
    ensures ReplaceAll(a + b, c, rep) == ReplaceAll(a, c, rep) + ReplaceAll(b, c, rep)
    decreases |a|
  {
    if a != [] {
      var s := a + b;
      assert s[0] == a[0] && s[1..] == a[1..] + b;
      var h := if a[0] == c then rep else [a[0]];
      assert ReplaceAll(s, c, rep) == h + ReplaceAll(a[1..] + b, c, rep);
      ReplaceAllConcat(a[1..], b, c, rep);
      assert ReplaceAll(a, c, rep) == h + ReplaceAll(a[1..], c, rep);
      assert h + (ReplaceAll(a[1..], c, rep) + ReplaceAll(b, c, rep))
        == (h + ReplaceAll(a[1..], c, rep)) + ReplaceAll(b, c, rep);
    } else {
      assert a + b == b;
    }
  }

  /** `escapeHtml(value)` on the string `String(value)`, replacement by
      replacement in the order the source applies them. */
  function EscapeHtml(s: string): (r: string)
    ensures Plain(s) ==> r == s
    ensures |r| >= |s|
    ensures r == "" <==> s == ""
  {
    ReplaceAll(ReplaceAll(ReplaceAll(ReplaceAll(ReplaceAll(s,
      '&', "&amp;"), '<', "&lt;"), '>', "&gt;"), '"', "&quot;"), '\'', "&#39;")
  }

  /** The entity that stands for one character, or the character itself. */
  function EscapeChar(c: char): string {
    if c == '&' then "&amp;"
    else if c == '<' then "&lt;"
    else if c == '>' then "&gt;"
    else if c == '"' then "&quot;"
    else if c == '\'' then "&#39;"
    else [c]
  }

  /** Reference definition: every character escaped on its own. */
  function EscapeEach(s: string): string
    decreases |s|
  {
    if s == [] then [] else EscapeChar(s[0]) + EscapeEach(s[1..])
  }

  lemma EscapeHtmlConcat(a: string, b: string)
    ensures EscapeHtml(a + b) == EscapeHtml(a) + EscapeHtml(b)
  {
    var a1, b1 := ReplaceAll(a, '&', "&amp;"), ReplaceAll(b, '&', "&amp;");
    ReplaceAllConcat(a, b, '&', "&amp;");
    var a2, b2 := ReplaceAll(a1, '<', "&lt;"), ReplaceAll(b1, '<', "&lt;");
    ReplaceAllConcat(a1, b1, '<', "&lt;");
    var a3, b3 := ReplaceAll(a2, '>', "&gt;"), ReplaceAll(b2, '>', "&gt;");
    ReplaceAllConcat(a2, b2, '>', "&gt;");
    var a4, b4 := ReplaceAll(a3, '"', "&quot;"), ReplaceAll(b3, '"', "&quot;");
    ReplaceAllConcat(a3, b3, '"', "&quot;");
    ReplaceAllConcat(a4, b4, '\'', "&#39;");
  }

  lemma ReplaceOne(c: char, d: char, rep: string)
    ensures ReplaceAll([c], d, rep) == if c == d then rep else [c]
  {
    assert [c][1..] == [];
  }

  /** The replacements after the `&` step leave a text without `<`, `>`,
      `"` and `'` as it is. */
  lemma LaterStepsKeep(s: string)
    requires '<' !in s && '>' !in s && '"' !in s && '\'' !in s
    ensures ReplaceAll(ReplaceAll(ReplaceAll(ReplaceAll(s, '<', "&lt;"), '>', "&gt;"), '"', "&quot;"), '\'', "&#39;") == s
  {
  }

  /** A single character comes out of the chain as its entity: once it
      has been replaced, the later patterns find nothing in the entity. */
  lemma EscapeHtmlChar(c: char)
    ensures EscapeHtml([c]) == EscapeChar(c)
  {
    ReplaceOne(c, '&', "&amp;");
    if c == '&' {
      LaterStepsKeep("&amp;");
    } else {
      ReplaceOne(c, '<', "&lt;");
      if c == '<' {
        LaterStepsKeep2("&lt;");
      } else {
        ReplaceOne(c, '>', "&gt;");
        if c == '>' {
          LaterStepsKeep3("&gt;");
        } else {
          ReplaceOne(c, '"', "&quot;");
          if c == '"' {
            assert ReplaceAll("&quot;", '\'', "&#39;") == "&quot;";
          } else {
            ReplaceOne(c, '\'', "&#39;");
          }
        }
      }
    }
  }

  lemma LaterStepsKeep2(s: string)
    requires '>' !in s && '"' !in s && '\'' !in s
    ensures ReplaceAll(ReplaceAll(ReplaceAll(s, '>', "&gt;"), '"', "&quot;"), '\'', "&#39;") == s
  {
  }

  lemma LaterStepsKeep3(s: string)
    requires '"' !in s && '\'' !in s
    ensures ReplaceAll(ReplaceAll(s, '"', "&quot;"), '\'', "&#39;") == s
  {
  }

  /** Because `&` is replaced first, the chain of replacements escapes each
      character exactly once: the entities one step introduces are not
      touched by the later steps. */
  lemma {:induction false} EscapeHtmlIsPerChar(s: string)
    ensures EscapeHtml(s) == EscapeEach(s)
    decreases |s|
  {
    if s != [] {
      assert s == [s[0]] + s[1..];
      EscapeHtmlConcat([s[0]], s[1..]);
      EscapeHtmlChar(s[0]);
      EscapeHtmlIsPerChar(s[1..]);
    }
  }

  /** `s` starts with one of the five entities `escapeHtml` produces. */
  predicate IsEntityStart(s: string) {
    StartsWith(s, "&amp;") || StartsWith(s, "&lt;") || StartsWith(s, "&gt;")
    || StartsWith(s, "&quot;") || StartsWith(s, "&#39;")
  }

  /** Text that can stand in markup as it is: no `<`, `>`, `"` or `'`, and
      every `&` begins an entity. */
  predicate Safe(s: string) {
    forall i :: 0 <= i < |s| ==>
      s[i] != '<' && s[i] != '>' && s[i] != '"' && s[i] != '\''
      && (s[i] == '&' ==> IsEntityStart(s[i..]))
  }

  lemma SafeConcat(a: string, b: string)
    requires Safe(a) && Safe(b)
    ensures Safe(a + b)
  {
    var s := a + b;
    forall i | 0 <= i < |s| && s[i] == '&' ensures IsEntityStart(s[i..]) {
      if i < |a| {
        assert a[i] == '&';
        var t := a[i..];
        assert IsEntityStart(t);
        assert s[i..] == t + b;
      } else {
        assert s[i..] == b[i - |a|..];
        assert b[i - |a|] == '&';
      }
    }
    forall i | 0 <= i < |s| ensures s[i] != '<' && s[i] != '>' && s[i] != '"' && s[i] != '\'' {
      if i < |a| { assert s[i] == a[i]; } else { assert s[i] == b[i - |a|]; }
    }
  }

  lemma {:induction false} EscapeEachSafe(s: string)
    ensures Safe(EscapeEach(s))
    decreases |s|
  {
    if s != [] {
      EscapeEachSafe(s[1..]);
      var e := EscapeChar(s[0]);
      assert Safe(e) by {
        if s[0] in "&<>\"'" {
          forall i | 0 <= i < |e| && e[i] == '&' ensures IsEntityStart(e[i..]) {
            assert i == 0;
            assert e[0..] == e;
          }
        }
      }
      SafeConcat(e, EscapeEach(s[1..]));
    }
  }

  /** The output of `escapeHtml` holds no `<`, `>`, `"` or `'`, and every `&`
      in it starts one of `&amp; &lt; &gt; &quot; &#39;`. */
  lemma EscapeHtmlSafe(s: string)
    ensures Safe(EscapeHtml(s))
  {
    EscapeHtmlIsPerChar(s);
    EscapeEachSafe(s);
  }

  /** Decoding of the five entities (the reference inverse). */
  function Unescape(s: string): string
    decreases |s|
  {
    if s == [] then []
    else if StartsWith(s, "&amp;") then "&" + Unescape(s[5..])
    else if StartsWith(s, "&lt;") then "<" + Unescape(s[4..])
    else if StartsWith(s, "&gt;") then ">" + Unescape(s[4..])
    else if StartsWith(s, "&quot;") then "\"" + Unescape(s[6..])
    else if StartsWith(s, "&#39;") then "'" + Unescape(s[5..])
    else [s[0]] + Unescape(s[1..])
  }

  /** Decoding the entity `e` in front of `t` yields `c` and moves on to
      `t`; the entities are tried in the order Unescape lists them. */
  lemma UnescapeEntity(e: string, c: char, t: string)
    requires (e, c) in {("&amp;", '&'), ("&lt;", '<'), ("&gt;", '>'), ("&quot;", '"'), ("&#39;", '\'')}
    ensures Unescape(e + t) == [c] + Unescape(t)
  {
    var s := e + t;
    assert s[..|e|] == e && s[|e|..] == t;
    assert s[0] == '&';
    if e != "&amp;" {
      assert s[1] != 'a';
      assert !StartsWith(s, "&amp;");
    }
    if e != "&amp;" && e != "&lt;" {
      assert s[1] != 'l';
      assert !StartsWith(s, "&lt;");
    }
    if e == "&quot;" || e == "&#39;" {
      assert s[1] != 'g';
      assert !StartsWith(s, "&gt;");
    }
    if e == "&#39;" {
      assert s[1] != 'q';
      assert !StartsWith(s, "&quot;");
    }
  }

  lemma UnescapeEscapeChar(c: char, t: string)
    ensures Unescape(EscapeChar(c) + t) == [c] + Unescape(t)
  {
    if c == '&' { UnescapeEntity("&amp;", c, t); }
    else if c == '<' { UnescapeEntity("&lt;", c, t); }
    else if c == '>' { UnescapeEntity("&gt;", c, t); }
    else if c == '"' { UnescapeEntity("&quot;", c, t); }
    else if c == '\'' { UnescapeEntity("&#39;", c, t); }
    else {
      var s := [c] + t;
      assert s[0] == c && s[1..] == t;
      NoEntityAt(s);
    }
  }

  /** Decoding an escaped text followed by more markup gives the text back
      and goes on with the markup. */
  lemma {:induction false} UnescapeEscapeEachThen(s: string, t: string)
    ensures Unescape(EscapeEach(s) + t) == s + Unescape(t)
    decreases |s|
  {
    if s != [] {
      assert EscapeEach(s) + t == EscapeChar(s[0]) + (EscapeEach(s[1..]) + t);
      UnescapeEscapeChar(s[0], EscapeEach(s[1..]) + t);
      UnescapeEscapeEachThen(s[1..], t);
      assert s == [s[0]] + s[1..];
      ConcatAssoc([s[0]], s[1..], Unescape(t));
    } else {
      assert EscapeEach(s) + t == t && s + Unescape(t) == Unescape(t);
    }
  }

  /** Escaping loses nothing: decoding the entities gives the input back,
      so no entity is escaped twice. */
  lemma UnescapeEscapeHtml(s: string)
    ensures Unescape(EscapeHtml(s)) == s
  {
    UnescapeEscapeHtmlThen(s, "");
    assert EscapeHtml(s) + "" == EscapeHtml(s) && s + "" == s;
  }

  lemma UnescapeEscapeHtmlThen(s: string, t: string)
    ensures Unescape(EscapeHtml(s) + t) == s + Unescape(t)
  {
    EscapeHtmlIsPerChar(s);
    UnescapeEscapeEachThen(s, t);
  }

  /** Text without any of the five characters that escaping rewrites. */
  predicate Plain(p: string) {
    forall i :: 0 <= i < |p| ==>
      p[i] != '&' && p[i] != '<' && p[i] != '>' && p[i] != '"' && p[i] != '\''
  }

  /** Literal markup text without `&` decodes to itself. */
  lemma {:induction false} UnescapePlain(p: string, t: string)
    requires Plain(p)
    ensures Unescape(p + t) == p + Unescape(t)
    decreases |p|
  {
    if p != [] {
      var s := p + t;
      assert s[0] == p[0] && s[1..] == p[1..] + t;
      NoEntityAt(s);
      UnescapePlain(p[1..], t);
      assert Unescape(s) == [p[0]] + (p[1..] + Unescape(t));
      assert p == [p[0]] + p[1..];
      ConcatAssoc([p[0]], p[1..], Unescape(t));
    } else {
      assert p + t == t && p + Unescape(t) == Unescape(t);
    }
  }

  /** A text that does not start with `&` starts with no entity. */
  lemma NoEntityAt(s: string)
    requires s != [] && s[0] != '&'
    ensures Unescape(s) == [s[0]] + Unescape(s[1..])
  {
    assert !StartsWith(s, "&amp;") && !StartsWith(s, "&lt;") && !StartsWith(s, "&gt;") by {
      assert forall p: string :: |p| > 0 && p[0] == '&' && StartsWith(s, p) ==> s[0] == '&';
    }
    assert !StartsWith(s, "&quot;") && !StartsWith(s, "&#39;") by {
      assert forall p: string :: |p| > 0 && p[0] == '&' && StartsWith(s, p) ==> s[0] == '&';
    }
  }

  /** Text without any of the five special characters is safe as it is. */
  lemma PlainSafe(p: string)
    requires Plain(p)
    ensures Safe(p)
  {
  }

  /** Distinct texts stay distinct once escaped. */
  lemma EscapeHtmlInjective(a: string, b: string)
    requires EscapeHtml(a) == EscapeHtml(b)
    ensures a == b
  {
    UnescapeEscapeHtml(a);
    UnescapeEscapeHtml(b);
  }
}
