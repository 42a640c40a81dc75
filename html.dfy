/**
 * `escapeHtml` (app.js:3044-3052): five global replacements applied one
 * after the other, `&` first. Because `&` goes first, no replacement can
 * touch the output of an earlier one, so the chain is the same as escaping
 * each character on its own; the unescaping function below undoes it.
 */
module Html {

  /** `s.replace(/c/g, rep)` for a single character `c`. */
  function ReplaceChar(s: string, c: char, rep: string): string
  {
    if s == [] then []
    else (if s[0] == c then rep else [s[0]]) + ReplaceChar(s[1..], c, rep)
  }

  lemma {:induction false} ReplaceCharConcat(a: string, b: string, c: char, rep: string)
    ensures ReplaceChar(a + b, c, rep) == ReplaceChar(a, c, rep) + ReplaceChar(b, c, rep)
  {
    if a == [] {
      assert a + b == b;
    } else {
      assert (a + b)[1..] == a[1..] + b;
      ReplaceCharConcat(a[1..], b, c, rep);
    }
  }

  lemma {:induction false} ReplaceCharAbsent(s: string, c: char, rep: string)
    requires c !in s
    ensures ReplaceChar(s, c, rep) == s
  {
    if s != [] {
      ReplaceCharAbsent(s[1..], c, rep);
    }
  }

  lemma ReplaceCharSingle(x: char, c: char, rep: string)
    ensures ReplaceChar([x], c, rep) == if x == c then rep else [x]
  {
    assert [x][1..] == [];
  }

  /** The body of `escapeHtml`; `if (!str) return ""` changes nothing for a string. */
  function EscapeHtml(s: string): (r: string)
  {
    ReplaceChar(ReplaceChar(ReplaceChar(ReplaceChar(ReplaceChar(s,
      '&', "&amp;"), '<', "&lt;"), '>', "&gt;"), '"', "&quot;"), '\'', "&#039;")
  }

  /** What `escapeHtml` does to one character. */
  function EscapeChar(c: char): string {
    match c
    case '&' => "&amp;"
    case '<' => "&lt;"
    case '>' => "&gt;"
    case '"' => "&quot;"
    case '\'' => "&#039;"
    case _ => [c]
  }

  function EscapeEach(s: string): string {
    if s == [] then [] else EscapeChar(s[0]) + EscapeEach(s[1..])
  }

  /** One of the five markup characters, taken through the remaining stages of the chain. */
  lemma EscapeSpecial(c: char, e: string)
    requires c in "&<>\"'" && e == EscapeChar(c)
    ensures EscapeHtml([c]) == e
  {
    ReplaceCharSingle(c, '&', "&amp;");
    var s1 := ReplaceChar([c], '&', "&amp;");
    if c == '&' {
      StagesAbsent(s1, 1);
    } else {
      ReplaceCharSingle(c, '<', "&lt;");
      var s2 := ReplaceChar(s1, '<', "&lt;");
      if c == '<' {
        StagesAbsent(s2, 2);
      } else {
        ReplaceCharSingle(c, '>', "&gt;");
        var s3 := ReplaceChar(s2, '>', "&gt;");
        if c == '>' {
          StagesAbsent(s3, 3);
        } else {
          ReplaceCharSingle(c, '"', "&quot;");
          var s4 := ReplaceChar(s3, '"', "&quot;");
          if c == '"' {
            StagesAbsent(s4, 4);
          } else {
            ReplaceCharSingle(c, '\'', "&#039;");
          }
        }
      }
    }
  }

  /** The replacements from stage `k` on leave a string without their characters alone. */
  lemma StagesAbsent(s: string, k: nat)
    requires 1 <= k <= 4
    requires forall x | x in s :: x !in "<>\"'"
    ensures k == 1 ==> ReplaceChar(ReplaceChar(ReplaceChar(ReplaceChar(s, '<', "&lt;"), '>', "&gt;"), '"', "&quot;"), '\'', "&#039;") == s
    ensures k == 2 ==> ReplaceChar(ReplaceChar(ReplaceChar(s, '>', "&gt;"), '"', "&quot;"), '\'', "&#039;") == s
    ensures k == 3 ==> ReplaceChar(ReplaceChar(s, '"', "&quot;"), '\'', "&#039;") == s
    ensures k == 4 ==> ReplaceChar(s, '\'', "&#039;") == s
  {
    ReplaceCharAbsent(s, '<', "&lt;");
    ReplaceCharAbsent(s, '>', "&gt;");
    ReplaceCharAbsent(s, '"', "&quot;");
    ReplaceCharAbsent(s, '\'', "&#039;");
  }

  lemma EscapeHtmlOfChar(c: char)
    ensures EscapeHtml([c]) == EscapeChar(c)
  {
    if c in "&<>\"'" {
      EscapeSpecial(c, EscapeChar(c));
    } else {
      ReplaceCharAbsent([c], '&', "&amp;");
      StagesAbsent([c], 1);
    }
  }

  /** The chain of replacements escapes character by character. */
  lemma {:induction false} EscapeHtmlIsPerChar(s: string)
    ensures EscapeHtml(s) == EscapeEach(s)
  {
    if s != [] {
      var a, b := [s[0]], s[1..];
      assert s == a + b;
      ReplaceCharConcat(a, b, '&', "&amp;");
      var a1, b1 := ReplaceChar(a, '&', "&amp;"), ReplaceChar(b, '&', "&amp;");
      ReplaceCharConcat(a1, b1, '<', "&lt;");
      var a2, b2 := ReplaceChar(a1, '<', "&lt;"), ReplaceChar(b1, '<', "&lt;");
      ReplaceCharConcat(a2, b2, '>', "&gt;");
      var a3, b3 := ReplaceChar(a2, '>', "&gt;"), ReplaceChar(b2, '>', "&gt;");
      ReplaceCharConcat(a3, b3, '"', "&quot;");
      var a4, b4 := ReplaceChar(a3, '"', "&quot;"), ReplaceChar(b3, '"', "&quot;");
      ReplaceCharConcat(a4, b4, '\'', "&#039;");
      assert EscapeHtml(s) == EscapeHtml(a) + EscapeHtml(b);
      EscapeHtmlOfChar(s[0]);
      EscapeHtmlIsPerChar(b);
    }
  }

  /** The escaped text holds none of the four markup characters `<`, `>`, `"` and `'`. */
  lemma EscapeHtmlIsInert(s: string)
    ensures '<' !in EscapeHtml(s) && '>' !in EscapeHtml(s)
    ensures '"' !in EscapeHtml(s) && '\'' !in EscapeHtml(s)
  {
    EscapeHtmlIsPerChar(s);
    EscapeEachIsInert(s);
  }

  lemma {:induction false} EscapeEachIsInert(s: string)
    ensures '<' !in EscapeEach(s) && '>' !in EscapeEach(s)
    ensures '"' !in EscapeEach(s) && '\'' !in EscapeEach(s)
  {
    if s != [] {
      EscapeEachIsInert(s[1..]);
      EscapeCharIsInert(s[0]);
      assert EscapeEach(s) == EscapeChar(s[0]) + EscapeEach(s[1..]);
    }
  }

  lemma EscapeCharIsInert(c: char)
    ensures forall x | x in EscapeChar(c) :: x !in "<>\"'"
  {
  }

  /** Reads the five entities `escapeHtml` produces back as characters. */
  function UnescapeHtml(s: string): string {
    if s == [] then []
    else if s[0] != '&' then [s[0]] + UnescapeHtml(s[1..])
    else if |s| >= 5 && s[..5] == "&amp;" then "&" + UnescapeHtml(s[5..])
    else if |s| >= 4 && s[..4] == "&lt;" then "<" + UnescapeHtml(s[4..])
    else if |s| >= 4 && s[..4] == "&gt;" then ">" + UnescapeHtml(s[4..])
    else if |s| >= 6 && s[..6] == "&quot;" then "\"" + UnescapeHtml(s[6..])
    else if |s| >= 6 && s[..6] == "&#039;" then "'" + UnescapeHtml(s[6..])
    else "&" + UnescapeHtml(s[1..])
  }

  lemma {:induction false} UnescapeEscapeEach(s: string)
    ensures UnescapeHtml(EscapeEach(s)) == s
  {
    if s != [] {
      var rest := EscapeEach(s[1..]);
      UnescapeEscapeEach(s[1..]);
      UnescapeOneThenRest(s[0], rest);
      assert s == [s[0]] + s[1..];
    }
  }

  lemma UnescapeOneThenRest(c: char, rest: string)
    ensures UnescapeHtml(EscapeChar(c) + rest) == [c] + UnescapeHtml(rest)
  {
    if c in "&<>\"'" {
      UnescapeEntityThenRest(c, EscapeChar(c), rest);
    } else {
      var t := [c] + rest;
      assert t[0] == c && t[1..] == rest;
    }
  }

  lemma UnescapeEntityThenRest(c: char, e: string, rest: string)
    requires c in "&<>\"'" && e == EscapeChar(c)
    ensures UnescapeHtml(e + rest) == [c] + UnescapeHtml(rest)
  {
    var t := e + rest;
    assert t[..|e|] == e && t[|e|..] == rest;
    if c == '&' {
      assert t[..5] == "&amp;";
    } else if c == '<' {
      assert t[..4] == "&lt;" && t[1] == 'l';
    } else if c == '>' {
      assert t[..4] == "&gt;" && t[1] == 'g';
    } else if c == '"' {
      assert t[..6] == "&quot;" && t[1] == 'q';
    } else {
      assert t[..6] == "&#039;" && t[1] == '#';
    }
  }

  /** Escaping loses nothing: the escaped text reads back as the original. */
  lemma EscapeHtmlRoundTrip(s: string)
    ensures UnescapeHtml(EscapeHtml(s)) == s
  {
    EscapeHtmlIsPerChar(s);
    UnescapeEscapeEach(s);
  }
}
