/**
 * The lexical layer of `parseICS` (app.js:2941-2957): line unfolding
 * (section 3.1 of RFC 5545), the split into lines, the unescaping of
 * TEXT values (section 3.3.11 of RFC 5545) and the extraction of the
 * date from a DTSTART value.
 */
module IcsText {
  import opened Wrappers
  import opened Text

  predicate IsFoldSpace(c: char) {
    c == ' ' || c == '\t'
  }

  predicate NoLineBreak(s: string) {
    '\r' !in s && '\n' !in s
  }

  /**
   * `data.replace(/\r?\n[ \t]/g, '')`: scanning left to right, each line
   * break (CRLF or a bare LF) followed by one space or tab is deleted
   * together with that one whitespace character.
   */
  function Unfold(s: string): (r: string)
    ensures |r| <= |s|
  {
    if |s| >= 3 && s[0] == '\r' && s[1] == '\n' && IsFoldSpace(s[2]) then Unfold(s[3..])
    else if |s| >= 2 && s[0] == '\n' && IsFoldSpace(s[1]) then Unfold(s[2..])
    else if s == [] then []
    else [s[0]] + Unfold(s[1..])
  }

  /** A long content line folded as section 3.1 of RFC 5545 prescribes: CRLF and one space between the pieces. */
  function Folded(first: string, rest: seq<string>): string
    decreases |rest|
  {
    if rest == [] then first else first + "\r\n " + Folded(rest[0], rest[1..])
  }

  function Concat(parts: seq<string>): string {
    if parts == [] then [] else parts[0] + Concat(parts[1..])
  }

  lemma {:induction false} UnfoldPlain(a: string, t: string)
    requires NoLineBreak(a)
    ensures Unfold(a + t) == a + Unfold(t)
  {
    if a != [] {
      assert a[0] in a;
      assert NoLineBreak(a[1..]) by {
        assert forall c | c in a[1..] :: c in a;
      }
      assert (a + t)[0] == a[0];
      assert (a + t)[1..] == a[1..] + t;
      assert a[0] != '\r' && a[0] != '\n';
      assert Unfold(a + t) == [a[0]] + Unfold(a[1..] + t);
      UnfoldPlain(a[1..], t);
      assert [a[0]] + a[1..] == a;
    } else {
      assert a + t == t;
    }
  }

  /** Unfolding a folded line gives back the unfolded text: the pieces joined without the folds. */
  lemma {:induction false} UnfoldFolded(first: string, rest: seq<string>)
    requires NoLineBreak(first) && forall i | 0 <= i < |rest| :: NoLineBreak(rest[i])
    ensures Unfold(Folded(first, rest)) == first + Concat(rest)
    decreases |rest|
  {
    if rest != [] {
      var tail := Folded(rest[0], rest[1..]);
      assert Folded(first, rest) == first + ("\r\n " + tail);
      UnfoldPlain(first, "\r\n " + tail);
      assert ("\r\n " + tail)[3..] == tail;
      assert Unfold("\r\n " + tail) == Unfold(tail);
      UnfoldFolded(rest[0], rest[1..]);
      assert Concat(rest) == rest[0] + Concat(rest[1..]);
    } else {
      assert Unfold(first) == Unfold(first + "") by {
        assert first + "" == first;
      }
      UnfoldPlain(first, "");
    }
  }

  /** `s.split(/\r?\n/)`: the pieces between the CRLF or LF line breaks; a lone CR stays in its line. */
  function SplitLines(s: string): (r: seq<string>)
    ensures |r| >= 1
    ensures forall i | 0 <= i < |r| :: '\n' !in r[i]
  {
    if s == [] then [""]
    else if |s| >= 2 && s[0] == '\r' && s[1] == '\n' then [""] + SplitLines(s[2..])
    else if s[0] == '\n' then [""] + SplitLines(s[1..])
    else
      var rest := SplitLines(s[1..]);
      [[s[0]] + rest[0]] + rest[1..]
  }

  /** The lines joined with a separator, `lines.join(sep)`. */
  function Join(first: string, rest: seq<string>, sep: string): string
    decreases |rest|
  {
    if rest == [] then first else first + sep + Join(rest[0], rest[1..], sep)
  }

  lemma {:induction false} SplitPlain(a: string, t: string)
    requires NoLineBreak(a)
    ensures SplitLines(a + t) == [a + SplitLines(t)[0]] + SplitLines(t)[1..]
  {
    if a != [] {
      assert a[0] in a;
      assert NoLineBreak(a[1..]) by {
        assert forall c | c in a[1..] :: c in a;
      }
      assert (a + t)[0] == a[0];
      assert (a + t)[1..] == a[1..] + t;
      SplitPlain(a[1..], t);
      assert [a[0]] + (a[1..] + SplitLines(t)[0]) == a + SplitLines(t)[0];
    } else {
      var r := SplitLines(t);
      assert a + t == t;
      assert a + r[0] == r[0];
      assert [r[0]] + r[1..] == r;
    }
  }

  /** Splitting lines joined by CRLF or by LF gives the lines back. */
  lemma {:induction false} SplitJoined(first: string, rest: seq<string>, sep: string)
    requires sep == "\r\n" || sep == "\n"
    requires NoLineBreak(first) && forall i | 0 <= i < |rest| :: NoLineBreak(rest[i])
    ensures SplitLines(Join(first, rest, sep)) == [first] + rest
    decreases |rest|
  {
    if rest == [] {
      SplitPlain(first, "");
      assert first + "" == first;
    } else {
      var tail := Join(rest[0], rest[1..], sep);
      assert Join(first, rest, sep) == first + (sep + tail);
      SplitPlain(first, sep + tail);
      assert (sep + tail)[|sep|..] == tail;
      SplitJoined(rest[0], rest[1..], sep);
      assert SplitLines(sep + tail) == [""] + SplitLines(tail);
      assert first + "" == first;
      assert [rest[0]] + rest[1..] == rest;
    }
  }

  /** One pass of a global replacement of a backslash followed by one of `letters`. */
  function ReplaceEscape(s: string, letters: set<char>, repl: string): string {
    if |s| >= 2 && s[0] == '\\' && s[1] in letters then repl + ReplaceEscape(s[2..], letters, repl)
    else if s == [] then []
    else [s[0]] + ReplaceEscape(s[1..], letters, repl)
  }

  /**
   * `cleanValue` as written: four global replacements in sequence
   * (`\n` and `\N`, then `\,`, `\;` and `\\`), then `trim`.
   */
  function CleanValueAsWritten(v: string): string {
    Trim(ReplaceEscape(ReplaceEscape(ReplaceEscape(ReplaceEscape(v, {'n', 'N'}, "\n"), {','}, ","), {';'}, ";"), {'\\'}, "\\"))
  }

  /** The TEXT escapes of section 3.3.11 of RFC 5545, decoded in one left-to-right pass. */
  function UnescapeText(s: string): string {
    if |s| >= 2 && s[0] == '\\' && (s[1] == 'n' || s[1] == 'N') then "\n" + UnescapeText(s[2..])
    else if |s| >= 2 && s[0] == '\\' && (s[1] == ',' || s[1] == ';' || s[1] == '\\') then [s[1]] + UnescapeText(s[2..])
    else if s == [] then []
    else [s[0]] + UnescapeText(s[1..])
  }

  function EscapeTextChar(c: char): string {
    if c == '\\' || c == ';' || c == ',' then ['\\', c]
    else if c == '\n' then "\\n"
    else [c]
  }

  /** The TEXT encoding of section 3.3.11 of RFC 5545. */
  function EscapeText(s: string): string {
    if s == [] then [] else EscapeTextChar(s[0]) + EscapeText(s[1..])
  }

  /** Decoding an encoded TEXT value gives the value back. */
  lemma {:induction false} UnescapeEscapeText(s: string)
    ensures UnescapeText(EscapeText(s)) == s
  {
    if s != [] {
      var t := EscapeText(s[1..]);
      UnescapeEscapeText(s[1..]);
      assert EscapeText(s) == EscapeTextChar(s[0]) + t;
      var c := s[0];
      if c == '\\' || c == ';' || c == ',' || c == '\n' {
        assert (EscapeTextChar(c) + t)[2..] == t;
      } else {
        assert (EscapeTextChar(c) + t)[1..] == t;
      }
    }
  }

  /** `cleanValue` with the escapes decoded in one pass, then `trim`. */
  function CleanValue(v: string): (r: string)
    ensures Trim(r) == r
  {
    TrimIdempotent(UnescapeText(v));
    Trim(UnescapeText(v))
  }

  /**
   * The escaped backslash before an `n`: the value `\\nb` means a
   * backslash, `n` and `b`, but the replacement order decodes its
   * `\n` first and yields a backslash, a line break and `b`.
   */
  lemma EscapedBackslashBeforeN()
    ensures CleanValueAsWritten("\\\\nb") == "\\\nb"
    ensures CleanValue("\\\\nb") == "\\nb"
  {
    var decoded := "\\\nb";
    FirstPassOfEscapedBackslash();
    NoEscapeUnchanged(decoded, {','}, ",");
    NoEscapeUnchanged(decoded, {';'}, ";");
    NoEscapeUnchanged(decoded, {'\\'}, "\\");
    TrimOfTrimmed(decoded);
    UnescapeOfEscapedBackslash();
    TrimOfTrimmed("\\nb");
  }

  lemma FirstPassOfEscapedBackslash()
    ensures ReplaceEscape("\\\\nb", {'n', 'N'}, "\n") == "\\\nb"
  {
    var s := "\\\\nb";
    assert s[0] == '\\' && s[1] == '\\' && s[1] !in {'n', 'N'};
    assert s[1..] == "\\nb";
    assert s[1..][2..] == "b";
    assert ReplaceEscape("b", {'n', 'N'}, "\n") == "b";
  }

  lemma UnescapeOfEscapedBackslash()
    ensures UnescapeText("\\\\nb") == "\\nb"
  {
    var s := "\\\\nb";
    assert s[2..] == "nb";
    assert UnescapeText("b") == "b";
    assert UnescapeText("nb") == "nb";
  }

  /** A replacement pass leaves a string alone when no backslash in it is followed by one of `letters`. */
  lemma {:induction false} NoEscapeUnchanged(s: string, letters: set<char>, repl: string)
    requires forall i | 0 <= i < |s| - 1 :: s[i] == '\\' ==> s[i + 1] !in letters
    ensures ReplaceEscape(s, letters, repl) == s
  {
    if s != [] {
      NoEscapeUnchanged(s[1..], letters, repl);
    }
  }

  /** DTSTART's `/(\d{8})/`: eight ASCII digits from index `i`. */
  predicate DigitRunAt(s: string, i: nat) {
    i + 8 <= |s| && AllDigits(s[i..i + 8])
  }

  function FirstDigitRunFrom(s: string, from: nat): (r: Option<nat>)
    requires from <= |s|
    ensures r.Some? ==> from <= r.value && DigitRunAt(s, r.value)
    ensures r.Some? ==> forall j | from <= j < r.value :: !DigitRunAt(s, j)
    ensures r.None? ==> forall j | from <= j :: !DigitRunAt(s, j)
    decreases |s| - from
  {
    if from + 8 > |s| then None
    else if DigitRunAt(s, from) then Some(from)
    else FirstDigitRunFrom(s, from + 1)
  }

  /** The date key of a DTSTART value: its leftmost run of eight digits, if any. */
  function DateOf(value: string): (r: Option<string>)
    ensures r.Some? ==> |r.value| == 8 && AllDigits(r.value) && exists i: nat :: DigitRunAt(value, i) && r.value == value[i..i + 8]
    ensures r.None? <==> forall j: nat :: !DigitRunAt(value, j)
  {
    match FirstDigitRunFrom(value, 0)
    case Some(i) => Some(value[i..i + 8])
    case None => None
  }
}
