/**
  escapeHtml.ts: five whole-string replacements, one after the other, and why they amount
  to escaping each character once.
 */
module EscapeHtml {
  import opened Wrappers

  /** `replace(/c/g, ref)` for a single character c. */
  function ReplaceAll(s: string, c: char, ref: string): string {
    if s == [] then [] else (if s[0] == c then ref else [s[0]]) + ReplaceAll(s[1..], c, ref)
  }

  function EscapeHtml(value: string): string {
    var amp := ReplaceAll(value, '&', "&amp;");
    var lt := ReplaceAll(amp, '<', "&lt;");
    var gt := ReplaceAll(lt, '>', "&gt;");
    var quot := ReplaceAll(gt, '"', "&quot;");
    ReplaceAll(quot, '\'', "&#39;")
  }

  /** The five references, and every other character as itself. */
  function EscapeChar(c: char): string {
    if c == '&' then "&amp;"
    else if c == '<' then "&lt;"
    else if c == '>' then "&gt;"
    else if c == '"' then "&quot;"
    else if c == '\'' then "&#39;"
    else [c]
  }

  function EscapeEach(s: string): string {
    if s == [] then [] else EscapeChar(s[0]) + EscapeEach(s[1..])
  }

  lemma {:induction false} ReplaceOfConcat(a: string, b: string, c: char, ref: string)
    ensures ReplaceAll(a + b, c, ref) == ReplaceAll(a, c, ref) + ReplaceAll(b, c, ref)
    decreases |a|
  {
    if a == [] {
      assert a + b == b;
    } else {
      assert (a + b)[1..] == a[1..] + b;
      ReplaceOfConcat(a[1..], b, c, ref);
    }
  }

  predicate Lacks(s: string, c: char) {
    forall i :: 0 <= i < |s| ==> s[i] != c
  }

  lemma {:induction false} ReplaceOfLacking(s: string, c: char, ref: string)
    requires Lacks(s, c)
    ensures ReplaceAll(s, c, ref) == s
    decreases |s|
  {
    if s != [] {
      ReplaceOfLacking(s[1..], c, ref);
    }
  }

  lemma EscapeOfConcat(a: string, b: string)
    ensures EscapeHtml(a + b) == EscapeHtml(a) + EscapeHtml(b)
  {
    hide ReplaceAll;
    var a1, b1 := ReplaceAll(a, '&', "&amp;"), ReplaceAll(b, '&', "&amp;");
    ReplaceOfConcat(a, b, '&', "&amp;");
    var a2, b2 := ReplaceAll(a1, '<', "&lt;"), ReplaceAll(b1, '<', "&lt;");
    ReplaceOfConcat(a1, b1, '<', "&lt;");
    var a3, b3 := ReplaceAll(a2, '>', "&gt;"), ReplaceAll(b2, '>', "&gt;");
    ReplaceOfConcat(a2, b2, '>', "&gt;");
    var a4, b4 := ReplaceAll(a3, '"', "&quot;"), ReplaceAll(b3, '"', "&quot;");
    ReplaceOfConcat(a3, b3, '"', "&quot;");
    ReplaceOfConcat(a4, b4, '\'', "&#39;");
  }

  lemma ReplaceOne(c: char, d: char, ref: string)
    ensures ReplaceAll([c], d, ref) == if c == d then ref else [c]
  {
    assert [c][1..] == [];
    assert ReplaceAll([], d, ref) == [];
  }

  /** Once a character has become its reference, the later passes leave the reference alone. */
  lemma EscapeOfChar(c: char)
    ensures EscapeHtml([c]) == EscapeChar(c)
  {
    hide ReplaceAll;
    ReplaceOne(c, '&', "&amp;");
    ReplaceOne(c, '<', "&lt;");
    ReplaceOne(c, '>', "&gt;");
    ReplaceOne(c, '"', "&quot;");
    ReplaceOne(c, '\'', "&#39;");
    ReplaceOfLacking("&amp;", '<', "&lt;");
    ReplaceOfLacking("&amp;", '>', "&gt;");
    ReplaceOfLacking("&amp;", '"', "&quot;");
    ReplaceOfLacking("&amp;", '\'', "&#39;");
    ReplaceOfLacking("&lt;", '>', "&gt;");
    ReplaceOfLacking("&lt;", '"', "&quot;");
    ReplaceOfLacking("&lt;", '\'', "&#39;");
    ReplaceOfLacking("&gt;", '"', "&quot;");
    ReplaceOfLacking("&gt;", '\'', "&#39;");
    ReplaceOfLacking("&quot;", '\'', "&#39;");
  }

  /** The five passes equal one pass that escapes character by character. */
  lemma {:induction false} FivePassesAreOne(s: string)
    ensures EscapeHtml(s) == EscapeEach(s)
    decreases |s|
  {
    if s != [] {
      hide EscapeHtml, EscapeChar;
      assert s == [s[0]] + s[1..];
      EscapeOfConcat([s[0]], s[1..]);
      EscapeOfChar(s[0]);
      FivePassesAreOne(s[1..]);
    }
  }

  // ---- what the result is ----

  /** A reference starts here, and which character it stands for. */
  function ReferenceAt(s: string): Option<(char, nat)> {
    if "&amp;" <= s then Some(('&', 5))
    else if "&lt;" <= s then Some(('<', 4))
    else if "&gt;" <= s then Some(('>', 4))
    else if "&quot;" <= s then Some(('"', 6))
    else if "&#39;" <= s then Some(('\'', 5))
    else None
  }

  /** One pass that turns each reference back into its character. */
  function Unescape(s: string): string
    decreases |s|
  {
    if s == [] then []
    else
      match ReferenceAt(s)
      case None => [s[0]] + Unescape(s[1..])
      case Some((c, width)) => [c] + Unescape(s[width..])
  }

  /** Markup-safe: no raw angle bracket or quote, and every ampersand starts a reference. */
  predicate Safe(s: string) {
    forall i :: 0 <= i < |s| ==>
      && s[i] != '<' && s[i] != '>' && s[i] != '"' && s[i] != '\''
      && (s[i] == '&' ==> ReferenceAt(s[i..]).Some?)
  }

  lemma EscapedChar(c: char, rest: string)
    ensures var e := EscapeChar(c);
            && e != [] && (e + rest)[|e|..] == rest
            && (ReferenceAt(e + rest) == (if e == [c] then None else Some((c, |e|))))
            && (e == [c] ==> c != '<' && c != '>' && c != '"' && c != '\'' && c != '&')
  {
    var e := EscapeChar(c);
    var s := e + rest;
    assert s[0] == e[0];
    if e != [c] {
      assert e <= s;
      assert s[1] == e[1] && s[2] == e[2];
    }
  }

  lemma EscapedCharAt(c: char, i: nat)
    requires i < |EscapeChar(c)|
    ensures var e := EscapeChar(c)[i];
            e != '<' && e != '>' && e != '"' && e != '\'' && (e == '&' ==> i == 0 && EscapeChar(c) != [c])
  {
  }

  lemma {:induction false} EscapedIsSafeAt(s: string, i: nat)
    requires i < |EscapeEach(s)|
    ensures var t := EscapeEach(s);
            && t[i] != '<' && t[i] != '>' && t[i] != '"' && t[i] != '\''
            && (t[i] == '&' ==> ReferenceAt(t[i..]).Some?)
    decreases |s|
  {
    hide EscapeChar, ReferenceAt;
    var e, rest := EscapeChar(s[0]), EscapeEach(s[1..]);
    if i >= |e| {
      EscapedIsSafeAt(s[1..], i - |e|);
      assert (e + rest)[i..] == rest[i - |e|..];
    } else {
      EscapedChar(s[0], rest);
      EscapedCharAt(s[0], i);
      assert (e + rest)[0..] == e + rest;
    }
  }

  /** The escaped text is safe for every input. */
  lemma EscapedIsSafe(value: string)
    ensures Safe(EscapeHtml(value))
  {
    FivePassesAreOne(value);
    forall i | 0 <= i < |EscapeHtml(value)|
      ensures var t := EscapeHtml(value);
              && t[i] != '<' && t[i] != '>' && t[i] != '"' && t[i] != '\''
              && (t[i] == '&' ==> ReferenceAt(t[i..]).Some?)
    {
      EscapedIsSafeAt(value, i);
    }
  }

  lemma {:induction false} UnescapeOfEach(s: string)
    ensures Unescape(EscapeEach(s)) == s
    decreases |s|
  {
    if s != [] {
      hide EscapeChar, ReferenceAt;
      var e, rest := EscapeChar(s[0]), EscapeEach(s[1..]);
      EscapedChar(s[0], rest);
      UnescapeOfEach(s[1..]);
    }
  }

  /** Unescaping in one pass restores the input, so escaping loses nothing. */
  lemma UnescapeOfEscape(value: string)
    ensures Unescape(EscapeHtml(value)) == value
  {
    FivePassesAreOne(value);
    UnescapeOfEach(value);
  }
}
