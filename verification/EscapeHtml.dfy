/** HTML escaping: five whole-string replacements, and what they amount to. */
module EscapeHtml {
  import opened Text

  function Escape(text: string): string {
    var s1 := ReplaceChar(text, '&', "&amp;");
    var s2 := ReplaceChar(s1, '<', "&lt;");
    var s3 := ReplaceChar(s2, '>', "&gt;");
    var s4 := ReplaceChar(s3, '\"', "&quot;");
    ReplaceChar(s4, '\'', "&#39;")
  }

  /** What one character becomes. */
  function Entity(c: char): string {
    if c == '&' then "&amp;"
    else if c == '<' then "&lt;"
    else if c == '>' then "&gt;"
    else if c == '\"' then "&quot;"
    else if c == '\'' then "&#39;"
    else [c]
  }

  function Mapped(text: string): string {
    if text == "" then "" else Entity(text[0]) + Mapped(text[1..])
  }

  lemma EscapeAppend(a: string, b: string)
    ensures Escape(a + b) == Escape(a) + Escape(b)
  {
    hide ReplaceChar;
    var a1, b1 := ReplaceChar(a, '&', "&amp;"), ReplaceChar(b, '&', "&amp;");
    var a2, b2 := ReplaceChar(a1, '<', "&lt;"), ReplaceChar(b1, '<', "&lt;");
    var a3, b3 := ReplaceChar(a2, '>', "&gt;"), ReplaceChar(b2, '>', "&gt;");
    var a4, b4 := ReplaceChar(a3, '\"', "&quot;"), ReplaceChar(b3, '\"', "&quot;");
    ReplaceCharAppend(a, b, '&', "&amp;");
    ReplaceCharAppend(a1, b1, '<', "&lt;");
    ReplaceCharAppend(a2, b2, '>', "&gt;");
    ReplaceCharAppend(a3, b3, '\"', "&quot;");
    ReplaceCharAppend(a4, b4, '\'', "&#39;");
  }

  lemma ReplaceOne(x: char, c: char, with: string)
    ensures ReplaceChar([x], c, with) == if x == c then with else [x]
  {
    assert [x][1..] == "";
  }

  /** No later replacement touches what an earlier one put in. */
  lemma EscapeOne(c: char)
    ensures Escape([c]) == Entity(c)
  {
    hide ReplaceChar;
    ReplaceOne(c, '&', "&amp;");
    var s1 := ReplaceChar([c], '&', "&amp;");
    if c == '<' { ReplaceOne(c, '<', "&lt;"); } else { ReplaceCharAbsent(s1, '<', "&lt;"); }
    var s2 := ReplaceChar(s1, '<', "&lt;");
    if c == '>' { ReplaceOne(c, '>', "&gt;"); } else { ReplaceCharAbsent(s2, '>', "&gt;"); }
    var s3 := ReplaceChar(s2, '>', "&gt;");
    if c == '\"' { ReplaceOne(c, '\"', "&quot;"); } else { ReplaceCharAbsent(s3, '\"', "&quot;"); }
    var s4 := ReplaceChar(s3, '\"', "&quot;");
    if c == '\'' { ReplaceOne(c, '\'', "&#39;"); } else { ReplaceCharAbsent(s4, '\'', "&#39;"); }
  }

  /** The five passes equal one pass that maps each character. */
  lemma {:induction false} EscapeIsOnePass(text: string)
    ensures Escape(text) == Mapped(text)
  {
    if text != "" {
      EscapeAppend([text[0]], text[1..]);
      assert text == [text[0]] + text[1..];
      EscapeOne(text[0]);
      EscapeIsOnePass(text[1..]);
    }
  }

  /** So nothing that could end a text or an attribute is left. */
  lemma {:induction false} EscapedIsInert(text: string)
    ensures '<' !in Escape(text) && '>' !in Escape(text) && '\"' !in Escape(text) && '\'' !in Escape(text)
  {
    hide Escape;
    EscapeIsOnePass(text);
    if text != "" {
      EscapedIsInert(text[1..]);
      EscapeIsOnePass(text[1..]);
    }
  }

  /** Reading entities in one pass, as a browser does for these five. */
  function Unescape(s: string): string {
    if s == "" then ""
    else if StartsWith(s, "&amp;") then "&" + Unescape(s[5..])
    else if StartsWith(s, "&lt;") then "<" + Unescape(s[4..])
    else if StartsWith(s, "&gt;") then ">" + Unescape(s[4..])
    else if StartsWith(s, "&quot;") then "\"" + Unescape(s[6..])
    else if StartsWith(s, "&#39;") then "\'" + Unescape(s[5..])
    else [s[0]] + Unescape(s[1..])
  }

  lemma UnescapeEntity(c: char, rest: string)
    ensures Unescape(Entity(c) + rest) == [c] + Unescape(rest)
  {
    var s := Entity(c) + rest;
    assert s[|Entity(c)|..] == rest;
    assert s[0] == Entity(c)[0];
    if c == '<' || c == '>' { assert s[1] == Entity(c)[1]; }
    if c == '\"' || c == '\'' || c == '&' { assert s[1] == Entity(c)[1]; }
  }

  /** The text comes back, whatever it holds: also entities already spelled out in it. */
  lemma {:induction false} UnescapeInverts(text: string)
    ensures Unescape(Escape(text)) == text
  {
    hide Escape, Unescape, Entity;
    EscapeIsOnePass(text);
    if text == "" {
      UnescapeNothing();
    } else {
      UnescapeEntity(text[0], Mapped(text[1..]));
      UnescapeInverts(text[1..]);
      EscapeIsOnePass(text[1..]);
      assert text == [text[0]] + text[1..];
    }
  }

  lemma UnescapeNothing()
    ensures Unescape("") == ""
  {
  }
}
