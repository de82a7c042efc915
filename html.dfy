/**
 * `escapeHtml`: the page's only defence when it writes gift text into
 * HTML. Each of `& < > " '` becomes its entity; everything else is kept.
 */
module Html {
  import opened JsText

  predicate IsSpecial(c: char)
  {
    c == '&' || c == '<' || c == '>' || c == '"' || c == '\''
  }

  /** The characters that cannot appear in escaped text. */
  predicate IsMarkup(c: char)
  {
    c == '<' || c == '>' || c == '"' || c == '\''
  }

  function EscapeChar(c: char): (r: string)
    ensures |r| >= 1
    ensures forall i :: 0 <= i < |r| ==> !IsMarkup(r[i])
  {
    if c == '&' then "&amp;"
    else if c == '<' then "&lt;"
    else if c == '>' then "&gt;"
    else if c == '"' then "&quot;"
    else if c == '\'' then "&#039;"
    else [c]
  }

  /** `text.replace(/[&<>"']/g, m => map[m])` on a present, non-empty text. */
  function EscapeText(s: string): (r: string)
    ensures |r| >= |s|
    ensures forall i :: 0 <= i < |r| ==> !IsMarkup(r[i])
    ensures (forall i :: 0 <= i < |s| ==> !IsSpecial(s[i])) ==> r == s
    decreases |s|
  {
    if s == [] then []
    else
      var head := EscapeChar(s[0]);
      var tail := EscapeText(s[1..]);
      assert forall i :: 0 <= i < |head| + |tail| ==> (head + tail)[i] == if i < |head| then head[i] else tail[i - |head|];
      head + tail
  }

  /** `escapeHtml(text)`: a missing text and the empty text both give the
      empty string. */
  function EscapeHtml(text: Option<string>): (r: string)
    ensures text.None? || text == Some("") ==> r == ""
    ensures text.Some? ==> |r| >= |text.value|
    ensures forall i :: 0 <= i < |r| ==> !IsMarkup(r[i])
    ensures text.Some? && (forall i :: 0 <= i < |text.value| ==> !IsSpecial(text.value[i])) ==> r == text.value
  {
    match text
    case None => ""
    case Some(s) => if s == "" then "" else EscapeText(s)
  }

  /** What a browser reads back from escaped text: the five entities are
      turned back into their characters. */
  function Unescape(s: string): string
    decreases |s|
  {
    if s == [] then []
    else if s[0] != '&' then [s[0]] + Unescape(s[1..])
    else if "&amp;" <= s then "&" + Unescape(s[5..])
    else if "&lt;" <= s then "<" + Unescape(s[4..])
    else if "&gt;" <= s then ">" + Unescape(s[4..])
    else if "&quot;" <= s then "\"" + Unescape(s[6..])
    else if "&#039;" <= s then "'" + Unescape(s[6..])
    else "&" + Unescape(s[1..])
  }

  lemma UnescapeChar(c: char, rest: string)
    ensures Unescape(EscapeChar(c) + rest) == [c] + Unescape(rest)
  {
    if IsSpecial(c) {
      UnescapeEntity(c, rest);
    } else {
      var e := EscapeChar(c) + rest;
      assert e[0] == c && e[1..] == rest;
    }
  }

  lemma UnescapeEntity(c: char, rest: string)
    requires IsSpecial(c)
    ensures Unescape(EscapeChar(c) + rest) == [c] + Unescape(rest)
  {
    var e := EscapeChar(c) + rest;
    var n := |EscapeChar(c)|;
    assert e[..n] == EscapeChar(c) && e[n..] == rest;
    if c != '&' {
      assert e[1] != 'a';
      if c != '<' {
        assert e[1] != 'l';
        if c != '>' {
          assert e[1] != 'g';
          if c != '"' {
            assert e[1] != 'q';
          }
        }
      }
    }
  }

  /** The page shows exactly the gift's text: unescaping what `escapeHtml`
      wrote gives back the original. */
  lemma {:induction false} EscapeHtmlRoundTrip(s: string)
    ensures Unescape(EscapeHtml(Some(s))) == s
    ensures Unescape(EscapeText(s)) == s
    decreases |s|
  {
    if s != [] {
      EscapeHtmlRoundTrip(s[1..]);
      UnescapeChar(s[0], EscapeText(s[1..]));
      assert [s[0]] + s[1..] == s;
    }
  }
}
