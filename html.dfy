/** `escapeHtml` of the browser script (js/script.js:8-10). */
module Html {

  /** The five characters the escaper replaces. */
  predicate IsSpecial(c: char) {
    c == '&' || c == '<' || c == '>' || c == '"' || c == '\''
  }

  /** The replacement of one character. */
  function Entity(c: char): string {
    match c
    case '&' => "&amp;"
    case '<' => "&lt;"
    case '>' => "&gt;"
    case '"' => "&quot;"
    case '\'' => "&#39;"
    case _ => [c]
  }

  /** `String(s).replace(/[&<>"']/g, ...)`: every special character becomes its entity.
      The result never holds a raw `<`, `>`, `"` or `'`, and every `&` in it opens an entity. */
  function EscapeHtml(s: string): (r: string)
    ensures forall i :: 0 <= i < |r| ==> r[i] != '<' && r[i] != '>' && r[i] != '"' && r[i] != '\''
    ensures |r| >= |s|
    decreases |s|
  {
    if s == [] then []
    else
      var rest := EscapeHtml(s[1..]);
      var e := Entity(s[0]);
      assert forall i :: 0 <= i < |e + rest| ==> (e + rest)[i] == if i < |e| then e[i] else rest[i - |e|];
      e + rest
  }

  /** The decoder for the five entities `EscapeHtml` produces; any other text is copied. */
  function UnescapeHtml(s: string): string
    decreases |s|
  {
    if s == [] then []
    else if |s| >= 5 && s[..5] == "&amp;" then "&" + UnescapeHtml(s[5..])
    else if |s| >= 4 && s[..4] == "&lt;" then "<" + UnescapeHtml(s[4..])
    else if |s| >= 4 && s[..4] == "&gt;" then ">" + UnescapeHtml(s[4..])
    else if |s| >= 6 && s[..6] == "&quot;" then "\"" + UnescapeHtml(s[6..])
    else if |s| >= 5 && s[..5] == "&#39;" then "'" + UnescapeHtml(s[5..])
    else [s[0]] + UnescapeHtml(s[1..])
  }

  /** A character other than `&` is copied by the decoder. */
  lemma UnescapePlain(c: char, rest: string)
    requires c != '&'
    ensures UnescapeHtml([c] + rest) == [c] + UnescapeHtml(rest)
  {
    var s := [c] + rest;
    assert s[0] == c && s[1..] == rest;
    assert !(|s| >= 4 && s[..4] == "&lt;") by {
      if |s| >= 4 { assert s[..4][0] == c; }
    }
    assert !(|s| >= 5 && s[..5] == "&amp;") by {
      if |s| >= 5 { assert s[..5][0] == c; }
    }
    assert !(|s| >= 6 && s[..6] == "&quot;") by {
      if |s| >= 6 { assert s[..6][0] == c; }
    }
  }

  lemma UnescapeEntity(c: char, rest: string)
    ensures UnescapeHtml(Entity(c) + rest) == [c] + UnescapeHtml(rest)
  {
    var s := Entity(c) + rest;
    match c
    case '&' =>
      assert s[..5] == "&amp;" && s[5..] == rest;
    case '<' =>
      assert |s| < 5 || s[..5] != "&amp;" by { assert s[1] == 'l'; }
      assert s[..4] == "&lt;" && s[4..] == rest;
    case '>' =>
      assert |s| < 5 || s[..5] != "&amp;" by { assert s[1] == 'g'; }
      assert s[..4] != "&lt;" by { assert s[1] == 'g'; }
      assert s[..4] == "&gt;" && s[4..] == rest;
    case '"' =>
      assert s[..5] != "&amp;" && s[..4] != "&lt;" && s[..4] != "&gt;" by { assert s[1] == 'q'; }
      assert s[..6] == "&quot;" && s[6..] == rest;
    case '\'' =>
      assert s[..5] != "&amp;" && s[..4] != "&lt;" && s[..4] != "&gt;" by { assert s[1] == '#'; }
      assert |s| < 6 || s[..6] != "&quot;" by { assert s[1] == '#'; }
      assert s[..5] == "&#39;" && s[5..] == rest;
    case _ =>
      UnescapePlain(c, rest);
  }

  /** Escaping loses nothing: decoding the escaped text gives the original back. */
  lemma {:induction false} EscapeRoundTrip(s: string)
    ensures UnescapeHtml(EscapeHtml(s)) == s
    decreases |s|
  {
    if s != [] {
      EscapeRoundTrip(s[1..]);
      UnescapeEntity(s[0], EscapeHtml(s[1..]));
      assert [s[0]] + s[1..] == s;
    }
  }

  /** Escaping is the identity exactly on the texts without special characters. */
  lemma {:induction false} EscapeIdentity(s: string)
    ensures EscapeHtml(s) == s <==> forall i :: 0 <= i < |s| ==> !IsSpecial(s[i])
    decreases |s|
  {
    if s != [] {
      EscapeIdentity(s[1..]);
      assert forall i :: 1 <= i < |s| ==> s[i] == s[1..][i - 1];
      if IsSpecial(s[0]) {
        assert |EscapeHtml(s)| > |s|;
      } else {
        assert [s[0]] + s[1..] == s;
        if EscapeHtml(s) == s {
          assert EscapeHtml(s[1..]) == s[1..];
        }
      }
    }
  }
}
