/** String helpers of the browser script: case mapping, `trim`, `split`, `join`, `includes`,
    and the form-field parsers built from them (js/script.js:354-355, 443, 548). */
module Text {

  /** `toLowerCase` on the ASCII letters; every other character is left as it is. */
  function LowerChar(c: char): char {
    if 'A' <= c <= 'Z' then (c as int + 32) as char else c
  }

  function Lower(s: string): (r: string)
    ensures |r| == |s|
  {
    seq(|s|, i requires 0 <= i < |s| => LowerChar(s[i]))
  }

  /** The characters `String.prototype.trim` removes: ECMAScript's WhiteSpace and LineTerminator. */
  predicate IsSpace(c: char) {
    c == '\t' || c == '\n' || c == '\U{000B}' || c == '\U{000C}' || c == '\r' || c == ' ' ||
    c == '\U{00A0}' || c == '\U{1680}' || '\U{2000}' <= c <= '\U{200A}' ||
    c == '\U{2028}' || c == '\U{2029}' || c == '\U{202F}' || c == '\U{205F}' ||
    c == '\U{3000}' || c == '\U{FEFF}'
  }

  predicate AllSpace(s: string) {
    forall i :: 0 <= i < |s| ==> IsSpace(s[i])
  }

  /** Neither end of `s` is white space. */
  predicate Trimmed(s: string) {
    s == [] || (!IsSpace(s[0]) && !IsSpace(s[|s| - 1]))
  }

  function TrimStart(s: string): (r: string)
    ensures |r| <= |s|
    ensures r == [] || !IsSpace(r[0])
    decreases |s|
  {
    if s != [] && IsSpace(s[0]) then TrimStart(s[1..]) else s
  }

  function TrimEnd(s: string): (r: string)
    ensures |r| <= |s|
    ensures r == [] || !IsSpace(r[|r| - 1])
    decreases |s|
  {
    if s != [] && IsSpace(s[|s| - 1]) then TrimEnd(s[..|s| - 1]) else s
  }

  /** `trimStart` removes a leading run of white space and nothing else. */
  lemma {:induction false} TrimStartSuffix(s: string)
    ensures TrimStart(s) == s[|s| - |TrimStart(s)|..]
    ensures AllSpace(s[..|s| - |TrimStart(s)|])
    decreases |s|
  {
    if s != [] && IsSpace(s[0]) {
      var t := s[1..];
      TrimStartSuffix(t);
      var n := |s| - |TrimStart(s)|;
      assert s[n..] == t[n - 1..];
      forall i | 0 <= i < n
        ensures IsSpace(s[..n][i])
      {
        if i > 0 {
          assert s[..n][i] == t[..n - 1][i - 1];
        }
      }
    } else {
      assert s[|s| - |s|..] == s;
    }
  }

  /** `trimEnd` removes a trailing run of white space and nothing else. */
  lemma {:induction false} TrimEndPrefix(s: string)
    ensures TrimEnd(s) == s[..|TrimEnd(s)|]
    ensures AllSpace(s[|TrimEnd(s)|..])
    decreases |s|
  {
    if s != [] && IsSpace(s[|s| - 1]) {
      var t := s[..|s| - 1];
      TrimEndPrefix(t);
      var n := |TrimEnd(s)|;
      assert s[..n] == t[..n];
      forall i | 0 <= i < |s| - n
        ensures IsSpace(s[n..][i])
      {
        if i < |s| - n - 1 {
          assert s[n..][i] == t[n..][i];
        }
      }
    }
  }

  /** `s.trim()`: drops the white space at both ends and nothing else. */
  function Trim(s: string): (r: string)
    ensures Trimmed(r)
    ensures Trimmed(s) ==> r == s
    ensures r == [] <==> AllSpace(s)
  {
    var t := TrimStart(s);
    var r := TrimEnd(t);
    TrimStartSuffix(s);
    TrimEndPrefix(t);
    assert r == [] ==> t == [] by {
      if r == [] { assert t[|r|..] == t; }
    }
    assert t == [] ==> AllSpace(s) by {
      if t == [] { assert s[..|s| - |t|] == s; }
    }
    assert r != [] ==> r[0] == t[0];
    r
  }

  /** `s.split(sep)` for a one-character separator: the pieces between separators, `[""]` for `""`. */
  function SplitOn(s: string, sep: char): (parts: seq<string>)
    ensures |parts| >= 1
    ensures forall k :: 0 <= k < |parts| ==> sep !in parts[k]
    decreases |s|
  {
    if s == [] then [""]
    else
      var rest := SplitOn(s[1..], sep);
      if s[0] == sep then [""] + rest
      else [[s[0]] + rest[0]] + rest[1..]
  }

  /** `xs.join(sep)`. */
  function Join(xs: seq<string>, sep: string): (r: string)
    ensures xs == [] ==> r == ""
    ensures xs != [] ==> IsPrefix(xs[0], r)
    decreases |xs|
  {
    if |xs| == 0 then ""
    else if |xs| == 1 then xs[0]
    else xs[0] + sep + Join(xs[1..], sep)
  }

  /** `parts.map(s => s.trim()).filter(Boolean)`: trimmed pieces, empty ones dropped, order kept. */
  function Clean(parts: seq<string>): (r: seq<string>)
    ensures |r| <= |parts|
    ensures forall k :: 0 <= k < |r| ==> r[k] != "" && Trimmed(r[k])
    decreases |parts|
  {
    if parts == [] then []
    else
      var t := Trim(parts[0]);
      (if t == "" then [] else [t]) + Clean(parts[1..])
  }

  /** Comma-separated form field: `raw.split(",").map(s => s.trim()).filter(Boolean)`. */
  function ParseCommaList(raw: string): (r: seq<string>)
    ensures forall k :: 0 <= k < |r| ==> r[k] != "" && Trimmed(r[k]) && ',' !in r[k]
  {
    CleanAvoids(SplitOn(raw, ','), ',');
    Clean(SplitOn(raw, ','))
  }

  /** One piece of `raw.split(/\r?\n/)`: a `\r` just before the `\n` belongs to the separator. */
  function StripCR(s: string): string {
    if s != [] && s[|s| - 1] == '\r' then s[..|s| - 1] else s
  }

  /** `StripCR` on every piece. */
  function StripAll(parts: seq<string>): (r: seq<string>)
    ensures |r| == |parts|
    decreases |parts|
  {
    if parts == [] then [] else [StripCR(parts[0])] + StripAll(parts[1..])
  }

  /** One-per-line textarea: `raw.split(/\r?\n/).map(x => x.trim()).filter(Boolean)`. */
  function ParseLines(raw: string): (r: seq<string>)
    ensures forall k :: 0 <= k < |r| ==> r[k] != "" && Trimmed(r[k]) && '\n' !in r[k]
  {
    StripAllAvoids(SplitOn(raw, '\n'), '\n');
    CleanAvoids(StripAll(SplitOn(raw, '\n')), '\n');
    Clean(StripAll(SplitOn(raw, '\n')))
  }

  /** Dropping a final `\r` from each piece adds no character. */
  lemma {:induction false} StripAllAvoids(parts: seq<string>, c: char)
    requires forall j :: 0 <= j < |parts| ==> c !in parts[j]
    ensures forall j :: 0 <= j < |StripAll(parts)| ==> c !in StripAll(parts)[j]
    decreases |parts|
  {
    if parts != [] {
      StripAllAvoids(parts[1..], c);
      var x := parts[0];
      if x != [] && x[|x| - 1] == '\r' {
        SliceAvoids(x, c, 0, |x| - 1);
      }
    }
  }

  predicate IsPrefix(p: string, s: string) {
    |p| <= |s| && s[..|p|] == p
  }

  /** `s.includes(sub)`. */
  predicate Contains(s: string, sub: string)
    ensures Contains(s, sub) ==> |sub| <= |s|
    ensures IsPrefix(sub, s) ==> Contains(s, sub)
    decreases |s|
  {
    IsPrefix(sub, s) || (s != [] && Contains(s[1..], sub))
  }

  /** `sub` occurs in `s` starting at position `i`. */
  predicate OccursAt(s: string, sub: string, i: int) {
    0 <= i <= |s| - |sub| && s[i..i + |sub|] == sub
  }

  // ---------------------------------------------------------------- lemmas

  /** Joining the pieces of a split with the separator gives the string back. */
  lemma {:induction false} JoinSplit(s: string, sep: char)
    ensures Join(SplitOn(s, sep), [sep]) == s
    decreases |s|
  {
    if s != [] {
      var rest := SplitOn(s[1..], sep);
      JoinSplit(s[1..], sep);
      if s[0] == sep {
        assert ([""] + rest)[1..] == rest;
        assert s == "" + [sep] + Join(rest, [sep]);
      } else {
        var parts := [[s[0]] + rest[0]] + rest[1..];
        if |rest| > 1 {
          assert parts[1..] == rest[1..];
          assert Join(rest, [sep]) == rest[0] + [sep] + Join(rest[1..], [sep]);
        }
      }
    }
  }

  /** `includes` holds exactly when `sub` occurs at some position of `s`. */
  lemma {:induction false} ContainsIff(s: string, sub: string)
    ensures Contains(s, sub) <==> exists i :: OccursAt(s, sub, i)
    decreases |s|
  {
    if IsPrefix(sub, s) {
      assert OccursAt(s, sub, 0);
    }
    if s != [] {
      ContainsIff(s[1..], sub);
      if Contains(s[1..], sub) {
        var i :| OccursAt(s[1..], sub, i);
        assert s[1..][i..i + |sub|] == s[i + 1..i + 1 + |sub|];
        assert OccursAt(s, sub, i + 1);
      }
      if exists i :: OccursAt(s, sub, i) {
        var i :| OccursAt(s, sub, i);
        if i > 0 {
          assert s[1..][i - 1..i - 1 + |sub|] == s[i..i + |sub|];
          assert OccursAt(s[1..], sub, i - 1);
        }
      }
    }
  }

  /** A slice holds no character its sequence does not hold. */
  lemma SliceAvoids(s: string, c: char, lo: nat, hi: nat)
    requires c !in s && lo <= hi <= |s|
    ensures c !in s[lo..hi]
  {
    forall i | 0 <= i < hi - lo
      ensures s[lo..hi][i] != c
    {
      assert s[lo..hi][i] == s[lo + i];
    }
  }

  /** Trimming never introduces a character that was not there. */
  lemma TrimAvoids(s: string, c: char)
    requires c !in s
    ensures c !in Trim(s)
  {
    var t := TrimStart(s);
    TrimStartSuffix(s);
    SliceAvoids(s, c, |s| - |t|, |s|);
    TrimEndPrefix(t);
    SliceAvoids(t, c, 0, |TrimEnd(t)|);
  }

  /** A character absent from every piece is absent from every cleaned piece. */
  lemma {:induction false} CleanAvoids(parts: seq<string>, c: char)
    requires forall j :: 0 <= j < |parts| ==> c !in parts[j]
    ensures forall k :: 0 <= k < |Clean(parts)| ==> c !in Clean(parts)[k]
    decreases |parts|
  {
    if parts != [] {
      TrimAvoids(parts[0], c);
      CleanAvoids(parts[1..], c);
    }
  }

  lemma {:induction false} TrimStartPadded(pad: string, a: string)
    requires AllSpace(pad) && (a == [] || !IsSpace(a[0]))
    ensures TrimStart(pad + a) == a
    decreases |pad|
  {
    if pad != [] {
      assert (pad + a)[1..] == pad[1..] + a;
      TrimStartPadded(pad[1..], a);
    } else {
      assert pad + a == a;
    }
  }

  /** Leading white space in front of a trimmed, non-empty string is all that `trim` removes. */
  lemma {:induction false} TrimPadded(pad: string, a: string)
    requires AllSpace(pad) && a != [] && Trimmed(a)
    ensures Trim(pad + a) == a
  {
    TrimStartPadded(pad, a);
  }

  lemma {:induction false} TrimEndPadded(a: string, pad: string)
    requires AllSpace(pad) && (a == [] || !IsSpace(a[|a| - 1]))
    ensures TrimEnd(a + pad) == a
    decreases |pad|
  {
    if pad != [] {
      assert (a + pad)[..|a + pad| - 1] == a + pad[..|pad| - 1];
      TrimEndPadded(a, pad[..|pad| - 1]);
    } else {
      assert a + pad == a;
    }
  }

  /** White space on both sides of a trimmed, non-empty string is all that `trim` removes. */
  lemma TrimSurrounded(pad: string, a: string, tail: string)
    requires AllSpace(pad) && AllSpace(tail) && a != [] && Trimmed(a)
    ensures Trim(pad + a + tail) == a
  {
    assert pad + a + tail == pad + (a + tail);
    assert (a + tail)[0] == a[0];
    TrimStartPadded(pad, a + tail);
    TrimEndPadded(a, tail);
  }

  lemma {:induction false} SplitNoSep(a: string, c: char)
    requires c !in a
    ensures SplitOn(a, c) == [a]
    decreases |a|
  {
    if a != [] {
      SplitNoSep(a[1..], c);
      assert [a[0]] + a[1..] == a;
    }
  }

  lemma {:induction false} SplitConcat(a: string, c: char, b: string)
    requires c !in a
    ensures SplitOn(a + [c] + b, c) == [a] + SplitOn(b, c)
    decreases |a|
  {
    if a == [] {
      assert (a + [c] + b)[1..] == b;
    } else {
      assert (a + [c] + b)[1..] == a[1..] + [c] + b;
      SplitConcat(a[1..], c, b);
      assert [a[0]] + a[1..] == a;
    }
  }

  /** Splitting a joined list and cleaning the pieces gives the list back, whatever white space
      surrounds the separators, when the items are trimmed, non-empty and free of the separator. */
  lemma {:induction false} CleanSplitJoin(items: seq<string>, c: char, pad: string, lead: string)
    requires forall k :: 0 <= k < |items| ==> items[k] != "" && Trimmed(items[k]) && c !in items[k]
    requires AllSpace(pad) && c !in pad && AllSpace(lead) && c !in lead
    ensures Clean(SplitOn(lead + Join(items, [c] + pad), c)) == items
    decreases |items|, 1
  {
    if |items| == 0 {
      assert lead + Join(items, [c] + pad) == lead;
      SplitNoSep(lead, c);
    } else if |items| == 1 {
      var a := items[0];
      assert lead + Join(items, [c] + pad) == lead + a;
      SplitNoSep(lead + a, c);
      TrimPadded(lead, a);
      CleanCons(lead + a, []);
    } else {
      CleanSplitJoinCons(items, c, pad, lead);
    }
  }

  lemma {:induction false} CleanSplitJoinCons(items: seq<string>, c: char, pad: string, lead: string)
    requires |items| >= 2
    requires forall k :: 0 <= k < |items| ==> items[k] != "" && Trimmed(items[k]) && c !in items[k]
    requires AllSpace(pad) && c !in pad && AllSpace(lead) && c !in lead
    ensures Clean(SplitOn(lead + Join(items, [c] + pad), c)) == items
    decreases |items|, 0
  {
    var a := items[0];
    var rest := items[1..];
    var sep := [c] + pad;
    var tail := pad + Join(rest, sep);
    assert Join(items, sep) == a + sep + Join(rest, sep);
    assert lead + Join(items, sep) == (lead + a) + [c] + tail;
    SplitConcat(lead + a, c, tail);
    var parts := SplitOn(lead + Join(items, sep), c);
    assert parts == [lead + a] + SplitOn(tail, c);
    TrimPadded(lead, a);
    assert forall k :: 0 <= k < |rest| ==> rest[k] == items[k + 1];
    CleanSplitJoin(rest, c, pad, pad);
    CleanCons(lead + a, SplitOn(tail, c));
    assert [a] + rest == items;
  }

  lemma CleanCons(x: string, rest: seq<string>)
    ensures Clean([x] + rest) == (if Trim(x) == "" then [] else [Trim(x)]) + Clean(rest)
  {
    assert ([x] + rest)[1..] == rest;
  }

  /** Parsing the `", "`-joined query built from a parsed list (js/script.js:443, 450) returns the list. */
  lemma {:induction false} ParseCommaListJoin(items: seq<string>)
    requires forall k :: 0 <= k < |items| ==> items[k] != "" && Trimmed(items[k]) && ',' !in items[k]
    ensures ParseCommaList(Join(items, ", ")) == items
  {
    assert [','] + " " == ", ";
    assert "" + Join(items, ", ") == Join(items, ", ");
    CleanSplitJoin(items, ',', " ", "");
  }

  /** Re-parsing what was parsed and joined again changes nothing. */
  lemma {:induction false} ParseCommaListIdempotent(raw: string)
    ensures ParseCommaList(Join(ParseCommaList(raw), ", ")) == ParseCommaList(raw)
  {
    ParseCommaListJoin(ParseCommaList(raw));
  }

  lemma {:induction false} TrimStartAppend(x: string, y: string)
    ensures TrimStart(x + y) == if AllSpace(x) then TrimStart(y) else TrimStart(x) + y
    decreases |x|
  {
    if x == [] {
      assert x + y == y;
    } else if IsSpace(x[0]) {
      assert (x + y)[1..] == x[1..] + y;
      TrimStartAppend(x[1..], y);
      assert AllSpace(x) == AllSpace(x[1..]) by {
        assert forall i :: 1 <= i < |x| ==> x[i] == x[1..][i - 1];
      }
    } else {
      assert (x + y)[0] == x[0];
    }
  }

  /** Appending white space to a string does not change its `trimEnd`. */
  lemma TrimEndSnoc(t: string, c: char)
    requires IsSpace(c)
    ensures TrimEnd(t + [c]) == TrimEnd(t)
  {
    assert (t + [c])[..|t|] == t;
  }

  lemma AllSpaceSnoc(t: string, c: char)
    requires AllSpace(t) && IsSpace(c)
    ensures AllSpace(t + [c])
  {
    forall i | 0 <= i < |t| + 1
      ensures IsSpace((t + [c])[i])
    {
      if i < |t| {
        assert (t + [c])[i] == t[i];
      }
    }
  }

  lemma TrimStripCR(x: string)
    ensures Trim(StripCR(x)) == Trim(x)
  {
    if x != [] && x[|x| - 1] == '\r' {
      var y := x[..|x| - 1];
      assert x == y + ['\r'];
      TrimSnoc(y, '\r');
    }
  }

  lemma {:induction false} CleanStripCR(parts: seq<string>)
    ensures Clean(StripAll(parts)) == Clean(parts)
    decreases |parts|
  {
    if parts != [] {
      TrimStripCR(parts[0]);
      CleanStripCR(parts[1..]);
      CleanCons(StripCR(parts[0]), StripAll(parts[1..]));
      CleanCons(parts[0], parts[1..]);
      assert [parts[0]] + parts[1..] == parts;
    }
  }

  /** A `\r` before a line break makes no difference to the parsed lines. */
  lemma {:induction false} ParseLinesIgnoresCR(raw: string)
    ensures ParseLines(raw) == Clean(SplitOn(raw, '\n'))
  {
    CleanStripCR(SplitOn(raw, '\n'));
  }

  /** The edit form shows a list one item per line (js/script.js:261) and parses it back
      (js/script.js:354): trimmed, non-empty, single-line items survive unchanged. */
  lemma {:induction false} ParseLinesJoin(items: seq<string>)
    requires forall k :: 0 <= k < |items| ==> items[k] != "" && Trimmed(items[k]) && '\n' !in items[k]
    ensures ParseLines(Join(items, "\n")) == items
  {
    ParseLinesIgnoresCR(Join(items, "\n"));
    assert ['\n'] + "" == "\n";
    assert "" + Join(items, "\n") == Join(items, "\n");
    CleanSplitJoin(items, '\n', "", "");
  }

  // ---------------------------------------------------------------- outer white space

  /** White space in front of a string does not change its `trim`. */
  lemma TrimCons(w: char, x: string)
    requires IsSpace(w)
    ensures Trim([w] + x) == Trim(x)
  {
    assert ([w] + x)[1..] == x;
  }

  /** White space after a string does not change its `trim`. */
  lemma TrimSnoc(y: string, w: char)
    requires IsSpace(w)
    ensures Trim(y + [w]) == Trim(y)
  {
    TrimStartAppend(y, [w]);
    if AllSpace(y) {
      AllSpaceSnoc(y, w);
    } else {
      TrimEndSnoc(TrimStart(y), w);
    }
  }

  lemma SplitOne(c: char, w: char)
    requires w != c
    ensures SplitOn([w], c) == [[w]]
  {
    var e: string := [];
    assert [w][1..] == e;
    assert SplitOn(e, c) == [""];
    assert [w] + "" == [w] && [""][1..] == [];
  }

  /** The pieces with `w` appended to the last one. */
  function ExtendLast(parts: seq<string>, w: char): (r: seq<string>)
    requires |parts| >= 1
    ensures |r| == |parts|
  {
    parts[..|parts| - 1] + [parts[|parts| - 1] + [w]]
  }

  lemma ExtendLastCons(x: string, parts: seq<string>, w: char)
    requires |parts| >= 1
    ensures ExtendLast([x] + parts, w) == [x] + ExtendLast(parts, w)
  {
    assert ([x] + parts)[..|parts|] == [x] + parts[..|parts| - 1];
  }

  lemma ExtendLastHead(a: char, parts: seq<string>, w: char)
    requires |parts| >= 1
    ensures var e := ExtendLast(parts, w);
            ExtendLast([[a] + parts[0]] + parts[1..], w) == [[a] + e[0]] + e[1..]
  {
    var e := ExtendLast(parts, w);
    if |parts| == 1 {
      assert [a] + (parts[0] + [w]) == ([a] + parts[0]) + [w];
    } else {
      assert e[0] == parts[0] && e[1..] == parts[1..|parts| - 1] + [parts[|parts| - 1] + [w]];
      assert ([[a] + parts[0]] + parts[1..])[..|parts| - 1] == [[a] + parts[0]] + parts[1..|parts| - 1];
    }
  }

  /** A character other than the separator appended to a string extends its last piece. */
  lemma {:induction false} SplitSnoc(s: string, c: char, w: char)
    requires w != c
    ensures SplitOn(s + [w], c) == ExtendLast(SplitOn(s, c), w)
    decreases |s|
  {
    if s == [] {
      assert s + [w] == [w];
      SplitOne(c, w);
    } else {
      var t := s[1..];
      assert (s + [w])[1..] == t + [w];
      SplitSnoc(t, c, w);
      var rest := SplitOn(t, c);
      if s[0] == c {
        ExtendLastCons("", rest, w);
      } else {
        ExtendLastHead(s[0], rest, w);
      }
    }
  }

  lemma {:induction false} CleanSnoc(xs: seq<string>, y: string)
    ensures Clean(xs + [y]) == Clean(xs) + (if Trim(y) == "" then [] else [Trim(y)])
    decreases |xs|
  {
    if xs == [] {
      assert [y][1..] == [];
    } else {
      assert (xs + [y])[1..] == xs[1..] + [y];
      CleanSnoc(xs[1..], y);
    }
  }

  /** `ParseCommaList` ignores white space at the front. */
  lemma ParseCommaListCons(w: char, x: string)
    requires IsSpace(w)
    ensures ParseCommaList([w] + x) == ParseCommaList(x)
  {
    var rest := SplitOn(x, ',');
    assert ([w] + x)[1..] == x;
    assert SplitOn([w] + x, ',') == [[w] + rest[0]] + rest[1..];
    TrimCons(w, rest[0]);
    CleanCons([w] + rest[0], rest[1..]);
    CleanCons(rest[0], rest[1..]);
    assert [rest[0]] + rest[1..] == rest;
  }

  /** White space appended to the last piece does not change the cleaned list. */
  lemma CleanExtendLast(parts: seq<string>, w: char)
    requires |parts| >= 1 && IsSpace(w)
    ensures Clean(ExtendLast(parts, w)) == Clean(parts)
  {
    var n := |parts| - 1;
    var init, last := parts[..n], parts[n];
    assert ExtendLast(parts, w) == init + [last + [w]];
    assert init + [last] == parts;
    TrimSnoc(last, w);
    CleanSnoc(init, last + [w]);
    CleanSnoc(init, last);
  }

  /** `ParseCommaList` ignores white space at the end. */
  lemma ParseCommaListSnoc(y: string, w: char)
    requires IsSpace(w)
    ensures ParseCommaList(y + [w]) == ParseCommaList(y)
  {
    SplitSnoc(y, ',', w);
    CleanExtendLast(SplitOn(y, ','), w);
  }

  lemma {:induction false} ParseCommaListTrimStart(raw: string)
    ensures ParseCommaList(TrimStart(raw)) == ParseCommaList(raw)
    decreases |raw|
  {
    if raw != [] && IsSpace(raw[0]) {
      ParseCommaListTrimStart(raw[1..]);
      assert [raw[0]] + raw[1..] == raw;
      ParseCommaListCons(raw[0], raw[1..]);
    }
  }

  lemma {:induction false} ParseCommaListTrimEnd(raw: string)
    ensures ParseCommaList(TrimEnd(raw)) == ParseCommaList(raw)
    decreases |raw|
  {
    if raw != [] && IsSpace(raw[|raw| - 1]) {
      var y := raw[..|raw| - 1];
      ParseCommaListTrimEnd(y);
      assert y + [raw[|raw| - 1]] == raw;
      ParseCommaListSnoc(y, raw[|raw| - 1]);
    }
  }

  /** The new-recipe form trims the ingredients field before splitting it (js/script.js:541, 548);
      that trim changes nothing, and an all-white-space field parses to no ingredients. */
  lemma ParseCommaListTrim(raw: string)
    ensures ParseCommaList(Trim(raw)) == ParseCommaList(raw)
    ensures AllSpace(raw) ==> ParseCommaList(raw) == []
  {
    ParseCommaListTrimStart(raw);
    ParseCommaListTrimEnd(TrimStart(raw));
    var e: string := [];
    assert SplitOn(e, ',') == [""];
  }
}
