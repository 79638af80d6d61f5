/** Transcript search: the LIKE pattern built from user input, and the snippet shown for a hit. LIKE
    ignores the case of ASCII letters; the snippet looks for the hit in lower-cased text, where a
    character may become several, or one of another length in bytes. */
module LikeSearch {
  import opened Wrappers
  import Utf8

  function Fold(c: char): char {
    if 'A' <= c <= 'Z' then 'a' + (c - 'A') else c
  }

  predicate FoldEqual(s: string, t: string) {
    |s| == |t| && forall i :: 0 <= i < |s| ==> Fold(s[i]) == Fold(t[i])
  }

  /** What is ignored: whether an ASCII letter is a capital, 32 code points below the small one. */
  lemma FoldsCase(a: char, b: char)
    ensures Fold(a) == Fold(b) <==>
      || a == b
      || ('A' <= a <= 'Z' && b as int == a as int + 32)
      || ('A' <= b <= 'Z' && a as int == b as int + 32)
  {
  }

  /** q stands at position k of text, case aside. */
  predicate MatchAt(text: string, q: string, k: nat) {
    k + |q| <= |text| && FoldEqual(text[k..k + |q|], q)
  }

  ghost predicate Contains(text: string, q: string) {
    exists k: nat :: MatchAt(text, q, k)
  }

  // ----- LIKE -----

  const ESCAPE := '\\'

  /** SQLite's LIKE ... ESCAPE: `%` is any run, `_` any character, an escaped character itself, letters
      match in either case, and a pattern that ends in the escape character matches nothing. */
  ghost predicate Like(pattern: string, text: string)
    decreases |pattern|
  {
    if pattern == "" then text == ""
    else if pattern[0] == '%' then exists k :: 0 <= k <= |text| && Like(pattern[1..], text[k..])
    else if pattern[0] == ESCAPE then
      |pattern| >= 2 && text != "" && Fold(pattern[1]) == Fold(text[0]) && Like(pattern[2..], text[1..])
    else text != "" && (pattern[0] == '_' || Fold(pattern[0]) == Fold(text[0])) && Like(pattern[1..], text[1..])
  }

  predicate Special(c: char) {
    c == '%' || c == '_' || c == '\\'
  }

  function Escaped(q: string): string {
    if q == "" then ""
    else (if Special(q[0]) then [ESCAPE, q[0]] else [q[0]]) + Escaped(q[1..])
  }

  lemma {:induction false} EscapedAppend(a: string, b: string)
    ensures Escaped(a + b) == Escaped(a) + Escaped(b)
  {
    if a == "" {
      assert a + b == b;
    } else {
      assert (a + b)[1..] == a[1..] + b;
      EscapedAppend(a[1..], b);
    }
  }

  /** Escape LIKE wildcards character by character. */
  method EscapeLike(query: string) returns (out: string)
    ensures out == Escaped(query)
  {
    out := "";
    for i := 0 to |query|
      invariant out == Escaped(query[..i])
    {
      var ch := query[i];
      EscapedAppend(query[..i], [ch]);
      assert query[..i + 1] == query[..i] + [ch];
      assert Escaped([ch]) == (if Special(ch) then [ESCAPE, ch] else [ch]) by { assert [ch][1..] == ""; }
      if Special(ch) {
        out := out + [ESCAPE];
      }
      out := out + [ch];
    }
    assert query[..|query|] == query;
  }

  lemma AnythingMatchesPercent(text: string)
    ensures Like("%", text)
  {
    assert "%"[1..] == "" && text[|text|..] == "";
    assert Like("%"[1..], text[|text|..]);
  }

  /** An escaped query followed by `%` matches the texts that begin with the query. */
  lemma {:induction false} EscapedMatchesPrefix(q: string, text: string)
    ensures Like(Escaped(q) + "%", text) <==> MatchAt(text, q, 0)
    decreases |q|
  {
    if q == "" {
      assert "" + "%" == "%";
      AnythingMatchesPercent(text);
    } else {
      var p := Escaped(q) + "%";
      var rest := Escaped(q[1..]) + "%";
      if Special(q[0]) {
        assert p == [ESCAPE, q[0]] + rest && p[2..] == rest;
      } else {
        assert p == [q[0]] + rest && p[1..] == rest;
      }
      if text != "" {
        EscapedMatchesPrefix(q[1..], text[1..]);
        MatchSplits(text, q);
      }
    }
  }

  lemma MatchSplits(text: string, q: string)
    requires q != "" && text != ""
    ensures MatchAt(text, q, 0) <==> Fold(text[0]) == Fold(q[0]) && MatchAt(text[1..], q[1..], 0)
  {
    if |q| <= |text| {
      assert text[0..|q|][1..] == text[1..][0..|q| - 1];
      assert forall i :: 1 <= i < |q| ==> text[0..|q|][i] == text[1..][0..|q| - 1][i - 1] && q[i] == q[1..][i - 1];
      if MatchAt(text[1..], q[1..], 0) && Fold(text[0]) == Fold(q[0]) {
        forall i | 0 <= i < |q|
          ensures Fold(text[0..|q|][i]) == Fold(q[i])
        {
          assert i > 0 ==> Fold(text[1..][0..|q| - 1][i - 1]) == Fold(q[1..][i - 1]);
        }
      }
    }
  }

  /** The search pattern finds a text exactly when the query, wildcards and all taken literally, occurs
      in it, case aside. */
  lemma LikeIsSubstring(query: string, text: string)
    ensures Like("%" + Escaped(query) + "%", text) <==> Contains(text, query)
  {
    var p := "%" + Escaped(query) + "%";
    assert p[1..] == Escaped(query) + "%";
    forall k | 0 <= k <= |text|
      ensures Like(p[1..], text[k..]) <==> MatchAt(text, query, k)
    {
      EscapedMatchesPrefix(query, text[k..]);
      if k + |query| <= |text| {
        assert text[k..][0..|query|] == text[k..k + |query|];
      }
    }
    if Contains(text, query) {
      var k: nat :| MatchAt(text, query, k);
      assert Like(p[1..], text[k..]);
    }
  }

  // ----- Snippets -----

  /** What a character lower-cases to. */
  type Lowering = char -> string

  function LowerAll(lower: Lowering, s: string): string {
    if s == "" then "" else lower(s[0]) + LowerAll(lower, s[1..])
  }

  /** The bytes of a character in UTF-8. */
  function Width(c: char): (w: nat)
    ensures 1 <= w <= 4
  {
    if c < '\U{80}' then 1 else if c < '\U{800}' then 2 else if c < '\U{10000}' then 3 else 4
  }

  lemma WidthIsEncoded(c: char)
    ensures Width(c) == |Utf8.Encode(c as int)|
  {
  }

  /** Where character k starts, in bytes. */
  function Offset(s: string, k: nat): nat
    requires k <= |s|
  {
    if k == 0 then 0 else Width(s[0]) + Offset(s[1..], k - 1)
  }

  /** How many characters take these bytes; none if the text is shorter or a character would be cut. */
  function CharsBefore(s: string, bytes: nat): (n: Option<nat>)
    ensures n.Some? ==> n.value <= |s|
  {
    if bytes == 0 then Some(0)
    else if s == "" || bytes < Width(s[0]) then None
    else
      var rest := CharsBefore(s[1..], bytes - Width(s[0]));
      if rest.None? then None else Some(rest.value + 1)
  }

  lemma {:induction false} CharsBeforeIff(s: string, bytes: nat, n: nat)
    ensures CharsBefore(s, bytes) == Some(n) <==> n <= |s| && Offset(s, n) == bytes
  {
    if bytes != 0 && s != "" && bytes >= Width(s[0]) && n > 0 {
      CharsBeforeIff(s[1..], bytes - Width(s[0]), n - 1);
    }
  }

  /** needle stands at position k of text, exactly. */
  predicate ExactAt(text: string, needle: string, k: nat) {
    k + |needle| <= |text| && text[k..k + |needle|] == needle
  }

  /** The first exact match at or after `from`. */
  function FindFrom(text: string, needle: string, from: nat): (r: Option<nat>)
    ensures r.Some? ==> from <= r.value && ExactAt(text, needle, r.value)
    ensures forall k: nat :: from <= k && ExactAt(text, needle, k) ==> r.Some? && r.value <= k
    decreases |text| - from
  {
    if from + |needle| > |text| then None
    else if ExactAt(text, needle, from) then Some(from)
    else FindFrom(text, needle, from + 1)
  }

  const ELLIPSIS := '\U{2026}'

  function Ellipsis(cut: bool): string {
    if cut then [ELLIPSIS] else ""
  }

  /** The first hit in the lower-cased text, as a byte offset there; 0 without one. */
  function HitOffset(lower: Lowering, text: string, query: string): nat {
    var found := FindFrom(LowerAll(lower, text), LowerAll(lower, query), 0);
    if found.Some? then Offset(LowerAll(lower, text), found.value) else 0
  }

  datatype Extent = Extent(start: nat, end: nat)

  function Around(hit: nat, length: nat, radius: nat, size: nat): (w: Extent)
    requires hit <= size
    ensures w.start <= w.end <= size && w.start <= hit
  {
    Extent(Max(0, hit - radius), Min(hit + length + radius, size))
  }

  function Shown(text: string, w: Extent): string
    requires w.start <= w.end <= |text|
  {
    Ellipsis(w.start > 0) + text[w.start..w.end] + Ellipsis(w.end < |text|)
  }

  /** The window around the first hit, or the head of the text without one. None where the program
      panics: the hit's offset, taken in the lower-cased text, is used to slice the text itself. */
  function MakeSnippet(lower: Lowering, text: string, query: string, radius: nat): Option<string> {
    match CharsBefore(text, HitOffset(lower, text, query))
    case None => None
    case Some(hit) => Some(Shown(text, Around(hit, |LowerAll(lower, query)|, radius, |text|)))
  }

  // ----- When a snippet can be cut -----

  lemma NoCharStartsIff(s: string, bytes: nat)
    ensures CharsBefore(s, bytes).None? <==> forall n :: 0 <= n <= |s| ==> Offset(s, n) != bytes
  {
    if CharsBefore(s, bytes).None? {
      forall n | 0 <= n <= |s|
        ensures Offset(s, n) != bytes
      {
        CharsBeforeIff(s, bytes, n);
      }
    } else {
      var n := CharsBefore(s, bytes).value;
      CharsBeforeIff(s, bytes, n);
      assert Offset(s, n) == bytes;
    }
  }

  /** Exactly when make_snippet panics: no character of the text starts, nor does the text end, at the
      byte offset the first hit has in the lower-cased text. */
  lemma SnippetPanicsIff(lower: Lowering, text: string, query: string, radius: nat)
    ensures MakeSnippet(lower, text, query, radius).None? <==>
      var found := FindFrom(LowerAll(lower, text), LowerAll(lower, query), 0);
      found.Some? && forall n :: 0 <= n <= |text| ==> Offset(text, n) != Offset(LowerAll(lower, text), found.value)
  {
    hide FindFrom, LowerAll, Offset, ExactAt;
    NoCharStartsIff(text, HitOffset(lower, text, query));
  }

  /** Two capitals I with a dot, which lower-case from two bytes to three, before the hit. */
  lemma SnippetPanics(lower: Lowering, radius: nat)
    requires lower('\U{130}') == "i\U{307}" && lower('a') == "a"
    ensures MakeSnippet(lower, "\U{130}\U{130}a", "a", radius).None?
    ensures Like("%" + Escaped("a") + "%", "\U{130}\U{130}a")
  {
    var (text, low) := ("\U{130}\U{130}a", "i\U{307}i\U{307}a");
    assert text[1..] == "\U{130}a" && "\U{130}a"[1..] == "a" && "a"[1..] == "";
    assert LowerAll(lower, "a") == "a";
    assert LowerAll(lower, "\U{130}a") == "i\U{307}a";
    assert LowerAll(lower, text) == low;
    assert ExactAt(low, "a", 4);
    forall k: nat | k < 4
      ensures !ExactAt(low, "a", k)
    {
      assert low[k..k + 1][0] == low[k];
    }
    var found := FindFrom(low, "a", 0);
    assert found == Some(4);
    assert Offset(low, 4) == 6 by {
      assert low[1..] == "\U{307}i\U{307}a" && low[1..][1..] == "i\U{307}a" && low[1..][1..][1..] == "\U{307}a";
      assert Offset(low[1..][1..][1..], 1) == 2;
      assert Offset(low[1..][1..], 2) == 3;
      assert Offset(low[1..], 3) == 5;
    }
    assert CharsBefore("a", 2).None?;
    assert CharsBefore("\U{130}a", 4).None?;
    assert CharsBefore(text, 6).None?;
    assert MatchAt(text, "a", 2) && Contains(text, "a");
    LikeIsSubstring("a", text);
  }

  // ----- What a snippet shows -----

  /** Every character lower-cases to one character of its own length. */
  predicate Aligned(lower: Lowering, s: string) {
    forall i :: 0 <= i < |s| ==> |lower(s[i])| == 1 && Width(lower(s[i])[0]) == Width(s[i])
  }

  lemma {:induction false} LowerSingle(lower: Lowering, s: string)
    requires forall i :: 0 <= i < |s| ==> |lower(s[i])| == 1
    ensures |LowerAll(lower, s)| == |s|
    ensures forall i :: 0 <= i < |s| ==> lower(s[i]) == [LowerAll(lower, s)[i]]
  {
    if s != "" {
      LowerSingle(lower, s[1..]);
      assert forall i :: 1 <= i < |s| ==> s[i] == s[1..][i - 1];
    }
  }

  lemma {:induction false} AlignedOffset(s: string, t: string, k: nat)
    requires |s| == |t| && k <= |s| && forall i :: 0 <= i < |s| ==> Width(s[i]) == Width(t[i])
    ensures Offset(s, k) == Offset(t, k)
  {
    if k > 0 {
      AlignedOffset(s[1..], t[1..], k - 1);
    }
  }

  /** The text shows needle at k once lower-cased. */
  predicate LowerMatchAt(lower: Lowering, s: string, needle: string, k: nat) {
    k + |needle| <= |s| && forall i :: 0 <= i < |needle| ==> lower(s[k + i]) == [needle[i]]
  }

  ghost predicate LowerContains(lower: Lowering, s: string, needle: string) {
    exists k: nat :: LowerMatchAt(lower, s, needle, k)
  }

  lemma LowerMatches(lower: Lowering, text: string, needle: string, k: nat)
    requires Aligned(lower, text)
    ensures |LowerAll(lower, text)| == |text|
    ensures ExactAt(LowerAll(lower, text), needle, k) <==> LowerMatchAt(lower, text, needle, k)
  {
    LowerSingle(lower, text);
    hide LowerAll;
    var low := LowerAll(lower, text);
    if k + |needle| <= |text| {
      forall i | 0 <= i < |needle|
        ensures low[k..k + |needle|][i] == needle[i] <==> lower(text[k + i]) == [needle[i]]
      {
        assert low[k..k + |needle|][i] == low[k + i];
      }
    }
  }

  /** On aligned text the snippet is cut around the first hit. */
  lemma FirstHit(lower: Lowering, text: string, query: string) returns (hit: nat)
    requires Aligned(lower, text) && LowerContains(lower, text, LowerAll(lower, query))
    ensures LowerMatchAt(lower, text, LowerAll(lower, query), hit)
    ensures forall k: nat :: LowerMatchAt(lower, text, LowerAll(lower, query), k) ==> hit <= k
    ensures CharsBefore(text, HitOffset(lower, text, query)) == Some(hit)
  {
    var (low, needle) := (LowerAll(lower, text), LowerAll(lower, query));
    LowerSingle(lower, text);
    assert forall i :: 0 <= i < |text| ==> Width(low[i]) == Width(text[i]) by {
      assert forall i :: 0 <= i < |text| ==> lower(text[i])[0] == low[i];
    }
    hide LowerAll;
    forall k: nat
      ensures ExactAt(low, needle, k) <==> LowerMatchAt(lower, text, needle, k)
    {
      LowerMatches(lower, text, needle, k);
    }
    hide LowerMatchAt, Aligned, ExactAt;
    hit := FindFrom(low, needle, 0).value;
    assert hit <= |text| by { AtFits(low, needle, hit); }
    AlignedOffset(low, text, hit);
    CharsBeforeIff(text, Offset(text, hit), hit);
  }

  lemma AtFits(text: string, needle: string, k: nat)
    requires ExactAt(text, needle, k)
    ensures k + |needle| <= |text|
  {
  }

  /** A match survives cutting the text down to a window that covers it, whatever is put around. */
  lemma WindowKeepsMatch(lower: Lowering, text: string, needle: string, hit: nat, w: Extent)
    requires LowerMatchAt(lower, text, needle, hit)
    requires w.start <= hit && hit + |needle| <= w.end <= |text|
    ensures LowerContains(lower, Shown(text, w), needle)
  {
    var r := Shown(text, w);
    var at := |Ellipsis(w.start > 0)| + hit - w.start;
    forall i | 0 <= i < |needle|
      ensures lower(r[at + i]) == [needle[i]]
    {
      assert r[at + i] == text[w.start..w.end][hit - w.start + i];
    }
    assert LowerMatchAt(lower, r, needle, at);
  }

  /** Text whose characters keep their lengths always gets a snippet: from the radius before the first
      hit, or the beginning, to the radius after it, or the end, with an ellipsis where text was cut away.
      Without a hit it is taken from the head of the text. It shows a match if the text has one, and is
      the text itself only when nothing was cut. */
  lemma SnippetShowsMatch(lower: Lowering, text: string, query: string, radius: nat) returns (hit: nat, w: Extent)
    requires Aligned(lower, text)
    ensures w.start <= hit <= |text| && w.end <= |text| && w.start <= w.end
    ensures MakeSnippet(lower, text, query, radius) == Some(
      (if w.start > 0 then ['\U{2026}'] else []) + text[w.start..w.end]
      + (if w.end < |text| then ['\U{2026}'] else []))
    ensures w.start == 0 || w.start + radius == hit
    ensures hit <= w.start + radius
    ensures var needle := LowerAll(lower, query);
      && w.end <= hit + |needle| + radius && (w.end == |text| || w.end == hit + |needle| + radius)
      && (LowerContains(lower, text, needle) ==>
            && LowerContains(lower, Shown(text, w), needle) && LowerMatchAt(lower, text, needle, hit)
            && forall k: nat :: LowerMatchAt(lower, text, needle, k) ==> hit <= k)
      && (!LowerContains(lower, text, needle) ==> hit == 0)
    ensures ELLIPSIS !in text ==> (Shown(text, w) == text <==> w == Extent(0, |text|))
  {
    hide LowerAll, LowerMatchAt, HitOffset, CharsBefore;
    var needle := LowerAll(lower, query);
    hit := 0;
    if LowerContains(lower, text, needle) {
      hit := FirstHit(lower, text, query);
      assert hit + |needle| <= |text| by { LowerFits(lower, text, needle, hit); }
      WindowKeepsMatch(lower, text, needle, hit, Around(hit, |needle|, radius, |text|));
    } else {
      NoHit(lower, text, query);
    }
    w := Around(hit, |needle|, radius, |text|);
    if ELLIPSIS !in text {
      CutTextDiffers(text, w);
    }
  }

  lemma LowerFits(lower: Lowering, text: string, needle: string, k: nat)
    requires LowerMatchAt(lower, text, needle, k)
    ensures k + |needle| <= |text|
  {
  }

  lemma NoHit(lower: Lowering, text: string, query: string)
    requires Aligned(lower, text) && !LowerContains(lower, text, LowerAll(lower, query))
    ensures CharsBefore(text, HitOffset(lower, text, query)) == Some(0)
  {
    var found := FindFrom(LowerAll(lower, text), LowerAll(lower, query), 0);
    if found.Some? {
      LowerMatches(lower, text, LowerAll(lower, query), found.value);
    }
  }

  lemma CutTextDiffers(text: string, w: Extent)
    requires ELLIPSIS !in text && w.start <= w.end <= |text|
    ensures Shown(text, w) == text <==> w == Extent(0, |text|)
  {
    var r := Shown(text, w);
    if w.start > 0 {
      assert r[0] == ELLIPSIS;
    } else if w.end < |text| {
      assert r[|r| - 1] == ELLIPSIS;
    } else {
      assert text[0..|text|] == text;
    }
  }

  // ----- The search -----

  /** Lower-casing agrees with LIKE on ASCII letters. */
  ghost predicate LowersAscii(lower: Lowering) {
    forall c: char :: c < '\U{80}' ==> lower(c) == [Fold(c)]
  }

  /** A match that ignores the case of ASCII letters is a match once lower-cased. */
  lemma FoldedIsLowered(lower: Lowering, text: string, q: string, k: nat)
    requires LowersAscii(lower) && Aligned(lower, text) && MatchAt(text, q, k)
    ensures LowerMatchAt(lower, text, LowerAll(lower, q), k)
  {
    forall i | 0 <= i < |q|
      ensures lower(q[i]) == lower(text[k + i])
    {
      assert text[k..k + |q|][i] == text[k + i];
    }
    LowerSingle(lower, q);
  }

  /** What the search returns: rows that contain the query, each with a snippet that shows it. */
  lemma SearchHit(lower: Lowering, query: string, text: string, radius: nat)
    requires LowersAscii(lower) && Aligned(lower, text) && Like("%" + Escaped(query) + "%", text)
    ensures Contains(text, query)
    ensures var snippet := MakeSnippet(lower, text, query, radius);
      snippet.Some? && LowerContains(lower, snippet.value, LowerAll(lower, query))
  {
    LikeIsSubstring(query, text);
    hide Like, Escaped, MakeSnippet, Aligned, LowersAscii, LowerAll;
    var k: nat :| MatchAt(text, query, k);
    FoldedIsLowered(lower, text, query, k);
    var hit, w := SnippetShowsMatch(lower, text, query, radius);
  }
}
