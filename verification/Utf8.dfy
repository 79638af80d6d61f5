/** UTF-8 text as bytes, following section 4 of RFC 3629, with the character boundaries string slicing
    depends on. */
module Utf8 {
  import opened Wrappers
  import opened Pcm

  type Bytes = seq<Byte>

  predicate IsTail(b: Byte) {
    0x80 <= b < 0xC0
  }

  /** The length a character announces with its first byte, 0 if it cannot start one. */
  function LeadLen(b: Byte): nat {
    if b < 0x80 then 1 else if 0xC2 <= b < 0xE0 then 2 else if 0xE0 <= b < 0xF0 then 3
    else if 0xF0 <= b < 0xF5 then 4 else 0
  }

  predicate SecondByte(lead: Byte, b: Byte) {
    IsTail(b) && (lead == 0xE0 ==> b >= 0xA0) && (lead == 0xED ==> b < 0xA0)
              && (lead == 0xF0 ==> b >= 0x90) && (lead == 0xF4 ==> b < 0x90)
  }

  predicate IsChar(c: Bytes) {
    && c != [] && |c| == LeadLen(c[0])
    && (|c| > 1 ==> SecondByte(c[0], c[1]))
    && forall i :: 2 <= i < |c| ==> IsTail(c[i])
  }

  predicate Valid(s: Bytes)
    decreases |s|
  {
    s == [] || (1 <= LeadLen(s[0]) <= |s| && IsChar(s[..LeadLen(s[0])]) && Valid(s[LeadLen(s[0])..]))
  }

  /** May a string be cut here? */
  predicate Boundary(s: Bytes, i: nat) {
    i <= |s| && (i == 0 || i == |s| || !IsTail(s[i]))
  }

  lemma {:induction false} ValidConcat(a: Bytes, b: Bytes)
    requires Valid(a) && Valid(b)
    ensures Valid(a + b)
    decreases |a|
  {
    hide IsChar, LeadLen;
    if a == [] {
      assert a + b == b;
    } else {
      var n := LeadLen(a[0]);
      ValidConcat(a[n..], b);
      assert (a + b)[..n] == a[..n];
      assert (a + b)[n..] == a[n..] + b;
    }
  }

  lemma TailsInside(s: Bytes)
    requires Valid(s) && s != []
    ensures forall k :: 0 < k < LeadLen(s[0]) ==> IsTail(s[k])
    ensures LeadLen(s[0]) < |s| ==> !IsTail(s[LeadLen(s[0])])
  {
    var n := LeadLen(s[0]);
    forall k | 0 < k < n
      ensures IsTail(s[k])
    {
      assert s[..n][k] == s[k];
    }
    assert n < |s| ==> s[n..][0] == s[n];
  }

  /** Cutting valid text at a boundary leaves two valid texts. */
  lemma {:induction false} BoundarySplits(s: Bytes, i: nat)
    requires Valid(s) && Boundary(s, i)
    ensures Valid(s[..i]) && Valid(s[i..])
    decreases |s|
  {
    if i == 0 {
      assert s[0..] == s;
    } else if i == |s| {
      assert s[..i] == s;
    } else {
      var n := LeadLen(s[0]);
      TailsInside(s);
      BoundarySplits(s[n..], i - n);
      assert s[..i][..n] == s[..n];
      assert s[..i][n..] == s[n..][..i - n];
      assert s[i..] == s[n..][i - n..];
    }
  }

  /** Conversely, a valid rest starts on a boundary. */
  lemma ValidStartsOnBoundary(s: Bytes, i: nat)
    requires i <= |s| && Valid(s[i..])
    ensures Boundary(s, i)
  {
    if i < |s| {
      assert s[i..][0] == s[i];
    }
  }

  // ----- Searching -----

  predicate At(text: Bytes, needle: Bytes, p: nat) {
    p + |needle| <= |text| && text[p..p + |needle|] == needle
  }

  /** The first match at or after `from`. */
  function FindFrom(text: Bytes, needle: Bytes, from: nat): (r: Option<nat>)
    ensures r.Some? ==> from <= r.value && At(text, needle, r.value)
    ensures r.Some? ==> forall q :: from <= q < r.value ==> !At(text, needle, q)
    ensures r.None? ==> forall q :: from <= q ==> !At(text, needle, q)
    decreases |text| - from
  {
    if from + |needle| > |text| then None
    else if At(text, needle, from) then Some(from)
    else FindFrom(text, needle, from + 1)
  }

  function Find(text: Bytes, needle: Bytes): Option<nat> {
    FindFrom(text, needle, 0)
  }

  predicate Occurs(text: Bytes, needle: Bytes) {
    Find(text, needle).Some?
  }

  lemma SlicesMatch(text: Bytes, needle: Bytes, from: nat, p: nat)
    requires from <= |text|
    ensures At(text[from..], needle, p) <==> At(text, needle, from + p)
  {
    if from + p + |needle| <= |text| {
      assert text[from..][p..p + |needle|] == text[from + p..from + p + |needle|];
    }
  }

  /** A match inside a prefix is a match. */
  lemma PrefixMatches(text: Bytes, more: Bytes, needle: Bytes, p: nat)
    requires p + |needle| <= |text|
    ensures At(text + more, needle, p) <==> At(text, needle, p)
  {
    assert (text + more)[p..p + |needle|] == text[p..p + |needle|];
  }

  /** Searching a suffix is searching from its start. */
  lemma FindInSuffix(text: Bytes, needle: Bytes, from: nat)
    requires from <= |text|
    ensures FindFrom(text, needle, from)
         == if Find(text[from..], needle).Some? then Some(from + Find(text[from..], needle).value) else None
  {
    var r := Find(text[from..], needle);
    var whole := FindFrom(text, needle, from);
    forall q: nat
      ensures At(text[from..], needle, q) <==> At(text, needle, from + q)
    {
      SlicesMatch(text, needle, from, q);
    }
    assert whole.Some? ==> At(text[from..], needle, whole.value - from);
    assert r.Some? ==> At(text, needle, from + r.value);
  }

  /** In valid text a valid needle is only ever found on boundaries. */
  lemma MatchOnBoundary(text: Bytes, needle: Bytes, p: nat)
    requires Valid(text) && Valid(needle) && needle != [] && At(text, needle, p)
    ensures Boundary(text, p)
  {
    assert text[p..p + |needle|][0] == text[p];
  }

  /** Step back to the nearest boundary. */
  function BackToBoundary(s: Bytes, i: nat): (j: nat)
    requires i <= |s|
    ensures j <= i && Boundary(s, j)
    ensures forall k :: j < k <= i ==> !Boundary(s, k)
  {
    if Boundary(s, i) then i else BackToBoundary(s, i - 1)
  }

  // ----- Trailing whitespace -----

  /** Valid text has no four tail bytes in a row. */
  lemma {:induction false} NoFourTails(s: Bytes, p: nat)
    requires Valid(s) && p + 4 <= |s|
    ensures !(IsTail(s[p]) && IsTail(s[p + 1]) && IsTail(s[p + 2]) && IsTail(s[p + 3]))
    decreases |s|
  {
    var n := LeadLen(s[0]);
    TailsInside(s);
    if p >= n {
      NoFourTails(s[n..], p - n);
    }
  }

  /** Stepping back to a boundary of valid text takes at most three bytes. */
  lemma BackWithinCharacter(s: Bytes, i: nat)
    requires Valid(s) && i <= |s|
    ensures i <= BackToBoundary(s, i) + 3
  {
    var j := BackToBoundary(s, i);
    if j + 4 <= i {
      assert !Boundary(s, j + 1) && !Boundary(s, j + 2) && !Boundary(s, j + 3) && !Boundary(s, j + 4);
      if i < |s| {
        NoFourTails(s, j + 1);
      }
    }
  }

  /** The code point of a character of up to three bytes; all whitespace is among them. */
  function CodePoint(c: Bytes): nat
    requires IsChar(c)
  {
    if |c| == 1 then c[0]
    else if |c| == 2 then 0x40 * (c[0] as int - 0xC0) + (c[1] as int - 0x80)
    else if |c| == 3 then 0x1000 * (c[0] as int - 0xE0) + 0x40 * (c[1] as int - 0x80) + (c[2] as int - 0x80)
    else 0x1_0000
  }

  predicate IsWhite(c: Bytes) {
    IsChar(c) &&
    var p := CodePoint(c);
    9 <= p <= 13 || p == 0x20 || p == 0x85 || p == 0xA0 || p == 0x1680 || 0x2000 <= p <= 0x200A
    || p == 0x2028 || p == 0x2029 || p == 0x202F || p == 0x205F || p == 0x3000
  }

  /** The last position up to i that is no tail byte. */
  function StartFrom(s: Bytes, i: nat): (j: nat)
    requires i < |s|
    ensures j <= i && Boundary(s, j)
    ensures forall k :: j < k <= i ==> IsTail(s[k])
  {
    if i == 0 || !IsTail(s[i]) then i else StartFrom(s, i - 1)
  }

  /** Where the last character starts. */
  function LastStart(s: Bytes): (i: nat)
    requires s != []
    ensures i < |s| && Boundary(s, i)
    ensures forall k :: i < k < |s| ==> IsTail(s[k])
  {
    StartFrom(s, |s| - 1)
  }

  function TrimEnd(s: Bytes): (t: Bytes)
    ensures t <= s
  {
    if s != [] && IsWhite(s[LastStart(s)..]) then TrimEnd(s[..LastStart(s)]) else s
  }

  /** Nothing but whitespace characters. */
  predicate AllWhite(s: Bytes)
    decreases |s|
  {
    s == [] || (1 <= LeadLen(s[0]) <= |s| && IsWhite(s[..LeadLen(s[0])]) && AllWhite(s[LeadLen(s[0])..]))
  }

  lemma {:induction false} AllWhiteConcat(a: Bytes, b: Bytes)
    requires Valid(a)
    ensures AllWhite(a + b) <==> AllWhite(a) && AllWhite(b)
    decreases |a|
  {
    if a == [] {
      assert a + b == b;
    } else {
      var n := LeadLen(a[0]);
      AllWhiteConcat(a[n..], b);
      assert (a + b)[..n] == a[..n];
      assert (a + b)[n..] == a[n..] + b;
    }
  }

  /** A valid text without an inner boundary is one character. */
  lemma OneCharacter(c: Bytes)
    requires c != [] && Valid(c) && forall k :: 0 < k < |c| ==> IsTail(c[k])
    ensures LeadLen(c[0]) == |c| && IsChar(c)
    ensures AllWhite(c) <==> IsWhite(c)
  {
    TailsInside(c);
    assert c[..|c|] == c;
  }

  lemma LastIsCharacter(s: Bytes)
    requires Valid(s) && s != []
    ensures Valid(s[..LastStart(s)])
    ensures AllWhite(s[LastStart(s)..]) <==> IsWhite(s[LastStart(s)..])
  {
    hide IsWhite, Valid, AllWhite, LeadLen, StartFrom;
    var last := LastStart(s);
    BoundarySplits(s, last);
    forall k | 0 < k < |s[last..]|
      ensures IsTail(s[last..][k])
    {
      assert s[last..][k] == s[last + k];
    }
    OneCharacter(s[last..]);
  }

  /** What AllWhite says of the last character. */
  lemma LastCharacterSplits(s: Bytes, j: nat)
    requires Valid(s) && Boundary(s, j) && j < |s|
    ensures var last := LastStart(s);
      && j <= last && Valid(s[..last]) && Boundary(s[..last], j)
      && (AllWhite(s[j..]) <==> AllWhite(s[..last][j..]) && IsWhite(s[last..]))
  {
    BoundaryInPrefix(s, j);
    hide *;
    var last := LastStart(s);
    LastIsCharacter(s);
    BoundarySplits(s[..last], j);
    MiddleSlices(s, j, last);
    AllWhiteConcat(s[j..last], s[last..]);
  }

  lemma BoundaryInPrefix(s: Bytes, j: nat)
    requires Boundary(s, j) && j < |s|
    ensures j <= LastStart(s) && Boundary(s[..LastStart(s)], j)
  {
    hide StartFrom;
  }

  lemma MiddleSlices(s: Bytes, j: nat, k: nat)
    requires j <= k <= |s|
    ensures s[..k][j..] == s[j..k] && s[j..] == s[j..k] + s[k..]
  {
  }

  /** Trimming reaches back to a boundary j exactly when all from j on is whitespace. */
  lemma {:induction false} TrimReachesIff(s: Bytes, j: nat)
    requires Valid(s) && Boundary(s, j)
    ensures |TrimEnd(s)| <= j <==> AllWhite(s[j..])
    decreases |s|
  {
    if j < |s| {
      hide IsWhite, Valid, AllWhite;
      LastCharacterSplits(s, j);
      if IsWhite(s[LastStart(s)..]) {
        TrimReachesIff(s[..LastStart(s)], j);
      }
    }
  }

  lemma {:induction false} TrimEndsOnBoundary(s: Bytes)
    requires Valid(s)
    ensures Boundary(s, |TrimEnd(s)|) && Valid(TrimEnd(s))
    decreases |s|
  {
    if s != [] && IsWhite(s[LastStart(s)..]) {
      var last := LastStart(s);
      BoundarySplits(s, last);
      TrimEndsOnBoundary(s[..last]);
      assert |TrimEnd(s)| < last ==> s[..last][|TrimEnd(s)|] == s[|TrimEnd(s)|];
    }
  }

  /** A prefix cut at a boundary survives trimming exactly when it is empty or its last character, or
      something after it, is visible. */
  lemma PrefixSurvivesTrimIff(s: Bytes, k: nat)
    requires Valid(s) && Boundary(s, k)
    ensures s[..k] <= TrimEnd(s) <==> k == 0 || !AllWhite(s[LastStart(s[..k])..])
  {
    if k > 0 {
      var j := LastStart(s[..k]);
      assert Boundary(s, j);
      TrimReachesIff(s, j);
      TrimEndsOnBoundary(s);
      var t := |TrimEnd(s)|;
      forall p | j < p < k
        ensures IsTail(s[p])
      {
        assert s[..k][p] == s[p];
      }
      assert s[..k] <= s[..t] <==> k <= t;
    }
  }

  // ----- Characters and whitespace, spelled out -----

  /** The code points that are characters. */
  predicate Scalar(v: nat) {
    v < 0xD800 || 0xE000 <= v < 0x11_0000
  }

  /** A character's bytes: its bits, six to a tail byte. */
  function Encode(v: nat): Bytes
    requires Scalar(v)
  {
    if v < 0x80 then [v]
    else if v < 0x800 then [0xC0 + v / 0x40, 0x80 + v % 0x40]
    else if v < 0x1_0000 then [0xE0 + v / 0x1000, 0x80 + v / 0x40 % 0x40, 0x80 + v % 0x40]
    else [0xF0 + v / 0x4_0000, 0x80 + v / 0x1000 % 0x40, 0x80 + v / 0x40 % 0x40, 0x80 + v % 0x40]
  }

  lemma EncodedIsChar(v: nat)
    requires Scalar(v)
    ensures IsChar(Encode(v)) && CodePoint(Encode(v)) == Min(v, 0x1_0000)
  {
    var (q, r) := (v / 0x40, v % 0x40);
    assert v == 0x40 * q + r;
    if 0x800 <= v < 0x1_0000 {
      assert v / 0x1000 == q / 0x40 && q == 0x40 * (q / 0x40) + q % 0x40;
    }
    if v >= 0x1_0000 {
      assert v / 0x1000 == q / 0x40 && v / 0x4_0000 == v / 0x1000 / 0x40;
    }
  }

  lemma TailBits(high: nat, low: nat)
    requires low < 0x40
    ensures (0x40 * high + low) / 0x40 == high && (0x40 * high + low) % 0x40 == low
  {
  }

  lemma ThreeBytes(c: Bytes) returns (v: nat)
    requires IsChar(c) && |c| == 3
    ensures Scalar(v) && c == Encode(v)
  {
    var a: nat, b: nat, d: nat := c[0] - 0xE0, c[1] - 0x80, c[2] - 0x80;
    var q := 0x40 * a + b;
    v := 0x40 * q + d;
    TailBits(q, d);
    TailBits(a, b);
    assert v / 0x1000 == v / 0x40 / 0x40;
  }

  lemma FourBytes(c: Bytes) returns (v: nat)
    requires IsChar(c) && |c| == 4
    ensures Scalar(v) && c == Encode(v)
  {
    var a: nat, b: nat, d: nat, e: nat := c[0] - 0xF0, c[1] - 0x80, c[2] - 0x80, c[3] - 0x80;
    var p := 0x40 * a + b;
    var q := 0x40 * p + d;
    v := 0x40 * q + e;
    TailBits(q, e);
    TailBits(p, d);
    TailBits(a, b);
    assert v / 0x1000 == v / 0x40 / 0x40 && v / 0x4_0000 == v / 0x1000 / 0x40;
  }

  lemma CharIsEncoded(c: Bytes) returns (v: nat)
    requires IsChar(c)
    ensures Scalar(v) && c == Encode(v)
  {
    if |c| == 1 {
      v := c[0];
    } else if |c| == 2 {
      v := 0x40 * (c[0] as int - 0xC0) + (c[1] as int - 0x80);
    } else if |c| == 3 {
      v := ThreeBytes(c);
    } else {
      v := FourBytes(c);
    }
  }

  /** What IsChar accepts are the encodings of the code points that are characters, and nothing else. */
  lemma CharIffEncoded(c: Bytes)
    ensures IsChar(c) <==> exists v: nat :: Scalar(v) && c == Encode(v)
  {
    hide Encode, Scalar;
    if IsChar(c) {
      var v := CharIsEncoded(c);
    } else if v: nat :| Scalar(v) && c == Encode(v) {
      EncodedIsChar(v);
    }
  }

  lemma LastCharacterIs(s: Bytes, c: Bytes)
    requires IsChar(c)
    ensures LastStart(s + c) == |s| && (s + c)[|s|..] == c && (s + c)[..|s|] == s
  {
    hide StartFrom;
    assert !IsTail((s + c)[|s|]);
    forall k | |s| < k < |s + c|
      ensures IsTail((s + c)[k])
    {
      assert (s + c)[k] == c[k - |s|];
    }
  }

  /** Trimming removes a last character that is white space, and keeps a text that ends in any other. */
  lemma TrimLast(s: Bytes, v: nat)
    requires Scalar(v)
    ensures TrimEnd(s + Encode(v))
      == if 9 <= v <= 13 || v in {0x20, 0x85, 0xA0, 0x1680, 0x2028, 0x2029, 0x202F, 0x205F, 0x3000}
            || 0x2000 <= v <= 0x200A
         then TrimEnd(s) else s + Encode(v)
  {
    EncodedIsChar(v);
    LastCharacterIs(s, Encode(v));
    hide LastStart, Encode;
  }

  /** For ASCII, byte by byte: tab to carriage return and the space go, the rest stays. */
  lemma TrimLastByte(s: Bytes, b: Byte)
    requires b < 0x80
    ensures TrimEnd(s + [b]) == if 9 <= b <= 13 || b == 32 then TrimEnd(s) else s + [b]
  {
    TrimLast(s, b);
  }
}
