/** Streamed text is to be a prefix of the final text. Exactly for which texts that holds, however the
    model's output is cut into pieces. */
module PrefixPromise {
  import opened Wrappers
  import opened Pcm
  import opened Utf8
  import opened Generation

  ghost predicate ValidPieces(sample: nat -> Token) {
    forall n :: sample(n).Piece? ==> Valid(sample(n).text)
  }

  /** `text` can be what precedes stop token j, with `before` generated and no stop token complete. */
  ghost predicate Midway(stops: seq<Bytes>, text: Bytes, before: Bytes, j: nat) {
    && j < |stops| && FirstStop(stops, text + stops[j]) == Some(|text|)
    && Valid(before) && before <= text + stops[j] && NoStop(stops, before)
  }

  // ----- Stop tokens and prefixes -----

  lemma NoMatchInPrefix(before: Bytes, more: Bytes, stop: Bytes)
    requires !Occurs(before + more, stop)
    ensures !Occurs(before, stop)
  {
    hide FindFrom, At;
    var r := Find(before, stop);
    if r.Some? {
      assert r.value + |stop| <= |before| by { AtFits(before, stop, r.value); }
      PrefixMatches(before, more, stop, r.value);
    }
  }

  lemma AtFits(text: Bytes, needle: Bytes, p: nat)
    requires At(text, needle, p)
    ensures p + |needle| <= |text|
  {
  }

  lemma NoStopInPrefix(stops: seq<Bytes>, before: Bytes, more: Bytes)
    requires NoStop(stops, before + more)
    ensures NoStop(stops, before)
  {
    hide Occurs;
    forall i | 0 <= i < |stops|
      ensures !Occurs(before, stops[i])
    {
      NoMatchInPrefix(before, more, stops[i]);
    }
  }

  /** The stop token found is the first one, too, in the text that ends with it. */
  lemma FoundInPrefix(output: Bytes, stop: Bytes, v: nat)
    requires Find(output, stop) == Some(v)
    ensures v + |stop| <= |output| && output[..v + |stop|] == output[..v] + stop
    ensures Find(output[..v] + stop, stop) == Some(v)
  {
    var (text, more) := (output[..v] + stop, output[v + |stop|..]);
    assert output[..v + |stop|] == output[..v] + output[v..v + |stop|];
    assert text + more == output;
    hide FindFrom;
    PrefixMatches(text, more, stop, v);
    forall q: nat | q < v
      ensures !At(text, stop, q)
    {
      PrefixMatches(text, more, stop, q);
    }
    var r := Find(text, stop);
    assert r.Some?;
  }

  lemma {:induction false} WhichStop(stops: seq<Bytes>, output: Bytes, v: nat) returns (j: nat)
    requires FirstStop(stops, output) == Some(v)
    ensures j < |stops| && Find(output, stops[j]) == Some(v) && v <= |output|
    ensures FirstStop(stops, output[..v] + stops[j]) == Some(v)
    ensures forall k :: 0 <= k < j ==> !Occurs(output, stops[k])
  {
    hide FindFrom;
    if Occurs(output, stops[0]) {
      j := 0;
      FoundInPrefix(output, stops[0], v);
    } else {
      var i := WhichStop(stops[1..], output, v);
      j := i + 1;
      FoundInPrefix(output, stops[j], v);
      var text := output[..v] + stops[j];
      assert text + output[v + |stops[j]|..] == output;
      NoMatchInPrefix(text, output[v + |stops[j]|..], stops[0]);
      assert forall k :: 0 < k < j ==> stops[k] == stops[1..][k - 1];
    }
  }

  // ----- What a run has sent when it stops -----

  /** What has been sent is what was safe when some prefix of the output had been generated. */
  ghost predicate SentAt(output: Bytes, streamed: nat, longest: nat) {
    streamed == 0 || exists b: Bytes :: Batch(b, output, streamed, longest)
  }

  ghost predicate Batch(b: Bytes, output: Bytes, streamed: nat, longest: nat) {
    Valid(b) && b <= output && SafeLen(b, longest) == streamed >= STREAM_BATCH_BYTES
  }

  lemma SentAtLater(output: Bytes, piece: Bytes, streamed: nat, longest: nat)
    requires SentAt(output, streamed, longest)
    ensures SentAt(output + piece, streamed, longest)
  {
    if streamed != 0 {
      var b :| Batch(b, output, streamed, longest);
      assert Batch(b, output + piece, streamed, longest);
    }
  }

  lemma SentNext(output: Bytes, streamed: nat, longest: nat)
    requires Valid(output) && SentAt(output, streamed, longest) && streamed <= |output|
    ensures SentAt(output, NextStreamed(output, streamed, longest), longest)
    ensures streamed <= NextStreamed(output, streamed, longest) <= |output|
    ensures Flat(NextChunks(output, streamed, longest))
         == output[streamed..NextStreamed(output, streamed, longest)]
  {
    if Ready(output, streamed, longest) {
      assert Batch(output, output, SafeLen(output, longest), longest);
      var none: seq<Bytes> := [];
      var chunk := output[streamed..SafeLen(output, longest)];
      FlatOne(none, chunk);
      assert none + [chunk] == [chunk];
    }
  }

  lemma SlicesJoin(s: Bytes, t: Bytes, i: nat, j: nat, k: nat)
    requires i <= j <= |s| && s <= t && j <= k <= |t|
    ensures s[i..j] + t[j..k] == t[i..k]
  {
    assert s[i..j] == t[i..j] by {
      assert forall p :: i <= p < j ==> s[p] == t[p];
    }
  }

  lemma ChunksJoin(now: seq<Bytes>, rest: seq<Bytes>, longer: Bytes, before: Bytes, streamed: nat, more: nat)
    requires streamed <= more <= |longer| && longer <= before && Flat(now) == longer[streamed..more]
    requires more + |Flat(rest)| <= |before| && Flat(rest) == before[more..more + |Flat(rest)|]
    ensures streamed + |Flat(now + rest)| == more + |Flat(rest)|
    ensures Flat(now + rest) == before[streamed..more + |Flat(rest)|]
  {
    hide Flat;
    FlatAppend(now, rest);
    SlicesJoin(longer, before, streamed, more, more + |Flat(rest)|);
  }

  lemma NothingSent()
    ensures Flat<Byte>([]) == []
  {
  }

  /** Any run that stops with this text: `before` was generated when the last piece came, and what has
      been sent is what was safe at some moment up to then. */
  lemma {:induction false} RunSends(stops: seq<Bytes>, sample: nat -> Token, limit: nat, n: nat, output: Bytes,
                                    streamed: nat, text: Bytes)
    returns (before: Bytes, j: nat)
    requires AllValid(stops) && NonEmpty(stops) && ValidPieces(sample)
    requires Valid(output) && NoStop(stops, output)
    requires streamed <= |output| && SentAt(output, streamed, MaxLen(stops))
    requires Rescan(stops, sample, limit, n, output) == Stopped(text, TrimEnd(text))
    ensures Midway(stops, text, before, j) && output <= before
    ensures var sent := streamed + |Flat(Chunks(stops, sample, limit, n, output, streamed))|;
      && sent <= |before| && SentAt(before, sent, MaxLen(stops))
      && Flat(Chunks(stops, sample, limit, n, output, streamed)) == before[streamed..sent]
    decreases limit - n
  {
    hide FirstStop, TrimEnd, MaxLen, NextChunks, NextStreamed, Valid, NoStop, SentAt, Midway, Rescan, Chunks, Flat;
    OneTurn(stops, sample, limit, n, output, streamed);
    var (piece, longest) := (sample(n).text, MaxLen(stops));
    var longer := output + piece;
    FirstStopNone(stops, longer);
    if longest > 0 && FirstStop(stops, longer).Some? {
      before := output;
      j := StopsHere(stops, output, piece, text);
      NothingSent();
    } else {
      NoStopYet(stops, longer);
      ValidConcat(output, piece);
      var more := NextStreamed(longer, streamed, longest);
      SentAtLater(output, piece, streamed, longest);
      SentNext(longer, streamed, longest);
      before, j := RunSends(stops, sample, limit, n + 1, longer, more, text);
      ChunksJoin(NextChunks(longer, streamed, longest), Chunks(stops, sample, limit, n + 1, longer, more),
                 longer, before, streamed, more);
    }
  }

  lemma NoStopYet(stops: seq<Bytes>, output: Bytes)
    requires NonEmpty(stops) && (MaxLen(stops) > 0 ==> FirstStop(stops, output).None?)
    ensures NoStop(stops, output)
  {
    hide FirstStop, NoStop;
    FirstStopNone(stops, output);
    if MaxLen(stops) == 0 {
      NoLengthNoStops(stops);
      NoStopsOccur(output);
    }
  }

  lemma NotWithin(before: Bytes, more: Bytes, stop: Bytes, v: nat)
    requires !Occurs(before, stop) && At(before + more, stop, v)
    ensures |before| < v + |stop|
  {
    hide FindFrom, At;
    if v + |stop| <= |before| {
      PrefixMatches(before, more, stop, v);
    }
  }

  lemma StopsHere(stops: seq<Bytes>, output: Bytes, piece: Bytes, text: Bytes) returns (j: nat)
    requires Valid(output) && NoStop(stops, output) && |text| <= |output + piece|
    requires FirstStop(stops, output + piece) == Some(|text|) && text == (output + piece)[..|text|]
    ensures Midway(stops, text, output, j)
  {
    hide FirstStop, FindFrom, Valid;
    var longer := output + piece;
    j := WhichStop(stops, longer, |text|);
    FoundInPrefix(longer, stops[j], |text|);
    NotWithin(output, piece, stops[j], |text|);
    assert text + stops[j] == longer[..|text| + |stops[j]|];
  }

  // ----- The promise, exactly -----

  /** Every generation that stops with this text has streamed a prefix of what it returns. */
  ghost predicate Promise(stops: seq<Bytes>, text: Bytes) {
    forall sample: nat -> Token, limit: nat ::
      ValidPieces(sample) && Rescan(stops, sample, limit, 0, []) == Stopped(text, TrimEnd(text)) ==>
        Flat(Chunks(stops, sample, limit, 0, [], 0)) <= TrimEnd(text)
  }

  /** What is safe before the stop token is complete is no batch yet, or ends before the whitespace that
      is trimmed. */
  ghost predicate Harmless(stops: seq<Bytes>, text: Bytes, before: Bytes) {
    var safe := SafeLen(before, MaxLen(stops));
    safe < STREAM_BATCH_BYTES || safe <= |TrimEnd(text)|
  }

  lemma SentIsHarmless(stops: seq<Bytes>, text: Bytes, before: Bytes, j: nat, sent: nat)
    requires Midway(stops, text, before, j) && SentAt(before, sent, MaxLen(stops)) && sent > 0
    requires forall b: Bytes :: Midway(stops, text, b, j) ==> Harmless(stops, text, b)
    ensures sent <= |TrimEnd(text)|
  {
    hide Valid, TrimEnd, FirstStop, MaxLen, NoStop, SafeLen;
    var b :| Batch(b, before, sent, MaxLen(stops));
    assert b + before[|b|..] == before;
    NoStopInPrefix(stops, b, before[|b|..]);
    assert Midway(stops, text, b, j);
  }

  lemma WholeRunSends(stops: seq<Bytes>, sample: nat -> Token, limit: nat, text: Bytes)
    returns (before: Bytes, j: nat)
    requires AllValid(stops) && NonEmpty(stops) && ValidPieces(sample)
    requires Rescan(stops, sample, limit, 0, []) == Stopped(text, TrimEnd(text))
    ensures Midway(stops, text, before, j) && j < |stops| && before <= text + stops[j]
    ensures var sent := Flat(Chunks(stops, sample, limit, 0, [], 0));
      sent <= before && SentAt(before, |sent|, MaxLen(stops))
  {
    hide Rescan, Chunks, TrimEnd, FirstStop, MaxLen, Flat, SafeLen;
    NothingOccursInNothing(stops);
    before, j := RunSends(stops, sample, limit, 0, [], 0, text);
  }

  lemma RunKeepsPromise(stops: seq<Bytes>, text: Bytes, sample: nat -> Token, limit: nat)
    requires AllValid(stops) && NonEmpty(stops) && ValidPieces(sample)
    requires forall before: Bytes, j: nat :: Midway(stops, text, before, j) ==> Harmless(stops, text, before)
    requires Rescan(stops, sample, limit, 0, []) == Stopped(text, TrimEnd(text))
    ensures Flat(Chunks(stops, sample, limit, 0, [], 0)) <= TrimEnd(text)
  {
    hide *;
    var before, j := WholeRunSends(stops, sample, limit, text);
    var chunks := Flat(Chunks(stops, sample, limit, 0, [], 0));
    if |chunks| > 0 {
      SentIsHarmless(stops, text, before, j, |chunks|);
      assert chunks == (text + stops[j])[..|chunks|] == text[..|chunks|];
    }
  }

  lemma {:induction false} ValidRest(s: Bytes, k: nat)
    requires k <= |s| && Valid(s) && Valid(s[..k])
    ensures Valid(s[k..])
    decreases k
  {
    if k == 0 {
      assert s[0..] == s;
    } else {
      var n := LeadLen(s[0]);
      assert s[..k][0] == s[0];
      assert s[..k][n..] == s[n..][..k - n];
      ValidRest(s[n..], k - n);
      assert s[n..][k - n..] == s[k..];
    }
  }

  /** The two pieces that break the promise. */
  function Pieces(before: Bytes, rest: Bytes): nat -> Token {
    (n: nat) => Piece(if n == 0 then before else rest, true)
  }

  lemma TwoPiecesBreakPromise(stops: seq<Bytes>, text: Bytes, before: Bytes, j: nat)
    requires AllValid(stops) && NonEmpty(stops) && Valid(text)
    requires Midway(stops, text, before, j) && !Harmless(stops, text, before)
    ensures !Promise(stops, text)
  {
    hide FirstStop, TrimEnd, Rescan, Chunks, NoStop, Flat, Valid;
    var whole := text + stops[j];
    var rest := whole[|before|..];
    assert before + rest == whole && whole[..|before|] == before && whole[..|text|] == text;
    ValidConcat(text, stops[j]);
    ValidRest(whole, |before|);
    var sample := Pieces(before, rest);
    FirstStopNone(stops, before);
    TwoPieces(stops, sample, before, rest, text);
    var safe := SafeLen(before, MaxLen(stops));
    var none: seq<Bytes> := [];
    FlatOne(none, before[0..safe]);
    NothingSent();
    assert none + [before[0..safe]] == NextChunks(before, 0, MaxLen(stops));
    assert |Flat(Chunks(stops, sample, 2, 0, [], 0))| == safe > |TrimEnd(text)|;
  }

  /** Exactly when streamed text is a prefix of what a stopped generation returns, whatever pieces the
      text came in: when nothing that could be safe to send before the stop token was complete makes a
      batch that reaches into the trimmed whitespace. */
  lemma PromiseIff(stops: seq<Bytes>, text: Bytes)
    requires AllValid(stops) && NonEmpty(stops) && Valid(text)
    ensures Promise(stops, text) <==>
      forall before: Bytes, j: nat :: Midway(stops, text, before, j) ==> Harmless(stops, text, before)
  {
    hide Midway, Harmless, Rescan, Chunks, Flat, Valid, FirstStop, TrimEnd;
    if forall before: Bytes, j: nat :: Midway(stops, text, before, j) ==> Harmless(stops, text, before) {
      forall sample: nat -> Token, limit: nat
        | ValidPieces(sample) && Rescan(stops, sample, limit, 0, []) == Stopped(text, TrimEnd(text))
        ensures Flat(Chunks(stops, sample, limit, 0, [], 0)) <= TrimEnd(text)
      {
        RunKeepsPromise(stops, text, sample, limit);
      }
    } else {
      var before: Bytes, j: nat :| Midway(stops, text, before, j) && !Harmless(stops, text, before);
      TwoPiecesBreakPromise(stops, text, before, j);
    }
  }

  lemma BeforeIsShorter(stops: seq<Bytes>, text: Bytes, before: Bytes, j: nat)
    requires Midway(stops, text, before, j)
    ensures |before| < |text| + |stops[j]|
  {
    hide FirstStop, FindFrom, Valid;
    if |before| == |text| + |stops[j]| {
      assert before == text + stops[j];
      FirstStopNone(stops, before);
    }
  }

  lemma SafeGrows(before: Bytes, more: Bytes, longest: nat)
    requires longest > 0
    ensures SafeLen(before, longest) <= SafeLen(before + more, longest)
  {
    var safe := SafeLen(before, longest);
    assert Boundary(before + more, safe);
  }

  lemma ValidPrefixEnds(s: Bytes, k: nat)
    requires k <= |s| && Valid(s) && Valid(s[..k])
    ensures Boundary(s, k)
  {
    ValidRest(s, k);
    ValidStartsOnBoundary(s, k);
  }

  lemma NoBoundaryAfterLast(text: Bytes, stop: Bytes, k: nat)
    requires stop != [] && |text| + LastStart(stop) < k < |text| + |stop|
    ensures !Boundary(text + stop, k)
  {
    hide StartFrom;
    assert (text + stop)[k] == stop[k - |text|];
  }

  /** A text that ends inside the stop token ends before its last character at the latest. */
  lemma EndsBeforeLastCharacter(stop: Bytes, text: Bytes, before: Bytes)
    requires Valid(stop) && stop != [] && Valid(text) && Valid(before)
    requires before <= text + stop && |before| < |text| + |stop|
    ensures |before| <= |text| + LastStart(stop)
  {
    hide *;
    ValidConcat(text, stop);
    assert (text + stop)[..|before|] == before;
    ValidPrefixEnds(text + stop, |before|);
    if |before| > |text| + LastStart(stop) {
      NoBoundaryAfterLast(text, stop, |before|);
    }
  }

  lemma FirstMatchIsLater(before: Bytes, more: Bytes, stop: Bytes, v: nat)
    requires Find(before + more, stop) == Some(v) && |before| < v + |stop|
    ensures !Occurs(before, stop)
  {
    var r := Find(before, stop);
    hide FindFrom;
    if r.Some? {
      AtFits(before, stop, r.value);
      PrefixMatches(before, more, stop, r.value);
    }
  }

  lemma LoneMidwayIff(stop: Bytes, text: Bytes, before: Bytes, j: nat)
    requires Find(text + stop, stop) == Some(|text|)
    ensures Midway([stop], text, before, j) <==>
      j == 0 && Valid(before) && before <= text + stop && |before| < |text| + |stop|
  {
    hide FindFrom, Valid, FirstStop;
    OneStop(stop, text + stop);
    if before <= text + stop {
      var more := (text + stop)[|before|..];
      assert before + more == text + stop;
      if |before| < |text| + |stop| {
        FirstMatchIsLater(before, more, stop, |text|);
      } else {
        assert before == text + stop && Occurs(before, stop);
      }
    }
  }

  /** With one stop token nothing counts more than the text up to its last character. */
  lemma LastCharacterCounts(stop: Bytes, text: Bytes, before: Bytes)
    requires stop != [] && before <= text + stop && |before| <= |text| + LastStart(stop)
    ensures Harmless([stop], text, text + stop[..LastStart(stop)]) ==> Harmless([stop], text, before)
  {
    hide TrimEnd, SafeLen, StartFrom, MaxLen;
    var most := text + stop[..LastStart(stop)];
    assert before + most[|before|..] == most;
    assert MaxLen([stop]) == |stop| by { OneStop(stop, text); }
    SafeGrows(before, most[|before|..], |stop|);
  }

  lemma LastCharacterMidway(stop: Bytes, text: Bytes)
    requires Valid(stop) && stop != [] && Valid(text) && Find(text + stop, stop) == Some(|text|)
    ensures Midway([stop], text, text + stop[..LastStart(stop)], 0)
  {
    hide Valid, FindFrom, StartFrom, Midway;
    var last := LastStart(stop);
    BoundarySplits(stop, last);
    ValidConcat(text, stop[..last]);
    assert text + stop[..last] <= text + stop by { assert (text + stop)[..|text| + last] == text + stop[..last]; }
    LoneMidwayIff(stop, text, text + stop[..last], 0);
  }

  lemma LonePromiseIff(stop: Bytes, text: Bytes)
    requires Valid(stop) && stop != [] && Valid(text) && Find(text + stop, stop) == Some(|text|)
    ensures Promise([stop], text) <==>
      var safe := SafeLen(text + stop[..LastStart(stop)], |stop|);
      safe < STREAM_BATCH_BYTES || safe <= |TrimEnd(text)|
  {
    hide Promise, Valid, FindFrom, LastStart, TrimEnd, SafeLen, Midway, MaxLen;
    PromiseIff([stop], text);
    LastCharacterMidway(stop, text);
    assert MaxLen([stop]) == |stop| by { OneStop(stop, text); }
    forall before: Bytes, j: nat | Midway([stop], text, before, j)
      ensures Harmless([stop], text, text + stop[..LastStart(stop)]) ==> Harmless([stop], text, before)
    {
      LoneMidwayIff(stop, text, before, j);
      EndsBeforeLastCharacter(stop, text, before);
      LastCharacterCounts(stop, text, before);
    }
  }

  /** A text whose trailing whitespace is at most one byte keeps the promise, and more may be trimmed
      before a stop token that is shorter than the longest one. */
  lemma ShortTailKeepsPromise(stops: seq<Bytes>, text: Bytes)
    requires AllValid(stops) && NonEmpty(stops) && Valid(text)
    requires forall j :: 0 <= j < |stops| && FirstStop(stops, text + stops[j]) == Some(|text|) ==>
      |text| - |TrimEnd(text)| <= 1 + MaxLen(stops) - |stops[j]|
    ensures Promise(stops, text)
  {
    hide Rescan, Chunks, Flat, Valid, FirstStop, TrimEnd, Promise, BackToBoundary;
    forall before: Bytes, j: nat | Midway(stops, text, before, j)
      ensures Harmless(stops, text, before)
    {
      BeforeIsShorter(stops, text, before, j);
    }
    PromiseIff(stops, text);
  }

  // ----- Two spaces are too many -----

  function Letters(n: nat): (s: Bytes)
    ensures |s| == n && forall i :: 0 <= i < n ==> s[i] == 0x61
  {
    seq<Byte>(n, i => 0x61)
  }

  lemma {:induction false} AsciiIsValid(s: Bytes)
    requires forall i :: 0 <= i < |s| ==> s[i] < 0x80
    ensures Valid(s)
  {
    if s != [] {
      AsciiIsValid(s[1..]);
      assert s[..1][0] == s[0];
    }
  }

  /** 64 letters, two spaces and the stop token "S". */
  lemma TwoSpacesBreakPromise()
    ensures var text := Letters(64) + Spaces(2);
      |TrimEnd(text)| == |text| - 2 && !Promise([[0x53]], text)
  {
    var (stop, text) := ([0x53], Letters(64) + Spaces(2));
    var whole := text + stop;
    AsciiIsValid(stop);
    AsciiIsValid(text);
    forall q: nat
      ensures !At(text, stop, q) && (q < 66 ==> !At(whole, stop, q))
    {
      if q < 66 {
        assert text[q..q + 1][0] == whole[q..q + 1][0] == text[q];
      }
    }
    assert At(whole, stop, 66) by { assert whole[66..67] == stop; }
    assert Find(text, stop).None?;
    assert Find(whole, stop) == Some(66) by { var r := Find(whole, stop); assert r.Some?; }
    OneStop(stop, text);
    OneStop(stop, whole);
    FirstStopNone([stop], text);
    assert Midway([stop], text, text, 0);
    assert SafeLen(text, 1) == 65;
    TwoSpacesTrimmed();
    TwoPiecesBreakPromise([stop], text, text, 0);
  }

  lemma TwoSpacesTrimmed()
    ensures TrimEnd(Letters(64) + Spaces(2)) == Letters(64)
  {
    var (one, two) := (Letters(64) + Spaces(1), Letters(64) + Spaces(2));
    assert LastStart(two) == 65 && two[65..] == [0x20] && two[..65] == one;
    assert LastStart(one) == 64 && one[64..] == [0x20] && one[..64] == Letters(64);
    assert LastStart(Letters(64)) == 63 && Letters(64)[63..] == [0x61];
    assert IsWhite([0x20]) && !IsWhite([0x61]);
    hide IsWhite, StartFrom, Letters, Spaces;
    assert TrimEnd(two) == TrimEnd(one);
    assert TrimEnd(one) == TrimEnd(Letters(64));
  }
}
