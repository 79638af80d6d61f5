/** The helper's streaming generation loop: an incremental stop-token scan over the tail of the
    output, and text streamed out as soon as it can no longer be part of a stop token. */
module Generation {
  import opened Wrappers
  import opened Pcm
  import opened Utf8

  /** What sampling and detokenising yields: end of generation, a failure, or a piece of text (possibly
      empty, while a character is incomplete) and whether the model then evaluates it. */
  datatype Token = EndOfGeneration | Broken | Piece(text: Bytes, evaluated: bool)

  /** How a generation ends; `cut` is the text before the stop token, untrimmed. */
  datatype Ending =
    | Completed(text: Bytes)
    | Stopped(cut: Bytes, text: Bytes)
    | Failed

  const STREAM_BATCH_BYTES := 64

  function MaxLen(stops: seq<Bytes>): (m: nat)
    ensures forall i :: 0 <= i < |stops| ==> |stops[i]| <= m
    ensures m == 0 <==> forall i :: 0 <= i < |stops| ==> stops[i] == []
  {
    if stops == [] then 0 else Max(|stops[0]|, MaxLen(stops[1..]))
  }

  /** It is the length of one of them. */
  lemma {:induction false} MaxLenAttained(stops: seq<Bytes>) returns (i: nat)
    requires stops != []
    ensures i < |stops| && |stops[i]| == MaxLen(stops)
  {
    i := 0;
    if |stops[0]| < MaxLen(stops) {
      i := MaxLenAttained(stops[1..]);
      i := i + 1;
    }
  }

  // ----- The reference: rescan everything after every piece -----

  /** Where the first listed stop token that occurs at all occurs first. */
  function FirstStop(stops: seq<Bytes>, output: Bytes): (r: Option<nat>)
    ensures r.Some? ==> r.value <= |output|
  {
    if stops == [] then None
    else if Occurs(output, stops[0]) then Find(output, stops[0])
    else FirstStop(stops[1..], output)
  }

  predicate NoStop(stops: seq<Bytes>, output: Bytes) {
    forall i :: 0 <= i < |stops| ==> !Occurs(output, stops[i])
  }

  lemma {:induction false} FirstStopNone(stops: seq<Bytes>, output: Bytes)
    ensures FirstStop(stops, output).None? <==> NoStop(stops, output)
  {
    if stops != [] {
      FirstStopNone(stops[1..], output);
      assert NoStop(stops, output) <==> !Occurs(output, stops[0]) && NoStop(stops[1..], output);
    }
  }

  /** The generation after n of at most `limit` tokens, with this output so far. */
  function Rescan(stops: seq<Bytes>, sample: nat -> Token, limit: nat, n: nat, output: Bytes): Ending
    decreases limit - n
  {
    if n >= limit then Completed(output)
    else match sample(n)
      case EndOfGeneration => Completed(output)
      case Broken => Failed
      case Piece(text, evaluated) =>
        var longer := output + text;
        var stop := if MaxLen(stops) > 0 then FirstStop(stops, longer) else None;
        if stop.Some? then Stopped(longer[..stop.value], TrimEnd(longer[..stop.value]))
        else if !evaluated then Failed
        else Rescan(stops, sample, limit, n + 1, longer)
  }

  // ----- How a generation ends, without the loop -----

  /** The first n pieces laid end to end. */
  function TextOf(sample: nat -> Token, n: nat): Bytes
    requires forall i :: 0 <= i < n ==> sample(i).Piece?
  {
    if n == 0 then [] else TextOf(sample, n - 1) + sample(n - 1).text
  }

  /** The first n tokens are pieces that the model went on from, and complete no stop token. */
  ghost predicate GoesOn(stops: seq<Bytes>, sample: nat -> Token, n: nat) {
    && (forall i :: 0 <= i < n ==> sample(i).Piece? && sample(i).evaluated)
    && forall i {:trigger TextOf(sample, i)} :: 0 < i <= n ==> NoStop(stops, TextOf(sample, i))
  }

  /** What the n-th token, or the limit, makes of a generation that has gone on so far. */
  ghost function EndsAt(stops: seq<Bytes>, sample: nat -> Token, limit: nat, n: nat): Option<Ending>
    requires GoesOn(stops, sample, n)
  {
    if n >= limit || sample(n).EndOfGeneration? then Some(Completed(TextOf(sample, n)))
    else if sample(n).Broken? then Some(Failed)
    else
      var text := TextOf(sample, n + 1);
      match FirstStop(stops, text)
      case Some(at) => Some(Stopped(text[..at], TrimEnd(text[..at])))
      case None => if sample(n).evaluated then None else Some(Failed)
  }

  lemma GoesOnOne(stops: seq<Bytes>, sample: nat -> Token, limit: nat, n: nat)
    requires GoesOn(stops, sample, n) && EndsAt(stops, sample, limit, n).None?
    ensures n < limit && GoesOn(stops, sample, n + 1)
  {
    hide FirstStop;
    FirstStopNone(stops, TextOf(sample, n + 1));
  }

  /** A generation ends at the first token that is no piece to go on from, by what that token is, or at
      the limit: with all its text, cut at the stop token that the last piece completes, or failed. */
  lemma {:induction false} RescanEnds(stops: seq<Bytes>, sample: nat -> Token, limit: nat, n: nat) returns (m: nat)
    requires NonEmpty(stops) && GoesOn(stops, sample, n) && n <= limit
    ensures n <= m <= limit && GoesOn(stops, sample, m)
    ensures EndsAt(stops, sample, limit, m) == Some(Rescan(stops, sample, limit, n, TextOf(sample, n)))
    decreases limit - n
  {
    hide FirstStop, TrimEnd, MaxLen, GoesOn;
    assert n < limit && sample(n).Piece? ==> TextOf(sample, n + 1) == TextOf(sample, n) + sample(n).text by {
      assert GoesOn(stops, sample, n);
      PiecesSoFar(stops, sample, n);
    }
    if n < limit && sample(n).Piece? && MaxLen(stops) == 0 {
      NoLengthNoStops(stops);
      NoStopsOccur(TextOf(sample, n) + sample(n).text);
    }
    if EndsAt(stops, sample, limit, n).None? {
      GoesOnOne(stops, sample, limit, n);
      m := RescanEnds(stops, sample, limit, n + 1);
    } else {
      m := n;
    }
  }

  lemma PiecesSoFar(stops: seq<Bytes>, sample: nat -> Token, n: nat)
    requires GoesOn(stops, sample, n)
    ensures forall i :: 0 <= i < n ==> sample(i).Piece?
  {
  }

  /** So for the whole generation, from nothing. */
  lemma GenerationEnds(stops: seq<Bytes>, sample: nat -> Token, limit: nat) returns (m: nat)
    requires NonEmpty(stops)
    ensures m <= limit && GoesOn(stops, sample, m)
    ensures EndsAt(stops, sample, limit, m) == Some(Rescan(stops, sample, limit, 0, []))
  {
    m := RescanEnds(stops, sample, limit, 0);
  }

  // ----- The tail scan -----

  /** Where the tail scan starts: far enough back to catch a token spanning the new piece. */
  function ScanFrom(output: Bytes, piece: nat, longest: nat): (from: nat)
    ensures from <= |output| && Boundary(output, from)
    ensures from <= Max(0, |output| - (piece + longest))
  {
    BackToBoundary(output, Max(0, |output| - (piece + longest)))
  }

  /** The tail scan finds a stop token exactly when, and exactly where, a full rescan would. */
  lemma TailScanIsRescan(before: Bytes, piece: Bytes, stop: Bytes, longest: nat)
    requires 0 < |stop| <= longest && !Occurs(before, stop)
    ensures var output := before + piece;
      FindFrom(output, stop, ScanFrom(output, |piece|, longest)) == Find(output, stop)
  {
    hide FindFrom, BackToBoundary, At;
    var output := before + piece;
    var from := ScanFrom(output, |piece|, longest);
    forall q: nat | q < from
      ensures !At(output, stop, q)
    {
      PrefixMatches(before, piece, stop, q);
    }
    var (whole, tail) := (Find(output, stop), FindFrom(output, stop, from));
    assert whole.Some? ==> from <= whole.value;
  }

  /** An empty stop token is where the two part: the rescan always finds it at 0, the tail scan where
      it starts looking. */
  lemma EmptyStopAgreesIff(output: Bytes, piece: nat, longest: nat)
    ensures Find(output, []) == Some(0)
    ensures FindFrom(output, [], ScanFrom(output, piece, longest)) == Find(output, [])
       <==> ScanFrom(output, piece, longest) == 0
  {
    var from := ScanFrom(output, piece, longest);
    assert At(output, [], 0) && At(output, [], from);
  }

  /** The first listed stop token found from `from` on. */
  function FirstStopFrom(stops: seq<Bytes>, output: Bytes, from: nat): Option<nat> {
    if stops == [] then None
    else if FindFrom(output, stops[0], from).Some? then FindFrom(output, stops[0], from)
    else FirstStopFrom(stops[1..], output, from)
  }

  predicate NonEmpty(stops: seq<Bytes>) {
    forall i :: 0 <= i < |stops| ==> stops[i] != []
  }

  predicate AllValid(texts: seq<Bytes>) {
    forall i :: 0 <= i < |texts| ==> Valid(texts[i])
  }

  lemma {:induction false} FirstStopsAgree(stops: seq<Bytes>, before: Bytes, piece: Bytes, longest: nat)
    requires NonEmpty(stops) && NoStop(stops, before) && forall i :: 0 <= i < |stops| ==> |stops[i]| <= longest
    ensures FirstStopFrom(stops, before + piece, ScanFrom(before + piece, |piece|, longest))
         == FirstStop(stops, before + piece)
  {
    hide FindFrom, BackToBoundary, ScanFrom;
    if stops != [] {
      TailScanIsRescan(before, piece, stops[0], longest);
      FirstStopsAgree(stops[1..], before, piece, longest);
    }
  }

  lemma {:induction false} FirstStopFromPlace(stops: seq<Bytes>, output: Bytes, from: nat)
    requires AllValid(stops) && Valid(output) && Boundary(output, from)
    ensures var r := FirstStopFrom(stops, output, from);
      r.Some? ==> from <= r.value && Boundary(output, r.value)
  {
    hide FindFrom, Valid;
    if stops != [] {
      var found := FindFrom(output, stops[0], from);
      if found.Some? && stops[0] != [] {
        MatchOnBoundary(output, stops[0], found.value);
      } else if found.Some? {
        EmptyFoundAtOnce(output, from);
      }
      FirstStopFromPlace(stops[1..], output, from);
    }
  }

  lemma EmptyFoundAtOnce(output: Bytes, from: nat)
    requires from <= |output|
    ensures FindFrom(output, [], from) == Some(from)
  {
    assert At(output, [], from);
  }

  /** Scan the tail for each stop token in turn. */
  method ScanTail(stops: seq<Bytes>, output: Bytes, from: nat) returns (r: Option<nat>)
    requires from <= |output|
    ensures r == FirstStopFrom(stops, output, from)
  {
    hide FindFrom;
    for i := 0 to |stops|
      invariant FirstStopFrom(stops, output, from) == FirstStopFrom(stops[i..], output, from)
    {
      assert stops[i..][0] == stops[i] && stops[i..][1..] == stops[i + 1..];
      FindInSuffix(output, stops[i], from);
      var pos := Find(output[from..], stops[i]);
      if pos.Some? {
        return Some(from + pos.value);
      }
    }
    return None;
  }

  // ----- Streaming -----

  /** What has been streamed: whole characters, a prefix of the output, clear of its last `longest`
      bytes. */
  ghost predicate Streamed(output: Bytes, chunks: seq<Bytes>, streamed: nat, longest: nat) {
    && Valid(output) && Boundary(output, streamed) && streamed <= Max(0, |output| - longest)
    && Flat(chunks) == output[..streamed]
    && AllValid(chunks) && forall i :: 0 <= i < |chunks| ==> |chunks[i]| >= STREAM_BATCH_BYTES
  }

  lemma StreamedGrows(output: Bytes, piece: Bytes, chunks: seq<Bytes>, streamed: nat, longest: nat)
    requires Streamed(output, chunks, streamed, longest) && Valid(piece)
    ensures Streamed(output + piece, chunks, streamed, longest)
  {
    ValidConcat(output, piece);
    BoundarySplits(output, streamed);
    ValidConcat(output[streamed..], piece);
    CutInPrefix(output, piece, streamed);
    ValidStartsOnBoundary(output + piece, streamed);
    hide Valid, Boundary, AllValid, Flat;
  }

  lemma CutInPrefix(a: Bytes, b: Bytes, i: nat)
    requires i <= |a|
    ensures (a + b)[..i] == a[..i] && (a + b)[i..] == a[i..] + b
  {
  }

  /** How much of the output can no longer be part of a stop token, in whole characters. */
  function SafeLen(output: Bytes, longest: nat): (safe: nat)
    ensures safe <= |output|
  {
    BackToBoundary(output, Max(0, |output| - longest))
  }

  /** What is newly safe is sent as soon as it makes a batch. */
  predicate Ready(output: Bytes, streamed: nat, longest: nat) {
    SafeLen(output, longest) >= streamed + STREAM_BATCH_BYTES
  }

  function NextStreamed(output: Bytes, streamed: nat, longest: nat): nat {
    if Ready(output, streamed, longest) then SafeLen(output, longest) else streamed
  }

  function NextChunks(output: Bytes, streamed: nat, longest: nat): seq<Bytes> {
    if Ready(output, streamed, longest) then [output[streamed..SafeLen(output, longest)]] else []
  }

  /** All chunks of a generation, after n of at most `limit` tokens with this output, of which
      `streamed` bytes have been sent. */
  function Chunks(stops: seq<Bytes>, sample: nat -> Token, limit: nat, n: nat, output: Bytes, streamed: nat): seq<Bytes>
    decreases limit - n
  {
    if n >= limit || !sample(n).Piece? then []
    else
      var (longer, longest) := (output + sample(n).text, MaxLen(stops));
      if longest > 0 && FirstStop(stops, longer).Some? then []
      else
        NextChunks(longer, streamed, longest)
        + if !sample(n).evaluated then []
          else Chunks(stops, sample, limit, n + 1, longer, NextStreamed(longer, streamed, longest))
  }

  /** Send what is newly safe, if it makes a batch. What is held back is the longest stop token, less
      than a batch, and at most three bytes of a character. */
  method StreamSafePrefix(output: Bytes, chunks: seq<Bytes>, streamed: nat, longest: nat)
    returns (chunks': seq<Bytes>, streamed': nat)
    requires Streamed(output, chunks, streamed, longest)
    ensures Streamed(output, chunks', streamed', longest)
    ensures chunks' == chunks + NextChunks(output, streamed, longest)
    ensures streamed' == NextStreamed(output, streamed, longest)
    ensures |output| - streamed' <= longest + 66
  {
    hide Valid;
    var safe := BackToBoundary(output, Max(0, |output| - longest));
    BackWithinCharacter(output, Max(0, |output| - longest));
    chunks', streamed' := chunks, streamed;
    if safe > streamed && safe - streamed >= STREAM_BATCH_BYTES {
      var chunk := output[streamed..safe];
      BoundarySplits(output, safe);
      BoundarySplits(output[..safe], streamed);
      FlatOne(chunks, chunk);
      chunks' := chunks + [chunk];
      streamed' := safe;
    }
  }

  /** The streamed text is empty, or its last character or something after it is no whitespace. */
  predicate VisibleAtEnd(streamed: Bytes, cut: Bytes) {
    streamed == [] || !AllWhite(cut[Min(LastStart(streamed), |cut|)..])
  }

  /** What is cut at a stop token never reaches back into streamed text. */
  lemma CutKeepsStreamed(before: Bytes, piece: Bytes, chunks: seq<Bytes>, streamed: nat, longest: nat, cut: nat)
    requires Streamed(before + piece, chunks, streamed, longest)
    requires streamed <= Max(0, |before| - longest)
    requires ScanFrom(before + piece, |piece|, longest) <= cut && Boundary(before + piece, cut)
    ensures Flat(chunks) <= (before + piece)[..cut] && Valid((before + piece)[..cut])
    ensures Flat(chunks) <= TrimEnd((before + piece)[..cut]) <==> VisibleAtEnd(Flat(chunks), (before + piece)[..cut])
  {
    hide Valid, TrimEnd, AllWhite;
    var output := before + piece;
    var i := Max(0, |output| - (|piece| + longest));
    assert streamed <= i && Boundary(output, streamed);
    assert streamed <= ScanFrom(output, |piece|, longest);
    BoundarySplits(output, cut);
    assert output[..cut][..streamed] == output[..streamed];
    assert streamed < cut ==> output[..cut][streamed] == output[streamed];
    PrefixSurvivesTrimIff(output[..cut], streamed);
  }

  // ----- The loop -----

  lemma NothingOccursInNothing(stops: seq<Bytes>)
    ensures NonEmpty(stops) ==> NoStop(stops, [])
  {
  }

  lemma NoStopsOccur(output: Bytes)
    ensures NoStop([], output) && FirstStop([], output).None?
  {
  }

  lemma NoLengthNoStops(stops: seq<Bytes>)
    requires NonEmpty(stops) && MaxLen(stops) == 0
    ensures stops == []
  {
  }

  lemma EmptyStreamed(longest: nat)
    ensures Streamed([], [], 0, longest)
  {
  }

  lemma StreamedIsPrefix(output: Bytes, chunks: seq<Bytes>, streamed: nat, longest: nat)
    requires Streamed(output, chunks, streamed, longest)
    ensures Valid(output) && Flat(chunks) <= output && |Flat(chunks)| == streamed <= Max(0, |output| - longest)
    ensures AllValid(chunks) && forall i :: 0 <= i < |chunks| ==> |chunks[i]| >= STREAM_BATCH_BYTES
  {
  }

  /** One turn of the rescanning generation, and of what it sends. */
  lemma OneTurn(stops: seq<Bytes>, sample: nat -> Token, limit: nat, n: nat, output: Bytes, streamed: nat)
    ensures n >= limit || sample(n).EndOfGeneration? ==>
      Rescan(stops, sample, limit, n, output) == Completed(output)
      && Chunks(stops, sample, limit, n, output, streamed) == []
    ensures n < limit && sample(n).Broken? ==>
      Rescan(stops, sample, limit, n, output) == Failed
      && Chunks(stops, sample, limit, n, output, streamed) == []
    ensures n < limit && sample(n).Piece? ==>
      var longer := output + sample(n).text;
      var stop := if MaxLen(stops) > 0 then FirstStop(stops, longer) else None;
      var (chunks, sent) :=
        (NextChunks(longer, streamed, MaxLen(stops)), NextStreamed(longer, streamed, MaxLen(stops)));
      && (stop.Some? ==>
            && Rescan(stops, sample, limit, n, output) == Stopped(longer[..stop.value], TrimEnd(longer[..stop.value]))
            && Chunks(stops, sample, limit, n, output, streamed) == [])
      && (stop.None? && !sample(n).evaluated ==>
            && Rescan(stops, sample, limit, n, output) == Failed
            && Chunks(stops, sample, limit, n, output, streamed) == chunks)
      && (stop.None? && sample(n).evaluated ==>
            && Rescan(stops, sample, limit, n, output) == Rescan(stops, sample, limit, n + 1, longer)
            && Chunks(stops, sample, limit, n, output, streamed)
            == chunks + Chunks(stops, sample, limit, n + 1, longer, sent))
  {
    hide FirstStop, TrimEnd, MaxLen, NextChunks, NextStreamed;
  }

  // ----- The generation as the loop scans it -----

  /** What the tail scan finds when a piece has come. */
  function ScanStop(stops: seq<Bytes>, before: Bytes, piece: Bytes): Option<nat> {
    if MaxLen(stops) == 0 then None
    else FirstStopFrom(stops, before + piece, ScanFrom(before + piece, |piece|, MaxLen(stops)))
  }

  /** The ending with only the tail scanned each time, for any stop tokens at all. */
  function TailEnding(stops: seq<Bytes>, sample: nat -> Token, limit: nat, n: nat, output: Bytes): Ending
    decreases limit - n
  {
    if n >= limit then Completed(output)
    else match sample(n)
      case EndOfGeneration => Completed(output)
      case Broken => Failed
      case Piece(text, evaluated) =>
        var longer := output + text;
        var stop := ScanStop(stops, output, text);
        if stop.Some? then
          var cut := longer[..Min(stop.value, |longer|)];
          Stopped(cut, TrimEnd(cut))
        else if !evaluated then Failed
        else TailEnding(stops, sample, limit, n + 1, longer)
  }

  function TailChunks(stops: seq<Bytes>, sample: nat -> Token, limit: nat, n: nat, output: Bytes, streamed: nat)
    : seq<Bytes>
    decreases limit - n
  {
    if n >= limit || !sample(n).Piece? || ScanStop(stops, output, sample(n).text).Some? then []
    else
      var (longer, longest) := (output + sample(n).text, MaxLen(stops));
      NextChunks(longer, streamed, longest)
      + if !sample(n).evaluated then []
        else TailChunks(stops, sample, limit, n + 1, longer, NextStreamed(longer, streamed, longest))
  }

  /** One turn of it. */
  lemma TailTurn(stops: seq<Bytes>, sample: nat -> Token, limit: nat, n: nat, output: Bytes, streamed: nat)
    ensures n >= limit || sample(n).EndOfGeneration? ==>
      TailEnding(stops, sample, limit, n, output) == Completed(output)
      && TailChunks(stops, sample, limit, n, output, streamed) == []
    ensures n < limit && sample(n).Broken? ==>
      TailEnding(stops, sample, limit, n, output) == Failed
      && TailChunks(stops, sample, limit, n, output, streamed) == []
    ensures n < limit && sample(n).Piece? ==>
      var longer := output + sample(n).text;
      var stop := ScanStop(stops, output, sample(n).text);
      var (chunks, sent) :=
        (NextChunks(longer, streamed, MaxLen(stops)), NextStreamed(longer, streamed, MaxLen(stops)));
      && (stop.Some? && stop.value <= |longer| ==>
            && TailEnding(stops, sample, limit, n, output)
            == Stopped(longer[..stop.value], TrimEnd(longer[..stop.value]))
            && TailChunks(stops, sample, limit, n, output, streamed) == [])
      && (stop.None? && !sample(n).evaluated ==>
            && TailEnding(stops, sample, limit, n, output) == Failed
            && TailChunks(stops, sample, limit, n, output, streamed) == chunks)
      && (stop.None? && sample(n).evaluated ==>
            && TailEnding(stops, sample, limit, n, output) == TailEnding(stops, sample, limit, n + 1, longer)
            && TailChunks(stops, sample, limit, n, output, streamed)
            == chunks + TailChunks(stops, sample, limit, n + 1, longer, sent))
  {
    hide ScanStop, TrimEnd, MaxLen, NextChunks, NextStreamed;
  }

  /** With no empty stop token, and none in the output yet, the tail scan finds what a rescan would. */
  lemma ScanStopAgrees(stops: seq<Bytes>, before: Bytes, piece: Bytes)
    requires NonEmpty(stops) && NoStop(stops, before)
    ensures ScanStop(stops, before, piece) == if MaxLen(stops) > 0 then FirstStop(stops, before + piece) else None
    ensures ScanStop(stops, before, piece).None? ==> NoStop(stops, before + piece)
  {
    hide FindFrom, FirstStop, FirstStopFrom, ScanFrom, NoStop;
    FirstStopsAgree(stops, before, piece, MaxLen(stops));
    FirstStopNone(stops, before + piece);
    if MaxLen(stops) == 0 {
      NoLengthNoStops(stops);
      NoStopsOccur(before + piece);
    }
  }

  /** The loop's generation is the rescanning one, chunks included. */
  lemma {:induction false} TailIsRescan(stops: seq<Bytes>, sample: nat -> Token, limit: nat, n: nat, output: Bytes,
                                        streamed: nat)
    requires NonEmpty(stops) && NoStop(stops, output)
    ensures TailEnding(stops, sample, limit, n, output) == Rescan(stops, sample, limit, n, output)
    ensures TailChunks(stops, sample, limit, n, output, streamed)
         == Chunks(stops, sample, limit, n, output, streamed)
    decreases limit - n
  {
    hide FirstStop, TrimEnd, MaxLen, NextChunks, NextStreamed, NoStop, ScanStop, Rescan, Chunks, TailEnding, TailChunks;
    OneTurn(stops, sample, limit, n, output, streamed);
    TailTurn(stops, sample, limit, n, output, streamed);
    if n < limit && sample(n).Piece? {
      var longer := output + sample(n).text;
      ScanStopAgrees(stops, output, sample(n).text);
      if ScanStop(stops, output, sample(n).text).None? && sample(n).evaluated {
        TailIsRescan(stops, sample, limit, n + 1, longer, NextStreamed(longer, streamed, MaxLen(stops)));
      }
    }
  }

  /** What runs to the end of generation contains no stop token. */
  lemma CompletedIsStopFree(stops: seq<Bytes>, sample: nat -> Token, limit: nat)
    requires NonEmpty(stops)
    ensures var r := Rescan(stops, sample, limit, 0, []); r.Completed? ==> NoStop(stops, r.text)
  {
    NothingOccursInNothing(stops);
    var m := GenerationEnds(stops, sample, limit);
    hide Rescan, NoStop, FirstStop;
    assert m > 0 ==> NoStop(stops, TextOf(sample, m));
  }

  lemma Associates<T>(a: seq<T>, b: seq<T>, c: seq<T>)
    ensures a + (b + c) == a + b + c
  {
  }

  /** Look for a stop token that the newest piece completes. */
  method ScanPiece(stops: seq<Bytes>, output: Bytes, piece: Bytes, longest: nat, ghost before: Bytes,
                   ghost chunks: seq<Bytes>, ghost streamed: nat)
    returns (stop: Option<nat>)
    requires output == before + piece && longest == MaxLen(stops) && AllValid(stops) && Valid(piece)
    requires Streamed(before, chunks, streamed, longest)
    ensures stop == ScanStop(stops, before, piece)
    ensures Streamed(output, chunks, streamed, longest)
    ensures stop.Some? ==>
      && stop.value <= |output| && Valid(output[..stop.value]) && Flat(chunks) <= output[..stop.value]
      && (Flat(chunks) <= TrimEnd(output[..stop.value]) <==> VisibleAtEnd(Flat(chunks), output[..stop.value]))
  {
    hide FindFrom, Valid, FirstStop, FirstStopFrom, BackToBoundary, TrimEnd, NoStop, Streamed, ScanFrom, VisibleAtEnd;
    StreamedIsPrefix(before, chunks, streamed, longest);
    StreamedGrows(before, piece, chunks, streamed, longest);
    StreamedIsPrefix(output, chunks, streamed, longest);
    stop := None;
    if longest > 0 {
      var from := ScanFrom(output, |piece|, longest);
      stop := ScanTail(stops, output, from);
      FirstStopFromPlace(stops, output, from);
    }
    if stop.Some? {
      CutKeepsStreamed(before, piece, chunks, streamed, longest, stop.value);
    }
  }

  /** Generation, streamed. It ends and sends as specified whatever the stop tokens are. With no empty one
      it ends exactly as the full rescan does, and whatever was streamed is a prefix of the text, on a
      stop of the text before trimming. A completed text is streamed but for the longest stop token, less
      than a batch, and at most three bytes. */
  method Generate(maxTokens: int, stops: seq<Bytes>, sample: nat -> Token) returns (r: Ending, chunks: seq<Bytes>)
    requires AllValid(stops) && forall n :: sample(n).Piece? ==> Valid(sample(n).text)
    ensures r == TailEnding(stops, sample, Max(0, maxTokens), 0, [])
    ensures chunks == TailChunks(stops, sample, Max(0, maxTokens), 0, [], 0)
    ensures NonEmpty(stops) ==> r == Rescan(stops, sample, Max(0, maxTokens), 0, [])
    ensures NonEmpty(stops) ==> chunks == Chunks(stops, sample, Max(0, maxTokens), 0, [], 0)
    ensures r.Completed? ==> |r.text| <= |Flat(chunks)| + MaxLen(stops) + 66
    ensures AllValid(chunks) && forall i :: 0 <= i < |chunks| ==> |chunks[i]| >= 64
    ensures r.Completed? ==> Valid(r.text) && Flat(chunks) <= r.text
    ensures r.Completed? && NonEmpty(stops) ==> NoStop(stops, r.text)
    ensures r.Stopped? ==> Valid(r.cut) && Flat(chunks) <= r.cut && r.text == TrimEnd(r.cut)
    ensures r.Stopped? ==> (Flat(chunks) <= r.text <==> VisibleAtEnd(Flat(chunks), r.cut))
  {
    var limit := Max(0, maxTokens);
    var longest := MaxLen(stops);
    NothingOccursInNothing(stops);
    hide FindFrom, Valid, FirstStop, FirstStopFrom, BackToBoundary, TrimEnd, NoStop, ScanStop, MaxLen;
    hide Rescan, Chunks, TailEnding, TailChunks, NextChunks, NextStreamed, Streamed, ScanFrom, VisibleAtEnd;
    if NonEmpty(stops) {
      TailIsRescan(stops, sample, limit, 0, [], 0);
      CompletedIsStopFree(stops, sample, limit);
    }
    var output: Bytes := [];
    var streamed, n := 0, 0;
    chunks := [];
    EmptyStreamed(longest);
    while n < limit
      invariant Streamed(output, chunks, streamed, longest)
      invariant |output| - streamed <= longest + 66
      invariant TailEnding(stops, sample, limit, 0, []) == TailEnding(stops, sample, limit, n, output)
      invariant TailChunks(stops, sample, limit, 0, [], 0)
             == chunks + TailChunks(stops, sample, limit, n, output, streamed)
      decreases limit - n
    {
      var token := sample(n);
      TailTurn(stops, sample, limit, n, output, streamed);
      StreamedIsPrefix(output, chunks, streamed, longest);
      if token.EndOfGeneration? {
        return Completed(output), chunks;
      }
      if token.Broken? {
        return Failed, chunks;
      }
      ghost var before := output;
      output := output + token.text;
      var stop := ScanPiece(stops, output, token.text, longest, before, chunks, streamed);
      if stop.Some? {
        return Stopped(output[..stop.value], TrimEnd(output[..stop.value])), chunks;
      }
      ghost var (sent, more) := (chunks, NextChunks(output, streamed, longest));
      chunks, streamed := StreamSafePrefix(output, chunks, streamed, longest);
      if !token.evaluated {
        StreamedIsPrefix(output, chunks, streamed, longest);
        return Failed, chunks;
      }
      n := n + 1;
      Associates(sent, more, TailChunks(stops, sample, limit, n, output, streamed));
    }
    TailTurn(stops, sample, limit, n, output, streamed);
    StreamedIsPrefix(output, chunks, streamed, longest);
    return Completed(output), chunks;
  }

  // ----- Where the documented prefix promise fails -----

  function Spaces(n: nat): (s: Bytes)
    ensures |s| == n && forall i :: 0 <= i < n ==> s[i] == 0x20
  {
    seq<Byte>(n, i => 0x20)
  }

  lemma {:induction false} SpacesTrimToNothing(n: nat)
    ensures TrimEnd(Spaces(n)) == []
  {
    if n > 0 {
      var s := Spaces(n);
      assert LastStart(s) == n - 1;
      assert s[n - 1..] == [0x20] && s[..n - 1] == Spaces(n - 1);
      assert IsWhite([0x20]);
      SpacesTrimToNothing(n - 1);
    }
  }

  /** An empty stop token listed beside another one: after the third space the tail scan finds it at 1. */
  lemma EmptyStopDiffers()
    ensures FindFrom(Spaces(3), [], ScanFrom(Spaces(3), 1, 1)) == Some(1) && Find(Spaces(3), []) == Some(0)
  {
    EmptyFoundAtOnce(Spaces(3), 1);
    EmptyFoundAtOnce(Spaces(3), 0);
    assert Boundary(Spaces(3), 1);
  }

  lemma FindAfterSpaces(n: nat)
    ensures Find(Spaces(n), [0x53]).None?
    ensures Find(Spaces(n) + [0x53], [0x53]) == Some(n)
  {
    var whole := Spaces(n) + [0x53];
    forall q: nat
      ensures !At(Spaces(n), [0x53], q) && (q < n ==> !At(whole, [0x53], q))
    {
      if q < n {
        assert Spaces(n)[q..q + 1] == whole[q..q + 1] == [0x20];
      }
    }
    assert At(whole, [0x53], n) by { assert whole[n..n + 1] == [0x53]; }
    var r := Find(whole, [0x53]);
    assert r.Some?;
  }

  lemma OneStop(stop: Bytes, output: Bytes)
    ensures FirstStop([stop], output) == Find(output, stop)
    ensures MaxLen([stop]) == |stop|
  {
    hide FindFrom;
    assert [stop][1..] == [];
  }

  /** n spaces and then the stop token "S": from 65 on, all but one space are sent after the first piece,
      and yet the returned text is empty. */
  lemma StreamedSpacesVanish(sample: nat -> Token, n: nat)
    requires sample(0) == Piece(Spaces(n), true) && sample(1) == Piece([0x53], true) && n > STREAM_BATCH_BYTES
    ensures Rescan([[0x53]], sample, 2, 0, []) == Stopped(Spaces(n), [])
    ensures Chunks([[0x53]], sample, 2, 0, [], 0) == [Spaces(n - 1)]
    ensures !(Flat([Spaces(n - 1)]) <= [])
  {
    SpacesTrimToNothing(n);
    FindAfterSpaces(n);
    OneStop([0x53], Spaces(n));
    OneStop([0x53], Spaces(n) + [0x53]);
    SpacesAreSafe(n);
    assert Spaces(n) == (Spaces(n) + [0x53])[..n];
    TwoPieces([[0x53]], sample, Spaces(n), [0x53], Spaces(n));
    FlatOne([], Spaces(n - 1));
    var none: seq<Bytes> := [];
    assert none + [Spaces(n - 1)] == [Spaces(n - 1)];
  }

  lemma SpacesAreSafe(n: nat)
    requires n > STREAM_BATCH_BYTES
    ensures NextChunks(Spaces(n), 0, 1) == [Spaces(n - 1)] && NextStreamed(Spaces(n), 0, 1) == n - 1
  {
    assert SafeLen(Spaces(n), 1) == n - 1;
    assert Spaces(n)[0..n - 1] == Spaces(n - 1);
  }

  /** A generation of two pieces: the first is streamed as far as it is safe, the second completes a
      stop token. */
  lemma TwoPieces(stops: seq<Bytes>, sample: nat -> Token, before: Bytes, rest: Bytes, text: Bytes)
    requires sample(0) == Piece(before, true) && sample(1) == Piece(rest, true) && MaxLen(stops) > 0
    requires FirstStop(stops, before).None? && FirstStop(stops, before + rest) == Some(|text|)
    requires text == (before + rest)[..|text|]
    ensures Rescan(stops, sample, 2, 0, []) == Stopped(text, TrimEnd(text))
    ensures Chunks(stops, sample, 2, 0, [], 0) == NextChunks(before, 0, MaxLen(stops))
  {
    OneTurn(stops, sample, 2, 0, [], 0);
    OneTurn(stops, sample, 2, 1, before, NextStreamed(before, 0, MaxLen(stops)));
    hide FirstStop, TrimEnd, MaxLen, Rescan, Chunks, NextChunks, NextStreamed;
    var none: Bytes := [];
    assert none + before == before;
    assert NextChunks(before, 0, MaxLen(stops)) + [] == NextChunks(before, 0, MaxLen(stops));
  }
}
