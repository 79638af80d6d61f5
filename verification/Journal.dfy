/** The saver's segment vector, and the replay of its append-only journal. */
module Journal {
  import opened Wrappers
  import opened Decimals
  import opened Transcript

  /** One line of the journal: a segment, or something that does not parse and may not even be UTF-8.
      `at` is the position of the segment among all updates ever published. */
  datatype Line = Whole(segment: Segment, at: nat) | Malformed(decodable: bool)

  /** The file is text: it is read whole, before any line is looked at. */
  predicate Readable(lines: seq<Line>) {
    forall i :: 0 <= i < |lines| && lines[i].Malformed? ==> lines[i].decodable
  }

  datatype ReplayError = NotUtf8

  function Parsed(lines: seq<Line>): seq<Segment> {
    if lines == [] then []
    else (if lines[0].Whole? then [lines[0].segment] else []) + Parsed(lines[1..])
  }

  lemma {:induction false} ParsedAppend(a: seq<Line>, b: seq<Line>)
    ensures Parsed(a + b) == Parsed(a) + Parsed(b)
  {
    if a == [] {
      assert a + b == b;
    } else {
      assert (a + b)[1..] == a[1..] + b;
      ParsedAppend(a[1..], b);
      var head := if a[0].Whole? then [a[0].segment] else [];
      assert Parsed(a + b) == head + (Parsed(a[1..]) + Parsed(b));
      hide *;
      Associates(head, Parsed(a[1..]), Parsed(b));
    }
  }

  lemma Associates<T>(a: seq<T>, b: seq<T>, c: seq<T>)
    ensures a + (b + c) == a + b + c
  {
  }

  /** What the replay deduplicates on. */
  function ReplayKey(s: Segment): string {
    if s.sequenceId.Some? then "seq:" + Decimal(s.sequenceId.value) else "id:" + s.id
  }

  /** Keys agree exactly when the sequence ids do, or, without any, the ids. */
  lemma ReplayKeyIff(s: Segment, t: Segment)
    ensures ReplayKey(s) == ReplayKey(t) <==>
      s.sequenceId == t.sequenceId && (s.sequenceId.None? ==> s.id == t.id)
  {
    var (a, b) := (ReplayKey(s), ReplayKey(t));
    assert s.sequenceId.Some? ==> a[0] == 's' && a[4..] == Decimal(s.sequenceId.value);
    assert s.sequenceId.None? ==> a[0] == 'i' && a[3..] == s.id;
    assert t.sequenceId.Some? ==> b[0] == 's' && b[4..] == Decimal(t.sequenceId.value);
    assert t.sequenceId.None? ==> b[0] == 'i' && b[3..] == t.id;
    if s.sequenceId.Some? && t.sequenceId.Some? {
      DecimalsDistinct(s.sequenceId.value, t.sequenceId.value);
    }
  }

  /** The last line per key. */
  function ByKey(updates: seq<Segment>): map<string, Segment> {
    if updates == [] then map[]
    else var last := updates[|updates| - 1]; ByKey(updates[..|updates| - 1])[ReplayKey(last) := last]
  }

  /** All updates without a sequence id share one id. */
  predicate OneUnnumbered(updates: seq<Segment>) {
    forall i, j :: 0 <= i < j < |updates| && updates[i].sequenceId.None? && updates[j].sequenceId.None? ==>
      updates[i].id == updates[j].id
  }

  lemma {:induction false} ByKeyFrom(updates: seq<Segment>)
    ensures forall k :: k in ByKey(updates) ==> ByKey(updates)[k] in updates && ReplayKey(ByKey(updates)[k]) == k
    ensures forall i :: i in Latest(updates) ==> Latest(updates)[i] in updates && Latest(updates)[i].sequenceId == i
    ensures forall i :: 0 <= i < |updates| ==> ReplayKey(updates[i]) in ByKey(updates)
    decreases |updates|
  {
    if updates != [] {
      var n := |updates| - 1;
      ByKeyFrom(updates[..n]);
      assert updates == updates[..n] + [updates[n]];
    }
  }

  /** One more update changes both maps alike. */
  lemma LastIsLatest(updates: seq<Segment>, last: Segment, s: Segment)
    requires OneUnnumbered(updates + [last])
    requires s in ByKey(updates).Values <==> s in Latest(updates).Values
    ensures s in ByKey(updates + [last]).Values <==> s in Latest(updates + [last]).Values
  {
    var all := updates + [last];
    assert all[..|updates|] == updates && all[|updates|] == last;
    ByKeyFrom(updates);
    var (m, l) := (ByKey(updates), Latest(updates));
    assert ByKey(all) == m[ReplayKey(last) := last] && Latest(all) == l[last.sequenceId := last];
    InUpdated(m, ReplayKey(last), last, s);
    InUpdated(l, last.sequenceId, last, s);
    if s in m.Values || s in l.Values {
      assert s in updates;
      var i :| 0 <= i < |updates| && updates[i] == s;
      assert all[i] == s && all[|updates|] == last;
      ReplayKeyIff(s, last);
    }
  }

  lemma InUpdated<K>(m: map<K, Segment>, k: K, last: Segment, s: Segment)
    ensures s in m[k := last].Values <==> s == last || exists i :: i in m && i != k && m[i] == s
  {
    var n := m[k := last];
    assert n[k] == last;
    if i :| i in m && i != k && m[i] == s {
      assert n[i] == s;
    }
  }

  lemma {:induction false} ByKeyIsLatest(updates: seq<Segment>)
    requires OneUnnumbered(updates)
    ensures ByKey(updates).Values == Latest(updates).Values
    decreases |updates|
  {
    if updates != [] {
      var n := |updates| - 1;
      assert updates == updates[..n] + [updates[n]];
      ByKeyIsLatest(updates[..n]);
      forall s
        ensures s in ByKey(updates).Values <==> s in Latest(updates).Values
      {
        LastIsLatest(updates[..n], updates[n], s);
      }
    }
  }

  /** Exactly when the journal's last lines are the last versions memory keeps: unless two updates
      without a sequence id differ in their id, of which memory keeps one and the journal both. */
  lemma ByKeyIsLatestIff(updates: seq<Segment>)
    ensures ByKey(updates).Values == Latest(updates).Values <==> OneUnnumbered(updates)
  {
    if OneUnnumbered(updates) {
      ByKeyIsLatest(updates);
    } else {
      var i, j :| 0 <= i < j < |updates| && updates[i].sequenceId.None? && updates[j].sequenceId.None?
                  && updates[i].id != updates[j].id;
      TwoIdsPart(updates, i, j);
    }
  }

  lemma TwoIdsPart(updates: seq<Segment>, i: nat, j: nat)
    requires i < |updates| && j < |updates| && updates[i].sequenceId.None? && updates[j].sequenceId.None?
    requires updates[i].id != updates[j].id
    ensures ByKey(updates).Values != Latest(updates).Values
  {
    hide *;
    ByKeyFrom(updates);
    var (x, y) := (ByKey(updates)[ReplayKey(updates[i])], ByKey(updates)[ReplayKey(updates[j])]);
    ReplayKeyIff(x, updates[i]);
    ReplayKeyIff(y, updates[j]);
    assert x in ByKey(updates).Values && y in ByKey(updates).Values;
    if x in Latest(updates).Values && y in Latest(updates).Values {
      OneValuePerId(updates, x, y);
    }
  }

  lemma OneValuePerId(updates: seq<Segment>, x: Segment, y: Segment)
    requires x.sequenceId == y.sequenceId && x in Latest(updates).Values && y in Latest(updates).Values
    ensures x == y
  {
    ByKeyFrom(updates);
  }

  /** The list enumerates the values of m in some order. */
  ghost predicate Enumerates(values: seq<Segment>, m: map<string, Segment>) {
    && (forall s :: s in values <==> s in m.Values)
    && (forall i, j :: 0 <= i < j < |values| ==> ReplayKey(values[i]) != ReplayKey(values[j]))
  }

  /** Memory holds what Latest does. */
  lemma UpsertedIsLatest(updates: seq<Segment>)
    ensures forall s :: s in UpsertAll([], updates) <==> s in Latest(updates).Values
    ensures Distinct(UpsertAll([], updates))
  {
    var (v, l) := (UpsertAll([], updates), Latest(updates));
    UpsertAllHolds(updates);
    forall s
      ensures s in v <==> s in l.Values
    {
      if s in v {
        var i :| 0 <= i < |v| && v[i] == s;
        assert l[v[i].sequenceId] == s;
      }
      if s in l.Values {
        var i :| i in l && l[i] == s;
        var j :| 0 <= j < |v| && v[j].sequenceId == i;
      }
    }
  }

  /** Memory and the replayed journal hold the same segments exactly then. */
  lemma ReplaysSameSegmentsIff(updates: seq<Segment>, values: seq<Segment>)
    requires forall s :: s in values <==> s in ByKey(updates).Values
    ensures SameSegments(values, UpsertAll([], updates)) <==> OneUnnumbered(updates)
  {
    hide *;
    ByKeyIsLatestIff(updates);
    UpsertedIsLatest(updates);
    SameSegmentsAsSets(values, ByKey(updates).Values, UpsertAll([], updates), Latest(updates).Values);
  }

  lemma SameSegmentsAsSets(a: seq<Segment>, x: set<Segment>, b: seq<Segment>, y: set<Segment>)
    requires (forall s :: s in a <==> s in x) && (forall s :: s in b <==> s in y)
    ensures SameSegments(a, b) <==> x == y
  {
  }

  /** No update without a sequence id sorts like one that has the largest. */
  predicate TiesApart(updates: seq<Segment>) {
    forall i, j :: 0 <= i < |updates| && 0 <= j < |updates| && updates[i].sequenceId.None? ==>
      updates[j].sequenceId != Some(U64_MAX)
  }

  lemma NumberedIsFine(updates: seq<Segment>)
    requires Numbered(updates)
    ensures OneUnnumbered(updates) && TiesApart(updates)
  {
  }

  lemma UpsertedRanked(updates: seq<Segment>)
    requires TiesApart(updates)
    ensures Ranked(UpsertAll([], updates))
  {
    var v := UpsertAll([], updates);
    UpsertedIsLatest(updates);
    ByKeyFrom(updates);
    forall i, j | 0 <= i < j < |v|
      ensures Tie(v[i]) != Tie(v[j])
    {
      assert v[i] in v && v[j] in v;
      assert v[i] in updates && v[j] in updates;
    }
  }

  /** Whatever order the hash map yields, the sorted replay is the sorted in-memory vector. */
  lemma ReplayIsUpsert(updates: seq<Segment>, values: seq<Segment>)
    requires OneUnnumbered(updates) && TiesApart(updates) && Enumerates(values, ByKey(updates))
    ensures Sort(values) == Sort(UpsertAll([], updates))
  {
    hide *;
    EnumeratedDistinct(updates, values);
    ReplaysSameSegmentsIff(updates, values);
    UpsertedRanked(updates);
    assert SameSegments(UpsertAll([], updates), values) by { SameBothWays(values, UpsertAll([], updates)); }
    SortIgnoresOrder(UpsertAll([], updates), values);
  }

  lemma SameBothWays(a: seq<Segment>, b: seq<Segment>)
    ensures SameSegments(a, b) <==> SameSegments(b, a)
  {
  }

  lemma EnumeratedDistinct(updates: seq<Segment>, values: seq<Segment>)
    requires OneUnnumbered(updates) && Enumerates(values, ByKey(updates))
    ensures Distinct(values) && forall s :: s in values <==> s in ByKey(updates).Values
  {
    ByKeyFrom(updates);
    hide ReplayKey;
    forall i, j | 0 <= i < j < |values|
      ensures values[i].sequenceId != values[j].sequenceId
    {
      assert values[i] in values && values[j] in values;
      assert values[i] in updates && values[j] in updates;
      ReplayKeyIff(values[i], values[j]);
    }
  }

  /** Read the lines, keep the last segment per key, skip what does not parse, sort. */
  method ReplayJournal(lines: seq<Line>) returns (r: Result<seq<Segment>, ReplayError>)
    ensures r.Success? <==> Readable(lines)
    ensures r.Success? && OneUnnumbered(Parsed(lines)) && TiesApart(Parsed(lines)) ==>
      r.value == Sort(UpsertAll([], Parsed(lines)))
    ensures r.Success? ==> forall s :: s in r.value <==> s in ByKey(Parsed(lines)).Values
    ensures r.Success? ==> |r.value| == |ByKey(Parsed(lines))| && Chronological(r.value)
  {
    if !Readable(lines) {
      return Failure(NotUtf8);
    }
    var byKey: map<string, Segment> := map[];
    for k := 0 to |lines|
      invariant byKey == ByKey(Parsed(lines[..k]))
    {
      ParsedAppend(lines[..k], [lines[k]]);
      assert lines[..k + 1] == lines[..k] + [lines[k]];
      assert Parsed([lines[k]]) == if lines[k].Whole? then [lines[k].segment] else [] by {
        assert [lines[k]][1..] == [];
      }
      if lines[k].Whole? {
        ByKeyLast(Parsed(lines[..k]), lines[k].segment);
        byKey := byKey[ReplayKey(lines[k].segment) := lines[k].segment];
      } else {
        assert Parsed(lines[..k]) + [] == Parsed(lines[..k]);
      }
    }
    assert lines[..|lines|] == lines;
    ByKeyFrom(Parsed(lines));
    var values := IntoValues(byKey);
    var segments := Sort(values);
    SortSorts(values);
    assert |multiset(segments)| == |segments| && |multiset(values)| == |values|;
    forall s
      ensures s in segments <==> s in values
    {
      assert s in multiset(segments) <==> s in multiset(values);
    }
    if OneUnnumbered(Parsed(lines)) && TiesApart(Parsed(lines)) {
      ReplayIsUpsert(Parsed(lines), values);
    }
    return Success(segments);
  }

  lemma ByKeyLast(updates: seq<Segment>, last: Segment)
    ensures ByKey(updates + [last]) == ByKey(updates)[ReplayKey(last) := last]
  {
    assert (updates + [last])[..|updates|] == updates;
  }

  /** The values of the hash map, in whatever order it yields them. */
  method IntoValues(m: map<string, Segment>) returns (values: seq<Segment>)
    requires forall k :: k in m ==> ReplayKey(m[k]) == k
    ensures |values| == |m| && Enumerates(values, m)
  {
    values := [];
    var rest := m.Keys;
    while rest != {}
      invariant rest <= m.Keys && |values| + |rest| == |m|
      invariant forall s :: s in values <==> s in m.Values && ReplayKey(s) !in rest
      invariant forall i, j :: 0 <= i < j < |values| ==> ReplayKey(values[i]) != ReplayKey(values[j])
      decreases |rest|
    {
      var k :| k in rest;
      forall i | 0 <= i < |values|
        ensures ReplayKey(values[i]) != k
      {
        assert values[i] in values;
      }
      rest := rest - {k};
      values := values + [m[k]];
      forall s
        ensures s in values <==> s in m.Values && ReplayKey(s) !in rest
      {
        if s in m.Values {
          var j :| j in m && m[j] == s;
        }
      }
    }
  }

  class RecordingSaver {
    // The transcript as the program holds it, and the channel to the journal writer.
    var segments: seq<Segment>
    var queue: seq<Segment>

    constructor ()
      ensures segments == [] && queue == []
    {
      segments, queue := [], [];
    }

    /** Update the segment with the same sequence id in place, or append; then hand it to the writer. */
    method AddTranscriptSegment(segment: Segment)
      modifies this
      ensures segments == Upsert(old(segments), segment)
      ensures queue == old(queue) + [segment]
    {
      var i := 0;
      while i < |segments| && segments[i].sequenceId != segment.sequenceId
        invariant i <= |segments|
        invariant Upsert(segments, segment) == segments[..i] + Upsert(segments[i..], segment)
      {
        assert segments[i..][1..] == segments[i + 1..];
        assert segments[..i] + [segments[i]] == segments[..i + 1];
        i := i + 1;
      }
      if i < |segments| {
        segments := segments[i := segment];
      } else {
        segments := segments + [segment];
      }
      queue := queue + [segment];
    }
  }

  /** Without sequence ids the two views part: memory keeps one such segment, the journal all. */
  lemma UnnumberedDiverge(s: Segment, t: Segment)
    requires s.sequenceId.None? && t.sequenceId.None? && s.id != t.id
    ensures UpsertAll([], [s, t]) == [t]
    ensures |ByKey([s, t])| == 2
  {
    ReplayKeyIff(s, t);
    assert [s, t][1..] == [t] && [t][1..] == [];
    assert [s, t][..1] == [s] && [s][..0] == [];
    assert ByKey([s]) == map[ReplayKey(s) := s];
    assert ByKey([s, t]) == map[ReplayKey(s) := s, ReplayKey(t) := t];
    assert UpsertAll([s], [t]) == UpsertAll(Upsert([s], t), []);
  }
}
