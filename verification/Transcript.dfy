/** Transcript segments: the in-memory upsert, the chronological sort, and the journal replay that
    must reproduce both. */
module Transcript {
  import opened Wrappers
  import opened Decimals

  /** `details` stands for the fields no decision looks at. */
  datatype Segment = Segment(
    id: string, text: string, start: Option<real>, sequenceId: Option<nat>, source: Option<string>, details: string)

  // ----- In memory -----

  /** Replace the first segment with the same sequence id, or append. */
  function Upsert(segments: seq<Segment>, s: Segment): seq<Segment> {
    if segments == [] then [s]
    else if segments[0].sequenceId == s.sequenceId then [s] + segments[1..]
    else [segments[0]] + Upsert(segments[1..], s)
  }

  function UpsertAll(segments: seq<Segment>, updates: seq<Segment>): seq<Segment>
    decreases |updates|
  {
    if updates == [] then segments else UpsertAll(Upsert(segments, updates[0]), updates[1..])
  }

  predicate Numbered(segments: seq<Segment>) {
    forall i :: 0 <= i < |segments| ==> segments[i].sequenceId.Some?
  }

  /** No two segments share a sequence id. */
  predicate Distinct(segments: seq<Segment>) {
    forall i, j :: 0 <= i < j < |segments| ==> segments[i].sequenceId != segments[j].sequenceId
  }

  /** The last update for each sequence id. */
  function Latest(updates: seq<Segment>): map<Option<nat>, Segment> {
    if updates == [] then map[]
    else var last := updates[|updates| - 1]; Latest(updates[..|updates| - 1])[last.sequenceId := last]
  }

  /** The segments are the values of m, each once. */
  ghost predicate Holds(segments: seq<Segment>, m: map<Option<nat>, Segment>) {
    && Distinct(segments)
    && (forall i :: 0 <= i < |segments| ==> segments[i].sequenceId in m && m[segments[i].sequenceId] == segments[i])
    && (forall k :: k in m ==> exists i :: 0 <= i < |segments| && segments[i].sequenceId == k)
  }

  lemma HeadReplaced(segments: seq<Segment>, m: map<Option<nat>, Segment>, s: Segment)
    requires Holds(segments, m) && segments != [] && segments[0].sequenceId == s.sequenceId
    ensures Holds([s] + segments[1..], m[s.sequenceId := s])
  {
    var k := s.sequenceId;
    RestHolds(segments, m);
    assert m[k := s] == (m - {k})[k := s];
    ConsHolds(s, segments[1..], m - {k}, m[k := s]);
  }

  lemma {:induction false} UpsertHolds(segments: seq<Segment>, m: map<Option<nat>, Segment>, s: Segment)
    requires Holds(segments, m)
    ensures Holds(Upsert(segments, s), m[s.sequenceId := s])
    decreases |segments|
  {
    if segments == [] {
      assert [s][0].sequenceId == s.sequenceId;
    } else if segments[0].sequenceId == s.sequenceId {
      HeadReplaced(segments, m, s);
    } else {
      var k := segments[0].sequenceId;
      RestHolds(segments, m);
      UpsertHolds(segments[1..], m - {k}, s);
      assert m[k] == segments[0];
      assert m[s.sequenceId := s] == (m - {k})[s.sequenceId := s][k := segments[0]];
      ConsHolds(segments[0], Upsert(segments[1..], s), (m - {k})[s.sequenceId := s], m[s.sequenceId := s]);
    }
  }

  lemma RestHolds(segments: seq<Segment>, m: map<Option<nat>, Segment>)
    requires Holds(segments, m) && segments != []
    ensures Holds(segments[1..], m - {segments[0].sequenceId})
  {
    var rest := m - {segments[0].sequenceId};
    forall k | k in rest
      ensures exists i :: 0 <= i < |segments[1..]| && segments[1..][i].sequenceId == k
    {
      var i :| 0 <= i < |segments| && segments[i].sequenceId == k;
      assert segments[1..][i - 1].sequenceId == k;
    }
  }

  lemma ConsHolds(head: Segment, tail: seq<Segment>, m: map<Option<nat>, Segment>, n: map<Option<nat>, Segment>)
    requires Holds(tail, m) && head.sequenceId !in m && n == m[head.sequenceId := head]
    ensures Holds([head] + tail, n)
  {
    var all := [head] + tail;
    forall k | k in n
      ensures exists i :: 0 <= i < |all| && all[i].sequenceId == k
    {
      if k == head.sequenceId {
        assert all[0].sequenceId == k;
      } else {
        var i :| 0 <= i < |tail| && tail[i].sequenceId == k;
        assert all[i + 1].sequenceId == k;
      }
    }
  }

  lemma {:induction false} UpsertAllLast(segments: seq<Segment>, updates: seq<Segment>)
    requires updates != []
    ensures UpsertAll(segments, updates)
         == Upsert(UpsertAll(segments, updates[..|updates| - 1]), updates[|updates| - 1])
    decreases |updates|
  {
    var n := |updates| - 1;
    if n > 0 {
      UpsertAllLast(Upsert(segments, updates[0]), updates[1..]);
      assert updates[1..][..n - 1] == updates[..n][1..];
    } else {
      assert updates[1..] == [];
    }
  }

  /** The in-memory vector holds the last version of every segment ever added, each once. */
  lemma {:induction false} UpsertAllHolds(updates: seq<Segment>)
    ensures Holds(UpsertAll([], updates), Latest(updates))
    decreases |updates|
  {
    if updates != [] {
      var n := |updates| - 1;
      UpsertAllHolds(updates[..n]);
      UpsertAllLast([], updates);
      UpsertHolds(UpsertAll([], updates[..n]), Latest(updates[..n]), updates[n]);
    }
  }

  // ----- Chronological order -----

  function TwoTo(n: nat): nat {
    if n == 0 then 1 else 2 * TwoTo(n - 1)
  }

  /** The largest finite double. */
  const F64_MAX := (0x1F_FFFF_FFFF_FFFF * TwoTo(971)) as real
  const U64_MAX: nat := 0xFFFF_FFFF_FFFF_FFFF

  function Time(s: Segment): real {
    if s.start.Some? then s.start.value else F64_MAX
  }

  function Tie(s: Segment): nat {
    if s.sequenceId.Some? then s.sequenceId.value else U64_MAX
  }

  predicate Earlier(a: Segment, b: Segment) {
    Time(a) < Time(b) || (Time(a) == Time(b) && Tie(a) < Tie(b))
  }

  predicate Chronological(segments: seq<Segment>) {
    forall i, j :: 0 <= i < j < |segments| ==> !Earlier(segments[j], segments[i])
  }

  /** The stable sort: each segment goes after those it does not precede. */
  function Insert(s: Segment, sorted: seq<Segment>): seq<Segment> {
    if sorted == [] || !Earlier(sorted[0], s) then [s] + sorted else [sorted[0]] + Insert(s, sorted[1..])
  }

  function Sort(segments: seq<Segment>): seq<Segment> {
    if segments == [] then [] else Insert(segments[0], Sort(segments[1..]))
  }

  lemma {:induction false} InsertKeeps(s: Segment, sorted: seq<Segment>)
    ensures multiset(Insert(s, sorted)) == multiset{s} + multiset(sorted)
    ensures Chronological(sorted) ==> Chronological(Insert(s, sorted))
    decreases |sorted|
  {
    if sorted != [] {
      var (head, tail) := (sorted[0], sorted[1..]);
      assert sorted == [head] + tail;
      InsertKeeps(s, tail);
      if Earlier(head, s) {
        ConsChronological(head, tail);
        ConsChronological(head, Insert(s, tail));
        hide Insert, Chronological, Earlier;
        assert forall x :: x in multiset(Insert(s, tail)) <==> x == s || x in multiset(tail);
      } else {
        ConsChronological(head, tail);
        ConsChronological(s, sorted);
        LaterThanHead(head, tail, s);
        hide Insert, Chronological, Earlier;
      }
    }
  }

  /** A list is in order when its tail is and nothing in it belongs before its head. */
  lemma ConsChronological(head: Segment, tail: seq<Segment>)
    ensures Chronological([head] + tail) <==>
      Chronological(tail) && forall x :: x in multiset(tail) ==> !Earlier(x, head)
  {
    hide Earlier;
    var all := [head] + tail;
    assert forall i :: 0 <= i < |tail| ==> all[i + 1] == tail[i];
    if Chronological(all) {
      forall x | x in multiset(tail)
        ensures !Earlier(x, head)
      {
        var i :| 0 <= i < |tail| && tail[i] == x;
        assert !Earlier(all[i + 1], all[0]);
      }
      forall i, j | 0 <= i < j < |tail|
        ensures !Earlier(tail[j], tail[i])
      {
        assert !Earlier(all[j + 1], all[i + 1]);
      }
    } else {
      var i, j :| 0 <= i < j < |all| && Earlier(all[j], all[i]);
      assert all[j] == tail[j - 1] && tail[j - 1] in multiset(tail);
      assert i > 0 ==> all[i] == tail[i - 1];
    }
  }

  lemma LaterThanHead(head: Segment, tail: seq<Segment>, s: Segment)
    requires !Earlier(head, s)
    ensures forall x :: x in multiset([head] + tail) && !Earlier(x, head) ==> !Earlier(x, s)
  {
  }

  lemma {:induction false} SortSorts(segments: seq<Segment>)
    ensures Chronological(Sort(segments)) && multiset(Sort(segments)) == multiset(segments)
  {
    if segments != [] {
      SortSorts(segments[1..]);
      InsertKeeps(segments[0], Sort(segments[1..]));
      assert segments == [segments[0]] + segments[1..];
    }
  }

  // ----- What the order is, on the fields themselves -----

  lemma {:induction false} TwoToGrows(n: nat)
    ensures TwoTo(n) >= 1
  {
    if n > 0 {
      TwoToGrows(n - 1);
    }
  }

  /** The value an absent start stands for is past any recording: more than 285 million years. */
  lemma NoStartIsLate()
    ensures F64_MAX >= 9007199254740991.0
  {
    TwoToGrows(971);
    assert 0x1F_FFFF_FFFF_FFFF * TwoTo(971) >= 0x1F_FFFF_FFFF_FFFF;
  }

  /** Starts do not decrease, and where they are equal, or both are absent, sequence ids do not, absent
      ones last. A segment without a start comes after every one that has one below the largest double,
      so after any that starts within 9007199254740991 seconds. */
  lemma SortOrders(segments: seq<Segment>, i: nat, j: nat)
    requires i < j < |Sort(segments)|
    ensures var (a, b) := (Sort(segments)[i], Sort(segments)[j]);
      && (a.start.Some? && b.start.Some? ==> a.start.value <= b.start.value)
      && (a.start.None? && b.start.Some? ==> b.start.value >= F64_MAX >= 9007199254740991.0)
      && (a.start == b.start ==>
            && (a.sequenceId.Some? && b.sequenceId.Some? ==> a.sequenceId.value <= b.sequenceId.value)
            && (a.sequenceId.None? && b.sequenceId.Some? ==> b.sequenceId.value >= 0xFFFF_FFFF_FFFF_FFFF))
  {
    SortSorts(segments);
    NoStartIsLate();
    hide Sort, TwoTo;
  }

  /** The segments with this start and sequence id, in order. */
  function Alike(segments: seq<Segment>, start: Option<real>, id: Option<nat>): seq<Segment> {
    if segments == [] then []
    else (if segments[0].start == start && segments[0].sequenceId == id then [segments[0]] else [])
         + Alike(segments[1..], start, id)
  }

  lemma AlikeCons(head: Segment, tail: seq<Segment>, start: Option<real>, id: Option<nat>)
    ensures Alike([head] + tail, start, id) == Alike([head], start, id) + Alike(tail, start, id)
    ensures Alike([head], start, id) == if head.start == start && head.sequenceId == id then [head] else []
  {
    assert ([head] + tail)[1..] == tail && [head][1..] == [];
    assert Alike([], start, id) == [];
  }

  lemma {:induction false} InsertIsStable(s: Segment, sorted: seq<Segment>, start: Option<real>, id: Option<nat>)
    ensures Alike(Insert(s, sorted), start, id) == Alike([s], start, id) + Alike(sorted, start, id)
    decreases |sorted|
  {
    hide Alike;
    AlikeCons(s, sorted, start, id);
    if sorted != [] && Earlier(sorted[0], s) {
      var (head, tail) := (sorted[0], sorted[1..]);
      assert sorted == [head] + tail;
      AlikeCons(head, tail, start, id);
      AlikeCons(head, Insert(s, tail), start, id);
      InsertIsStable(s, tail, start, id);
      assert Alike([s], start, id) == [] || Alike([head], start, id) == [];
    }
  }

  /** Segments that agree in both keep the order they came in. */
  lemma {:induction false} SortIsStable(segments: seq<Segment>, start: Option<real>, id: Option<nat>)
    ensures Alike(Sort(segments), start, id) == Alike(segments, start, id)
  {
    if segments != [] {
      SortIsStable(segments[1..], start, id);
      InsertIsStable(segments[0], Sort(segments[1..]), start, id);
      AlikeCons(segments[0], segments[1..], start, id);
      assert segments == [segments[0]] + segments[1..];
    }
  }

  // ----- Sorting and order of arrival -----

  /** The two lists hold the same segments. */
  ghost predicate SameSegments(a: seq<Segment>, b: seq<Segment>) {
    forall s :: s in a <==> s in b
  }

  /** No two segments tie at the same start time. */
  predicate Ranked(segments: seq<Segment>) {
    forall i, j :: 0 <= i < j < |segments| ==> Tie(segments[i]) != Tie(segments[j])
  }

  lemma {:induction false} SortedUnique(a: seq<Segment>, b: seq<Segment>)
    requires Chronological(a) && Chronological(b) && SameSegments(a, b)
    requires Ranked(a) && Ranked(b)
    ensures a == b
    decreases |a|
  {
    assert |b| > 0 ==> b[0] in b;
    if a != [] {
      assert a[0] in a;
      FirstIsEarliest(a, b[0]);
      FirstIsEarliest(b, a[0]);
      forall s
        ensures s in a[1..] <==> s in b[1..]
      {
        RestOfDistinct(a, s);
        RestOfDistinct(b, s);
      }
      SortedUnique(a[1..], b[1..]);
      assert a == [a[0]] + a[1..] && b == [b[0]] + b[1..];
    }
  }

  lemma FirstIsEarliest(a: seq<Segment>, s: Segment)
    requires Chronological(a) && Ranked(a) && s in a
    ensures a[0] == s || Earlier(a[0], s)
  {
  }

  lemma RestOfDistinct(a: seq<Segment>, s: Segment)
    requires Distinct(a) && a != []
    ensures s in a[1..] <==> s in a && s != a[0]
  {
    assert a == [a[0]] + a[1..];
  }

  /** Sorting does not depend on the order the segments come in, as long as no two of them tie. */
  lemma SortIgnoresOrder(a: seq<Segment>, b: seq<Segment>)
    requires SameSegments(a, b) && Ranked(a) && Distinct(b)
    ensures Sort(a) == Sort(b)
  {
    MembersRanked(a, b);
    SortKeepsShape(a);
    SortKeepsShape(b);
    SortedUnique(Sort(a), Sort(b));
  }

  lemma NumberedRanked(a: seq<Segment>)
    requires Numbered(a) && Distinct(a)
    ensures Ranked(a)
  {
  }

  lemma MembersRanked(a: seq<Segment>, b: seq<Segment>)
    requires Ranked(a) && Distinct(b) && forall s :: s in b ==> s in a
    ensures Ranked(b)
  {
    forall i, j | 0 <= i < j < |b|
      ensures Tie(b[i]) != Tie(b[j])
    {
      assert b[i] in a && b[j] in a && b[i] != b[j];
    }
  }

  lemma SortKeepsShape(a: seq<Segment>)
    requires Ranked(a)
    ensures Ranked(Sort(a)) && Distinct(Sort(a)) && Chronological(Sort(a)) && SameSegments(a, Sort(a))
    ensures Numbered(a) ==> Numbered(Sort(a))
    ensures |Sort(a)| == |a|
  {
    var b := Sort(a);
    SortSorts(a);
    assert |multiset(a)| == |a| && |multiset(b)| == |b|;
    forall s
      ensures s in a <==> s in b
    {
      assert s in multiset(a) <==> s in multiset(b);
    }
    if Numbered(a) {
      forall i | 0 <= i < |b|
        ensures b[i].sequenceId.Some?
      {
        assert b[i] in a;
      }
    }
    PermutationDistinct(a, b);
    MembersRanked(a, b);
  }

  lemma PermutationDistinct(a: seq<Segment>, b: seq<Segment>)
    requires Distinct(a) && multiset(a) == multiset(b)
    ensures Distinct(b)
  {
    forall i, j | 0 <= i < j < |b|
      ensures b[i].sequenceId != b[j].sequenceId
    {
      assert b[i] in multiset(a) && b[j] in multiset(a);
      if b[i].sequenceId == b[j].sequenceId {
        DistinctMember(a, b[i], b[j]);
        TwiceInMultiset(b, i, j);
        DistinctOnce(a, b[i]);
      }
    }
  }

  lemma DistinctMember(a: seq<Segment>, s: Segment, t: Segment)
    requires Distinct(a) && s in a && t in a && s.sequenceId == t.sequenceId
    ensures s == t
  {
  }

  lemma TwiceInMultiset(b: seq<Segment>, i: nat, j: nat)
    requires i < j < |b| && b[i] == b[j]
    ensures multiset(b)[b[i]] >= 2
  {
    assert b == b[..j] + [b[j]] + b[j + 1..];
    assert b[i] in b[..j];
  }

  lemma {:induction false} DistinctOnce(a: seq<Segment>, s: Segment)
    requires Distinct(a)
    ensures multiset(a)[s] <= 1
    decreases |a|
  {
    if a != [] {
      assert a == [a[0]] + a[1..];
      DistinctOnce(a[1..], s);
      if s == a[0] {
        RestOfDistinct(a, s);
      }
    }
  }
}
