/** In which order segments reach the manager during a stop, read off the events alone, and when the
    final save is what was published. */
module StopOrder {
  import opened Wrappers
  import opened Transcript
  import opened Upserts
  import opened StopFlow

  // ----- Read off the events -----

  predicate IsPublish(events: seq<Event>, i: nat) {
    i < |events| && events[i].Publish?
  }

  /** The manager is in its slot before event i. */
  predicate Home(events: seq<Event>, i: nat)
    requires i <= |events|
  {
    i == 0 || match events[i - 1]
              case TakeManager => false
              case FinalTake => false
              case PutBack(_) => true
              case _ => Home(events, i - 1)
  }

  /** The pending buffer is replayed somewhere between the two events. */
  predicate ReplayBetween(events: seq<Event>, i: nat, j: nat)
    requires j <= |events|
  {
    exists k :: i < k < j && events[k] == ReplayBuffered
  }

  /** Publish i reaches the manager within the first n events: at once, or by a later replay. */
  predicate Reaches(events: seq<Event>, n: nat, i: nat)
    requires n <= |events|
  {
    i < n && events[i].Publish? && (Home(events, i) || ReplayBetween(events, i, n))
  }

  /** Publish i is still in the pending buffer after n events. */
  predicate Waits(events: seq<Event>, n: nat, i: nat)
    requires n <= |events|
  {
    i < n && events[i].Publish? && !Home(events, i) && !ReplayBetween(events, i, n)
  }

  /** Publish j goes straight to the manager while the earlier publish i still waits. */
  predicate Overtakes(events: seq<Event>, j: nat, i: nat) {
    && i < j && IsPublish(events, i) && IsPublish(events, j)
    && !Home(events, i) && Home(events, j) && !ReplayBetween(events, i, j)
  }

  /** Of two publishes that reach the manager, i does so first. */
  predicate Precedes(events: seq<Event>, i: nat, j: nat) {
    if i < j then !Overtakes(events, j, i) else j < i && Overtakes(events, i, j)
  }

  // ----- The order, step by step -----

  datatype Lineup = Lineup(reached: seq<nat>, waiting: seq<nat>, published: seq<nat>)

  /** The line-up after one more publish. */
  function Joined(l: Lineup, home: bool, n: nat): Lineup {
    if home then Lineup(l.reached + [n], l.waiting, l.published + [n])
    else Lineup(l.reached, l.waiting + [n], l.published + [n])
  }

  /** The publishes among the first n events, in the order they have reached the manager, those that
      wait, and all of them as published. */
  function LineupOf(events: seq<Event>, n: nat): Lineup
    requires n <= |events|
  {
    if n == 0 then Lineup([], [], [])
    else
      var l := LineupOf(events, n - 1);
      match events[n - 1]
      case Publish(_) => Joined(l, Home(events, n - 1), n - 1)
      case ReplayBuffered => Lineup(l.reached + l.waiting, [], l.published)
      case _ => l
  }

  ghost predicate AllPublishes(events: seq<Event>, indices: seq<nat>) {
    forall p :: 0 <= p < |indices| ==> IsPublish(events, indices[p])
  }

  function Segments(events: seq<Event>, indices: seq<nat>): (s: seq<Segment>)
    requires AllPublishes(events, indices)
    ensures |s| == |indices| && forall p :: 0 <= p < |s| ==> s[p] == events[indices[p]].segment
  {
    seq(|indices|, p requires 0 <= p < |indices| => events[indices[p]].segment)
  }

  ghost predicate Ascending(indices: seq<nat>) {
    forall p, q :: 0 <= p < q < |indices| ==> indices[p] < indices[q]
  }

  ghost predicate InReachOrder(events: seq<Event>, indices: seq<nat>) {
    forall p, q :: 0 <= p < q < |indices| ==> Precedes(events, indices[p], indices[q])
  }

  /** Whoever reaches the manager is lined up, in the order of Precedes, and whoever waits, waits. */
  ghost predicate LinedUp(events: seq<Event>, n: nat, l: Lineup)
    requires n <= |events|
  {
    Present(events, n, l) && InReachOrder(events, l.reached) && Ascending(l.waiting) && Ascending(l.published)
  }

  ghost predicate Present(events: seq<Event>, n: nat, l: Lineup)
    requires n <= |events|
  {
    && (forall i: nat :: i in l.reached <==> Reaches(events, n, i))
    && (forall i: nat :: i in l.waiting <==> Waits(events, n, i))
    && (forall i: nat :: i in l.published <==> i < n && IsPublish(events, i))
  }

  lemma ReplayGrows(events: seq<Event>, i: nat, n: nat)
    requires i < n < |events|
    ensures ReplayBetween(events, i, n + 1) <==> ReplayBetween(events, i, n) || events[n] == ReplayBuffered
  {
  }

  lemma NoReplayAtOnce(events: seq<Event>, i: nat)
    requires i < |events|
    ensures !ReplayBetween(events, i, i + 1)
  {
  }

  /** One more event that replays nothing. */
  lemma PresenceGrows(events: seq<Event>, n: nat, i: nat)
    requires n < |events| && events[n] != ReplayBuffered
    ensures Reaches(events, n + 1, i) <==> Reaches(events, n, i) || (i == n && IsPublish(events, n) && Home(events, n))
    ensures Waits(events, n + 1, i) <==> Waits(events, n, i) || (i == n && IsPublish(events, n) && !Home(events, n))
  {
    if i < n {
      ReplayGrows(events, i, n);
    } else if i == n {
      NoReplayAtOnce(events, n);
    }
    hide ReplayBetween, Home;
  }

  lemma PublishPresent(events: seq<Event>, n: nat, l: Lineup)
    requires n < |events| && events[n].Publish? && Present(events, n, l)
    ensures Present(events, n + 1, Joined(l, Home(events, n), n))
  {
    forall i: nat
      ensures Reaches(events, n + 1, i) <==> Reaches(events, n, i) || (i == n && Home(events, n))
      ensures Waits(events, n + 1, i) <==> Waits(events, n, i) || (i == n && !Home(events, n))
    {
      PresenceGrows(events, n, i);
    }
    hide Reaches, Waits;
  }

  lemma AscendingMore(indices: seq<nat>, n: nat)
    requires Ascending(indices) && forall i :: i in indices ==> i < n
    ensures Ascending(indices + [n])
  {
    assert forall p :: 0 <= p < |indices| ==> indices[p] in indices;
  }

  lemma ReachOrderMore(events: seq<Event>, indices: seq<nat>, n: nat)
    requires InReachOrder(events, indices) && forall i :: i in indices ==> Precedes(events, i, n)
    ensures InReachOrder(events, indices + [n])
  {
    hide Precedes;
    assert forall p :: 0 <= p < |indices| ==> indices[p] in indices;
  }

  /** A publish at home comes after everything that has reached the manager. */
  lemma PublishComesLast(events: seq<Event>, n: nat, i: nat)
    requires n < |events| && events[n].Publish?
    ensures Reaches(events, n, i) ==> Precedes(events, i, n)
    ensures Waits(events, n, i) ==> i < n
  {
    hide ReplayBetween, Home;
  }

  lemma PublishLinesUp(events: seq<Event>, n: nat, l: Lineup)
    requires n < |events| && events[n].Publish? && LinedUp(events, n, l)
    ensures LinedUp(events, n + 1, Joined(l, Home(events, n), n))
  {
    PublishPresent(events, n, l);
    hide ReplayBetween, Home, Reaches, Waits, Precedes, InReachOrder, Ascending;
    forall i: nat
      ensures i in l.reached ==> Precedes(events, i, n)
      ensures i in l.waiting ==> i < n
    {
      PublishComesLast(events, n, i);
    }
    AscendingMore(l.published, n);
    AscendingMore(l.waiting, n);
    ReachOrderMore(events, l.reached, n);
    hide Present;
  }

  lemma ReplayPresent(events: seq<Event>, n: nat, i: nat)
    requires n < |events| && events[n] == ReplayBuffered
    ensures Reaches(events, n + 1, i) <==> Reaches(events, n, i) || Waits(events, n, i)
    ensures !Waits(events, n + 1, i)
  {
    if i < n {
      ReplayGrows(events, i, n);
    }
  }

  lemma ReplayWider(events: seq<Event>, i: nat, j: nat, k: nat, n: nat)
    requires i <= j && k <= n <= |events|
    ensures ReplayBetween(events, j, k) ==> ReplayBetween(events, i, n)
  {
  }

  /** What has reached the manager precedes what waits. */
  lemma ReachedBeforeWaiting(events: seq<Event>, n: nat, i: nat, w: nat)
    requires n <= |events| && Reaches(events, n, i) && Waits(events, n, w)
    ensures Precedes(events, i, w)
  {
    if w < i {
      ReplayWider(events, w, i, n, n);
      ReplayWider(events, w, w, i, n);
    }
    hide ReplayBetween, Home;
  }

  lemma ReplayLinesUp(events: seq<Event>, n: nat, l: Lineup)
    requires n < |events| && events[n] == ReplayBuffered && LinedUp(events, n, l)
    ensures LinedUp(events, n + 1, Lineup(l.reached + l.waiting, [], l.published))
  {
    forall i: nat
      ensures Reaches(events, n + 1, i) <==> Reaches(events, n, i) || Waits(events, n, i)
      ensures !Waits(events, n + 1, i)
    {
      ReplayPresent(events, n, i);
    }
    forall i, w | i in l.reached && w in l.waiting
      ensures Precedes(events, i, w)
    {
      ReachedBeforeWaiting(events, n, i, w);
    }
    forall v, w | v in l.waiting && w in l.waiting && v < w
      ensures Precedes(events, v, w)
    {
      assert Waits(events, n, w);
    }
    hide Reaches, Waits, Precedes;
  }

  lemma OtherLinesUp(events: seq<Event>, n: nat, l: Lineup)
    requires n < |events| && !events[n].Publish? && events[n] != ReplayBuffered && LinedUp(events, n, l)
    ensures LinedUp(events, n + 1, l)
  {
    forall i: nat
      ensures Reaches(events, n + 1, i) <==> Reaches(events, n, i)
      ensures Waits(events, n + 1, i) <==> Waits(events, n, i)
    {
      PresenceGrows(events, n, i);
    }
    hide Reaches, Waits, Precedes;
  }

  /** The line-up is decided by the positions of the takes, replays and put-backs alone. */
  lemma {:induction false} LineupIsLinedUp(events: seq<Event>, n: nat)
    requires n <= |events|
    ensures LinedUp(events, n, LineupOf(events, n))
  {
    if n == 0 {
      hide Home, ReplayBetween;
    } else {
      LineupIsLinedUp(events, n - 1);
      hide LinedUp, Home;
      if events[n - 1].Publish? {
        PublishLinesUp(events, n - 1, LineupOf(events, n - 1));
      } else if events[n - 1] == ReplayBuffered {
        ReplayLinesUp(events, n - 1, LineupOf(events, n - 1));
      } else {
        OtherLinesUp(events, n - 1, LineupOf(events, n - 1));
      }
    }
  }

  // ----- The line-up is what the protocol does -----

  lemma {:induction false} RunPrefix(s: State, events: seq<Event>, n: nat)
    requires n <= |events| && Run(s, events).Some?
    ensures Run(s, events[..n]).Some?
    decreases n
  {
    if n > 0 {
      RunPrefix(Next(s, events[0]).value, events[1..], n - 1);
      assert events[..n][1..] == events[1..][..n - 1];
    }
  }

  lemma RunNext(s: State, events: seq<Event>, n: nat)
    requires n < |events| && Run(s, events).Some?
    ensures Run(s, events[..n]).Some? && Run(s, events[..n + 1]).Some?
    ensures Next(Run(s, events[..n]).value, events[n]) == Run(s, events[..n + 1])
  {
    RunPrefix(s, events, n);
    RunPrefix(s, events, n + 1);
    RunSplits(s, events[..n], [events[n]]);
    assert events[..n] + [events[n]] == events[..n + 1];
    assert [events[n]][1..] == [];
    var t := Run(s, events[..n]).value;
    assert Run(t, [events[n]]) == match Next(t, events[n]) case None => None case Some(u) => Run(u, []);
  }

  /** The state holds the segments of the line-up. */
  ghost predicate Follows(events: seq<Event>, n: nat, s: State)
    requires n <= |events|
  {
    var l := LineupOf(events, n);
    && AllPublishes(events, l.reached) && AllPublishes(events, l.waiting) && AllPublishes(events, l.published)
    && s.applied == Segments(events, l.reached) && s.pending == Segments(events, l.waiting)
    && s.published == Segments(events, l.published)
    && (s.slot.Some? <==> Home(events, n))
  }

  lemma SegmentsAppend(events: seq<Event>, a: seq<nat>, b: seq<nat>)
    requires AllPublishes(events, a) && AllPublishes(events, b)
    ensures AllPublishes(events, a + b) && Segments(events, a + b) == Segments(events, a) + Segments(events, b)
  {
  }

  lemma NextFollows(events: seq<Event>, n: nat, s: State)
    requires n < |events| && Follows(events, n, s) && Inv(s) && Next(s, events[n]).Some?
    ensures Follows(events, n + 1, Next(s, events[n]).value)
  {
    var l := LineupOf(events, n);
    match events[n] {
      case Publish(segment) =>
        assert AllPublishes(events, [n]) && Segments(events, [n]) == [segment];
        SegmentsAppend(events, l.published, [n]);
        SegmentsAppend(events, l.reached, [n]);
        SegmentsAppend(events, l.waiting, [n]);
      case ReplayBuffered =>
        SegmentsAppend(events, l.reached, l.waiting);
      case _ =>
    }
  }

  lemma {:induction false} RunFollows(events: seq<Event>, n: nat)
    requires n <= |events| && Run(Begin([]), events).Some?
    ensures Run(Begin([]), events[..n]).Some? && Follows(events, n, Run(Begin([]), events[..n]).value)
  {
    BeginInv([]);
    if n > 0 {
      RunFollows(events, n - 1);
      RunNext(Begin([]), events, n - 1);
      RunKeepsInv(Begin([]), events[..n - 1]);
      NextFollows(events, n - 1, Run(Begin([]), events[..n - 1]).value);
    }
  }

  /** After a whole run. */
  lemma RunIsLineup(events: seq<Event>)
    requires Run(Begin([]), events).Some?
    ensures var s := Run(Begin([]), events).value;
      && Inv(s) && Follows(events, |events|, s) && LinedUp(events, |events|, LineupOf(events, |events|))
  {
    RunFollows(events, |events|);
    assert events[..|events|] == events;
    BeginInv([]);
    RunKeepsInv(Begin([]), events);
    LineupIsLinedUp(events, |events|);
  }

  // ----- First and last of an id -----

  predicate SameId(events: seq<Event>, i: nat, j: nat)
    requires IsPublish(events, i) && IsPublish(events, j)
  {
    events[i].segment.sequenceId == events[j].segment.sequenceId
  }

  /** Publish i is the last of its id. */
  ghost predicate LastPublished(events: seq<Event>, i: nat) {
    IsPublish(events, i) && forall j: nat :: IsPublish(events, j) && i < j ==> !SameId(events, i, j)
  }

  ghost predicate FirstPublished(events: seq<Event>, i: nat) {
    IsPublish(events, i) && forall j: nat :: IsPublish(events, j) && j < i ==> !SameId(events, i, j)
  }

  /** Publish i is the last of its id to reach the manager. */
  ghost predicate LastReached(events: seq<Event>, i: nat) {
    && Reaches(events, |events|, i)
    && forall j: nat :: Reaches(events, |events|, j) && j != i && SameId(events, i, j) ==> Precedes(events, j, i)
  }

  ghost predicate FirstReached(events: seq<Event>, i: nat) {
    && Reaches(events, |events|, i)
    && forall j: nat :: Reaches(events, |events|, j) && j != i && SameId(events, i, j) ==> Precedes(events, i, j)
  }

  lemma LastAtReached(events: seq<Event>, r: seq<nat>, p: nat)
    requires AllPublishes(events, r) && InReachOrder(events, r)
    requires forall i: nat :: i in r <==> Reaches(events, |events|, i)
    requires p < |r|
    ensures LastAt(Segments(events, r), p) <==> LastReached(events, r[p])
    ensures FirstAt(Segments(events, r), p) <==> FirstReached(events, r[p])
  {
    hide Precedes, Reaches;
    assert r[p] in r;
    forall q | 0 <= q < |r| && q != p
      ensures r[q] != r[p] && r[q] in r
      ensures Precedes(events, r[q], r[p]) <==> q < p
      ensures Precedes(events, r[p], r[q]) <==> p < q
    {
      OneWay(events, r[p], r[q]);
    }
  }

  lemma OneWay(events: seq<Event>, i: nat, j: nat)
    ensures !(Precedes(events, i, j) && Precedes(events, j, i))
    ensures !Precedes(events, i, i)
  {
  }

  lemma LastAtPublished(events: seq<Event>, r: seq<nat>, p: nat)
    requires AllPublishes(events, r) && Ascending(r)
    requires forall i: nat :: i in r <==> IsPublish(events, i)
    requires p < |r|
    ensures LastAt(Segments(events, r), p) <==> LastPublished(events, r[p])
    ensures FirstAt(Segments(events, r), p) <==> FirstPublished(events, r[p])
  {
    assert r[p] in r;
    forall q | 0 <= q < |r| && q != p
      ensures r[q] in r && (r[q] < r[p] <==> q < p)
    {
    }
  }

  // ----- When the manager holds what was published -----

  /** What is last published of an id is what last reaches the manager of it, or the same again. */
  ghost predicate LastsAlike(events: seq<Event>) {
    forall i: nat :: LastPublished(events, i) ==>
      exists j: nat :: LastReached(events, j) && events[j].segment == events[i].segment
  }

  /** Ids first reach the manager in the order in which they are first published. */
  ghost predicate FirstsAlike(events: seq<Event>) {
    forall i: nat, j: nat :: FirstPublished(events, i) && FirstPublished(events, j) && i < j ==>
      FirstReachedInOrder(events, i, j)
  }

  ghost predicate FirstReachedInOrder(events: seq<Event>, i: nat, j: nat)
    requires IsPublish(events, i) && IsPublish(events, j)
  {
    exists x: nat, y: nat :: FirstReached(events, x) && FirstReached(events, y)
      && SameId(events, i, x) && SameId(events, j, y) && Precedes(events, x, y)
  }

  /** The two orders of a run: as reached, and as published. */
  ghost predicate Orders(events: seq<Event>, r: seq<nat>, p: seq<nat>) {
    && AllPublishes(events, r) && AllPublishes(events, p)
    && (forall i: nat :: i in r <==> Reaches(events, |events|, i))
    && (forall i: nat :: i in p <==> IsPublish(events, i))
    && InReachOrder(events, r) && Ascending(p)
  }

  lemma LineupOrders(events: seq<Event>)
    ensures Orders(events, LineupOf(events, |events|).reached, LineupOf(events, |events|).published)
  {
    LineupIsLinedUp(events, |events|);
    var l := LineupOf(events, |events|);
    forall p | 0 <= p < |l.reached|
      ensures IsPublish(events, l.reached[p])
    {
      assert l.reached[p] in l.reached;
    }
    forall p | 0 <= p < |l.published|
      ensures IsPublish(events, l.published[p])
    {
      assert l.published[p] in l.published;
    }
  }

  /** Where a publish stands in the order it reached. */
  lemma ReachedPlace(events: seq<Event>, r: seq<nat>, p: seq<nat>, i: nat) returns (x: nat)
    requires Orders(events, r, p) && Reaches(events, |events|, i)
    ensures x < |r| && r[x] == i
    ensures LastAt(Segments(events, r), x) <==> LastReached(events, i)
    ensures FirstAt(Segments(events, r), x) <==> FirstReached(events, i)
  {
    assert i in r;
    x :| 0 <= x < |r| && r[x] == i;
    LastAtReached(events, r, x);
  }

  lemma PublishedPlace(events: seq<Event>, r: seq<nat>, p: seq<nat>, i: nat) returns (x: nat)
    requires Orders(events, r, p) && IsPublish(events, i)
    ensures x < |p| && p[x] == i
    ensures LastAt(Segments(events, p), x) <==> LastPublished(events, i)
    ensures FirstAt(Segments(events, p), x) <==> FirstPublished(events, i)
  {
    assert i in p;
    x :| 0 <= x < |p| && p[x] == i;
    LastAtPublished(events, p, x);
  }

  lemma LatestReached(events: seq<Event>, r: seq<nat>, p: seq<nat>, k: Id) returns (j: nat)
    requires Orders(events, r, p) && k in Latest(Segments(events, r))
    ensures LastReached(events, j) && events[j].segment.sequenceId == k
    ensures Latest(Segments(events, r))[k] == events[j].segment
  {
    hide Latest, Precedes, InReachOrder;
    var x := LatestFrom(Segments(events, r), k);
    j := r[x];
    LastAtReached(events, r, x);
  }

  lemma LatestPublished(events: seq<Event>, r: seq<nat>, p: seq<nat>, k: Id) returns (j: nat)
    requires Orders(events, r, p) && k in Latest(Segments(events, p))
    ensures LastPublished(events, j) && events[j].segment.sequenceId == k
    ensures Latest(Segments(events, p))[k] == events[j].segment
  {
    hide Latest, Precedes, InReachOrder;
    var x := LatestFrom(Segments(events, p), k);
    j := p[x];
    LastAtPublished(events, p, x);
  }

  lemma LastIsLatest(events: seq<Event>, r: seq<nat>, p: seq<nat>, j: nat)
    requires Orders(events, r, p)
    ensures LastReached(events, j) ==>
      var k := events[j].segment.sequenceId;
      k in Latest(Segments(events, r)) && Latest(Segments(events, r))[k] == events[j].segment
    ensures LastPublished(events, j) ==>
      var k := events[j].segment.sequenceId;
      k in Latest(Segments(events, p)) && Latest(Segments(events, p))[k] == events[j].segment
  {
    hide Latest, Precedes, InReachOrder;
    if LastReached(events, j) {
      var x := ReachedPlace(events, r, p, j);
      LatestAt(Segments(events, r), x);
    }
    if LastPublished(events, j) {
      var x := PublishedPlace(events, r, p, j);
      LatestAt(Segments(events, p), x);
    }
  }

  lemma LatestsAgreeIff(events: seq<Event>, r: seq<nat>, p: seq<nat>)
    requires Orders(events, r, p)
    ensures Latest(Segments(events, r)) == Latest(Segments(events, p)) <==> LastsAlike(events)
  {
    var (a, b) := (Latest(Segments(events, r)), Latest(Segments(events, p)));
    hide Latest, Precedes, LastReached, LastPublished;
    if a == b {
      forall i: nat | LastPublished(events, i)
        ensures exists j: nat :: LastReached(events, j) && events[j].segment == events[i].segment
      {
        LastIsLatest(events, r, p, i);
        var j := LatestReached(events, r, p, events[i].segment.sequenceId);
      }
    }
    if LastsAlike(events) {
      forall k
        ensures k in a <==> k in b
        ensures k in a && k in b ==> a[k] == b[k]
      {
        LatestsAgreeAt(events, r, p, k);
      }
    }
  }

  lemma LatestsAgreeAt(events: seq<Event>, r: seq<nat>, p: seq<nat>, k: Id)
    requires Orders(events, r, p) && LastsAlike(events)
    ensures k in Latest(Segments(events, r)) <==> k in Latest(Segments(events, p))
    ensures k in Latest(Segments(events, p)) ==> Latest(Segments(events, r))[k] == Latest(Segments(events, p))[k]
  {
    hide Latest, Precedes, Reaches;
    if k in Latest(Segments(events, p)) {
      var i := LatestPublished(events, r, p, k);
      var j: nat :| LastReached(events, j) && events[j].segment == events[i].segment;
      LastIsLatest(events, r, p, j);
    }
    if k in Latest(Segments(events, r)) {
      var j := LatestReached(events, r, p, k);
      ReachedIsPublished(events, j);
      var x := PublishedPlace(events, r, p, j);
      InLatest(Segments(events, p), Segments(events, p)[x]);
    }
  }

  lemma ReachedIsPublished(events: seq<Event>, j: nat)
    requires Reaches(events, |events|, j)
    ensures IsPublish(events, j)
  {
  }

  /** Back from the order of the ids to two first appearances. */
  lemma FirstsBack(updates: seq<Segment>, k: Id, l: Id) returns (p: nat, q: nat)
    requires InOrder(Firsts(updates), k, l)
    ensures p < q && FirstAt(updates, p) && FirstAt(updates, q)
    ensures updates[p].sequenceId == k && updates[q].sequenceId == l
  {
    FirstsUnique(updates);
    var f := Firsts(updates);
    var i, j :| 0 <= i < j < |f| && f[i] == k && f[j] == l;
    assert k in f && l in f && k != l;
    p :| FirstAt(updates, p) && updates[p].sequenceId == k;
    q :| FirstAt(updates, q) && updates[q].sequenceId == l;
    if q < p {
      FirstsInOrder(updates, q, p);
      NotBothOrders(f, k, l);
    }
  }

  lemma ReachOrderBack(events: seq<Event>, r: seq<nat>, p: seq<nat>, i: nat, j: nat)
    requires Orders(events, r, p) && IsPublish(events, i) && IsPublish(events, j)
    requires InOrder(Firsts(Segments(events, r)), events[i].segment.sequenceId, events[j].segment.sequenceId)
    ensures FirstReachedInOrder(events, i, j)
  {
    hide Firsts, FirstReached, Reaches, Precedes, InOrder;
    var (k, l) := (events[i].segment.sequenceId, events[j].segment.sequenceId);
    var x, y := FirstsBack(Segments(events, r), k, l);
    LastAtReached(events, r, x);
    LastAtReached(events, r, y);
    assert Precedes(events, r[x], r[y]);
    assert FirstReached(events, r[x]) && FirstReached(events, r[y]);
  }

  /** The ids in the order they reach the manager. */
  lemma ReachOrderIff(events: seq<Event>, r: seq<nat>, p: seq<nat>, i: nat, j: nat)
    requires Orders(events, r, p) && IsPublish(events, i) && IsPublish(events, j)
    ensures InOrder(Firsts(Segments(events, r)), events[i].segment.sequenceId, events[j].segment.sequenceId)
       <==> FirstReachedInOrder(events, i, j)
  {
    hide Firsts, Precedes, InOrder, FirstAt, LastAt, Home, ReplayBetween;
    var (k, l) := (events[i].segment.sequenceId, events[j].segment.sequenceId);
    if InOrder(Firsts(Segments(events, r)), k, l) {
      ReachOrderBack(events, r, p, i, j);
    }
    if FirstReachedInOrder(events, i, j) {
      var v: nat, w: nat :| FirstReached(events, v) && FirstReached(events, w)
        && SameId(events, i, v) && SameId(events, j, w) && Precedes(events, v, w);
      FirstReachedReaches(events, v);
      FirstReachedReaches(events, w);
      var x := ReachedPlace(events, r, p, v);
      var y := ReachedPlace(events, r, p, w);
      PlacesInOrder(events, r, x, y);
      FirstsInOrder(Segments(events, r), x, y);
    }
  }

  lemma PlacesInOrder(events: seq<Event>, r: seq<nat>, x: nat, y: nat)
    requires InReachOrder(events, r) && x < |r| && y < |r| && Precedes(events, r[x], r[y])
    ensures x < y
  {
    OneWay(events, r[x], r[y]);
    hide Precedes;
  }

  lemma FirstReachedReaches(events: seq<Event>, i: nat)
    requires FirstReached(events, i)
    ensures Reaches(events, |events|, i)
  {
  }

  lemma PublishOrderIs(events: seq<Event>, r: seq<nat>, p: seq<nat>, i: nat, j: nat)
    requires Orders(events, r, p) && FirstPublished(events, i) && FirstPublished(events, j) && i < j
    ensures InOrder(Firsts(Segments(events, p)), events[i].segment.sequenceId, events[j].segment.sequenceId)
  {
    hide Firsts, Reaches, Precedes;
    var x := PublishedPlace(events, r, p, i);
    var y := PublishedPlace(events, r, p, j);
    FirstsInOrder(Segments(events, p), x, y);
  }

  lemma FirstsAlikeIs(events: seq<Event>, r: seq<nat>, p: seq<nat>, k: Id, l: Id)
    requires Orders(events, r, p) && FirstsAlike(events) && InOrder(Firsts(Segments(events, p)), k, l)
    ensures InOrder(Firsts(Segments(events, r)), k, l)
  {
    hide Firsts, Reaches, Precedes, FirstReachedInOrder, FirstPublished;
    var x, y := FirstsBack(Segments(events, p), k, l);
    LastAtPublished(events, p, x);
    LastAtPublished(events, p, y);
    assert FirstPublished(events, p[x]) && FirstPublished(events, p[y]) && p[x] < p[y];
    ReachOrderIff(events, r, p, p[x], p[y]);
  }

  /** The ids of a list are those with a latest version. */
  lemma FirstsMembers(updates: seq<Segment>, k: Id)
    ensures k in Firsts(updates) <==> k in Latest(updates)
  {
    FirstsUnique(updates);
    if k in Firsts(updates) {
      var q: nat :| FirstAt(updates, q) && updates[q].sequenceId == k;
      InLatest(updates, updates[q]);
    }
    if k in Latest(updates) {
      var q := LatestFrom(updates, k);
    }
  }

  lemma FirstsAgreeIff(events: seq<Event>, r: seq<nat>, p: seq<nat>)
    requires Orders(events, r, p) && Latest(Segments(events, r)) == Latest(Segments(events, p))
    ensures Firsts(Segments(events, r)) == Firsts(Segments(events, p)) <==> FirstsAlike(events)
  {
    var (f, g) := (Firsts(Segments(events, r)), Firsts(Segments(events, p)));
    FirstsUnique(Segments(events, r));
    FirstsUnique(Segments(events, p));
    forall k
      ensures k in f <==> k in g
    {
      FirstsMembers(Segments(events, r), k);
      FirstsMembers(Segments(events, p), k);
    }
    hide Firsts, Latest, FirstPublished, FirstReachedInOrder, InReachOrder;
    if f == g {
      forall i: nat, j: nat | FirstPublished(events, i) && FirstPublished(events, j) && i < j
        ensures FirstReachedInOrder(events, i, j)
      {
        PublishOrderIs(events, r, p, i, j);
        FirstPublishedIs(events, i);
        FirstPublishedIs(events, j);
        ReachOrderIff(events, r, p, i, j);
      }
    }
    if FirstsAlike(events) {
      forall k, l | InOrder(g, k, l)
        ensures InOrder(f, k, l)
      {
        FirstsAlikeIs(events, r, p, k, l);
      }
      SameOrderSame(g, f);
    }
  }

  lemma FirstPublishedIs(events: seq<Event>, i: nat)
    requires FirstPublished(events, i)
    ensures IsPublish(events, i)
  {
  }

  /** The final save holds the last version of every published segment in arrival order if and only if,
      by the positions of the publishes among the takes, replays and put-backs, each id's last publish is
      what last reaches the manager of it, and ids first reach it as first published. */
  lemma SavesAllIff(events: seq<Event>)
    requires Run(Begin([]), events).Some? && Run(Begin([]), events).value.phase.Finished?
    ensures var s := Run(Begin([]), events).value;
      s.held == Some(UpsertAll([], s.published)) <==> LastsAlike(events) && FirstsAlike(events)
  {
    RunIsLineup(events);
    LineupOrders(events);
    var (s, l) := (Run(Begin([]), events).value, LineupOf(events, |events|));
    hide Run, LineupOf, Orders, UpsertAll, Latest, Firsts, LastsAlike, FirstsAlike, LinedUp;
    SameVectorIff(s.applied, s.published);
    LatestsAgreeIff(events, l.reached, l.published);
    if Latest(s.applied) == Latest(s.published) {
      FirstsAgreeIff(events, l.reached, l.published);
    }
  }

  // ----- The same in plainer terms -----

  /** No two publishes of an id carry the same version. */
  ghost predicate VersionsDiffer(events: seq<Event>) {
    forall i: nat, j: nat :: IsPublish(events, i) && IsPublish(events, j) && i != j ==>
      events[i].segment != events[j].segment
  }

  /** Every id's last publish reaches the manager, and overtakes no earlier one of its id. */
  ghost predicate NothingStale(events: seq<Event>) {
    forall i: nat :: LastPublished(events, i) ==>
      && Reaches(events, |events|, i)
      && forall j: nat :: Reaches(events, |events|, j) && SameId(events, i, j) ==> !Overtakes(events, i, j)
  }

  /** When each publish is a new version, the manager ends on the newest of every id if and only if no
      last publish waits, or overtakes an earlier publish of its id that comes after it. */
  lemma LastsAlikeIff(events: seq<Event>)
    requires VersionsDiffer(events)
    ensures LastsAlike(events) <==> NothingStale(events)
  {
    forall i: nat | LastPublished(events, i)
      ensures (exists j: nat :: LastReached(events, j) && events[j].segment == events[i].segment) <==>
        Reaches(events, |events|, i)
        && forall j: nat :: Reaches(events, |events|, j) && SameId(events, i, j) ==> !Overtakes(events, i, j)
    {
      LastAlikeIff(events, i);
    }
    hide LastPublished, LastReached, Reaches, Overtakes, VersionsDiffer;
  }

  lemma LastAlikeIff(events: seq<Event>, i: nat)
    requires VersionsDiffer(events) && LastPublished(events, i)
    ensures (exists j: nat :: LastReached(events, j) && events[j].segment == events[i].segment) <==>
      Reaches(events, |events|, i)
      && forall j: nat :: Reaches(events, |events|, j) && SameId(events, i, j) ==> !Overtakes(events, i, j)
  {
    if j: nat :| LastReached(events, j) && events[j].segment == events[i].segment {
      FirstOrSame(events, i, j);
    }
    hide Home, ReplayBetween;
    LastReachedIff(events, i);
  }

  lemma FirstOrSame(events: seq<Event>, i: nat, j: nat)
    requires VersionsDiffer(events) && IsPublish(events, i) && LastReached(events, j)
    ensures events[j].segment == events[i].segment ==> i == j
  {
  }

  lemma LastReachedIff(events: seq<Event>, i: nat)
    requires LastPublished(events, i)
    ensures LastReached(events, i) <==>
      Reaches(events, |events|, i)
      && forall j: nat :: Reaches(events, |events|, j) && SameId(events, i, j) ==> !Overtakes(events, i, j)
  {
    hide Home, ReplayBetween;
    forall j: nat | Reaches(events, |events|, j) && SameId(events, i, j)
      ensures j != i ==> (Precedes(events, j, i) <==> !Overtakes(events, i, j))
      ensures !Overtakes(events, i, i)
    {
    }
  }

  /** Every publish has its own id. */
  ghost predicate OnceEach(events: seq<Event>) {
    forall i: nat, j: nat :: IsPublish(events, i) && IsPublish(events, j) && i != j ==> !SameId(events, i, j)
  }

  /** With every segment published once, the final save is what was published, in order, if and only if
      nothing waits in the end and nothing was overtaken: no gap between replay and put-back had a
      publish, unless nothing went to the manager before the next replay. */
  lemma OnceEachIff(events: seq<Event>)
    requires Run(Begin([]), events).Some? && Run(Begin([]), events).value.phase.Finished? && OnceEach(events)
    ensures var s := Run(Begin([]), events).value;
      s.held == Some(UpsertAll([], s.published)) <==>
        && (forall i: nat :: IsPublish(events, i) ==> Reaches(events, |events|, i))
        && (forall i: nat, j: nat :: !Overtakes(events, j, i))
  {
    hide Run, UpsertAll;
    SavesAllIff(events);
    OnceEachLasts(events);
    hide LastsAlike, Reaches;
    if forall i: nat :: IsPublish(events, i) ==> Reaches(events, |events|, i) {
      OnceEachFirsts(events);
    }
  }

  lemma OnceEachLasts(events: seq<Event>)
    requires OnceEach(events)
    ensures LastsAlike(events) <==> forall i: nat :: IsPublish(events, i) ==> Reaches(events, |events|, i)
  {
    hide Home, ReplayBetween, Precedes;
    forall i: nat | IsPublish(events, i)
      ensures LastPublished(events, i)
      ensures LastReached(events, i) <==> Reaches(events, |events|, i)
      ensures forall j: nat :: LastReached(events, j) && events[j].segment == events[i].segment ==> i == j
    {
      OnceEachAt(events, i);
    }
    hide LastPublished, LastReached, Reaches;
    AlonePublishes(events);
  }

  lemma OnceEachAt(events: seq<Event>, i: nat)
    requires OnceEach(events) && IsPublish(events, i)
    ensures LastPublished(events, i) && FirstPublished(events, i)
    ensures LastReached(events, i) <==> Reaches(events, |events|, i)
    ensures FirstReached(events, i) <==> Reaches(events, |events|, i)
    ensures forall j: nat :: LastReached(events, j) && events[j].segment == events[i].segment ==> i == j
    ensures forall j: nat :: FirstReached(events, j) && SameId(events, i, j) ==> i == j
  {
    hide Home, ReplayBetween, Precedes;
    forall j: nat | LastReached(events, j) && events[j].segment == events[i].segment
      ensures i == j
    {
      assert SameId(events, i, j);
    }
  }

  lemma AlonePublishes(events: seq<Event>)
    ensures forall i: nat :: LastPublished(events, i) ==> IsPublish(events, i)
    ensures forall i: nat :: FirstPublished(events, i) ==> IsPublish(events, i)
  {
  }

  lemma OnceEachFirsts(events: seq<Event>)
    requires OnceEach(events) && forall i: nat :: IsPublish(events, i) ==> Reaches(events, |events|, i)
    ensures FirstsAlike(events) <==> forall i: nat, j: nat :: !Overtakes(events, j, i)
  {
    AlonePublishes(events);
    forall i: nat, j: nat | IsPublish(events, i) && IsPublish(events, j) && i < j
      ensures FirstPublished(events, i) && FirstPublished(events, j)
      ensures FirstReachedInOrder(events, i, j) <==> !Overtakes(events, j, i)
    {
      OnceEachPair(events, i, j);
    }
    hide FirstPublished, FirstReachedInOrder, Reaches;
    OvertakesIsPublishes(events);
    hide Overtakes;
  }

  lemma OvertakesIsPublishes(events: seq<Event>)
    ensures forall i: nat, j: nat :: Overtakes(events, j, i) ==> i < j && IsPublish(events, i) && IsPublish(events, j)
  {
  }

  lemma OnceEachPair(events: seq<Event>, i: nat, j: nat)
    requires OnceEach(events) && IsPublish(events, i) && IsPublish(events, j) && i < j
    requires Reaches(events, |events|, i) && Reaches(events, |events|, j)
    ensures FirstPublished(events, i) && FirstPublished(events, j)
    ensures FirstReachedInOrder(events, i, j) <==> !Overtakes(events, j, i)
  {
    OnceEachAt(events, i);
    OnceEachAt(events, j);
    hide FirstPublished, FirstReached, Reaches, OnceEach, Overtakes;
    assert Precedes(events, i, j) <==> !Overtakes(events, j, i);
    hide Precedes;
    assert SameId(events, i, i) && SameId(events, j, j);
  }

  // ----- At every moment -----

  /** Nothing is left in the pending buffer if and only if every publish reaches the manager: it found it
      at home, or a replay came later. */
  lemma NothingPendingIff(events: seq<Event>)
    requires Run(Begin([]), events).Some?
    ensures Run(Begin([]), events).value.pending == [] <==>
      forall i: nat :: IsPublish(events, i) ==> Reaches(events, |events|, i)
  {
    RunIsLineup(events);
    var l := LineupOf(events, |events|);
    hide Run, LineupOf, Inv;
    WaitsOrReaches(events);
    if l.waiting != [] {
      assert l.waiting[0] in l.waiting;
    }
    hide Reaches, Waits;
  }

  lemma WaitsOrReaches(events: seq<Event>)
    ensures forall i: nat :: IsPublish(events, i) <==> Reaches(events, |events|, i) || Waits(events, |events|, i)
    ensures forall i: nat :: !(Reaches(events, |events|, i) && Waits(events, |events|, i))
  {
  }

  /** At every moment of every interleaving a published segment waits in the pending buffer, or the
      manager has an entry of its id: this version, one that came after it, or one it has overtaken. */
  lemma EveryVersionKept(events: seq<Event>, i: nat)
    requires Run(Begin([]), events).Some? && IsPublish(events, i)
    ensures var s := Run(Begin([]), events).value;
      || (Waits(events, |events|, i) && events[i].segment in s.pending)
      || exists j: nat :: LastReached(events, j) && SameId(events, i, j) && events[j].segment in Manager(s)
           && (i <= j || Overtakes(events, i, j))
  {
    RunIsLineup(events);
    LineupOrders(events);
    WaitsOrReaches(events);
    var (s, l) := (Run(Begin([]), events).value, LineupOf(events, |events|));
    hide Run, LineupOf, Home, ReplayBetween;
    if Waits(events, |events|, i) {
      var p :| 0 <= p < |l.waiting| && l.waiting[p] == i;
      assert s.pending[p] == events[i].segment;
    } else {
      var j := VersionHeld(events, l.reached, l.published, i);
    }
  }

  lemma VersionHeld(events: seq<Event>, r: seq<nat>, p: seq<nat>, i: nat) returns (j: nat)
    requires Orders(events, r, p) && Reaches(events, |events|, i)
    ensures LastReached(events, j) && IsPublish(events, i) && SameId(events, i, j)
    ensures events[j].segment in UpsertAll([], Segments(events, r))
    ensures i <= j || Overtakes(events, i, j)
  {
    var u := Segments(events, r);
    var x := ReachedPlace(events, r, p, i);
    InLatest(u, u[x]);
    j := LatestReached(events, r, p, u[x].sequenceId);
    HeldVersion(u, u[x].sequenceId);
    hide Latest, UpsertAll, Orders, Home, ReplayBetween;
  }

  lemma HeldVersion(updates: seq<Segment>, k: Id)
    requires k in Latest(updates)
    ensures Latest(updates)[k] in UpsertAll([], updates)
  {
    UpsertAllHolds(updates);
    var v := UpsertAll([], updates);
    var y :| 0 <= y < |v| && v[y].sequenceId == k;
  }

  /** An id has an entry in the final save if and only if some publish of it reaches the manager. */
  lemma IdSavedIff(events: seq<Event>, k: Id)
    requires Run(Begin([]), events).Some? && Run(Begin([]), events).value.phase.Finished?
    ensures var s := Run(Begin([]), events).value;
      && s.held.Some?
      && (k in Ids(s.held.value) <==>
            exists i: nat :: Reaches(events, |events|, i) && events[i].segment.sequenceId == k)
  {
    RunIsLineup(events);
    LineupOrders(events);
    var (s, l) := (Run(Begin([]), events).value, LineupOf(events, |events|));
    hide Run, LineupOf;
    UpsertAllIds(s.applied);
    FirstsUnique(s.applied);
    hide UpsertAll, Firsts, Inv, Reaches, InReachOrder;
    if k in Ids(s.held.value) {
      var p: nat :| FirstAt(s.applied, p) && s.applied[p].sequenceId == k;
      assert l.reached[p] in l.reached;
    }
    if i: nat :| Reaches(events, |events|, i) && events[i].segment.sequenceId == k {
      var p :| 0 <= p < |l.reached| && l.reached[p] == i;
      assert s.applied[p].sequenceId == k;
    }
  }

  /** A run that ends with the pending buffer empty and yet an outdated version: the flush fails, a stays
      in the gap, the newer b goes straight to the manager, and the second stop replays a over it. */
  lemma StaleOverwrites(a: Segment, b: Segment)
    requires a.sequenceId == b.sequenceId && a != b
    ensures var r := Run(Begin([]), [TakeManager, ReplayBuffered, Publish(a), PutBack(false), Publish(b),
                                     TakeManager, ReplayBuffered, PutBack(true), Unsubscribe, FinalTake]);
      && r.Some? && r.value.phase.Finished? && r.value.published == [a, b]
      && r.value.pending == [] && r.value.held == Some([a]) && UpsertAll([], [a, b]) == [b]
  {
    StaleUpserts(a, b);
    hide UpsertAll, Upsert;
    var second := [Publish(b), TakeManager, ReplayBuffered, PutBack(true), Unsubscribe, FinalTake];
    FailedFlush(a, second);
    SecondStop(a, b);
    assert [TakeManager, ReplayBuffered, Publish(a), PutBack(false)] + second
        == [TakeManager, ReplayBuffered, Publish(a), PutBack(false), Publish(b),
            TakeManager, ReplayBuffered, PutBack(true), Unsubscribe, FinalTake];
    hide *;
  }

  /** The first stop's flush has failed; a waits. */
  function AfterFailedFlush(a: Segment): State {
    State(Running, Some([]), None, [a], [a], [], [])
  }

  lemma FailedFlush(a: Segment, rest: seq<Event>)
    ensures Run(Begin([]), [TakeManager, ReplayBuffered, Publish(a), PutBack(false)] + rest)
         == Run(AfterFailedFlush(a), rest)
  {
    var s1 := State(Taken, None, Some([]), [], [], [], []);
    var s2 := s1.(phase := Replayed);
    var s3 := s2.(pending := [a], published := [a]);
    var none: seq<Segment> := [];
    assert none + [a] == [a] && none + none == none && UpsertAll([], none) == [];
    assert Next(Begin([]), TakeManager) == Some(s1) && Next(s1, ReplayBuffered) == Some(s2);
    assert Next(s2, Publish(a)) == Some(s3) && Next(s3, PutBack(false)) == Some(AfterFailedFlush(a));
    var e3 := [PutBack(false)] + rest;
    var e2 := [Publish(a)] + e3;
    var e1 := [ReplayBuffered] + e2;
    assert [TakeManager] + e1 == [TakeManager, ReplayBuffered, Publish(a), PutBack(false)] + rest;
    hide *;
    RunCons(s3, PutBack(false), rest, AfterFailedFlush(a));
    RunCons(s2, Publish(a), e3, s3);
    RunCons(s1, ReplayBuffered, e2, s2);
    RunCons(Begin([]), TakeManager, e1, s1);
  }

  lemma SecondStop(a: Segment, b: Segment)
    requires a.sequenceId == b.sequenceId
    ensures Run(AfterFailedFlush(a), [Publish(b), TakeManager, ReplayBuffered, PutBack(true), Unsubscribe, FinalTake])
         == Some(State(Finished, None, Some([a]), [], [a, b], [b, a], []))
  {
    var s5 := State(Running, Some([b]), None, [a], [a, b], [b], []);
    var s6 := State(Taken, None, Some([b]), [a], [a, b], [b], []);
    var s7 := State(Replayed, None, Some([a]), [], [a, b], [b, a], []);
    var s8 := State(Back, Some([a]), None, [], [a, b], [b, a], []);
    StaleUpserts(a, b);
    var none: seq<Segment> := [];
    assert none + [b] == [b] && [a] + [b] == [a, b] && [b] + [a] == [b, a];
    hide UpsertAll, Upsert;
    assert Next(AfterFailedFlush(a), Publish(b)) == Some(s5) && Next(s5, TakeManager) == Some(s6);
    assert Next(s6, ReplayBuffered) == Some(s7) && Next(s7, PutBack(true)) == Some(s8);
    var e6 := [PutBack(true), Unsubscribe, FinalTake];
    var (e5, e4) := ([ReplayBuffered] + e6, [TakeManager] + ([ReplayBuffered] + e6));
    LastSteps(s8);
    assert [PutBack(true)] + [Unsubscribe, FinalTake] == e6;
    assert [Publish(b)] + e4 == [Publish(b), TakeManager, ReplayBuffered, PutBack(true), Unsubscribe, FinalTake];
    hide *;
    RunCons(s7, PutBack(true), [Unsubscribe, FinalTake], s8);
    RunCons(s6, ReplayBuffered, e6, s7);
    RunCons(s5, TakeManager, e5, s6);
    RunCons(AfterFailedFlush(a), Publish(b), e4, s5);
  }

  lemma LastSteps(s: State)
    requires s.phase.Back?
    ensures Run(s, [Unsubscribe, FinalTake]) == Some(s.(phase := Finished, held := s.slot, slot := None))
  {
    var t := s.(phase := Unsubscribed);
    var u := t.(phase := Finished, held := t.slot, slot := None);
    assert [FinalTake] + [] == [FinalTake] && [Unsubscribe] + [FinalTake] == [Unsubscribe, FinalTake];
    assert Next(s, Unsubscribe) == Some(t) && Next(t, FinalTake) == Some(u) && Run(u, []) == Some(u);
    hide Run, Next;
    RunCons(t, FinalTake, [], u);
    RunCons(s, Unsubscribe, [FinalTake], t);
  }

  lemma RunCons(s: State, e: Event, rest: seq<Event>, t: State)
    requires Next(s, e) == Some(t)
    ensures Run(s, [e] + rest) == Run(t, rest)
  {
    assert ([e] + rest)[1..] == rest;
  }

  lemma StaleUpserts(a: Segment, b: Segment)
    requires a.sequenceId == b.sequenceId
    ensures Upsert([], b) == [b] && UpsertAll([], []) == [] && UpsertAll([b], [a]) == [a]
    ensures UpsertAll([], [a, b]) == [b]
  {
    assert [a, b][1..] == [b] && [a][1..] == [] && [b][1..] == [];
    assert UpsertAll([a], [b]) == UpsertAll(Upsert([a], b), []);
    assert UpsertAll([b], [a]) == UpsertAll(Upsert([b], a), []);
  }
}
