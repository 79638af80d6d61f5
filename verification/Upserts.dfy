/** When two orders of updates leave the same transcript in memory. */
module Upserts {
  import opened Wrappers
  import opened Transcript

  type Id = Option<nat>

  function Ids(segments: seq<Segment>): (ids: seq<Id>)
    ensures |ids| == |segments| && forall i :: 0 <= i < |ids| ==> ids[i] == segments[i].sequenceId
  {
    seq(|segments|, i requires 0 <= i < |segments| => segments[i].sequenceId)
  }

  /** The ids in the order in which they first appear. */
  function Firsts(updates: seq<Segment>): seq<Id> {
    if updates == [] then []
    else
      var (before, id) := (Firsts(updates[..|updates| - 1]), updates[|updates| - 1].sequenceId);
      if id in before then before else before + [id]
  }

  lemma IdsOfCons(head: Segment, tail: seq<Segment>)
    ensures Ids([head] + tail) == [head.sequenceId] + Ids(tail)
  {
  }

  lemma UpsertOfCons(head: Segment, tail: seq<Segment>, s: Segment)
    ensures Upsert([head] + tail, s)
         == if head.sequenceId == s.sequenceId then [s] + tail else [head] + Upsert(tail, s)
  {
    assert ([head] + tail)[1..] == tail;
  }

  lemma {:induction false} UpsertIds(segments: seq<Segment>, s: Segment)
    ensures Ids(Upsert(segments, s))
         == if s.sequenceId in Ids(segments) then Ids(segments) else Ids(segments) + [s.sequenceId]
    decreases |segments|
  {
    if segments != [] {
      var (head, tail) := (segments[0], segments[1..]);
      UpsertIds(tail, s);
      UpsertOfCons(head, tail, s);
      IdsOfCons(head, tail);
      IdsOfCons(s, tail);
      IdsOfCons(head, Upsert(tail, s));
      assert segments == [head] + tail;
      hide *;
      if head.sequenceId != s.sequenceId {
        GoesLast(head.sequenceId, Ids(tail), s.sequenceId);
      }
    }
  }

  lemma GoesLast(head: Id, tail: seq<Id>, last: Id)
    requires head != last
    ensures [head] + (if last in tail then tail else tail + [last])
         == if last in [head] + tail then [head] + tail else [head] + tail + [last]
  {
  }

  /** The vector keeps its segments in the order in which their ids first appeared. */
  lemma {:induction false} UpsertAllIds(updates: seq<Segment>)
    ensures Ids(UpsertAll([], updates)) == Firsts(updates)
    decreases |updates|
  {
    if updates != [] {
      var n := |updates| - 1;
      UpsertAllIds(updates[..n]);
      UpsertAllLast([], updates);
      UpsertIds(UpsertAll([], updates[..n]), updates[n]);
    }
  }

  lemma HeldOnce(segments: seq<Segment>, m: map<Id, Segment>, n: map<Id, Segment>)
    requires Holds(segments, m) && Holds(segments, n)
    ensures m == n
  {
  }

  /** Two orders of updates leave the same vector exactly when they end on the same versions and
      introduce the ids in the same order. */
  lemma SameVectorIff(a: seq<Segment>, b: seq<Segment>)
    ensures UpsertAll([], a) == UpsertAll([], b) <==> Latest(a) == Latest(b) && Firsts(a) == Firsts(b)
  {
    var (v, w) := (UpsertAll([], a), UpsertAll([], b));
    UpsertAllIds(a);
    UpsertAllIds(b);
    UpsertAllHolds(a);
    UpsertAllHolds(b);
    hide UpsertAll, Latest, Firsts;
    if v == w {
      HeldOnce(v, Latest(a), Latest(b));
    }
    if Latest(a) == Latest(b) && Firsts(a) == Firsts(b) {
      SameHeld(v, w, Latest(a));
    }
  }

  lemma SameHeld(v: seq<Segment>, w: seq<Segment>, m: map<Id, Segment>)
    requires Holds(v, m) && Holds(w, m) && Ids(v) == Ids(w)
    ensures v == w
  {
    assert |v| == |Ids(v)| == |w|;
    forall i | 0 <= i < |v|
      ensures v[i] == w[i]
    {
      assert Ids(v)[i] == Ids(w)[i];
    }
  }

  // ----- The last version of an id -----

  /** Update p is the last of its id. */
  predicate LastAt(updates: seq<Segment>, p: nat) {
    p < |updates| && forall q :: p < q < |updates| ==> updates[q].sequenceId != updates[p].sequenceId
  }

  lemma {:induction false} LatestAt(updates: seq<Segment>, p: nat)
    requires LastAt(updates, p)
    ensures updates[p].sequenceId in Latest(updates) && Latest(updates)[updates[p].sequenceId] == updates[p]
    decreases |updates|
  {
    var n := |updates| - 1;
    if p < n {
      LatestAt(updates[..n], p);
    }
  }

  lemma {:induction false} LatestFrom(updates: seq<Segment>, k: Id) returns (p: nat)
    requires k in Latest(updates)
    ensures LastAt(updates, p) && updates[p].sequenceId == k && Latest(updates)[k] == updates[p]
    decreases |updates|
  {
    var n := |updates| - 1;
    if updates[n].sequenceId == k {
      p := n;
    } else {
      p := LatestFrom(updates[..n], k);
    }
  }

  // ----- The first appearance of an id -----

  predicate FirstAt(updates: seq<Segment>, p: nat) {
    p < |updates| && forall q :: 0 <= q < p ==> updates[q].sequenceId != updates[p].sequenceId
  }

  predicate Unique(f: seq<Id>) {
    forall i, j :: 0 <= i < j < |f| ==> f[i] != f[j]
  }

  /** k stands before l. */
  ghost predicate InOrder(f: seq<Id>, k: Id, l: Id) {
    exists i, j :: 0 <= i < j < |f| && f[i] == k && f[j] == l
  }

  lemma {:induction false} FirstsDistinct(updates: seq<Segment>)
    ensures Unique(Firsts(updates))
    ensures forall i :: 0 <= i < |updates| ==> updates[i].sequenceId in Firsts(updates)
    decreases |updates|
  {
    if updates != [] {
      var n := |updates| - 1;
      FirstsDistinct(updates[..n]);
      assert forall i :: 0 <= i < n ==> updates[..n][i] == updates[i];
    }
  }

  lemma {:induction false} FirstPlace(updates: seq<Segment>, k: Id) returns (p: nat)
    requires k in Firsts(updates)
    ensures FirstAt(updates, p) && updates[p].sequenceId == k
    decreases |updates|
  {
    var n := |updates| - 1;
    if k in Firsts(updates[..n]) {
      p := FirstPlace(updates[..n], k);
    } else {
      p := n;
      FirstsDistinct(updates[..n]);
      assert forall i :: 0 <= i < n ==> updates[..n][i] == updates[i];
    }
  }

  lemma FirstsUnique(updates: seq<Segment>)
    ensures Unique(Firsts(updates))
    ensures forall i :: 0 <= i < |updates| ==> updates[i].sequenceId in Firsts(updates)
    ensures forall k :: k in Firsts(updates) ==> exists p: nat :: FirstAt(updates, p) && updates[p].sequenceId == k
  {
    FirstsDistinct(updates);
    hide Firsts;
    forall k | k in Firsts(updates)
      ensures exists p: nat :: FirstAt(updates, p) && updates[p].sequenceId == k
    {
      var p := FirstPlace(updates, k);
    }
  }

  /** Earlier first appearances come first. */
  lemma {:induction false} FirstsInOrder(updates: seq<Segment>, p: nat, q: nat)
    requires p < q && FirstAt(updates, p) && FirstAt(updates, q)
    ensures InOrder(Firsts(updates), updates[p].sequenceId, updates[q].sequenceId)
    decreases |updates|
  {
    var n := |updates| - 1;
    var (before, k, l) := (Firsts(updates[..n]), updates[p].sequenceId, updates[q].sequenceId);
    FirstsUnique(updates[..n]);
    if q < n {
      FirstsInOrder(updates[..n], p, q);
      StillInOrder(before, [updates[n].sequenceId], k, l);
    } else {
      assert updates[..n][p].sequenceId in before;
      NewId(updates);
      var i :| 0 <= i < |before| && before[i] == k;
      assert Firsts(updates)[i] == k && Firsts(updates)[|before|] == l;
    }
  }

  lemma NewId(updates: seq<Segment>)
    requires updates != [] && FirstAt(updates, |updates| - 1)
    ensures updates[|updates| - 1].sequenceId !in Firsts(updates[..|updates| - 1])
  {
    FirstsUnique(updates[..|updates| - 1]);
  }

  lemma StillInOrder(f: seq<Id>, more: seq<Id>, k: Id, l: Id)
    requires InOrder(f, k, l)
    ensures InOrder(f + more, k, l)
  {
    var i, j :| 0 <= i < j < |f| && f[i] == k && f[j] == l;
    assert (f + more)[i] == k && (f + more)[j] == l;
  }

  lemma NotBothOrders(f: seq<Id>, k: Id, l: Id)
    requires Unique(f)
    ensures !(InOrder(f, k, l) && InOrder(f, l, k))
  {
  }

  /** Lists without repetition are equal exactly when they have the same members in the same order. */
  lemma {:induction false} SameOrderSame(f: seq<Id>, g: seq<Id>)
    requires Unique(f) && Unique(g) && forall x :: x in f <==> x in g
    requires forall k, l :: InOrder(f, k, l) ==> InOrder(g, k, l)
    ensures f == g
    decreases |f|
  {
    NonemptyHasMember(g);
    if f != [] {
      SameHead(f, g);
      TailMembers(f, g);
      SameOrderSame(f[1..], g[1..]);
      assert f == [f[0]] + f[1..] && g == [g[0]] + g[1..];
    }
  }

  lemma NonemptyHasMember(g: seq<Id>)
    ensures g != [] ==> exists x :: x in g
  {
    if g != [] {
      assert g[0] in g;
    }
  }

  lemma SameHead(f: seq<Id>, g: seq<Id>)
    requires f != [] && Unique(f) && Unique(g) && forall x :: x in f <==> x in g
    requires forall k, l :: InOrder(f, k, l) ==> InOrder(g, k, l)
    ensures g != [] && f[0] == g[0]
  {
    assert f[0] in f && g[0] in g;
    FirstBeforeAll(f, g[0]);
    FirstBeforeAll(g, f[0]);
    NotBothOrders(g, g[0], f[0]);
  }

  lemma FirstBeforeAll(g: seq<Id>, x: Id)
    requires g != [] && x in g
    ensures x != g[0] ==> InOrder(g, g[0], x)
  {
  }

  lemma TailMembers(f: seq<Id>, g: seq<Id>)
    requires f != [] && g != [] && f[0] == g[0] && Unique(f) && Unique(g) && forall x :: x in f <==> x in g
    requires forall k, l :: InOrder(f, k, l) ==> InOrder(g, k, l)
    ensures Unique(f[1..]) && Unique(g[1..]) && forall x :: x in f[1..] <==> x in g[1..]
    ensures forall k, l :: InOrder(f[1..], k, l) ==> InOrder(g[1..], k, l)
  {
    assert f == [f[0]] + f[1..] && g == [g[0]] + g[1..];
    forall x
      ensures x in f[1..] <==> x in f && x != f[0]
      ensures x in g[1..] <==> x in g && x != g[0]
    {
      TailMember(f, x);
      TailMember(g, x);
    }
    forall k, l | InOrder(f[1..], k, l)
      ensures InOrder(g[1..], k, l)
    {
      var i, j :| 0 <= i < j < |f[1..]| && f[1..][i] == k && f[1..][j] == l;
      assert f[i + 1] == k && f[j + 1] == l;
      assert InOrder(f, k, l);
      var x, y :| 0 <= x < y < |g| && g[x] == k && g[y] == l;
      assert g[1..][x - 1] == k && g[1..][y - 1] == l;
    }
  }

  lemma TailMember(f: seq<Id>, x: Id)
    requires f != [] && Unique(f)
    ensures x in f[1..] <==> x in f && x != f[0]
  {
    assert f == [f[0]] + f[1..];
  }
}
