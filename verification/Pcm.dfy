/** Audio samples and bytes. A sample is only ever moved, so it is its 32-bit IEEE pattern. */
module Pcm {
  type Byte = b: int | 0 <= b < 0x100
  type Sample = s: int | 0 <= s < 0x1_0000_0000

  /** The pattern of 0.0. */
  const SILENCE: Sample := 0

  function Silence(n: nat): (s: seq<Sample>)
    ensures |s| == n && forall i :: 0 <= i < n ==> s[i] == SILENCE
  {
    seq(n, i => SILENCE)
  }

  function Flags(n: nat, value: bool): (s: seq<bool>)
    ensures |s| == n && forall i :: 0 <= i < n ==> s[i] == value
  {
    seq(n, i => value)
  }

  /** The n positions from `from` on. */
  function Span(from: nat, n: nat): (s: set<nat>)
    ensures forall p: nat :: p in s <==> from <= p < from + n
    decreases n
  {
    if n == 0 then {} else {from} + Span(from + 1, n - 1)
  }

  function Flat<T>(parts: seq<seq<T>>): seq<T> {
    if parts == [] then [] else parts[0] + Flat(parts[1..])
  }

  lemma {:induction false} FlatAppend<T>(a: seq<seq<T>>, b: seq<seq<T>>)
    ensures Flat(a + b) == Flat(a) + Flat(b)
  {
    if a == [] {
      assert a + b == b;
    } else {
      assert (a + b)[1..] == a[1..] + b;
      FlatAppend(a[1..], b);
    }
  }

  lemma FlatOne<T>(a: seq<seq<T>>, x: seq<T>)
    ensures Flat(a + [x]) == Flat(a) + x
  {
    FlatAppend(a, [x]);
    assert [x][1..] == [];
  }

  lemma FlatSplit<T>(parts: seq<seq<T>>, k: nat)
    requires k < |parts|
    ensures Flat(parts[..k + 1]) == Flat(parts[..k]) + parts[k]
    ensures Flat(parts) == Flat(parts[..k + 1]) + Flat(parts[k + 1..])
  {
    FlatOne(parts[..k], parts[k]);
    FlatAppend(parts[..k + 1], parts[k + 1..]);
    hide Flat;
    SplitAt(parts, k);
  }

  lemma SplitAt<T>(s: seq<T>, k: nat)
    requires k < |s|
    ensures s[..k] + [s[k]] == s[..k + 1] && s[..k + 1] + s[k + 1..] == s
  {
  }

  // ----- Little-endian bytes -----

  function Le(s: Sample): (b: seq<Byte>)
    ensures |b| == 4
  {
    [s % 0x100, s / 0x100 % 0x100, s / 0x1_0000 % 0x100, s / 0x100_0000]
  }

  function FromLe(b: seq<Byte>): (s: Sample)
    requires |b| == 4
  {
    (b[0] as int) + 0x100 * (b[1] as int) + 0x1_0000 * (b[2] as int) + 0x100_0000 * (b[3] as int)
  }

  /** Little-endian: byte k of a sample has weight 256 to the k. */
  lemma LeWeights(s: Sample)
    ensures var b := Le(s);
      s == (b[0] as int) + 256 * (b[1] as int) + 65536 * (b[2] as int) + 16777216 * (b[3] as int)
  {
    LeRoundTrip(s);
  }

  lemma DivideAgain(q: nat)
    ensures q / 0x1_0000 == q / 0x100 / 0x100
  {
    var (r, t) := (q % 0x100, q / 0x100 % 0x100);
    assert q == 0x1_0000 * (q / 0x100 / 0x100) + 0x100 * t + r;
  }

  lemma LeRoundTrip(s: Sample)
    ensures FromLe(Le(s)) == s
  {
    var (q1, q2, q3) := (s / 0x100, s / 0x1_0000, s / 0x100_0000);
    DivideAgain(s);
    DivideAgain(q1);
    assert s == 0x100 * q1 + s % 0x100;
    assert q1 == 0x100 * q2 + q1 % 0x100;
    assert q2 == 0x100 * q3 + q2 % 0x100;
  }

  function LeBytes(samples: seq<Sample>): (b: seq<Byte>)
    ensures |b| == 4 * |samples|
  {
    if samples == [] then [] else Le(samples[0]) + LeBytes(samples[1..])
  }

  lemma {:induction false} LeBytesAppend(a: seq<Sample>, b: seq<Sample>)
    ensures LeBytes(a + b) == LeBytes(a) + LeBytes(b)
  {
    if a == [] {
      assert a + b == b;
    } else {
      assert (a + b)[1..] == a[1..] + b;
      LeBytesAppend(a[1..], b);
    }
  }

  /** Sample i of a PCM byte stream. */
  lemma {:induction false} LeBytesAt(samples: seq<Sample>, i: nat)
    requires i < |samples|
    ensures FromLe(LeBytes(samples)[4 * i..4 * i + 4]) == samples[i]
  {
    if i == 0 {
      assert LeBytes(samples)[..4] == Le(samples[0]);
      LeRoundTrip(samples[0]);
    } else {
      LeBytesAt(samples[1..], i - 1);
      assert LeBytes(samples)[4 * i..4 * i + 4] == LeBytes(samples[1..])[4 * (i - 1)..4 * (i - 1) + 4];
    }
  }
}
