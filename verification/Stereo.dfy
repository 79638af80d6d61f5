/** The two channels of a recording as functions of the windows the mixer cut. */
module Stereo {
  import opened Wrappers
  import opened Pcm
  import opened MixerRing
  import opened MixerFlush

  /** Echo cancellation, filtering and loudness: what becomes of the mic half of the newest window,
      given every window so far. */
  type Enhance = seq<Window> -> seq<Sample>

  /** The stereo stream carries `left` and `right`, a sample of each in turn. */
  predicate Channels(stereo: seq<Sample>, left: seq<Sample>, right: seq<Sample>) {
    && |stereo| == 2 * |right| && |left| == |right|
    && forall f :: 0 <= f < |right| ==> stereo[2 * f] == left[f] && stereo[2 * f + 1] == right[f]
  }

  lemma ChannelsAppend(a: seq<Sample>, l: seq<Sample>, r: seq<Sample>, b: seq<Sample>, m: seq<Sample>, s: seq<Sample>)
    requires Channels(a, l, r) && Channels(b, m, s)
    ensures Channels(a + b, l + m, r + s)
  {
    forall f | 0 <= f < |r + s|
      ensures (a + b)[2 * f] == (l + m)[f] && (a + b)[2 * f + 1] == (r + s)[f]
    {
      if f >= |r| {
        var g := f - |r|;
        assert b[2 * g] == m[g] && b[2 * g + 1] == s[g];
      }
    }
  }

  lemma {:induction false} PartsAppend(a: seq<Window>, b: seq<Window>)
    ensures MicPart(a + b) == MicPart(a) + MicPart(b)
    ensures SystemPart(a + b) == SystemPart(a) + SystemPart(b)
  {
    if a == [] {
      assert a + b == b;
    } else {
      assert (a + b)[1..] == a[1..] + b;
      PartsAppend(a[1..], b);
    }
  }

  // ----- The left channel -----

  /** Each window's enhanced mic, padded with silence, in turn. */
  function Left(enhance: Enhance, windows: seq<Window>, w: nat): (left: seq<Sample>)
    ensures |left| == |windows| * w
  {
    if windows == [] then []
    else
      var k := |windows| - 1;
      assert |windows| * w == k * w + w;
      Left(enhance, windows[..k], w) + Padded(enhance(windows), w)
  }

  lemma LeftGrows(enhance: Enhance, windows: seq<Window>, window: Window, w: nat)
    ensures Left(enhance, windows + [window], w)
         == Left(enhance, windows, w) + Padded(enhance(windows + [window]), w)
  {
    assert (windows + [window])[..|windows|] == windows;
  }

  lemma Slices(a: seq<Sample>, b: seq<Sample>, i: nat, j: nat)
    requires i <= j <= |a|
    ensures (a + b)[i..j] == a[i..j] && (a + b)[|a|..|a| + |b|] == b
  {
  }

  /** Window k of the left channel is what the enhancement made of it from the windows up to it. */
  lemma {:induction false} LeftAt(enhance: Enhance, windows: seq<Window>, w: nat, k: nat)
    requires k < |windows|
    ensures k * w + w <= |Left(enhance, windows, w)|
    ensures Left(enhance, windows, w)[k * w..k * w + w] == Padded(enhance(windows[..k + 1]), w)
  {
    var last := |windows| - 1;
    var (init, end) := (Left(enhance, windows[..last], w), Padded(enhance(windows), w));
    assert Left(enhance, windows, w) == init + end;
    hide Left, Padded;
    if k == last {
      assert windows[..k + 1] == windows;
      Slices(init, end, 0, 0);
    } else {
      LeftAt(enhance, windows[..last], w, k);
      assert windows[..last][..k + 1] == windows[..k + 1];
      assert k * w >= 0;
      Slices(init, end, k * w, k * w + w);
    }
  }

  /** With no enhancement the left channel is the mic half of every window. */
  lemma {:induction false} PlainLeft(enhance: Enhance, windows: seq<Window>, w: nat)
    requires FullWindows(windows, w)
    requires forall ws: seq<Window> :: ws != [] ==> enhance(ws) == ws[|ws| - 1].0
    ensures Left(enhance, windows, w) == MicPart(windows)
  {
    if windows != [] {
      var k := |windows| - 1;
      var (init, last) := (windows[..k], windows[k]);
      assert windows == init + [last] && FullWindows(init, w) && |last.0| == w;
      hide MicPart, SystemPart, FullWindows, Left, Padded;
      PlainLeft(enhance, init, w);
      PartsGrow(init, last);
      LeftGrows(enhance, init, last, w);
      FullPadded(last.0, w);
    }
  }

  lemma FullPadded(s: seq<Sample>, w: nat)
    requires |s| == w
    ensures Padded(s, w) == s
  {
  }

  // ----- The windows, from what was emitted -----

  function WindowsOf(mic: seq<Sample>, system: seq<Sample>, w: nat): seq<Window>
    requires w > 0
  {
    if |mic| < w || |system| < w then []
    else [(mic[..w], system[..w])] + WindowsOf(mic[w..], system[w..], w)
  }

  lemma {:induction false} WindowsOfParts(windows: seq<Window>, w: nat)
    requires w > 0 && FullWindows(windows, w)
    ensures WindowsOf(MicPart(windows), SystemPart(windows), w) == windows
  {
    if windows != [] {
      WindowsOfParts(windows[1..], w);
      var (mic, system) := (MicPart(windows), SystemPart(windows));
      assert mic[..w] == windows[0].0 && mic[w..] == MicPart(windows[1..]);
      assert system[..w] == windows[0].1 && system[w..] == SystemPart(windows[1..]);
      assert windows == [windows[0]] + windows[1..];
    }
  }

  /** Two streams of k whole windows are cut without remainder. */
  lemma {:induction false} PartsOfWindows(mic: seq<Sample>, system: seq<Sample>, w: nat, k: nat)
    requires w > 0 && |mic| == |system| == k * w
    ensures FullWindows(WindowsOf(mic, system, w), w)
    ensures MicPart(WindowsOf(mic, system, w)) == mic
  {
    if k > 0 {
      assert k * w == (k - 1) * w + w;
      PartsOfWindows(mic[w..], system[w..], w, k - 1);
      var rest := WindowsOf(mic[w..], system[w..], w);
      var all := WindowsOf(mic, system, w);
      assert all[1..] == rest && all[0] == (mic[..w], system[..w]);
      assert mic == mic[..w] + mic[w..];
    }
  }
}
