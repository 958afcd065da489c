/** The plotter's bounded sample history: two parallel lists, timestamps and
    round-trip times, each extended by one element per animation frame and
    then cut back to its last `limit` elements. */
module Plotter {
  import opened Slices
  import opened Ping

  /** A clock reading, supplied by the caller instead of read from the wall clock. */
  type Instant = int

  /** One plotted point: when it was taken and the round-trip time reported. */
  datatype Sample = Sample(timestamp: Instant, rtt: real)

  /** The history after a series of frames that appended `xs`, one element per
      frame, to the history `h`, truncating to `limit` after each frame. */
  function Run<T>(h: seq<T>, xs: seq<T>, limit: int): seq<T>
    decreases |xs|
  {
    if xs == [] then h
    else Truncate(Run(h, xs[..|xs| - 1], limit) + [xs[|xs| - 1]], limit)
  }

  /** One more frame extends the run by one truncating step. */
  lemma RunOneMore<T>(h: seq<T>, xs: seq<T>, x: T, limit: int)
    ensures Run(h, xs + [x], limit) == Truncate(Run(h, xs, limit) + [x], limit)
  {
    assert (xs + [x])[..|xs|] == xs;
  }

  /** The run over the first `k + 1` inputs is one truncating step after the
      run over the first `k`. */
  lemma RunPrefixStep<T>(h: seq<T>, xs: seq<T>, k: int, limit: int)
    requires 0 <= k < |xs|
    ensures Run(h, xs[..k + 1], limit) == Truncate(Run(h, xs[..k], limit) + [xs[k]], limit)
  {
    assert xs[..k + 1][..k] == xs[..k];
  }

  /** The points handed to the renderer: the two lists read side by side. */
  function Points(ts: seq<Instant>, rs: seq<real>): (ps: seq<Sample>)
    requires |ts| == |rs|
    ensures |ps| == |ts|
    ensures forall i :: 0 <= i < |ps| ==> ps[i] == Sample(ts[i], rs[i])
  {
    seq(|ts|, i requires 0 <= i < |ts| => Sample(ts[i], rs[i]))
  }

  /** Whatever the limit, the history is always a suffix of everything that
      was ever appended: elements are never reordered, altered or invented. */
  lemma {:induction false} RunIsSuffix<T>(h: seq<T>, xs: seq<T>, limit: int)
    ensures IsSuffix(Run(h, xs, limit), h + xs)
    decreases |xs|
  {
    if xs != [] {
      var init, x := xs[..|xs| - 1], xs[|xs| - 1];
      var prev := Run(h, init, limit);
      assert (h + init) + [x] == h + xs;
      RunIsSuffix(h, init, limit);
      SuffixAppend(prev, h + init, [x]);
      assert Run(h, xs, limit) == Truncate(prev + [x], limit);
      SuffixTransitive(Run(h, xs, limit), prev + [x], h + xs);
    }
  }

  /** With a positive limit, frame-by-frame truncation is the same as one
      truncation at the end: the history is the last `limit` of all inputs. */
  lemma {:induction false} RunPositiveLimit<T>(h: seq<T>, xs: seq<T>, limit: int)
    requires 0 < limit && |h| <= limit
    ensures Run(h, xs, limit) == Truncate(h + xs, limit)
    decreases |xs|
  {
    if xs == [] {
      assert h + xs == h;
      SuffixUnique(h, Truncate(h, limit), h);
    } else {
      var init, x := xs[..|xs| - 1], xs[|xs| - 1];
      calc {
        Run(h, xs, limit);
        Truncate(Run(h, init, limit) + [x], limit);
        { RunPositiveLimit(h, init, limit); }
        Truncate(Truncate(h + init, limit) + [x], limit);
        { TruncateAbsorb(h + init, [x], limit); }
        Truncate((h + init) + [x], limit);
        { assert (h + init) + [x] == h + xs; }
        Truncate(h + xs, limit);
      }
    }
  }

  /** Starting from an empty history, after N frames with a positive limit
      the history holds `min(N, limit)` elements: the last ones appended, in
      arrival order. */
  lemma RunFromEmpty<T>(xs: seq<T>, limit: int)
    requires 0 < limit
    ensures |Run([], xs, limit)| == Min(|xs|, limit)
    ensures Run([], xs, limit) == xs[|xs| - Min(|xs|, limit)..]
  {
    RunPositiveLimit([], xs, limit);
    assert [] + xs == xs;
  }

  /** A zero limit (`xs[-0:]`) never truncates: the history keeps every sample. */
  lemma {:induction false} RunZeroLimit<T>(h: seq<T>, xs: seq<T>)
    ensures Run(h, xs, 0) == h + xs
    decreases |xs|
  {
    if xs == [] {
      assert h + xs == h;
    } else {
      RunZeroLimit(h, xs[..|xs| - 1]);
      assert (h + xs[..|xs| - 1]) + [xs[|xs| - 1]] == h + xs;
    }
  }

  /** A negative limit drops at least one element per frame, so a history
      that starts empty stays empty whatever is appended. */
  lemma {:induction false} RunNegativeLimit<T>(xs: seq<T>, limit: int)
    requires limit < 0
    ensures Run([], xs, limit) == []
    decreases |xs|
  {
    if xs != [] {
      RunNegativeLimit(xs[..|xs| - 1], limit);
    }
  }

  /** The length of the history depends only on the number of frames, so the
      timestamp list and the round-trip list always have the same length. */
  lemma {:induction false} RunSameLength<T, U>(h: seq<T>, xs: seq<T>, g: seq<U>, ys: seq<U>, limit: int)
    requires |h| == |g| && |xs| == |ys|
    ensures |Run(h, xs, limit)| == |Run(g, ys, limit)|
    decreases |xs|
  {
    if xs != [] {
      RunSameLength(h, xs[..|xs| - 1], g, ys[..|ys| - 1], limit);
    }
  }

  /** The history after frames `xs` from empty, in closed form: the last
      `limit` inputs for a positive limit, all of them for a zero limit and
      none for a negative one. */
  function Window<T>(xs: seq<T>, limit: int): (w: seq<T>)
    ensures 0 < limit ==> |w| == Min(|xs|, limit) && w == xs[|xs| - |w|..]
    ensures limit == 0 ==> w == xs
    ensures limit < 0 ==> w == []
  {
    if limit < 0 then [] else Truncate(xs, limit)
  }

  /** The frame-by-frame history and the closed form agree, whatever the limit. */
  lemma RunIsWindow<T>(xs: seq<T>, limit: int)
    ensures Run([], xs, limit) == Window(xs, limit)
  {
    if 0 < limit {
      RunPositiveLimit([], xs, limit);
      assert [] + xs == xs;
    } else if limit == 0 {
      RunZeroLimit([], xs);
      assert [] + xs == xs;
    } else {
      RunNegativeLimit(xs, limit);
    }
  }

  /** One frame takes the window of the inputs so far to the window of the
      inputs including the new one. */
  lemma WindowStep<T>(xs: seq<T>, x: T, limit: int)
    ensures Window(xs + [x], limit) == Truncate(Window(xs, limit) + [x], limit)
  {
    RunOneMore([], xs, x, limit);
    RunIsWindow(xs, limit);
    RunIsWindow(xs + [x], limit);
  }

  /** Truncating the two lists separately keeps each timestamp paired with
      the round-trip time recorded in the same frame. */
  lemma TruncatePoints(ts: seq<Instant>, rs: seq<real>, limit: int)
    requires |ts| == |rs|
    ensures |Truncate(ts, limit)| == |Truncate(rs, limit)|
    ensures Points(Truncate(ts, limit), Truncate(rs, limit)) == Truncate(Points(ts, rs), limit)
  {
    var ps := Points(ts, rs);
    var t, r, p := Truncate(ts, limit), Truncate(rs, limit), Truncate(ps, limit);
    assert |t| == |r| == |p|;
    var d := |ts| - |t|;
    assert t == ts[d..] && r == rs[d..] && p == ps[d..];
    forall i | 0 <= i < |p|
      ensures Points(t, r)[i] == p[i]
    {
      assert p[i] == ps[d + i];
    }
  }

  /** One frame, seen as points: appending to both lists and truncating each
      is appending the new point to the plotted series and truncating that. */
  lemma PointsFrame(ts: seq<Instant>, rs: seq<real>, t: Instant, r: real, limit: int)
    requires |ts| == |rs|
    ensures |Truncate(ts + [t], limit)| == |Truncate(rs + [r], limit)|
    ensures Points(Truncate(ts + [t], limit), Truncate(rs + [r], limit))
         == Truncate(Points(ts, rs) + [Sample(t, r)], limit)
  {
    var ps, qs := Points(ts + [t], rs + [r]), Points(ts, rs) + [Sample(t, r)];
    forall i | 0 <= i < |ps|
      ensures ps[i] == qs[i]
    {
      if i < |ts| {
        assert qs[i] == Points(ts, rs)[i];
      }
    }
    assert ps == qs;
    TruncatePoints(ts + [t], rs + [r], limit);
  }

  /** Every value is the failure constant 2000. */
  ghost predicate Saturated(rs: seq<real>) {
    forall k :: 0 <= k < |rs| ==> rs[k] == 2000.0
  }

  /** A value shared by every input is shared by every element of the history. */
  lemma RunKeepsCommonValue<T>(xs: seq<T>, v: T, limit: int)
    requires forall i :: 0 <= i < |xs| ==> xs[i] == v
    ensures forall k :: 0 <= k < |Run([], xs, limit)| ==> Run([], xs, limit)[k] == v
  {
    var hist := Run([], xs, limit);
    RunIsSuffix([], xs, limit);
    assert [] + xs == xs;
    forall k | 0 <= k < |hist|
      ensures hist[k] == v
    {
      SuffixAt(hist, xs, k);
    }
  }

  /** Saturation: if every ping of a run fails, every round-trip time in the
      history is the constant 2000, whatever timeout the pinger was given. */
  lemma AllFailuresSaturate(p: Pinger, outcomes: seq<ProbeOutcome>, limit: int)
    requires forall i :: 0 <= i < |outcomes| ==> outcomes[i].Raised?
    ensures Saturated(Run([], Measured(p, outcomes), limit))
  {
    RunKeepsCommonValue(Measured(p, outcomes), 2000.0, limit);
  }

  ghost predicate NonDecreasing(ts: seq<Instant>) {
    forall i, j :: 0 <= i < j < |ts| ==> ts[i] <= ts[j]
  }

  /** The history is in timestamp order whenever the clock readings it was
      fed were; the wall clock itself does not promise that. */
  lemma OrderedReadingsOrderedHistory(h: seq<Instant>, xs: seq<Instant>, limit: int)
    requires NonDecreasing(h + xs)
    ensures NonDecreasing(Run(h, xs, limit))
  {
    var all := h + xs;
    var hist := Run(h, xs, limit);
    RunIsSuffix(h, xs, limit);
    forall i, j | 0 <= i < j < |hist|
      ensures hist[i] <= hist[j]
    {
      SuffixAt(hist, all, i);
      SuffixAt(hist, all, j);
    }
  }

  class PingPlotter {
    /** Default maximum number of points kept. */
    static const LIMIT: int := 1000
    /** Default time between frames, in milliseconds. */
    static const INTERVAL: int := 500

    var pinger: Pinger
    var limit: int
    var interval: int

    var timestamps: seq<Instant>
    var rtts: seq<real>

    /** The two lists stay parallel, a positive limit bounds them, and a
        negative limit keeps them empty. */
    ghost predicate Valid()
      reads this
    {
      && |timestamps| == |rtts|
      && (0 < limit ==> |timestamps| <= limit)
      && (limit < 0 ==> timestamps == [] && rtts == [])
    }

    /** The points drawn by the current frame: each timestamp with its round-trip time. */
    ghost function History(): (ps: seq<Sample>)
      reads this
      requires |timestamps| == |rtts|
      ensures |ps| == |timestamps|
    {
      Points(timestamps, rtts)
    }

    /** A plotter with an empty history. Neither `limit` nor `interval` is checked. */
    constructor (pinger: Pinger, limit: int := LIMIT, interval: int := INTERVAL)
      ensures Valid()
      ensures this.pinger == pinger && this.limit == limit && this.interval == interval
      ensures timestamps == [] && rtts == []
    {
      this.pinger := pinger;
      this.limit := limit;
      this.interval := interval;
      timestamps := [];
      rtts := [];
    }

    /** One animation frame: ping once, append the clock reading `now` and
        the reported round-trip time, then cut both lists to their last
        `limit` elements. Drawing the frame is not part of this model. */
    method RenderFrame(now: Instant, outcome: ProbeOutcome)
      requires Valid()
      modifies this
      ensures Valid()
      ensures pinger == old(pinger) && limit == old(limit) && interval == old(interval)
      ensures unchanged(pinger)
      ensures timestamps == Truncate(old(timestamps) + [now], limit)
      ensures rtts == Truncate(old(rtts) + [pinger.Call(outcome)], limit)
    {
      var rtt := pinger.Call(outcome);
      TruncateSameLength(timestamps + [now], rtts + [rtt], limit);
      // The two appends, then the two truncations.
      var grownTimes, grownRtts := timestamps + [now], rtts + [rtt];
      timestamps, rtts := Truncate(grownTimes, limit), Truncate(grownRtts, limit);
    }

    /** Stop plotting: both lists become empty, whatever they held. Closing
        the window is not part of this model. */
    method Stop()
      modifies this
      ensures Valid()
      ensures timestamps == [] && rtts == []
      ensures pinger == old(pinger) && limit == old(limit) && interval == old(interval)
    {
      timestamps := [];
      rtts := [];
    }
  }
}
