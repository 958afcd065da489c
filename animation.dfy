/** The animation engine's side of the plotter: it calls the frame function
    once per tick, for as many ticks as the window stays open. */
module Animation {
  import opened Slices
  import opened Ping
  import opened Plotter

  /** One tick per element: at tick `k` the clock reads `readings[k]` and the
      ping produces `outcomes[k]`. The history afterwards is `Run` of the
      readings and of the values they report, from whatever it held before. */
  method Animate(plotter: PingPlotter, readings: seq<Instant>, outcomes: seq<ProbeOutcome>)
    requires plotter.Valid() && |readings| == |outcomes|
    modifies plotter
    ensures plotter.Valid()
    ensures plotter.pinger == old(plotter.pinger) && plotter.limit == old(plotter.limit)
    ensures plotter.interval == old(plotter.interval)
    ensures plotter.timestamps == Run(old(plotter.timestamps), readings, plotter.limit)
    ensures plotter.rtts == Run(old(plotter.rtts), Measured(plotter.pinger, outcomes), plotter.limit)
  {
    ghost var ts0, rs0 := plotter.timestamps, plotter.rtts;
    ghost var values := Measured(plotter.pinger, outcomes);
    var k := 0;
    while k < |readings|
      invariant 0 <= k <= |readings|
      invariant plotter.Valid()
      invariant plotter.pinger == old(plotter.pinger) && plotter.limit == old(plotter.limit)
      invariant plotter.interval == old(plotter.interval)
      invariant plotter.timestamps == Run(ts0, readings[..k], plotter.limit)
      invariant plotter.rtts == Run(rs0, values[..k], plotter.limit)
    {
      RunPrefixStep(ts0, readings, k, plotter.limit);
      RunPrefixStep(rs0, values, k, plotter.limit);
      plotter.RenderFrame(readings[k], outcomes[k]);
      k := k + 1;
    }
    assert readings[..k] == readings;
    assert values[..k] == values;
  }

  /** Two frames called one after the other at limit 3: both grow the
      history, which a caller learns by applying `TruncateAppend` to the
      lists as they are before each frame. */
  method TwoFrames() {
    var pinger := new Pinger("8.8.8.8");
    var plotter := new PingPlotter(pinger, 3, 10);
    TruncateAppend(plotter.timestamps, 10, 3);
    TruncateAppend(plotter.rtts, 1.5, 3);
    plotter.RenderFrame(10, Replied(1.5));
    TruncateAppend(plotter.timestamps, 20, 3);
    TruncateAppend(plotter.rtts, 2000.0, 3);
    plotter.RenderFrame(20, Raised);
    assert plotter.timestamps == [10, 20] && plotter.rtts == [1.5, 2000.0];
  }

  /** The values of the example below: three frames fill a history of
      three, and the fourth drops the oldest. */
  lemma ThreeFramesFill()
    ensures Run([], [1, 2, 3], 3) == [1, 2, 3]
    ensures Run([], [5.0, 8.0, 2000.0], 3) == [5.0, 8.0, 2000.0]
  {
    RunFromEmpty([1, 2, 3], 3);
    RunFromEmpty([5.0, 8.0, 2000.0], 3);
  }

  lemma FourthFrameEvicts()
    ensures Truncate([1, 2, 3] + [4], 3) == [2, 3, 4]
    ensures Truncate([5.0, 8.0, 2000.0] + [20.0], 3) == [8.0, 2000.0, 20.0]
  {
    TruncateAppend([1, 2, 3], 4, 3);
    TruncateAppend([5.0, 8.0, 2000.0], 20.0, 3);
  }

  lemma ExampleValues(p: Pinger)
    ensures Measured(p, [Replied(5.0), Replied(8.0), Raised]) == [5.0, 8.0, 2000.0]
  {
  }

  /** A plotter limited to three points, fed four frames: the first three
      fill it (the third ping fails and reports 2000), the fourth evicts the
      oldest sample, and stopping empties it. */
  method FillThenEvict() {
    var pinger := new Pinger("8.8.8.8");
    var plotter := new PingPlotter(pinger, 3, 10);
    Animate(plotter, [1, 2, 3], [Replied(5.0), Replied(8.0), Raised]);
    ThreeFramesFill();
    ExampleValues(pinger);
    assert plotter.timestamps == [1, 2, 3] && plotter.rtts == [5.0, 8.0, 2000.0];
    plotter.RenderFrame(4, Replied(20.0));
    FourthFrameEvicts();
    assert plotter.timestamps == [2, 3, 4] && plotter.rtts == [8.0, 2000.0, 20.0];
    plotter.Stop();
    assert plotter.timestamps == [] && plotter.rtts == [];
  }
}
