# pypinger: the bounded latency history

pypinger pings one host on a timer and plots the round-trip times as a live
line chart. Its core is small: a `Pinger` that turns one ping into one
number, reporting a fixed value when the ping raises an `Exception`, and a
`PingPlotter` that keeps two parallel lists, `timestamps` and `rtts`. Each animation frame appends one clock reading and
one round-trip time, then cuts both lists back to their last `limit`
elements with Python's `xs[-limit:]`. This project models that core and
proves what the history is after any series of frames.

- `slices.dfy`, module `Slices`: Python's open-ended slice `xs[start:]`
  (negative starts count from the end, out-of-range bounds are clamped) and
  the truncation `xs[-limit:]` built on it, with the facts about one
  truncation.
- `pinger.dfy`, module `Ping`: the outcome of one ping as a datatype
  (`Replied(rttAvgMs)` or `Raised`) and the `Pinger` class with its
  constructor and `Call`.
- `plotter.dfy`, module `Plotter`: the `PingPlotter` class (constructor,
  the frame step `RenderFrame`, `Stop`), the specification function `Run`
  (the history after frames fed one at a time) with its closed form
  `Window`, and the lemmas about them.
- `animation.dfy`, module `Animation`: the animation engine's side, which
  calls the frame function once per tick (`Animate`), and a worked example,
  `FillThenEvict`: a plotter limited to three points is fed three frames
  through `Animate`, then a fourth `RenderFrame` evicts the oldest sample,
  and `Stop` empties both lists; and `TwoFrames`, two `RenderFrame` calls
  one after the other at limit 3, both of which grow the history.

The limit is never validated. The model follows Python's slice exactly
instead of assuming a positive limit. A positive limit keeps the newest
`limit` samples. A zero limit keeps everything, because `xs[-0:]` is the
whole list. A negative limit drops `-limit` elements from the front on every
frame, so a history that starts empty stays empty.

The model keeps these behaviours of the code as written:
- a failed ping reports the class constant `Pinger.TIMEOUT` (2000), not the
  pinger's configured `timeout`;
- neither `limit` nor `interval` is rejected when it is zero or negative;
- the history is a list that is appended to and re-sliced, not a ring buffer.

The `PingPlotter` invariant `Valid()` says the two lists have equal length,
stay within a positive limit, and stay empty under a negative limit. The
constructor establishes it and every method keeps it. A frame's contract
gives the new lists as `(old + [new])[-limit:]`. Facts about a single frame
(growth, eviction, the newest sample last, the plotted pairs) are lemmas a
caller applies to the lists as they are before the frame: `TruncateAppend`,
`TruncateKeepsNewest` and `PointsFrame`. The history after many frames is
`Run` of their inputs, as `Animate` states; `RunIsWindow` gives its closed
form `Window`, and `RunFromEmpty` its value from an empty history.

## Model

| member | source | states |
|---|---|---|
| Slices.SliceFrom | main.py:84-85 | `xs[start:]` is a suffix of `xs`; a negative start keeps the last `min(-start, len)` elements, a non-negative one drops `start` elements (none left if `start >= len`) |
| Slices.Truncate | main.py:83-85 | `xs[-limit:]` is a suffix of `xs`; its length is `min(limit, len)` for a positive limit, the whole list for limit 0, and `max(len + limit, 0)` for a negative limit |
| Slices.TruncateSameLength | main.py:84-85 | the two lists, of equal length before the slice, have equal length after it |
| Slices.TruncateAppend | main.py:80-85 | from a history within a positive limit, one frame grows it by the new element while under the limit, and at the limit evicts exactly the oldest element and keeps the rest in order; the result stays within the limit. A caller applies it to `RenderFrame`'s lists before the frame |
| Slices.TruncateKeepsNewest | main.py:80-85 | with a limit that is not negative, the element just appended is the last element after the slice, so after `RenderFrame` the newest reading and value are last |
| Slices.TruncateAbsorb | main.py:84-85 | for a positive limit, slicing an intermediate history does not change what a later slice yields: `(a[-L:] + b)[-L:] == (a + b)[-L:]` |
| Ping.Pinger.constructor | main.py:20-28 | the pinger stores `host` and `timeout` unchanged; `timeout` defaults to 2000 |
| Ping.Pinger.Call | main.py:30-42 | a reply yields the response's `rtt_avg_ms`; an exception of class `Exception`, caught at main.py:39-40, yields `Pinger.TIMEOUT` (2000) |
| Ping.CallIgnoresTimeout | main.py:36-42 | two pingers with different configured timeouts report the same value for the same outcome, and a failure is always 2000 |
| Plotter.Points | main.py:89 | the plotted series pairs the i-th timestamp with the i-th round-trip time |
| Plotter.Run | main.py:78-85 | the history after frames fed one at a time, each appending and slicing; it has no ensures of its own: `RunIsSuffix`, `RunPositiveLimit`, `RunFromEmpty`, `RunZeroLimit`, `RunNegativeLimit` and `RunIsWindow` state what it is |
| Plotter.RunOneMore | main.py:80-85 | one more frame extends the run by one append-and-slice step |
| Plotter.RunPrefixStep | main.py:80-85 | the run over the first k+1 inputs is one append-and-slice step after the run over the first k |
| Plotter.RunIsSuffix | main.py:78-85 | whatever the limit, the history after any frames is a suffix of everything appended: nothing reordered, altered or invented |
| Plotter.RunPositiveLimit | main.py:78-85 | with a positive limit, truncating after every frame equals one truncation of all inputs at the end |
| Plotter.RunFromEmpty | main.py:78-85 | from an empty history, after N frames with a positive limit the history has `min(N, limit)` elements, the last ones appended, in arrival order |
| Plotter.RunZeroLimit | main.py:84-85 | a zero limit never truncates: the history is every input |
| Plotter.RunNegativeLimit | main.py:84-85 | a negative limit keeps a history that starts empty empty for ever |
| Plotter.RunSameLength | main.py:80-85 | the history's length depends only on the number of frames, so timestamps and round-trip times stay equal in length |
| Plotter.Window | main.py:84-85 | the closed form of the history: the last `min(len, limit)` inputs for a positive limit, all of them for 0, none for a negative limit |
| Plotter.RunIsWindow | main.py:78-85 | the frame-by-frame history equals the closed form for every limit |
| Plotter.WindowStep | main.py:80-85 | one frame takes the closed form of the inputs so far to the closed form including the new input |
| Plotter.TruncatePoints | main.py:84-85 | slicing the two lists separately is slicing the list of pairs: every timestamp stays with its own round-trip time |
| Plotter.PointsFrame | main.py:80-85 | one frame, on the plotted pairs, appends the new pair and slices the series |
| Plotter.RunKeepsCommonValue | main.py:78-85 | a value shared by every input is shared by every element of the history |
| Plotter.AllFailuresSaturate | main.py:36-42 | if every ping fails, every round-trip time in the history of the reported values (`Measured`, one `Call` per outcome) is 2000, whatever timeout the pinger was configured with |
| Plotter.OrderedReadingsOrderedHistory | main.py:80-85 | if the clock readings were non-decreasing, so are the history's timestamps |
| Plotter.PingPlotter.History | main.py:89 | the series handed to `plot_date`: one point per kept sample, each timestamp paired with its own round-trip time (the pairing is `Points`) |
| Plotter.PingPlotter.constructor | main.py:51-67 | stores `pinger`, `limit` and `interval` unchanged (defaults 1000 and 500) and starts both lists empty, so the invariant holds |
| Plotter.PingPlotter.RenderFrame | main.py:78-85 | one frame: the timestamps become `(old + [now])[-limit:]` and the round-trip times `(old + [pinger.call()])[-limit:]`; the invariant is kept (equal lengths, within a positive limit, empty under a negative limit); pinger, limit and interval are unchanged. Growth, eviction, the newest sample last and the plotted pairs follow from `TruncateAppend`, `TruncateKeepsNewest` and `PointsFrame` applied to the lists before the frame |
| Plotter.PingPlotter.Stop | main.py:105-110 | both lists become empty whatever they held, and the invariant holds; pinger, limit and interval are unchanged |
| Animation.Animate | main.py:97-101 | the animation engine calling the frame function once per tick: after any number of ticks each list is `Run` of the readings or of the reported values (`Measured`, one `Call` per outcome) from what it held before; the invariant holds and pinger, limit and interval are unchanged |

## Left out

- The ping itself (`pythonping.ping`, main.py:37) is a network call. It is modelled only by its outcome, a reply with an average round-trip time or an exception, which the caller of `Call` and `RenderFrame` supplies.
- An exception that is not an `Exception` (a `BaseException` such as `KeyboardInterrupt` or `SystemExit`) is not caught at main.py:39. It escapes `call()` and the frame function before anything is appended. The model has no outcome for it.
- The `timeout/1000` conversion to seconds (main.py:37) only feeds the network call and is floating point.
- `datetime.now()` (main.py:80) reads the clock. The reading is a parameter of `RenderFrame`, as an integer instant. The model does not assume readings increase; `OrderedReadingsOrderedHistory` takes that as a hypothesis.
- Round-trip times are `real`: floating-point rounding is not modelled, and the failure value is the number 2000 even though Python returns it as an `int`.
- `PingPlotter.start` (main.py:69-103) builds a matplotlib figure and hands the frame function to `FuncAnimation`. The drawing calls (main.py:87-94), the animation engine's timer and `plt.show` are library calls. The frame's append-and-slice body is modelled as `RenderFrame`, and the engine calling it tick after tick as `Animate`; the unused frame index argument is dropped.
- The frame timer and `interval` cadence belong to the animation engine. `interval` is stored and never used by the core.
- `plt.close()` in `stop` (main.py:108) is a GUI call; only the reset of the two lists is modelled.
- The command-line block (main.py:113-128) is argument parsing.
- Python's `append` changes the list object in place. The model replaces the field's value instead. Nothing else in the core holds a reference to these lists, so no caller can observe the difference.
- Plotter.PingPlotter.RenderFrame: requires the class invariant `Valid()`, which the constructor establishes and every method keeps; Python states no such requirement.
- Animation.Animate: requires `Valid()` for the same reason, and one outcome per clock reading.
- Plotter.PingPlotter.RenderFrame: its ensures give the new lists through `Truncate` and keep the invariant, but do not themselves promise growth, eviction, the newest sample last or the plotted pairs; a caller obtains those by applying `TruncateAppend`, `TruncateKeepsNewest` and `PointsFrame` to the lists before the frame. This keeps several frames in one method body cheap to verify; a long run of frames goes through `Animate` and the `Run` lemmas.
