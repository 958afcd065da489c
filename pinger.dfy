/** The prober: one ping to a host, with every `Exception` the ping raises
    folded into a fixed round-trip value, so that a failed ping still adds a
    point to the plotted series. */
module Ping {

  /** What one ping attempt produced. The network call itself is not part of
      this model: a reply carries the response's average round-trip time in
      milliseconds, and `Raised` stands for an exception of class `Exception`
      that the call threw and `call` caught (main.py:39), such as an
      unreachable host or missing privileges. */
  datatype ProbeOutcome = Replied(rttAvgMs: real) | Raised

  class Pinger {
    /** Default timeout, in milliseconds, and the value reported for a failed ping. */
    static const TIMEOUT: int := 2000

    var host: string
    /** The timeout (in milliseconds) handed to the ping call. */
    var timeout: int

    constructor (host: string, timeout: int := TIMEOUT)
      ensures this.host == host && this.timeout == timeout
    {
      this.host := host;
      this.timeout := timeout;
    }

    /** The round-trip time one call reports. A failure reports the class
        constant `TIMEOUT`, not this pinger's own `timeout`, which is why
        this function reads nothing of the object. */
    function Call(outcome: ProbeOutcome): (rtt: real)
      ensures outcome.Replied? ==> rtt == outcome.rttAvgMs
      ensures outcome.Raised? ==> rtt == TIMEOUT as real
    {
      match outcome
      case Replied(avg) => avg
      case Raised => TIMEOUT as real
    }
  }

  /** The values reported for a run of ping outcomes, in order. */
  function Measured(p: Pinger, outcomes: seq<ProbeOutcome>): (rs: seq<real>)
    ensures |rs| == |outcomes|
    ensures forall i :: 0 <= i < |outcomes| ==> rs[i] == p.Call(outcomes[i])
  {
    seq(|outcomes|, i requires 0 <= i < |outcomes| => p.Call(outcomes[i]))
  }

  /** Two pingers configured with different timeouts report the same value
      for the same outcome: the configured timeout never reaches the result. */
  lemma CallIgnoresTimeout(p: Pinger, q: Pinger, outcome: ProbeOutcome)
    ensures p.Call(outcome) == q.Call(outcome)
    ensures outcome.Raised? ==> p.Call(outcome) == 2000.0
  {
  }
}
