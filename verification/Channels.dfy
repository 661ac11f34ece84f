/** Buffered Go channels, as far as a buffer and a closed mark go. */
module Channels {

  datatype Chan<T> = Chan(buf: seq<T>, closed: bool)

  /** Closes every channel listed in `which` and leaves the others alone. */
  function CloseEach<T>(chans: seq<Chan<T>>, which: set<nat>): (r: seq<Chan<T>>)
    ensures |r| == |chans|
    ensures forall i | 0 <= i < |chans| :: r[i] == if i in which then chans[i].(closed := true) else chans[i]
  {
    seq(|chans|, i requires 0 <= i < |chans| => if i in which then chans[i].(closed := true) else chans[i])
  }
}
