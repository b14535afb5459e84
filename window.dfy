/** Clamping a requested time bound to a parent record's window, as the
    event exports and the lowerings-by-cruise listing do:
    `(t >= start && t <= stop) ? t : fallback`.  Times are milliseconds. */
module TimeWindow {
  import opened Wrappers

  /** The requested bound when there is one inside [start, stop], otherwise
      the fallback. */
  function Clamp(requested: Option<int>, start: int, stop: int, fallback: int): int
  {
    if requested.Some? && requested.value >= start && requested.value <= stop then requested.value
    else fallback
  }

  /** The lower bound: the requested start, or the window's start. */
  function ClampStart(requested: Option<int>, start: int, stop: int): int {
    Clamp(requested, start, stop, start)
  }

  /** The upper bound: the requested stop, or the window's stop. */
  function ClampStop(requested: Option<int>, start: int, stop: int): int {
    Clamp(requested, start, stop, stop)
  }

  /** The lower bound never falls before the window's start, the upper bound
      never after its stop, and for a proper window both lie inside it. */
  lemma ClampWithin(requestedStart: Option<int>, requestedStop: Option<int>, start: int, stop: int)
    ensures start <= ClampStart(requestedStart, start, stop)
    ensures ClampStop(requestedStop, start, stop) <= stop
    ensures start <= stop ==> ClampStart(requestedStart, start, stop) <= stop
    ensures start <= stop ==> start <= ClampStop(requestedStop, start, stop)
  {
  }

  /** Clamping is idempotent: a clamped bound, requested again, is kept. */
  lemma ClampIdempotent(requested: Option<int>, start: int, stop: int)
    requires start <= stop
    ensures ClampStart(Some(ClampStart(requested, start, stop)), start, stop) == ClampStart(requested, start, stop)
    ensures ClampStop(Some(ClampStop(requested, start, stop)), start, stop) == ClampStop(requested, start, stop)
  {
  }
}
