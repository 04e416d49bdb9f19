/** Runs of a protocol: events, each with the time at which it happened. */
module Runs {

  /** In the smallest unit of the protocol's clock. */
  type Time = int

  datatype Timed<E> = Timed(event: E, at: Time)

  /** The clock never runs backwards. */
  ghost predicate Chronological<E>(run: seq<Timed<E>>) {
    forall i, j :: 0 <= i <= j < |run| ==> run[i].at <= run[j].at
  }
}
