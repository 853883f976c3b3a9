/** The rolling window of per-frame processing times in `processVideo`
    (resampler.py): fifteen slots, oldest first, initially zero. The times
    themselves come from the process clock and are inputs here. */
module Timing {

  const Slots: nat := 15

  /** `[0]*15`. */
  function InitialTimings(): (ring: seq<real>)
    ensures |ring| == Slots
    ensures forall i :: 0 <= i < |ring| ==> ring[i] == 0.0
  {
    seq(Slots, _ => 0.0)
  }

  /** `time_list.pop(0); time_list.append(t)`. */
  function Record(ring: seq<real>, t: real): (r: seq<real>)
    requires |ring| > 0
    ensures |r| == |ring|
    ensures r[|r| - 1] == t
    ensures forall i :: 0 <= i < |r| - 1 ==> r[i] == ring[i + 1]
  {
    ring[1..] + [t]
  }

  /** The ring after recording each of `times` in turn. */
  function RecordAll(ring: seq<real>, times: seq<real>): (r: seq<real>)
    requires |ring| > 0
    decreases |times|
  {
    if |times| == 0 then ring else RecordAll(Record(ring, times[0]), times[1..])
  }

  /** The ring always holds the latest `|ring|` values of the history it
      started from followed by everything recorded since. */
  lemma {:induction false} RecordAllKeepsLatest(ring: seq<real>, times: seq<real>)
    requires |ring| > 0
    ensures RecordAll(ring, times) == (ring + times)[|times|..]
    decreases |times|
  {
    if |times| > 0 {
      RecordAllKeepsLatest(Record(ring, times[0]), times[1..]);
      assert Record(ring, times[0]) + times[1..] == (ring + times)[1..];
    }
  }

  /** After any number of iterations the buffer still has fifteen slots:
      the fifteen latest times, padded at the front with zeros while fewer
      than fifteen have been recorded. */
  lemma RingKeepsFifteen(times: seq<real>)
    ensures |RecordAll(InitialTimings(), times)| == Slots
    ensures |times| >= Slots ==> RecordAll(InitialTimings(), times) == times[|times| - Slots..]
    ensures forall i :: 0 <= i < Slots && i + |times| < Slots ==> RecordAll(InitialTimings(), times)[i] == 0.0
  {
    RecordAllKeepsLatest(InitialTimings(), times);
    if |times| >= Slots {
      assert (InitialTimings() + times)[|times|..] == times[|times| - Slots..];
    }
  }
}
