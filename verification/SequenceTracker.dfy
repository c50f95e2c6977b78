/** The publisher's view of the incoming sequence numbers (Appendix A.1 of RFC 3550): the highest number
    and its cycle, the numbers it declares missing, and the extended number of a late arrival. */
module SequenceTracker {
  import opened Numbers
  import opened BucketRing

  const CYCLE: nat := 0x1_0000

  datatype Tracker = Tracker(cycles: u32, maxSeqNo: u16)

  /** `cycles | max_seq_no`; the low half of `cycles` is zero. */
  function Highest(t: Tracker): int { t.cycles + t.maxSeqNo }

  predicate IsAhead(t: Tracker, sn: u16) { Distance(sn, t.maxSeqNo) < 0x8000 }

  /** An arrival less than half a cycle ahead becomes the highest; any other leaves the tracker alone. */
  function Track(t: Tracker, sn: u16): Tracker {
    if IsAhead(t, sn) then
      Tracker(if sn < t.maxSeqNo then (t.cycles + CYCLE) % 0x1_0000_0000 else t.cycles, sn)
    else t
  }

  /** The extended number calc assigns to a number relative to a maximum. */
  function ExtendedSn(cycles: u32, maxSeqNo: u16, sn: u16): int {
    if sn > maxSeqNo && sn >= 0x8000 && maxSeqNo < 0x8000 then Sub32(cycles, CYCLE) + sn else cycles + sn
  }

  /** The tracker for a true highest number. */
  function At(e: nat): Tracker
    requires e < 0x1_0000_0000
  {
    Tracker(e / CYCLE * CYCLE, e % CYCLE)
  }

  // ---------------------------------------------------------------- single steps

  /** The true number of an arrival lies in the half cycle on either side of the highest. */
  predicate Near(e: int, t: int) { e - 0x8000 <= t <= e + 0x7fff }

  function Max(a: int, b: int): int { if a >= b then a else b }

  lemma {:induction false} TrackStep(e: nat, t: nat)
    requires e < 0x1_0000_0000 && t < 0x1_0000_0000 && Near(e, t)
    ensures IsAhead(At(e), t % CYCLE) <==> t >= e
    ensures Track(At(e), t % CYCLE) == At(Max(e, t))
  {
  }

  /** A late arrival that does not precede cycle 0 is given its true number. */
  lemma {:induction false} LateNumbered(e: nat, t: nat)
    requires e < 0x1_0000_0000 && t < e && Near(e, t)
    ensures ExtendedSn(At(e).cycles, At(e).maxSeqNo, t % CYCLE) == t
  {
  }

  /** The number queued for m, missing between the old highest e and the new one t. */
  function QueuedFor(e: nat, t: nat, m: nat): int
    requires e < 0x1_0000_0000 && t < 0x1_0000_0000
  {
    ExtendedSn(At(t).cycles, At(e).maxSeqNo, m % CYCLE)
  }

  /** When the missing number is queued under its true extended number. */
  predicate QueuedRight(e: nat, t: nat, m: nat) {
    m % CYCLE < 0x8000 || (e % CYCLE >= 0x8000 && e / CYCLE == t / CYCLE)
  }

  /** A missing number is queued under the number a later arrival is removed under exactly when it lies
      in the lower half of its cycle, or the old highest is in the upper half and the gap does not wrap. */
  lemma {:induction false} QueuedRightIff(e: nat, t: nat, m: nat)
    requires e < m < t <= e + 0x7fff && t < 0x1_0000_0000
    ensures QueuedFor(e, t, m) == m <==> QueuedRight(e, t, m)
    ensures QueuedFor(e, t, m) == ExtendedSn(At(t).cycles, At(t).maxSeqNo, m % CYCLE) <==> QueuedRight(e, t, m)
  {
    LateNumbered(t, m);
    assert t / CYCLE == e / CYCLE || t / CYCLE == e / CYCLE + 1;
    assert m / CYCLE == e / CYCLE || m / CYCLE == t / CYCLE;
  }

  /** Wrong or right, the number queued has the low half of the missing one, so that a request for it, which
      carries the low half alone, still asks for the right packet. */
  lemma {:induction false} QueuedLowHalf(e: nat, t: nat, m: nat)
    requires e < 0x1_0000_0000 && t < 0x1_0000_0000
    ensures QueuedFor(e, t, m) % 0x1_0000 == m % 0x1_0000
  {}

  /** The gap from 32767 to 32769 queues 32768 one cycle too low, where nothing removes it. */
  lemma {:induction false} QueuedWrong()
    ensures QueuedFor(32767, 32769, 32768) != 32768
  {}

  // ---------------------------------------------------------------- whole runs

  function TrackAll(sns: seq<u16>): Tracker
    requires sns != []
  {
    if |sns| == 1 then Tracker(0, sns[0]) else Track(TrackAll(sns[..|sns| - 1]), sns[|sns| - 1])
  }

  function MaxOf(ts: seq<nat>): nat
    requires ts != []
  {
    if |ts| == 1 then ts[0] else Max(MaxOf(ts[..|ts| - 1]), ts[|ts| - 1])
  }

  function Wire(ts: seq<nat>): seq<u16> { seq(|ts|, i requires 0 <= i < |ts| => ts[i] % CYCLE) }

  /** Every arrival's true number lies within half a cycle of the highest before it. */
  ghost predicate Plausible(ts: seq<nat>) {
    && ts != [] && ts[0] < CYCLE
    && forall i :: 0 < i < |ts| ==> Near(MaxOf(ts[..i]), ts[i]) && ts[i] < 0x1_0000_0000
  }

  lemma {:induction false} PlausiblePrefix(ts: seq<nat>, n: nat)
    requires Plausible(ts) && 0 < n <= |ts|
    ensures Plausible(ts[..n])
  {
    forall i | 0 < i < n ensures Near(MaxOf(ts[..n][..i]), ts[..n][i]) {
      assert ts[..n][..i] == ts[..i];
    }
  }

  lemma {:induction false} MaxBound(ts: seq<nat>)
    requires Plausible(ts)
    ensures ts[0] <= MaxOf(ts) < 0x1_0000_0000
    ensures MaxOf(ts) in ts
    ensures forall i :: 0 <= i < |ts| ==> ts[i] <= MaxOf(ts)
  {
    if |ts| > 1 {
      PlausiblePrefix(ts, |ts| - 1);
      MaxBound(ts[..|ts| - 1]);
    }
  }

  /** Over a whole run, `cycles | max_seq_no` is the true running maximum. */
  lemma {:induction false} TracksMaximum(ts: seq<nat>)
    requires Plausible(ts)
    ensures MaxOf(ts) < 0x1_0000_0000
    ensures TrackAll(Wire(ts)) == At(MaxOf(ts))
    ensures Highest(TrackAll(Wire(ts))) == MaxOf(ts)
  {
    MaxBound(ts);
    var k := |ts| - 1;
    if k > 0 {
      var init := ts[..k];
      PlausiblePrefix(ts, k);
      MaxBound(init);
      TracksMaximum(init);
      assert Wire(ts)[..k] == Wire(init);
      TrackStep(MaxOf(init), ts[k]);
    }
  }

  /** Some number strictly between the two is queued under x. */
  ghost predicate QueuedBetween(e: nat, t: nat, x: int)
    requires e < 0x1_0000_0000 && t < 0x1_0000_0000
  {
    exists m: nat :: e < m < t && QueuedFor(e, t, m) == x
  }

  /** Every gap of the run meets the condition of QueuedRightIff. */
  ghost predicate GapsQueuedRight(ts: seq<nat>)
  {
    forall i, m :: 0 < i < |ts| && MaxOf(ts[..i]) < m < ts[i] ==> QueuedRight(MaxOf(ts[..i]), ts[i], m)
  }

  lemma {:induction false} GapsPrefix(ts: seq<nat>, n: nat)
    requires GapsQueuedRight(ts) && 0 < n <= |ts|
    ensures GapsQueuedRight(ts[..n])
    ensures n < |ts| ==> forall m :: MaxOf(ts[..n]) < m < ts[n] ==> QueuedRight(MaxOf(ts[..n]), ts[n], m)
  {
    forall i, m | 0 < i < n && MaxOf(ts[..n][..i]) < m < ts[..n][i]
      ensures QueuedRight(MaxOf(ts[..n][..i]), ts[..n][i], m)
    {
      assert ts[..n][..i] == ts[..i];
    }
  }

  lemma {:induction false} BetweenExact(e: nat, t: nat, x: nat)
    requires e <= t <= e + 0x7fff && t < 0x1_0000_0000
    requires forall m :: e < m < t ==> QueuedRight(e, t, m)
    ensures QueuedBetween(e, t, x) <==> e < x < t
  {
    forall m: nat | e < m < t ensures QueuedFor(e, t, m) == m {
      QueuedRightIff(e, t, m);
    }
    if e < x < t { assert QueuedFor(e, t, x) == x; }
  }
}
