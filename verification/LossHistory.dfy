/** The life of a lost number in the queue of a publisher's buffer, over whole runs: declared when a later
    one arrives, asked for in the rounds that follow every arrival, forgotten when it arrives or when three
    requests have been in vain. */
module LossHistory {
  import opened Numbers
  import opened Wrappers
  import opened BucketRing
  import opened NackQueues
  import opened SequenceTracker

  // ---------------------------------------------------------------- one arrival

  /** Some number passed over on the way from the old maximum to `sn` is declared missing as x. */
  ghost predicate Declared(cycles: u32, oldMax: u16, sn: u16, diff: int, x: nat) {
    exists i :: 1 <= i < diff && ExtendedSn(cycles, oldMax, Sub16(sn, i)) == x
  }

  function WithMissing(before: Option<nat>, declared: bool): Option<nat> {
    if before.None? && declared then Some(0) else before
  }

  /** The tracker once `sn` has arrived; the first packet sets the maximum. */
  function TrackerThen(first: bool, t: Tracker, sn: u16): Tracker {
    if first then Tracker(t.cycles, sn) else Track(t, sn)
  }

  /** What becomes of the request count of x when `sn` arrives: a number passed over is queued, the
      number of a late arrival is dropped. */
  ghost function CountThen(before: Option<nat>, t: Tracker, sn: u16, x: nat): Option<nat> {
    if IsAhead(t, sn) then
      WithMissing(before, Declared(Track(t, sn).cycles, t.maxSeqNo, sn, Distance(sn, t.maxSeqNo), x))
    else if x == ExtendedSn(t.cycles, t.maxSeqNo, sn) then None
    else before
  }

  /** In terms of true numbers these are the ones between the two. */
  lemma {:induction false} DeclaredIsBetween(e: nat, t: nat, x: nat)
    requires e <= t <= e + 0x7fff && t < 0x1_0000_0000
    ensures Declared(At(t).cycles, At(e).maxSeqNo, t % CYCLE, t - e, x) <==> QueuedBetween(e, t, x)
  {
    if i :| 1 <= i < t - e && ExtendedSn(At(t).cycles, At(e).maxSeqNo, Sub16(t % CYCLE, i)) == x {
      SameResidue(t, i);
      assert QueuedFor(e, t, t - i) == x;
    }
    if m: nat :| e < m < t && QueuedFor(e, t, m) == x {
      SameResidue(t, t - m);
      assert ExtendedSn(At(t).cycles, At(e).maxSeqNo, Sub16(t % CYCLE, t - m)) == x;
    }
  }

  lemma {:induction false} SameResidue(t: nat, i: nat)
    requires i <= t
    ensures Sub16(t % CYCLE, i) == (t - i) % CYCLE
  {}

  lemma {:induction false} DeclaredStep(cycles: u32, oldMax: u16, sn: u16, i: int, x: nat)
    requires i >= 1
    ensures Declared(cycles, oldMax, sn, i + 1, x) <==> Declared(cycles, oldMax, sn, i, x) || x == ExtendedSn(cycles, oldMax, Sub16(sn, i))
  {
  }

  // ---------------------------------------------------------------- a run as the buffer sees it

  /** An arrival: its number, whether it counted (it was cached and parsed), and whether a round of requests
      followed it. */
  datatype Seen = Seen(sn: u16, counted: bool, rounded: bool)

  function CountedIn(log: seq<Seen>): nat {
    if log == [] then 0 else CountedIn(log[..|log| - 1]) + if log[|log| - 1].counted then 1 else 0
  }

  function TrackerOf(log: seq<Seen>): Tracker {
    if log == [] then Tracker(0, 0)
    else
      var init := log[..|log| - 1];
      TrackerThen(CountedIn(init) == 0, TrackerOf(init), log[|log| - 1].sn)
  }

  /** What the queue knows of x after an arrival and before the round that may follow it. */
  ghost function Arrived(log: seq<Seen>, e: Seen, before: Option<nat>, x: nat): Option<nat> {
    if CountedIn(log) == 0 then before else CountThen(before, TrackerOf(log), e.sn, x)
  }

  /** The request count of x after a run. */
  ghost function QueuedCount(log: seq<Seen>, x: nat): Option<nat> {
    if log == [] then None
    else
      var init, e := log[..|log| - 1], log[|log| - 1];
      var now := Arrived(init, e, QueuedCount(init, x), x);
      if e.rounded then Effect(now, RoundOp(RoundLimit(TrackerOf(log))), x) else now
  }

  /** A round asks for the numbers more than 2 below the highest. */
  function RoundLimit(t: Tracker): u32 { Limit(Highest(t) % 0x1_0000_0000) }

  lemma {:induction false} LogStep(log: seq<Seen>, e: Seen, x: nat)
    ensures CountedIn(log + [e]) == CountedIn(log) + if e.counted then 1 else 0
    ensures TrackerOf(log + [e]) == TrackerThen(CountedIn(log) == 0, TrackerOf(log), e.sn)
    ensures QueuedCount(log + [e], x)
            == var now := Arrived(log, e, QueuedCount(log, x), x);
               if e.rounded then Effect(now, RoundOp(RoundLimit(TrackerOf(log + [e]))), x) else now
  {
    hide Effect, Arrived, TrackerThen;
    assert (log + [e])[..|log|] == log;
  }

  // ---------------------------------------------------------------- in terms of true numbers

  datatype Arrival = Arrival(t: nat, counted: bool, rounded: bool)

  function Times(run: seq<Arrival>): seq<nat> { seq(|run|, i requires 0 <= i < |run| => run[i].t) }

  function Wires(run: seq<Arrival>): seq<Seen> {
    seq(|run|, i requires 0 <= i < |run| => Seen(run[i].t % CYCLE, run[i].counted, run[i].rounded))
  }

  /** A run of plausible arrivals, the first of which counts, and whose gaps are queued right. */
  ghost predicate Orderly(run: seq<Arrival>) {
    run != [] && run[0].counted && Plausible(Times(run)) && GapsQueuedRight(Times(run))
  }

  lemma {:induction false} OrderlyPrefix(run: seq<Arrival>)
    requires Orderly(run) && |run| > 1
    ensures var k := |run| - 1;
            && Orderly(run[..k]) && Times(run[..k]) == Times(run)[..k] && Wires(run[..k]) == Wires(run)[..k]
            && Times(run) == Times(run[..k]) + [run[k].t]
  {
    var k := |run| - 1;
    assert Times(run[..k]) == Times(run)[..k];
    PlausiblePrefix(Times(run), k);
    GapsPrefix(Times(run), k);
  }

  lemma {:induction false} FirstCounts(run: seq<Arrival>)
    requires run != [] && run[0].counted
    ensures CountedIn(Wires(run)) > 0
  {
    var k := |run| - 1;
    if k > 0 {
      FirstCounts(run[..k]);
      assert Wires(run)[..k] == Wires(run[..k]);
    }
  }

  /** The buffer's tracker stands at the true running maximum. */
  lemma {:induction false} TrackerAtMax(run: seq<Arrival>)
    requires Orderly(run)
    ensures MaxOf(Times(run)) < 0x1_0000_0000 && TrackerOf(Wires(run)) == At(MaxOf(Times(run)))
  {
    MaxBound(Times(run));
    var k := |run| - 1;
    if k > 0 {
      OrderlyPrefix(run);
      TrackerAtMax(run[..k]);
      FirstCounts(run[..k]);
      TrackStep(MaxOf(Times(run[..k])), run[k].t);
    } else {
      assert Wires(run)[..0] == [];
    }
  }

  /** Between the first and the highest arrival, and not arrived. */
  predicate Missing(ts: seq<nat>, x: nat)
    requires ts != []
  {
    ts[0] < x < MaxOf(ts) && x !in ts
  }

  /** The rounds that had x below their limit. */
  function Rounds(run: seq<Arrival>, x: nat): nat {
    if run == [] then 0
    else Rounds(run[..|run| - 1], x) + if run[|run| - 1].rounded && MaxOf(Times(run)) > x + 2 then 1 else 0
  }

  lemma {:induction false} RoundsBelow(run: seq<Arrival>, x: nat)
    requires run != [] && Rounds(run, x) > 0
    ensures MaxOf(Times(run)) > x + 2
  {
    var k := |run| - 1;
    if k > 0 {
      assert Times(run)[..k] == Times(run[..k]);
      if Rounds(run[..k], x) > 0 { RoundsBelow(run[..k], x); }
    }
  }

  /** A number that is missing has been requested in each of these rounds, unless it was given up on. */
  function Expected(missing: bool, rounds: nat): Option<nat> {
    if missing && rounds <= MAX_NACK_TIMES then Some(rounds) else None
  }

  /** What an arrival does: numbers passed over become missing, its own number is no longer. */
  lemma {:induction false} ArrivalExact(run: seq<Arrival>, x: nat)
    requires Orderly(run) && |run| > 1
    ensures var k := |run| - 1;
            var init, rounds := run[..k], Rounds(run[..k], x);
            Arrived(Wires(init), Wires(run)[k], Expected(Missing(Times(init), x), rounds), x) == Expected(Missing(Times(run), x), rounds)
  {
    hide CountThen, Rounds, GapsQueuedRight, TrackerOf, Missing;
    var k := |run| - 1;
    var init, t := run[..k], run[k].t;
    OrderlyPrefix(run);
    TrackerAtMax(init);
    FirstCounts(init);
    MaxBound(Times(init));
    MaxBound(Times(run));
    var e := MaxOf(Times(init));
    GapsPrefix(Times(run), k);
    CountThenExact(e, t, Expected(Missing(Times(init), x), Rounds(init, x)), x);
    if Rounds(init, x) > 0 { RoundsBelow(init, x); }
    MissingStep(Times(init), t, x);
  }

  /** In terms of true numbers. */
  lemma {:induction false} CountThenExact(e: nat, t: nat, before: Option<nat>, x: nat)
    requires e < 0x1_0000_0000 && t < 0x1_0000_0000 && Near(e, t) && forall m :: e < m < t ==> QueuedRight(e, t, m)
    ensures CountThen(before, At(e), t % CYCLE, x)
            == if t >= e then WithMissing(before, e < x < t) else if x == t then None else before
  {
    hide Declared, QueuedBetween, ExtendedSn;
    TrackStep(e, t);
    if t >= e {
      NumberAhead(e, t);
      BetweenExact(e, t, x);
      DeclaredIsBetween(e, t, x);
    } else {
      LateNumbered(e, t);
    }
  }

  lemma {:induction false} NumberAhead(e: nat, t: nat)
    requires e <= t <= e + 0x7fff
    ensures Distance(t % CYCLE, e % CYCLE) == t - e
  {
  }

  lemma {:induction false} MissingStep(ts: seq<nat>, t: nat, x: nat)
    requires ts != [] && ts[0] <= MaxOf(ts) && MaxOf(ts) in ts && forall i :: 0 <= i < |ts| ==> ts[i] <= MaxOf(ts)
    ensures Missing(ts + [t], x)
       <==> if t >= MaxOf(ts) then Missing(ts, x) || MaxOf(ts) < x < t else Missing(ts, x) && x != t
    ensures Missing(ts, x) ==> x < MaxOf(ts)
  {
    var all := ts + [t];
    assert all[..|ts|] == ts && all[|ts|] == t;
    assert x in all <==> x in ts || x == t;
  }

  /** What the round does. */
  lemma {:induction false} RoundExact(run: seq<Arrival>, x: nat)
    requires Orderly(run) && run[|run| - 1].rounded
    ensures var k := |run| - 1;
            Effect(Expected(Missing(Times(run), x), Rounds(run[..k], x)), RoundOp(RoundLimit(TrackerOf(Wires(run)))), x)
            == Expected(Missing(Times(run), x), Rounds(run, x))
  {
    TrackerAtMax(run);
    MaxBound(Times(run));
    LimitOf(MaxOf(Times(run)));
    if Rounds(run[..|run| - 1], x) > 0 {
      RoundsBelow(run[..|run| - 1], x);
      assert Times(run)[..|run| - 1] == Times(run[..|run| - 1]);
    }
  }

  lemma {:induction false} LimitOf(m: nat)
    requires m < 0x1_0000_0000
    ensures Highest(At(m)) == m && (m >= 2 ==> RoundLimit(At(m)) == m - 2)
  {
  }

  /** The queue over any orderly run: a number is queued exactly when it lies between the first and the
      highest arrival, has not arrived, and no more than three rounds have had it below their limit, and
      then it has been requested in each of these; the fourth drops it. */
  lemma {:induction false} QueueExact(run: seq<Arrival>, x: nat)
    requires Orderly(run)
    ensures QueuedCount(Wires(run), x) == Expected(Missing(Times(run), x), Rounds(run, x))
  {
    hide Arrived, Effect, TrackerOf, Expected, Missing, Plausible, GapsQueuedRight, RoundLimit;
    var k := |run| - 1;
    if k > 0 {
      OrderlyPrefix(run);
      QueueExact(run[..k], x);
      ArrivalExact(run, x);
      assert Wires(run)[..k] == Wires(run[..k]);
      if run[k].rounded {
        RoundExact(run, x);
      }
    } else {
      FirstExact(run, x);
    }
  }

  /** The round behind an arrival asks for a number exactly when it is missing, more than 2 below the
      highest, and fewer than three rounds have asked for it before. */
  lemma {:induction false} RequestedIff(run: seq<Arrival>, queue: Queue, x: nat)
    requires Orderly(run) && |run| > 1 && Sorted(queue)
    requires var k := |run| - 1;
             forall y: nat :: CountOf(queue, y) == Arrived(Wires(run[..k]), Wires(run)[k], QueuedCount(Wires(run[..k]), y), y)
    ensures x in Eligible(queue, RoundLimit(TrackerOf(Wires(run))))
       <==> Missing(Times(run), x) && x + 2 < MaxOf(Times(run)) && Rounds(run[..|run| - 1], x) < 3
  {
    hide Arrived, QueuedCount, Rounds, TrackerOf, Eligible, RoundLimit, CountOf;
    var k := |run| - 1;
    OrderlyPrefix(run);
    QueueExact(run[..k], x);
    ArrivalExact(run, x);
    EligibleExact(queue, RoundLimit(TrackerOf(Wires(run))));
    TrackerAtMax(run);
    LimitOf(MaxOf(Times(run)));
  }

  /** The rounds that ask for x. */
  function RequestsFor(run: seq<Arrival>, x: nat): nat {
    if run == [] then 0
    else
      var init := run[..|run| - 1];
      RequestsFor(init, x)
      + if run[|run| - 1].rounded && Missing(Times(run), x) && x + 2 < MaxOf(Times(run)) && Rounds(init, x) < 3 then 1 else 0
  }

  /** So a number that stays missing is asked for in the first three rounds that have it below their limit,
      and in no other. */
  lemma {:induction false} ThreeRequests(run: seq<Arrival>, x: nat)
    requires Orderly(run) && Missing(Times(run), x)
    ensures RequestsFor(run, x) == if Rounds(run, x) < 3 then Rounds(run, x) else 3
  {
    var k := |run| - 1;
    var init := run[..k];
    if k > 0 {
      OrderlyPrefix(run);
      MaxBound(Times(init));
      hide Plausible, GapsQueuedRight;
      MissingStep(Times(init), run[k].t, x);
      if Missing(Times(init), x) {
        ThreeRequests(init, x);
      } else {
        NoRequestsYet(init, x);
      }
    }
  }

  lemma {:induction false} NoRequestsYet(run: seq<Arrival>, x: nat)
    requires Orderly(run) && MaxOf(Times(run)) <= x
    ensures Rounds(run, x) == 0 == RequestsFor(run, x)
  {
    var k := |run| - 1;
    if k > 0 {
      OrderlyPrefix(run);
      NoRequestsYet(run[..k], x);
    }
  }

  lemma {:induction false} FirstExact(run: seq<Arrival>, x: nat)
    requires Orderly(run) && |run| == 1
    ensures QueuedCount(Wires(run), x) == None == Expected(Missing(Times(run), x), Rounds(run, x))
  {
    assert Wires(run)[..0] == [];
  }
}
