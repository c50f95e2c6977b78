/** The packet path of a publisher's buffer: sequence tracking, NACK bookkeeping and caching. */
module PublisherBuffers {
  import opened Numbers
  import opened Wrappers
  import opened BucketRing
  import opened NackPairs
  import opened NackQueues
  import opened SequenceTracker
  import opened LossHistory

  datatype Feedback = GenericNack(pairs: seq<Pair>) | PictureLoss

  /** The requests for the eligible numbers of a queue, and a picture loss report if the mark has risen. */
  function FeedbackFor(q: Queue, limit: nat, before: u32, after: u32): seq<Feedback> {
    var ps := Pairs(Eligible(q, limit));
    (if ps != [] then [GenericNack(ps)] else []) + (if after > before then [PictureLoss] else [])
  }

  /** The request counts of a queue are those of a run. */
  ghost predicate CountsOf(q: Queue, log: seq<Seen>) {
    forall x: nat :: CountOf(q, x) == QueuedCount(log, x)
  }

  /** What the cache keeps when its head advances by d. */
  ghost function Kept(store: map<int, seq<u8>>, head: int, step: nat, maxSteps: nat, d: nat): map<int, seq<u8>> {
    if 1 <= d && Clear(step, maxSteps, d) then map k | k in store && k + maxSteps >= head + d :: store[k] else map[]
  }

  class PublisherBuffer {
    const bucket: Bucket
    const nacker: NackQueue
    const nack: bool
    var cycles: u32
    var maxSeqNo: u16
    var baseSn: u16
    var packetCount: nat
    var totalByte: nat
    /** How far the cache's extended numbers are ahead of the tracker's: nothing, if the first packet parsed. */
    ghost var origin: int
    /** Everything that has arrived. */
    ghost var log: seq<Seen>

    ghost predicate Valid()
      reads this, bucket, bucket.buf, nacker
    {
      && bucket.Valid() && nacker.Valid()
      && cycles % CYCLE == 0
      && (packetCount > 0 ==> bucket.init)
      && (if bucket.init then bucket.headSn == maxSeqNo && bucket.head == origin + cycles + maxSeqNo else cycles == 0)
    }

    /** Tracker and queue are those of the run. */
    ghost predicate Follows()
      reads this, nacker
    {
      && Tracker(cycles, maxSeqNo) == TrackerOf(log) && packetCount == CountedIn(log)
      && (nack ==> CountsOf(nacker.nacks, log))
    }

    constructor (b: Bucket, n: NackQueue, withNack: bool)
      requires b.Valid() && !b.init && n.Valid() && n.nacks == []
      ensures Valid() && Follows() && log == [] && bucket == b && nacker == n && nack == withNack
      ensures cycles == 0 && maxSeqNo == 0 && packetCount == 0
    {
      bucket, nacker, nack := b, n, withNack;
      cycles, maxSeqNo, baseSn, packetCount, totalByte, origin, log := 0, 0, 0, 0, 0, 0, [];
    }

    /** rsfu/src/buffer/buffer.rs:262-446: one arrival, and the round of requests that follows it unless the packet was
        not taken, or not usable: an RTP packet, for VP8 with a descriptor. `queue` is the queue between the two. */
    method Calc(pkt: seq<u8>, parses: bool, usable: bool) returns (r: Result<seq<u8>, BucketRing.Error>, feedback: seq<Feedback>, ghost queue: Queue, ghost e: Seen)
      requires Valid() && Follows() && |pkt| >= 4 && WellFormed(pkt, ReadBe16(pkt, 2))
      modifies this, nacker, bucket, bucket.buf
      ensures Valid() && Follows()
      ensures log == old(log) + [e] && e == Seen(ReadBe16(pkt, 2), r.Ok? && parses, nack && r.Ok? && parses && usable)
      ensures Caches(pkt, r, old(bucket.Base(ReadBe16(pkt, 2))), old(bucket.store), old(bucket.buf[..]), old(bucket.step))
      ensures nack ==> forall x: nat :: CountOf(queue, x) == Arrived(old(log), e, QueuedCount(old(log), x), x)
      ensures var limit := RoundLimit(Tracker(cycles, maxSeqNo));
              if e.rounded then
                nacker.nacks == Keep(queue, limit)
                && feedback == FeedbackFor(queue, limit, old(nacker.keyFrameSeqNumber), nacker.keyFrameSeqNumber)
              else nacker.nacks == queue && feedback == []
      ensures e.rounded ==> ReadsAsMissing(log, queue, feedback)
      ensures !old(bucket.init) ==> origin == 0
      ensures old(packetCount) > 0 && cycles >= old(cycles) ==> origin == old(origin)
    {
      hide Stored, SlotsHold, Sorted, Bounded, CountOf, Holds, Clear, AgreeOutside, Declared, Caches, CountThen, WellFormed, StoredSn, FeedbackFor,
        QueuedCount, Arrived, Keep, TrackerOf, CountsOf, Matches, TrackerThen, CountedIn, KeyFrame, Pairs, Eligible, Limit, RoundLimit, SlotOf, ReadBe16,
        ReadsAsMissing;
      r := Accept(pkt, parses);
      queue := nacker.nacks;
      feedback := [];
      e := Seen(ReadBe16(pkt, 2), r.Ok? && parses, nack && r.Ok? && parses && usable);
      if nack {
        ArrivalCounts(old(nacker.nacks), log, e, queue, old(packetCount) == 0);
        if r.Ok? && parses && usable {
          LimitIs(cycles, maxSeqNo);
          feedback := BuildNackPacket();
        }
      }
      RunCounts(log, e, queue, nacker.nacks, cycles, maxSeqNo, nack);
      if e.rounded { FeedbackOnRuns(log, e, queue, old(nacker.keyFrameSeqNumber), nacker.keyFrameSeqNumber); }
      log := log + [e];
    }

    /** rsfu/src/buffer/buffer.rs:262-341: track the number, queue or unqueue losses, cache the packet. Whether the bytes
        parse as RTP is for the RTP library to say. */
    method Accept(pkt: seq<u8>, parses: bool) returns (r: Result<seq<u8>, BucketRing.Error>)
      requires Valid() && |pkt| >= 4 && WellFormed(pkt, ReadBe16(pkt, 2))
      modifies this`cycles, this`maxSeqNo, this`baseSn, this`packetCount, this`totalByte, this`origin, nacker`nacks, nacker`ops, bucket, bucket.buf
      ensures Valid()
      ensures var sn := ReadBe16(pkt, 2);
        && Tracker(cycles, maxSeqNo) == TrackerThen(old(packetCount) == 0, Tracker(old(cycles), old(maxSeqNo)), sn)
        && (old(packetCount) == 0 || !nack ==> nacker.nacks == old(nacker.nacks))
        && (old(packetCount) > 0 && nack ==>
              forall x: nat :: CountOf(nacker.nacks, x) == CountThen(CountOf(old(nacker.nacks), x), Tracker(old(cycles), old(maxSeqNo)), sn, x))
        && (packetCount == old(packetCount) + if r.Ok? && parses then 1 else 0)
        && (totalByte == old(totalByte) + if r.Ok? && parses then |pkt| else 0)
        && (baseSn == if old(packetCount) == 0 then sn else old(baseSn))
      // the cache
      ensures Caches(pkt, r, old(bucket.Base(ReadBe16(pkt, 2))), old(bucket.store), old(bucket.buf[..]), old(bucket.step))
      // its extended numbers are those of the tracker
      ensures bucket.head == origin + cycles + maxSeqNo
      ensures !old(bucket.init) ==> origin == 0
      ensures old(packetCount) > 0 && cycles >= old(cycles) ==> origin == old(origin)
    {
      hide Stored, SlotsHold, Sorted, Bounded, CountOf, Holds, Clear, AgreeOutside, Declared, Caches, CountThen, WellFormed, StoredSn;
      var sn := ReadBe16(pkt, 2);
      TrackNumber(sn);
      r := AddToCache(pkt);
      if old(bucket.init) && old(packetCount) > 0 { HeadMoves(old(cycles), old(maxSeqNo), sn); }
      origin := bucket.head - cycles - maxSeqNo;
      if r.Ok? && parses {
        totalByte := totalByte + |pkt|;
        packetCount := packetCount + 1;
      }
    }

    /** The cache after a packet: one with the highest number advances its head, any other is a late one. */
    ghost predicate Caches(pkt: seq<u8>, r: Result<seq<u8>, BucketRing.Error>, base: int, store: map<int, seq<u8>>, bytes: seq<u8>, step: nat)
      requires |pkt| >= 4 && |bytes| >= SLOT * (bucket.maxSteps + 1) && bucket.step <= bucket.maxSteps
      reads this`maxSeqNo, bucket
    {
      var sn := ReadBe16(pkt, 2);
      if sn == maxSeqNo then
        var d := Distance(sn, base % CYCLE);
        && r == Ok(pkt) && bucket.head == base + d
        && bucket.store == Kept(store, base, step, bucket.maxSteps, d)[bucket.head := pkt]
      else
        var k := base - Distance(base % CYCLE, sn);
        && bucket.head == base
        && (if base - k > bucket.maxSteps then r == Err(PacketTooOld)
            else if StoredSn(bytes, SlotOf(bucket.step, bucket.maxSteps, base, k)) == sn then r == Err(RtxPacket)
            else r == Ok(pkt))
        && bucket.store == if r.Ok? then store[k := pkt] else store
    }

    /** rsfu/src/buffer/buffer.rs:313-335. */
    method AddToCache(pkt: seq<u8>) returns (r: Result<seq<u8>, BucketRing.Error>)
      requires bucket.Valid() && |pkt| >= 4 && WellFormed(pkt, ReadBe16(pkt, 2))
      modifies bucket, bucket.buf
      ensures bucket.Valid() && bucket.init
      ensures Caches(pkt, r, old(bucket.Base(ReadBe16(pkt, 2))), old(bucket.store), old(bucket.buf[..]), old(bucket.step))
      ensures var sn, base := ReadBe16(pkt, 2), old(bucket.Base(ReadBe16(pkt, 2)));
              if sn == maxSeqNo then bucket.head == base + Distance(sn, base % CYCLE) && bucket.headSn == sn && r.Ok? else bucket.head == base
    {
      hide Stored, SlotsHold, Holds, Clear, AgreeOutside, StoredSn, SlotOf, WellFormed, Sub16;
      var sn := ReadBe16(pkt, 2);
      HeadNumber(bucket.Base(sn), sn);
      r := bucket.AddPacket(pkt, sn, sn == maxSeqNo);
    }

    /** rsfu/src/buffer/buffer.rs:265-307. */
    method TrackNumber(sn: u16)
      requires nacker.Valid() && cycles % CYCLE == 0
      modifies this`cycles, this`maxSeqNo, this`baseSn, nacker`nacks, nacker`ops
      ensures nacker.Valid() && cycles % CYCLE == 0
      ensures Tracker(cycles, maxSeqNo) == TrackerThen(packetCount == 0, Tracker(old(cycles), old(maxSeqNo)), sn)
      ensures baseSn == if packetCount == 0 then sn else old(baseSn)
      ensures packetCount == 0 || !nack ==> nacker.nacks == old(nacker.nacks)
      ensures packetCount > 0 && nack ==>
        forall x: nat :: CountOf(nacker.nacks, x) == CountThen(CountOf(old(nacker.nacks), x), Tracker(old(cycles), old(maxSeqNo)), sn, x)
    {
      hide Sorted, Bounded, CountOf, Declared, Matches, ExtendedSn;
      NumberFits(cycles, maxSeqNo, sn);
      var distance := Distance(sn, maxSeqNo);
      if packetCount == 0 {
        baseSn := sn;
        maxSeqNo := sn;
      } else if distance < 0x8000 {
        if sn < maxSeqNo {
          cycles := (cycles + CYCLE) % 0x1_0000_0000;
        }
        if nack {
          DeclareMissing(sn);
        }
        maxSeqNo := sn;
      } else if nack {
        var gone := nacker.Remove(ExtendedSn(cycles, maxSeqNo, sn));
      }
    }

    /** rsfu/src/buffer/buffer.rs:277-294: every number between the old maximum and `sn` goes into the queue. */
    method DeclareMissing(sn: u16)
      requires nacker.Valid() && cycles % CYCLE == 0
      modifies nacker`nacks, nacker`ops
      ensures nacker.Valid()
      ensures forall x: nat ::
        CountOf(nacker.nacks, x) == WithMissing(CountOf(old(nacker.nacks), x), Declared(cycles, maxSeqNo, sn, Sub16(sn, maxSeqNo), x))
    {
      hide Sorted, Bounded, CountOf, Declared, Matches, Sub32;
      NothingDeclared(cycles, maxSeqNo, sn);
      var diff := Sub16(sn, maxSeqNo);
      var i := 1;
      while i < diff
        invariant 1 <= i && (i <= diff || i == 1)
        invariant nacker.Valid()
        invariant forall x: nat ::
          CountOf(nacker.nacks, x) == WithMissing(CountOf(old(nacker.nacks), x), Declared(cycles, maxSeqNo, sn, i, x))
      {
        var msn := Sub16(sn, i);
        NumberFits(cycles, maxSeqNo, msn);
        ghost var ext := ExtendedSn(cycles, maxSeqNo, msn);
        forall x: nat ensures Declared(cycles, maxSeqNo, sn, i + 1, x) <==> Declared(cycles, maxSeqNo, sn, i, x) || x == ext {
          DeclaredStep(cycles, maxSeqNo, sn, i, x);
        }
        if msn > maxSeqNo && msn >= 0x8000 && maxSeqNo < 0x8000 {
          nacker.Push(Sub32(cycles, CYCLE) + msn);
        } else {
          nacker.Push(cycles + msn);
        }
        i := i + 1;
      }
    }

    /** One round of requests for the numbers below the highest, and a picture loss report when the
        queue has given up on a number. */
    method BuildNackPacket() returns (pkts: seq<Feedback>)
      requires Valid()
      modifies nacker
      ensures Valid()
      ensures var limit := Limit(cycles + maxSeqNo);
        && nacker.nacks == Keep(old(nacker.nacks), limit)
        && nacker.keyFrameSeqNumber == KeyFrame(old(nacker.nacks), old(nacker.keyFrameSeqNumber))
        && pkts == FeedbackFor(old(nacker.nacks), limit, old(nacker.keyFrameSeqNumber), nacker.keyFrameSeqNumber)
    {
      hide Pairs;
      EmptyRound(Limit(cycles + maxSeqNo), nacker.keyFrameSeqNumber);
      NoPairs();
      var seqNumber := cycles + maxSeqNo;
      var nacks, askKeyFrame := nacker.MakePairs(seqNumber);
      pkts := [];
      var nacksLen := 0;
      if nacks.Some? {
        nacksLen := |nacks.value|;
      }
      if nacksLen > 0 || askKeyFrame {
        if nacksLen > 0 {
          pkts := pkts + [GenericNack(nacks.value)];
        }
        if askKeyFrame {
          pkts := pkts + [PictureLoss];
        }
      }
    }
  }

  /** The distance the cache's head moves is the one the tracker moves, unless 32 bits wrap. */
  lemma {:induction false} HeadMoves(cycles: u32, max: u16, sn: u16)
    requires cycles % CYCLE == 0
    ensures var t := Track(Tracker(cycles, max), sn);
            IsAhead(Tracker(cycles, max), sn) && t.cycles >= cycles ==> t.cycles + t.maxSeqNo == cycles + max + Distance(sn, max)
  {
  }

  lemma {:induction false} NothingDeclared(cycles: u32, max: u16, sn: u16)
    ensures forall d: int, x: nat :: d <= 1 ==> !Declared(cycles, max, sn, d, x)
  {}

  lemma {:induction false} NoPairs()
    ensures Pairs([]) == []
  {}

  /** The queue after an arrival, if it was that of the run before it. */
  lemma {:induction false} ArrivalCounts(q: Queue, log: seq<Seen>, e: Seen, queue: Queue, first: bool)
    requires CountsOf(q, log) && first == (CountedIn(log) == 0)
    requires if first then queue == q else forall x: nat :: CountOf(queue, x) == CountThen(CountOf(q, x), TrackerOf(log), e.sn, x)
    ensures forall x: nat :: CountOf(queue, x) == Arrived(log, e, QueuedCount(log, x), x)
  {
    hide CountThen;
  }

  lemma {:induction false} LimitIs(cycles: u32, max: u16)
    requires cycles % CYCLE == 0
    ensures RoundLimit(Tracker(cycles, max)) == Limit(cycles + max)
  {
    hide Limit;
    var k := cycles as int / 0x1_0000;
    assert cycles == 0x1_0000 * k && k <= 0xffff;
  }

  /** And after the round, if there is one. */
  lemma {:induction false} RunCounts(log: seq<Seen>, e: Seen, queue: Queue, q: Queue, cycles: u32, max: u16, nack: bool)
    requires Tracker(cycles, max) == TrackerThen(CountedIn(log) == 0, TrackerOf(log), e.sn) && cycles % CYCLE == 0
    requires nack ==> Sorted(queue) && forall x: nat :: CountOf(queue, x) == Arrived(log, e, QueuedCount(log, x), x)
    requires q == if e.rounded then Keep(queue, Limit(cycles + max)) else queue
    ensures Tracker(cycles, max) == TrackerOf(log + [e]) && CountedIn(log + [e]) == CountedIn(log) + if e.counted then 1 else 0
    ensures nack ==> CountsOf(q, log + [e])
  {
    hide Arrived, QueuedCount, Keep, TrackerThen, TrackerOf, Sorted, RoundLimit, Limit, CountOf;
    LogStep(log, e, 0);
    LimitIs(cycles, max);
    if nack {
      forall x: nat ensures CountOf(q, x) == QueuedCount(log + [e], x) {
        LogStep(log, e, x);
        if e.rounded { CountKeep(queue, Limit(cycles + max), x); }
      }
    }
  }

  lemma {:induction false} NumberFits(cycles: u32, max: u16, sn: u16)
    requires cycles % CYCLE == 0
    ensures 0 <= ExtendedSn(cycles, max, sn) < 0x1_0000_0000 && cycles + sn < 0x1_0000_0000
    ensures sn > max && sn >= 0x8000 && max < 0x8000 ==> ExtendedSn(cycles, max, sn) == Sub32(cycles, CYCLE) + sn
    ensures (cycles + CYCLE) % 0x1_0000_0000 % CYCLE == 0
  {
  }

  // ---------------------------------------------------------------- what the feedback says

  /** The numbers a receiver of the feedback reads as lost. */
  function Requested(fs: seq<Feedback>): seq<u16> {
    if fs == [] then []
    else Requested(fs[..|fs| - 1]) + match fs[|fs| - 1] case GenericNack(ps) => Decode(ps) case PictureLoss => []
  }

  /** The numbers of a round can be read back. */
  ghost predicate Readable(nums: seq<nat>) {
    Distinguishable(nums) && (nums != [] ==> LowHalf(nums[0]) != 0 && WrapsWithBound(nums))
  }

  /** The number is queued, below the limit, and has been requested fewer than three times. */
  ghost predicate Asked(q: Queue, limit: nat, x: nat) {
    exists k :: 0 <= k < |q| && q[k].nackd < 3 && q[k].seqNumber < limit && q[k].seqNumber == x
  }

  lemma {:induction false} EligibleIff(q: Queue, limit: nat, x: nat)
    ensures x in Eligible(q, limit) <==> Asked(q, limit, x)
  {
    if q != [] {
      var init := q[..|q| - 1];
      EligibleIff(init, limit, x);
      if k :| 0 <= k < |init| && init[k].nackd < 3 && init[k].seqNumber < limit && init[k].seqNumber == x {
        assert q[k] == init[k];
      }
      if k :| 0 <= k < |q| && q[k].nackd < 3 && q[k].seqNumber < limit && q[k].seqNumber == x && k < |init| {
        assert init[k] == q[k];
      }
    }
  }

  /** A round is answered with a generic NACK exactly if a number is asked for whose low half is not 0, and
      with a picture loss report behind it exactly if the mark has risen; a receiver reads exactly the
      numbers asked for, if they can be read back. */
  lemma {:induction false} FeedbackIs(q: Queue, limit: nat, before: u32, after: u32)
    ensures var fs := FeedbackFor(q, limit, before, after);
            && ((exists i :: 0 <= i < |fs| && fs[i].GenericNack?) <==> exists x: nat :: Asked(q, limit, x) && x % 0x1_0000 != 0)
            && (PictureLoss in fs <==> after > before)
            && (forall i, j :: 0 <= i < j < |fs| ==> fs[i].GenericNack? && fs[j].PictureLoss?)
            && (Readable(Eligible(q, limit)) ==>
                  forall w: u16 :: w in Requested(fs) <==> exists x: nat :: Asked(q, limit, x) && x % 0x1_0000 == w)
  {
    hide Pairs, Readable, Decode, Eligible, Asked;
    var nums := Eligible(q, limit);
    var fs := FeedbackFor(q, limit, before, after);
    forall x: nat ensures x in nums <==> Asked(q, limit, x) { EligibleIff(q, limit, x); }
    NackIff(nums);
    RequestedIs(Pairs(nums), after > before);
    if Readable(nums) {
      forall w: u16 ensures w in Requested(fs) <==> exists x: nat :: x in nums && x % 0x1_0000 == w { ReadBack(nums, w); }
    }
  }

  lemma {:induction false} NackIff(nums: seq<nat>)
    ensures Pairs(nums) != [] <==> exists x: nat :: x in nums && x % 0x1_0000 != 0
  {
    hide Pairs;
    PairsEmptyIff(nums);
    if i :| 0 <= i < |nums| && nums[i] % 0x1_0000 != 0 {
      assert nums[i] in nums;
    }
    if x: nat :| x in nums && x % 0x1_0000 != 0 {
      var i :| 0 <= i < |nums| && nums[i] == x;
      assert nums[i] % 0x1_0000 != 0;
    }
  }

  lemma {:induction false} ReadBack(nums: seq<nat>, w: u16)
    requires Readable(nums)
    ensures w in Decode(Pairs(nums)) <==> exists x: nat :: x in nums && x % 0x1_0000 == w
  {
    hide Decode, Pairs;
    DecodeIff(nums);
    if w in Lows(nums) {
      var i :| 0 <= i < |nums| && Lows(nums)[i] == w;
      assert nums[i] in nums;
    }
    if x: nat :| x in nums && x % 0x1_0000 == w {
      var i :| 0 <= i < |nums| && nums[i] == x;
      assert Lows(nums)[i] == w;
    }
  }

  lemma {:induction false} RequestedIs(ps: seq<Pair>, loss: bool)
    ensures var fs := (if ps != [] then [GenericNack(ps)] else []) + (if loss then [PictureLoss] else []);
            Requested(fs) == Decode(ps)
  {
    hide Decode;
    NothingDecoded();
    var nack: seq<Feedback> := if ps != [] then [GenericNack(ps)] else [];
    if ps != [] { assert [GenericNack(ps)][..0] == []; }
    assert Requested(nack) == Decode(ps);
    assert (nack + [PictureLoss])[..|nack|] == nack;
    assert nack + [] == nack;
  }

  /** Over an orderly run, a receiver of the feedback of a round reads exactly the numbers that are missing,
      more than 2 below the highest, and have been asked for in fewer than three rounds before. */
  lemma {:induction false} FeedbackExact(run: seq<Arrival>, queue: Queue, before: u32, after: u32, w: u16)
    requires Orderly(run) && |run| > 1 && Sorted(queue)
    requires var k := |run| - 1;
             forall y: nat :: CountOf(queue, y) == Arrived(Wires(run[..k]), Wires(run)[k], QueuedCount(Wires(run[..k]), y), y)
    requires Readable(Eligible(queue, RoundLimit(TrackerOf(Wires(run)))))
    ensures w in Requested(FeedbackFor(queue, RoundLimit(TrackerOf(Wires(run))), before, after))
       <==> exists x: nat :: x % 0x1_0000 == w && Missing(Times(run), x) && x + 2 < MaxOf(Times(run)) && Rounds(run[..|run| - 1], x) < 3
  {
    hide FeedbackFor, Requested, Readable, Arrived, QueuedCount, TrackerOf, RoundLimit, Orderly, CountOf, Missing, Rounds, Asked;
    var limit := RoundLimit(TrackerOf(Wires(run)));
    FeedbackIs(queue, limit, before, after);
    forall x: nat
      ensures Asked(queue, limit, x) <==> Missing(Times(run), x) && x + 2 < MaxOf(Times(run)) && Rounds(run[..|run| - 1], x) < 3
    {
      EligibleIff(queue, limit, x);
      RequestedIff(run, queue, x);
    }
  }

  /** So, of a buffer to which any orderly run of arrivals has happened: that is what the feedback of the
      round behind the last one reads as. */
  ghost predicate ReadsAsMissing(log: seq<Seen>, queue: Queue, feedback: seq<Feedback>) {
    forall run: seq<Arrival>, w: u16 :: Orderly(run) && |run| > 1 && Wires(run) == log && Readable(Eligible(queue, RoundLimit(TrackerOf(log)))) ==>
      (w in Requested(feedback)
       <==> exists x: nat :: x % 0x1_0000 == w && Missing(Times(run), x) && x + 2 < MaxOf(Times(run)) && Rounds(run[..|run| - 1], x) < 3)
  }

  lemma {:induction false} FeedbackOnRuns(log: seq<Seen>, e: Seen, queue: Queue, before: u32, after: u32)
    requires Sorted(queue) && forall x: nat :: CountOf(queue, x) == Arrived(log, e, QueuedCount(log, x), x)
    ensures ReadsAsMissing(log + [e], queue, FeedbackFor(queue, RoundLimit(TrackerOf(log + [e])), before, after))
  {
    hide FeedbackFor, Requested, Readable, Arrived, QueuedCount, TrackerOf, RoundLimit, CountOf, Missing, Rounds, Eligible, Sorted, MaxOf, Wires, Orderly;
    forall run: seq<Arrival>, w: u16
      | Orderly(run) && |run| > 1 && Wires(run) == log + [e] && Readable(Eligible(queue, RoundLimit(TrackerOf(log + [e]))))
      ensures w in Requested(FeedbackFor(queue, RoundLimit(TrackerOf(log + [e])), before, after))
         <==> exists x: nat :: x % 0x1_0000 == w && Missing(Times(run), x) && x + 2 < MaxOf(Times(run)) && Rounds(run[..|run| - 1], x) < 3
    {
      OrderlyPrefix(run);
      WiresLength(run);
      assert (log + [e])[..|log|] == log;
      FeedbackExact(run, queue, before, after, w);
    }
  }

  lemma {:induction false} WiresLength(run: seq<Arrival>)
    ensures |Wires(run)| == |run|
  {
  }
}
