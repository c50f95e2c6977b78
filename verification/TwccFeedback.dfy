/** The feedback message as a whole: header, status chunks and receive deltas (sections 3.1 and 3.1.5
    of draft-holmer-rmcat-transport-wide-cc-extensions-01), and what a receiver rebuilds from it. */
module TwccFeedback {
  import opened Numbers
  import opened Wrappers
  import opened TwccWire
  import opened TwccPacker
  import opened TwccRuns

  /** A packet to report on, with its arrival time in units of 100 ns; zero means it was not received. */
  datatype Arrival = Arrival(extSn: u32, timestamp: int)

  // ---------------------------------------------------------------- deltas

  /** The writer counts reference times in 64000 of its units, 6.4 ms, and deltas in 250, 25 us. */
  function RefTime(ts: int): int { TruncDiv(ts, 64000) }

  /** The timestamp the next delta is measured from: the last received one, or the reference time. */
  function Clock(pkts: seq<Arrival>): Option<int> {
    if pkts == [] then None
    else if pkts[|pkts| - 1].timestamp != 0 then Some(pkts[|pkts| - 1].timestamp)
    else Clock(pkts[..|pkts| - 1])
  }

  function DeltaFrom(clock: Option<int>, ts: int): int {
    TruncDiv(ts - (if clock.Some? then clock.value else RefTime(ts) * 64000), 250)
  }

  function AsI16(x: int): int { (x + 0x8000) % 0x1_0000 - 0x8000 }

  /** The i16 stored for a large delta: the truncated value, or an end of the range chosen by the sign
      of the truncated value. */
  function Stored(delta: int): int {
    var r := AsI16(delta);
    if r == delta then r else if r > 0 then 0x7fff else -0x8000
  }

  function StatusOf(clock: Option<int>, ts: int): Status {
    if ts == 0 then NotReceived
    else if 0 <= DeltaFrom(clock, ts) <= 255 then SmallDelta
    else LargeDelta
  }

  function DeltaBytesOf(clock: Option<int>, ts: int): seq<u8> {
    if ts == 0 then []
    else if 0 <= DeltaFrom(clock, ts) <= 255 then [DeltaFrom(clock, ts)]
    else Be16(Stored(DeltaFrom(clock, ts)) % 0x1_0000)
  }

  function Statuses(pkts: seq<Arrival>): (ss: seq<Status>)
    ensures |ss| == |pkts|
  {
    if pkts == [] then []
    else Statuses(pkts[..|pkts| - 1]) + [StatusOf(Clock(pkts[..|pkts| - 1]), pkts[|pkts| - 1].timestamp)]
  }

  function DeltaBytes(pkts: seq<Arrival>): seq<u8> {
    if pkts == [] then []
    else DeltaBytes(pkts[..|pkts| - 1]) + DeltaBytesOf(Clock(pkts[..|pkts| - 1]), pkts[|pkts| - 1].timestamp)
  }

  function FirstTime(pkts: seq<Arrival>): Option<int> {
    if pkts == [] then None
    else if FirstTime(pkts[..|pkts| - 1]).Some? then FirstTime(pkts[..|pkts| - 1])
    else Clock(pkts)
  }

  function ReceivedCount(pkts: seq<Arrival>): nat {
    if pkts == [] then 0
    else ReceivedCount(pkts[..|pkts| - 1]) + if pkts[|pkts| - 1].timestamp != 0 then 1 else 0
  }

  // ---------------------------------------------------------------- reading deltas

  datatype Reading = Reading(times: seq<Option<int>>, clock: int, pos: nat)

  /** The draft's units, in microseconds: 64 ms for the reference time, 250 us for a delta. */
  const REFERENCE := 64000
  const TICK := 250

  /** A receiver walks the statuses and consumes one or two delta bytes for each received packet; its
      times are in microseconds. */
  function ReadTimes(start: int, ss: seq<Status>, bytes: seq<u8>): Option<Reading> {
    if ss == [] then Some(Reading([], start, 0))
    else
      var before := ReadTimes(start, ss[..|ss| - 1], bytes);
      if before == None then None
      else ReadOne(before.value, ss[|ss| - 1], bytes)
  }

  function ReadOne(r: Reading, s: Status, bytes: seq<u8>): Option<Reading> {
    match s
    case NotReceived => Some(r.(times := r.times + [None]))
    case SmallDelta =>
      if r.pos + 1 > |bytes| then None
      else
        var delta: int := bytes[r.pos];
        var t := r.clock + TICK * delta;
        Some(Reading(r.times + [Some(t)], t, r.pos + 1))
    case LargeDelta =>
      if r.pos + 2 > |bytes| then None
      else
        var t := r.clock + TICK * AsI16(ReadBe16(bytes, r.pos));
        Some(Reading(r.times + [Some(t)], t, r.pos + 2))
    case WithoutDelta => None
  }

  /** Every delta fits the 16 bits a large delta has. */
  ghost predicate Fits(pkts: seq<Arrival>) {
    forall i :: 0 <= i < |pkts| && pkts[i].timestamp != 0 ==>
      -0x8000 <= DeltaFrom(Clock(pkts[..i]), pkts[i].timestamp) <= 0x7fff
  }

  /** A rebuilt number of microseconds is the recorded number of 100 ns units, up to less than 250 per
      packet received so far; RebuiltTenfold says what that makes of the times. */
  ghost predicate Close(rebuilt: int, recorded: int, received: nat) {
    -249 * received <= rebuilt - recorded <= 249 * received
  }

  ghost predicate TimesMatch(times: seq<Option<int>>, pkts: seq<Arrival>) {
    |times| == |pkts| &&
    forall i :: 0 <= i < |pkts| ==>
      if pkts[i].timestamp == 0 then times[i] == None
      else times[i].Some? && Close(times[i].value, pkts[i].timestamp, ReceivedCount(pkts[..i + 1]))
  }

  lemma {:induction false} FitsPrefix(pkts: seq<Arrival>, n: nat)
    requires Fits(pkts) && n <= |pkts|
    ensures Fits(pkts[..n])
  {
    forall i | 0 <= i < n && pkts[i].timestamp != 0
      ensures -0x8000 <= DeltaFrom(Clock(pkts[..n][..i]), pkts[..n][i].timestamp) <= 0x7fff
    {
      assert pkts[..n][..i] == pkts[..i];
    }
  }

  lemma {:induction false} DeltaError(x: int)
    ensures -249 <= 250 * TruncDiv(x, 250) - x <= 249
  {}

  lemma {:induction false} ReadBack(r: Reading, d: int, bytes: seq<u8>, own: seq<u8>, s: Status)
    requires -0x8000 <= d <= 0x7fff
    requires if 0 <= d <= 255 then s == SmallDelta && own == [d] else s == LargeDelta && own == Be16(Stored(d) % 0x1_0000)
    requires r.pos + |own| <= |bytes| && bytes[r.pos..r.pos + |own|] == own
    ensures ReadOne(r, s, bytes) == Some(Reading(r.times + [Some(r.clock + 250 * d)], r.clock + 250 * d, r.pos + |own|))
  {
  }

  /** Reading one received packet's delta moves the receiver's clock to within 249 more of the truth. */
  lemma {:induction false} ReadReceived(r: Reading, clock: Option<int>, ts: int, bytes: seq<u8>, received: nat)
    requires ts != 0 && -0x8000 <= DeltaFrom(clock, ts) <= 0x7fff
    requires if clock.Some? then Close(r.clock, clock.value, received) else r.clock == RefTime(ts) * 64000
    requires r.pos + |DeltaBytesOf(clock, ts)| <= |bytes|
    requires bytes[r.pos..r.pos + |DeltaBytesOf(clock, ts)|] == DeltaBytesOf(clock, ts)
    ensures var q := ReadOne(r, StatusOf(clock, ts), bytes);
            && q.Some? && q.value.pos == r.pos + |DeltaBytesOf(clock, ts)|
            && q.value.times == r.times + [Some(q.value.clock)]
            && Close(q.value.clock, ts, received + 1)
  {
    DeltaError(ts - if clock.Some? then clock.value else RefTime(ts) * 64000);
    ReadBack(r, DeltaFrom(clock, ts), bytes, DeltaBytesOf(clock, ts), StatusOf(clock, ts));
  }

  /** A reading that matches the packets: all delta bytes used, every time close, clock in step. */
  ghost predicate InStep(r: Reading, start: int, pkts: seq<Arrival>) {
    && r.pos == |DeltaBytes(pkts)|
    && TimesMatch(r.times, pkts)
    && (if Clock(pkts).Some? then Close(r.clock, Clock(pkts).value, ReceivedCount(pkts)) else r.clock == start)
  }

  lemma {:induction false} FirstIffClock(pkts: seq<Arrival>)
    ensures FirstTime(pkts).Some? <==> Clock(pkts).Some?
  {
    if pkts != [] { FirstIffClock(pkts[..|pkts| - 1]); }
  }

  /** Arrival times rebuilt from the reference time and the deltas, packet by packet. */
  lemma {:induction false} TimesRebuilt(pkts: seq<Arrival>, start: int, bytes: seq<u8>)
    requires Fits(pkts)
    requires FirstTime(pkts).Some? ==> start == RefTime(FirstTime(pkts).value) * 64000
    requires DeltaBytes(pkts) <= bytes
    ensures var r := ReadTimes(start, Statuses(pkts), bytes); r.Some? && InStep(r.value, start, pkts)
  {
    if pkts != [] {
      var init := pkts[..|pkts| - 1];
      FitsPrefix(pkts, |init|);
      assert DeltaBytes(init) <= DeltaBytes(pkts);
      TimesRebuilt(init, start, bytes);
      StepRebuilt(pkts, start, bytes, ReadTimes(start, Statuses(init), bytes).value);
      ReadTimesStep(pkts, start, bytes);
    }
  }

  lemma {:induction false} ReadTimesStep(pkts: seq<Arrival>, start: int, bytes: seq<u8>)
    requires pkts != []
    ensures var init := pkts[..|pkts| - 1];
            var before := ReadTimes(start, Statuses(init), bytes);
            ReadTimes(start, Statuses(pkts), bytes)
            == if before.None? then None else ReadOne(before.value, StatusOf(Clock(init), pkts[|init|].timestamp), bytes)
  {
  }

  lemma {:induction false} StepRebuilt(pkts: seq<Arrival>, start: int, bytes: seq<u8>, r: Reading)
    requires pkts != [] && Fits(pkts) && DeltaBytes(pkts) <= bytes
    requires FirstTime(pkts).Some? ==> start == RefTime(FirstTime(pkts).value) * 64000
    requires InStep(r, start, pkts[..|pkts| - 1])
    ensures var q := ReadOne(r, StatusOf(Clock(pkts[..|pkts| - 1]), pkts[|pkts| - 1].timestamp), bytes);
            q.Some? && InStep(q.value, start, pkts)
  {
    var init, last := pkts[..|pkts| - 1], pkts[|pkts| - 1];
    var own := DeltaBytesOf(Clock(init), last.timestamp);
    FirstIffClock(init);
    if last.timestamp != 0 {
      assert bytes[r.pos..r.pos + |own|] == DeltaBytes(pkts)[r.pos..r.pos + |own|] == own;
      ReadReceived(r, Clock(init), last.timestamp, bytes, ReceivedCount(init));
    }
    var q := ReadOne(r, StatusOf(Clock(init), last.timestamp), bytes).value;
    TimesExtend(r.times, init, q.times, pkts);
  }

  lemma {:induction false} TimesExtend(before: seq<Option<int>>, init: seq<Arrival>, times: seq<Option<int>>, pkts: seq<Arrival>)
    requires pkts != [] && init == pkts[..|pkts| - 1] && TimesMatch(before, init)
    requires |times| == |pkts| && before == times[..|init|]
    requires var last := pkts[|init|];
             if last.timestamp == 0 then times[|init|] == None
             else times[|init|].Some? && Close(times[|init|].value, last.timestamp, ReceivedCount(pkts))
    ensures TimesMatch(times, pkts)
  {
    forall i | 0 <= i < |pkts|
      ensures if pkts[i].timestamp == 0 then times[i] == None
              else times[i].Some? && Close(times[i].value, pkts[i].timestamp, ReceivedCount(pkts[..i + 1]))
    {
      if i < |init| {
        assert init[i] == pkts[i] && before[i] == times[i] && init[..i + 1] == pkts[..i + 1];
      } else {
        assert pkts[..i + 1] == pkts;
      }
    }
  }

  /** The times, in nanoseconds, whose 100 ns units the packets carry. */
  ghost predicate Recorded(pkts: seq<Arrival>, times: seq<int>) {
    |times| == |pkts| && forall i :: 0 <= i < |pkts| && pkts[i].timestamp != 0 ==> pkts[i].timestamp == TruncDiv(times[i], 100)
  }

  /** A receiver's time is ten times the true one, to within 249 us per received packet and 990 ns. */
  ghost predicate Tenfold(rebuilt: int, ns: int, received: nat) {
    -249_000 * received - 990 <= 1000 * rebuilt - 10 * ns <= 249_000 * received + 990
  }

  ghost predicate TimesTenfold(times: seq<Option<int>>, pkts: seq<Arrival>, ns: seq<int>) {
    |times| == |pkts| == |ns| && forall i :: 0 <= i < |pkts| ==>
      if pkts[i].timestamp == 0 then times[i] == None
      else times[i].Some? && Tenfold(times[i].value, ns[i], ReceivedCount(pkts[..i + 1]))
  }

  /** Since the writer's units are a tenth of the draft's, every time and every distance between two times
      comes out ten times too large. */
  lemma {:induction false} RebuiltTenfold(times: seq<Option<int>>, pkts: seq<Arrival>, ns: seq<int>)
    requires TimesMatch(times, pkts) && Recorded(pkts, ns)
    ensures TimesTenfold(times, pkts, ns)
    ensures forall i, j :: 0 <= i < |pkts| && 0 <= j < |pkts| && pkts[i].timestamp != 0 && pkts[j].timestamp != 0 ==>
      times[i].Some? && times[j].Some?
      && Tenfold(times[i].value - times[j].value, ns[i] - ns[j], ReceivedCount(pkts[..i + 1]) + ReceivedCount(pkts[..j + 1]) + 1)
  {
    hide ReceivedCount;
    assert |times| == |pkts|;
    forall i | 0 <= i < |pkts| && pkts[i].timestamp != 0 ensures times[i].Some? && Tenfold(times[i].value, ns[i], ReceivedCount(pkts[..i + 1])) {
      assert Close(times[i].value, pkts[i].timestamp, ReceivedCount(pkts[..i + 1]));
      HundredError(ns[i]);
    }
  }

  lemma {:induction false} HundredError(x: int)
    ensures -99 <= 100 * TruncDiv(x, 100) - x <= 99
  {}

  /** A time is rebuilt to within 250 us per received packet only if it lies within about 56 us per received
      packet of 0, and certainly if it lies within about 0.1 us per received packet. */
  lemma {:induction false} RightNearZero(rebuilt: int, ns: int, received: nat)
    requires Tenfold(rebuilt, ns, received)
    ensures var right := -250_000 * received <= 1000 * rebuilt - ns <= 250_000 * received;
            && (right ==> -499_000 * received - 990 <= 9 * ns <= 499_000 * received + 990)
            && (-1000 * received + 990 <= 9 * ns <= 1000 * received - 990 ==> right)
  {}

  /** A received packet has a small delta exactly from less than one delta unit before the last one to 256
      units behind it, and otherwise a large one. */
  lemma {:induction false} StatusIff(clock: int, ts: int)
    requires ts != 0
    ensures StatusOf(Some(clock), ts) == SmallDelta <==> -250 < ts - clock < 64000
    ensures StatusOf(Some(clock), ts) == LargeDelta <==> !(-250 < ts - clock < 64000)
  {}

  /** A packet that arrives within 100 ns of time 0 is reported as lost, and only such a packet is. */
  lemma {:induction false} ReceivedIff(clock: Option<int>, ns: int)
    ensures StatusOf(clock, TruncDiv(ns, 100)) != NotReceived <==> ns <= -100 || ns >= 100
  {}

  /** The deltas appended take one byte per small and two per large status. */
  function CountOf(ss: seq<Status>, s: Status): nat {
    if ss == [] then 0 else CountOf(ss[..|ss| - 1], s) + if ss[|ss| - 1] == s then 1 else 0
  }

  lemma {:induction false} DeltaLength(pkts: seq<Arrival>)
    ensures |DeltaBytes(pkts)| == CountOf(Statuses(pkts), SmallDelta) + 2 * CountOf(Statuses(pkts), LargeDelta)
    ensures CountOf(Statuses(pkts), SmallDelta) + CountOf(Statuses(pkts), LargeDelta) == ReceivedCount(pkts)
  {
    if pkts != [] {
      var init := pkts[..|pkts| - 1];
      DeltaLength(init);
      assert Statuses(pkts)[..|init|] == Statuses(init);
    }
  }

  /** The first received packet has a small delta exactly when it is not 250 units or more before its
      own reference time, which can only happen to a negative timestamp. */
  lemma {:induction false} FirstDeltaSmallIff(ts: int)
    requires ts != 0
    ensures StatusOf(None, ts) == SmallDelta <==> ts - RefTime(ts) * 64000 > -250
    ensures ts > 0 ==> StatusOf(None, ts) == SmallDelta
  {}

  /** A delta that does not fit is saturated to the right end exactly when truncation keeps its sign. */
  lemma {:induction false} StoredSaturatesIff(delta: int)
    ensures Stored(delta) == (if delta > 0x7fff then 0x7fff else if delta < -0x8000 then -0x8000 else delta)
            <==> -0x8000 <= delta <= 0x7fff || (delta > 0 <==> AsI16(delta) > 0)
  {}

  /** One full wrap above the range is stored as the most negative delta. */
  lemma {:induction false} StoredCounterexample()
    ensures Stored(0x1_0000) == -0x8000
  {}

  // ---------------------------------------------------------------- the message

  function HeaderBytes(senderSsrc: u32, mediaSsrc: u32, baseSn: u16, count: u16, refTime: u32, feedbackCount: u8): seq<u8> {
    OrCount(refTime % 0x100_0000, feedbackCount);
    Be32(senderSsrc) + Be32(mediaSsrc) + Be16(baseSn) + Be16(count)
    + Be32(BitOr(Shl(refTime % 0x100_0000, 8), feedbackCount))
  }

  lemma {:induction false} OrCount(time: nat, count: u8)
    ensures BitOr(Shl(time, 8), count) == 0x100 * time + count
  {
    ShlIsTimes(time, 8);
    assert Shl(1, 8) == 0x100;
    OrAdds(time, count, 8);
  }

  datatype Header = Header(senderSsrc: u32, mediaSsrc: u32, baseSn: u16, count: u16, refTime: nat, feedbackCount: nat)

  function ReadHeader(bytes: seq<u8>): Header
    requires |bytes| >= 16
  {
    Header(ReadBe32(bytes, 0), ReadBe32(bytes, 4), ReadBe16(bytes, 8), ReadBe16(bytes, 10),
           ReadBe32(bytes, 12) / 0x100, ReadBe32(bytes, 12) % 0x100)
  }

  lemma {:induction false} HeaderRoundTrip(h: Header, head: seq<u8>, rest: seq<u8>)
    requires h.refTime < 0x100_0000 && h.feedbackCount < 0x100
    requires head == HeaderBytes(h.senderSsrc, h.mediaSsrc, h.baseSn, h.count, h.refTime, h.feedbackCount)
    ensures |head| == 16 && ReadHeader(head + rest) == h
  {
    hide ReadBe32, ReadBe16, Be32, Be16, HeaderBytes;
    var last: u32 := 0x100 * h.refTime + h.feedbackCount;
    HeaderBytesAre(h, last);
    Be32Length(h.senderSsrc, h.mediaSsrc, last);
    Be16Length(h.baseSn, h.count);
    var bytes := head + rest;
    FiveParts(Be32(h.senderSsrc), Be32(h.mediaSsrc), Be16(h.baseSn), Be16(h.count), Be32(last), rest);
    Be32At(bytes, 0, h.senderSsrc);
    Be32At(bytes, 4, h.mediaSsrc);
    Be16At(bytes, 8, h.baseSn);
    Be16At(bytes, 10, h.count);
    Be32At(bytes, 12, last);
  }

  /** Every field has its most significant octet first; the reference time has three, the count one. */
  lemma {:induction false} HeaderOctets(h: Header, head: seq<u8>)
    requires h.refTime < 0x100_0000 && h.feedbackCount < 0x100
    requires head == HeaderBytes(h.senderSsrc, h.mediaSsrc, h.baseSn, h.count, h.refTime, h.feedbackCount)
    ensures var b: seq<int> := head;
            && |b| == 16
            && h.senderSsrc == 0x100_0000 * b[0] + 0x1_0000 * b[1] + 0x100 * b[2] + b[3]
            && h.mediaSsrc == 0x100_0000 * b[4] + 0x1_0000 * b[5] + 0x100 * b[6] + b[7]
            && h.baseSn == 0x100 * b[8] + b[9] && h.count == 0x100 * b[10] + b[11]
            && h.refTime == 0x1_0000 * b[12] + 0x100 * b[13] + b[14] && h.feedbackCount == b[15]
  {
    hide HeaderBytes;
    HeaderRoundTrip(h, head, []);
    assert head + [] == head;
  }

  lemma {:induction false} HeaderBytesAre(h: Header, last: u32)
    requires h.refTime < 0x100_0000 && h.feedbackCount < 0x100 && last == 0x100 * h.refTime + h.feedbackCount
    ensures HeaderBytes(h.senderSsrc, h.mediaSsrc, h.baseSn, h.count, h.refTime, h.feedbackCount)
            == Be32(h.senderSsrc) + Be32(h.mediaSsrc) + Be16(h.baseSn) + Be16(h.count) + Be32(last)
  {
    hide Be32, Be16, BitOr, Shl;
    OrCount(h.refTime, h.feedbackCount);
  }

  lemma {:induction false} FiveParts(a: seq<u8>, b: seq<u8>, c: seq<u8>, d: seq<u8>, e: seq<u8>, rest: seq<u8>)
    requires |a| == 4 && |b| == 4 && |c| == 2 && |d| == 2 && |e| == 4
    ensures var all := a + b + c + d + e + rest;
            all[0..4] == a && all[4..8] == b && all[8..10] == c && all[10..12] == d && all[12..16] == e
  {
  }

  lemma {:induction false} Be32Length(x: u32, y: u32, z: u32)
    ensures |Be32(x)| == 4 && |Be32(y)| == 4 && |Be32(z)| == 4
  {
  }

  lemma {:induction false} Be16Length(x: u16, y: u16)
    ensures |Be16(x)| == 2 && |Be16(y)| == 2
  {
  }

  lemma {:induction false} Be16At(bytes: seq<u8>, at: nat, x: u16)
    requires at + 2 <= |bytes| && bytes[at..at + 2] == Be16(x)
    ensures ReadBe16(bytes, at) == x
  {
  }

  lemma {:induction false} Be32At(bytes: seq<u8>, at: nat, x: u32)
    requires at + 4 <= |bytes| && bytes[at..at + 4] == Be32(x)
    ensures ReadBe32(bytes, at) == x
  {
  }

  /** The header goes first, once, and only if something was received. */
  function HeaderFor(pkts: seq<Arrival>, senderSsrc: u32, mediaSsrc: u32, feedbackCount: u8): seq<u8> {
    if FirstTime(pkts).None? then []
    else HeaderBytes(senderSsrc, mediaSsrc, pkts[0].extSn % 0x1_0000, |pkts| % 0x1_0000,
                     RefTime(FirstTime(pkts).value) % 0x1_0000_0000, feedbackCount)
  }

  /** The payload bytes of one report. */
  ghost function PayloadBytes(pkts: seq<Arrival>, senderSsrc: u32, mediaSsrc: u32, feedbackCount: u8): seq<u8>
    requires AllWritable(Packetize(Statuses(pkts)))
  {
    HeaderFor(pkts, senderSsrc, mediaSsrc, feedbackCount) + ChunkBytes(Packetize(Statuses(pkts)))
  }

  lemma {:induction false} StatusesReportable(pkts: seq<Arrival>)
    ensures Reportable(Statuses(pkts))
  {
    if pkts != [] { StatusesReportable(pkts[..|pkts| - 1]); }
  }

  /** A receiver of the appended payload and delta bytes recovers the base number, the packet count, the
      status of every packet and every arrival time, ten times too large. */
  lemma {:induction false} FeedbackRoundTrip(pkts: seq<Arrival>, ns: seq<int>, senderSsrc: u32, mediaSsrc: u32, feedbackCount: u8)
    requires Recorded(pkts, ns)
    requires FirstTime(pkts).Some? && |pkts| < 0x1_0000
    requires 0 <= RefTime(FirstTime(pkts).value) < 0x100_0000
    requires Fits(pkts) && StretchesFit(Statuses(pkts))
    ensures AllWritable(Packetize(Statuses(pkts)))
    ensures var bytes := PayloadBytes(pkts, senderSsrc, mediaSsrc, feedbackCount);
            && |bytes| >= 16
            && var h := ReadHeader(bytes);
            && h.senderSsrc == senderSsrc && h.mediaSsrc == mediaSsrc && h.feedbackCount == feedbackCount
            && h.baseSn == pkts[0].extSn % 0x1_0000 && h.count == |pkts|
            && Received(bytes[16..], h.count) == Statuses(pkts)
            && var r := ReadTimes(h.refTime * REFERENCE, Statuses(pkts), DeltaBytes(pkts));
            && r.Some? && r.value.pos == |DeltaBytes(pkts)| && TimesTenfold(r.value.times, pkts, ns)
  {
    FirstIffClock(pkts);
    StatusesReportable(pkts);
    RoundTripIff(Statuses(pkts));
    HeaderParts(pkts, senderSsrc, mediaSsrc, feedbackCount, ChunkBytes(Packetize(Statuses(pkts))));
    TimesRebuilt(pkts, RefTime(FirstTime(pkts).value) * 64000, DeltaBytes(pkts));
    RebuiltTenfold(ReadTimes(RefTime(FirstTime(pkts).value) * REFERENCE, Statuses(pkts), DeltaBytes(pkts)).value.times, pkts, ns);
  }

  lemma {:induction false} HeaderParts(pkts: seq<Arrival>, senderSsrc: u32, mediaSsrc: u32, feedbackCount: u8, rest: seq<u8>)
    requires FirstTime(pkts).Some?
    requires |pkts| < 0x1_0000 && 0 <= RefTime(FirstTime(pkts).value) < 0x100_0000
    ensures var bytes := HeaderFor(pkts, senderSsrc, mediaSsrc, feedbackCount) + rest;
            && |bytes| >= 16 && bytes[16..] == rest
            && ReadHeader(bytes) == Header(senderSsrc, mediaSsrc, pkts[0].extSn % 0x1_0000, |pkts|,
                                           RefTime(FirstTime(pkts).value), feedbackCount)
  {
    HeaderForIs(pkts, senderSsrc, mediaSsrc, feedbackCount);
    var h := Header(senderSsrc, mediaSsrc, pkts[0].extSn % 0x1_0000, |pkts|, RefTime(FirstTime(pkts).value), feedbackCount);
    var head := HeaderFor(pkts, senderSsrc, mediaSsrc, feedbackCount);
    HeaderRoundTrip(h, head, rest);
  }

  lemma {:induction false} HeaderForIs(pkts: seq<Arrival>, senderSsrc: u32, mediaSsrc: u32, feedbackCount: u8)
    requires FirstTime(pkts).Some?
    requires |pkts| < 0x1_0000 && 0 <= RefTime(FirstTime(pkts).value) < 0x100_0000
    ensures HeaderFor(pkts, senderSsrc, mediaSsrc, feedbackCount)
            == HeaderBytes(senderSsrc, mediaSsrc, pkts[0].extSn % 0x1_0000, |pkts|,
                           RefTime(FirstTime(pkts).value), feedbackCount)
  {
    assert |pkts| % 0x1_0000 == |pkts|;
    assert RefTime(FirstTime(pkts).value) % 0x1_0000_0000 == RefTime(FirstTime(pkts).value);
  }
}
